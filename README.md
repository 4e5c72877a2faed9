# Line-chart microservice: the POST /line request pipeline

This project models the body of the `POST /line` handler of the line-chart microservice.
The service takes a JSON description of one or more labelled data series. It checks the
description with a fixed-order chain of gates, each ending the request with its own message.
It then folds the sub-objects into a map from caption to (X points, Y points), and derives
the axis data handed to the chart: the X bounds, a synthesized X vector and the Y range.

Modules:

- `JsonValues` (`json_values.dfy`): parsed JSON values, and the Qt accessors the handler
  applies to them. `QJsonObject::value` gives `None` for an absent key, which stands for
  `QJsonValue::Undefined`. `toArray`, `toObject`, `toString` and `toDouble` fall back to an
  empty array, an empty object, `""` and `0`.
- `Validation` (`validation.dfy`): the gate chain as pure functions. `Validate` returns
  either the accepted request (both X bounds and the `Points` array) or the first failing
  gate's `Diagnostic`. `Message` gives the exact reply text for each diagnostic. The module
  also has a declarative definition of an acceptable document (`WellFormed`) and lemmas for
  the order of the gates.
- `StringOrder` (`string_order.dfy`): QString's `operator<`, proved to be a strict total
  order. `SortedKeys` models `QMap::keys()`: the keys in ascending order. It is proved equal
  to the unique ascending listing `KeyOrder`.
- `Extraction` (`extraction.dfy`): the `pointsObjects` nested loops (`CollectObjects`) and
  the `captionToPoints` insert loop (`BuildCaptionMap`). Each is proved against a fold
  (`Flatten`, `CaptionMap`), and lemmas give the map's keys, its last-wins values and its size.
- `Ranges` (`ranges.dfy`): `generalXPointsRange` (an array resized and filled by iota), and
  the `yStart` / `yEnd` loops with `std::min_element` / `std::max_element`.
- `LineHandler` (`line_handler.dfy`): the whole handler from the parsed document to the
  plan handed to the chart, or to the diagnostic reply.

The parsed body is an input `Option<Json>`, where `None` is a body that does not parse.
What the handler accepts, as the code reads it:

- The root holds `X_Start`, `X_End` and `Points`. `Points` holds one array of sub-objects,
  and each sub-object has `Caption`, `X_Points` and `Y_Points`.
- Only `Y_Points` elements are checked to be numbers. `X_Points` elements are never checked
  (`XPointsUnchecked`).
- An outer element that is a number, string, boolean or object is not rejected. Only `null`
  is rejected. `toArray()` turns the other kinds into an empty list, so the request is
  accepted with no series (`NonArrayOuterAccepted`).
- An empty sub-object list and empty `Y_Points` arrays are accepted.
- Equal captions collapse into one map entry, so a plan can hold fewer series than the
  request has sub-objects (`CaptionMapSize`, `CaptionMapLastWins`).

## Model

| member | source | states |
|---|---|---|
| `JsonValues.Value` | main.cpp:120 | the lookup gives a value exactly when the key is present, and then it is the key's value |
| `JsonValues.IsDouble` | main.cpp:120 | holds exactly for a present JSON number |
| `JsonValues.IsArray` | main.cpp:138 | holds exactly for a present JSON array |
| `JsonValues.ToArray` | main.cpp:147 | an array gives back exactly its elements; anything else, absent included, gives the empty list |
| `JsonValues.ToString` | main.cpp:189 | a string gives back exactly its text; anything else, absent included, gives "" |
| `JsonValues.ToObject` | main.cpp:187 | an object gives back exactly its members; anything else gives the empty object |
| `JsonValues.ToDouble` | main.cpp:229 | a number gives back exactly its value; anything else gives 0 |
| `Validation.Message` | main.cpp:88-223 | every reply opens with "Invalid data sent." and closes with " Please send a valid JSON-Object."; only the invalid-JSON reply has nothing in between |
| `Validation.CheckSubobject` | main.cpp:178-226 | one element's gates only ever report an element diagnostic (not an object, empty caption, X_Points or Y_Points not an array, non-double point), and passing implies an object; an element that is not an object gets the not-a-proper-object diagnostic |
| `Validation.Validate` | main.cpp:80-227 | a missing key is one of X_Start, X_End, Points; a non-double key is X_Start or X_End; an element diagnostic arises only after all outer gates pass; an accepted request carries the document's own Points array |
| `Validation.FirstMissingKey` | main.cpp:106-118 | no key is reported exactly when all keys are present; a reported key is absent and every key before it is present |
| `Validation.CheckYPoints` | main.cpp:216-226 | passes exactly when every Y point is a number; otherwise the diagnostic is the non-double-point one |
| `Validation.CheckSubobjects` | main.cpp:176-227 | passes exactly when every sub-object passes; otherwise the diagnostic is that of the first failing sub-object |
| `Validation.SubobjectAccepted` | main.cpp:178-226 | one sub-object passes its gates iff it is an object with a non-empty string caption, array X_Points, array Y_Points and numeric Y points |
| `Validation.ValidateAcceptsWellFormed` | main.cpp:80-230 | the chain accepts exactly the well-formed documents, and the accepted request keeps X_Start, X_End and the Points array |
| `Validation.AcceptedShape` | main.cpp:147-174 | an accepted Points array has exactly one element, which is not null, and its sub-objects are all good |
| `Validation.RootGates` | main.cpp:80-104 | an unparseable body, a non-object root (array or scalar) or an empty root object is rejected as invalid JSON |
| `Validation.MissingKeyNamed` | main.cpp:106-118 | on a non-empty root, the reply names key k exactly when k is the first of X_Start, X_End, Points that is absent |
| `Validation.MissingKeyMessageNamesKey` | main.cpp:114 | the missing-key message has the key at a fixed position, and its length is fixed by the key's length |
| `Validation.MissingKeyMessagesDiffer` | main.cpp:114 | different missing keys give different reply messages |
| `Validation.KeyedMessageNamesKey` | main.cpp:125-212 | the non-double reply and the non-array sub-object reply spell out the offending key at a fixed position |
| `Validation.RejectionsAreReplies` | main.cpp:80-227 | every rejection carries one of the fifteen diagnostics the handler has a reply for |
| `Validation.MessageDecodes` | main.cpp:88-223 | each of the fifteen replies reads back to the diagnostic that produced it |
| `Validation.MessagesDiffer` | main.cpp:88-223 | different gates reply with different texts |
| `Validation.KeysCheckedFirst` | main.cpp:106-138 | any diagnostic after the key gates implies that the root is an object holding all three keys |
| `Validation.ShapeGateOrder` | main.cpp:120-174 | with all keys present, the gates run in this order: X_Start not a number, X_End not a number, Points not an array, empty, more than one element, null element |
| `Validation.FirstOffendingSubobject` | main.cpp:176-227 | once the outer gates pass, the first failing sub-object's own first diagnostic is the reply |
| `Validation.SubobjectGateOrder` | main.cpp:187-226 | within an object, the gates run in this order: caption (absent, non-string or empty), X_Points array, Y_Points array, numeric Y points |
| `Validation.XPointsUnchecked` | main.cpp:198-226 | the contents of X_Points never change any gate's outcome |
| `Validation.NonArrayOuterAccepted` | main.cpp:167-176 | a non-null, non-array outer element is accepted with zero sub-objects |
| `StringOrder.LessLexicographic` | main.cpp:246 | the caption order is exactly the lexicographic order: a proper prefix first, or else the smaller character at the first difference |
| `StringOrder.LessIrreflexive` | main.cpp:246 | no caption sorts before itself |
| `StringOrder.LessAsymmetric` | main.cpp:246 | two captions never sort before each other |
| `StringOrder.LessTransitive` | main.cpp:246 | the caption order is transitive |
| `StringOrder.LessTotal` | main.cpp:246 | of two different captions, one sorts before the other |
| `StringOrder.KeyOrder` | main.cpp:278 | the listing of a key set holds exactly its keys, once each, in ascending order |
| `StringOrder.SortedUnique` | main.cpp:278 | a key set has only one ascending, duplicate-free listing |
| `StringOrder.SortedKeys` | main.cpp:278 | the keys of the map come out in ascending caption order, each once |
| `Extraction.CollectObjects` | main.cpp:232-244 | the result is every inner element of every outer element, in order, each viewed as an object |
| `Extraction.FlattenSingle` | main.cpp:236-239 | for the single accepted outer element, the sub-object list is that element's own list |
| `Extraction.Doubles` | main.cpp:254-255 | the converted vector has one value per element, and each number is kept exactly |
| `Extraction.BuildCaptionMap` | main.cpp:246-262 | the map is the fold of one insert per sub-object, in input order |
| `Extraction.CaptionMapKeys` | main.cpp:250-258 | a caption is a key exactly when some sub-object carries it |
| `Extraction.CaptionMapLastWins` | main.cpp:250-258 | each key maps to the X/Y points of the last sub-object with that caption |
| `Extraction.CaptionMapSize` | main.cpp:246-262 | the map has at most as many keys as there are sub-objects |
| `Extraction.GoodCaptions` | main.cpp:189-262 | sub-objects that pass the gates give non-empty keys, each the caption string of one of them, and no more keys than sub-objects |
| `Extraction.ExtractedCaptions` | main.cpp:189-262 | on an accepted request, every key is non-empty and is some sub-object's caption string, and there are at most as many keys as sub-objects |
| `Extraction.ExtractedYPoints` | main.cpp:216-255 | for a sub-object that passes the gates, the stored Y points are exactly its Y numbers, in order |
| `Ranges.Truncate` | main.cpp:267 | the int cast truncates toward zero: the result is within one unit of the value, on the side of zero |
| `Ranges.SynthesizeXRange` | main.cpp:264-272 | the vector has length trunc(abs(xStart) + abs(xEnd)), and element i is xStart + i |
| `Ranges.XRangeLengthBounds` | main.cpp:267 | the length is the integer part of abs(xStart) + abs(xEnd), and it does not depend on either endpoint's sign |
| `Ranges.CollectYPoints` | main.cpp:276-279 | the collected vector is the Y points of every series, appended in ascending caption order |
| `Ranges.MinElement` | main.cpp:282 | the result is the position of the first smallest element |
| `Ranges.MaxElement` | main.cpp:296 | the result is the position of the first largest element |
| `Ranges.YStart` | main.cpp:274-286 | with more than one Y point, the result is one of them and no greater than any; otherwise it is 0 |
| `Ranges.YEnd` | main.cpp:288-300 | with more than one Y point, the result is one of them and no smaller than any; otherwise it is 0 |
| `Ranges.ConcatYsMembers` | main.cpp:278-279 | a value is among the Y points appended for a key list exactly when it is a Y point of one of those keys' series |
| `Ranges.AllYPointsMembers` | main.cpp:276-279 | a value is collected exactly when it is a Y point of some series in the map |
| `Ranges.AllYPointsCountsEach` | main.cpp:276-281 | one series' Y points are all in the collection, so a series with two or more Y points gives a Y range from the data |
| `Ranges.AllYPointsCountsPair` | main.cpp:276-281 | the Y points of two different series add up in the collection, so two series with one Y point each give a Y range from the data |
| `Ranges.SingleYPoint` | main.cpp:281-284 | one series with one Y point collects just that point, so both Y ends are 0 |
| `Ranges.NoSeriesNoYPoints` | main.cpp:281-284 | an empty map collects no Y points, so both Y ends are 0 |
| `LineHandler.HandleLine` | main.cpp:80-300 | a rejected document gets its first diagnostic's message; an accepted one gets the plan for its request (X bounds, X vector, caption map, Y range); yStart <= yEnd; every key is non-empty; a non-array outer element gives no series and the range (0, 0) |

## Left out

- HTTP routing, method dispatch, the other routes' replies and the `QtConcurrent::run`
  workers (main.cpp:73-79, 359-382, 453-471): plumbing and thread-pool concurrency.
- JSON parsing (`QJsonDocument::fromJson`): the parsed document is an input to the model.
- Startup checks on `settings.ini`, the port bounds and the image path (main.cpp:40-71):
  file-system and command-line I/O; the key names and port limits come from
  `CommonUtilities/CommonUtilities.h`, which is not part of this model.
- Building and rasterizing the chart (main.cpp:302-342), including the axis tick counts
  (main.cpp:312, 317), which depend on `QValueAxis` behaviour not visible here.
- `mergeCoordinates` and `generateRandomQColor` (main.cpp:322, 329). They are defined in
  `CommonUtilities/CommonUtilities.h`, which is not part of this model, and the colour is random.
- Extraction.Doubles: `convertFromArrayToRealsVector` is defined in the same header. The model
  assumes it applies `QJsonValue::toDouble` to each element, so non-numbers become 0. Only
  `X_Points` can hold non-numbers after validation.
- UUID generation, the PNG save, the success reply with its link (main.cpp:344-355) and the
  `/line/result/<arg>` retrieval route (main.cpp:384-451): file I/O and Qt library calls.
- The synthesized X vector is computed but never read afterwards in the source. The plan
  carries it only so that its contents can be stated.
- Ranges.Truncate: `qreal` is modelled as an exact `real`. The `static_cast<int>` of a sum
  beyond the `int` range is undefined behaviour in C++ and is not modelled.
- StringOrder.Less: compares Dafny characters (Unicode code points). QString compares UTF-16
  code units, so the two orders differ only for characters outside the Basic Multilingual Plane.
