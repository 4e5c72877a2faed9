/** The fail-fast gate chain of the POST /line handler: each gate either passes or ends the
    request with exactly one diagnostic, and the first failing gate decides the reply. */
module Validation {
  import opened JsonValues

  /** One diagnostic per gate of the chain. */
  datatype Diagnostic =
    | InvalidJson
    | MissingKey(key: string)
    | NotADouble(key: string)
    | PointsNotArray
    | PointsEmpty
    | PointsTooMany
    | NoSubobjects
    | SubobjectNotObject
    | EmptyCaption
    | SubKeyNotArray(key: string)
    | PointNotDouble

  /** The fixed opening and closing text shared by every reply. */
  const MessageHead: string := "Invalid data sent."
  const MessageTail: string := " Please send a valid JSON-Object."

  /** The exact "Message" text the handler replies with for each diagnostic: the shared
      opening, the diagnostic's own sentence, and the shared closing. */
  function Message(d: Diagnostic): (r: string)
    ensures |MessageHead| + |MessageTail| <= |r|
    ensures r[..|MessageHead|] == MessageHead
    ensures r[|r| - |MessageTail|..] == MessageTail
    ensures d.InvalidJson? <==> |r| == |MessageHead| + |MessageTail|
  {
    MessageHead + Detail(d) + MessageTail
  }

  /** The sentence of a reply that tells one diagnostic from another. */
  function Detail(d: Diagnostic): string
  {
    match d
    case InvalidJson => ""
    case MissingKey(k) => " Missing JSON-Key '" + k + "'."
    case NotADouble(k) => " JSON-Key '" + k + "' is not a double value."
    case PointsNotArray => " JSON-Key 'Points' is not an array."
    case PointsEmpty => " JSON-Key 'Points' is empty."
    case PointsTooMany => " JSON-Key 'Points' contains more than one array."
    case NoSubobjects => " Array in JSON-Key 'Points' contains no JSON subobjects."
    case SubobjectNotObject => " A sub-object in array 'Points' is not a proper JSON-object."
    case EmptyCaption => " A caption of one sub-object in array 'Points' is empty."
    case SubKeyNotArray(k) => " JSON-Key '" + k + "' of one sub-object in array 'Points' is not an array."
    case PointNotDouble =>
      " A point in JSON-Key 'Y_Points' in one sub-object of 'Points' is not a double value."
  }

  /** What the handler keeps of an accepted document: both X bounds and the 'Points' array. */
  datatype Request = Request(xStart: real, xEnd: real, points: seq<Json>)

  datatype Verdict = Accepted(request: Request) | Rejected(diagnostic: Diagnostic)

  /** The diagnostics a single element of the outer 'Points' array can produce. */
  const SubobjectDiagnostics: set<Diagnostic> :=
    {SubobjectNotObject, EmptyCaption, SubKeyNotArray("X_Points"), SubKeyNotArray("Y_Points"), PointNotDouble}

  /** The root keys, in the order the handler looks for them. */
  const RequiredKeys: seq<string> := ["X_Start", "X_End", "Points"]

  /** The loop over the root keys: the first of `keys` that `o` lacks. */
  function FirstMissingKey(o: map<string, Json>, keys: seq<string>): (r: Option<string>)
    ensures r.None? <==> forall i :: 0 <= i < |keys| ==> keys[i] in o
    ensures r.Some? ==> exists i :: FirstMissingAt(o, keys, i) && keys[i] == r.value
  {
    if keys == [] then None
    else if keys[0] !in o then
      assert FirstMissingAt(o, keys, 0);
      Some(keys[0])
    else
      var r := FirstMissingKey(o, keys[1..]);
      assert r.Some? ==> exists i :: FirstMissingAt(o, keys, i) && keys[i] == r.value by {
        if r.Some? {
          var i :| FirstMissingAt(o, keys[1..], i) && keys[1..][i] == r.value;
          forall j | 0 <= j < i + 1 ensures keys[j] in o {
            if j > 0 { assert keys[j] == keys[1..][j - 1]; }
          }
          assert FirstMissingAt(o, keys, i + 1);
        }
      }
      r
  }

  /** keys[i] is absent from o and every key before it is present. */
  ghost predicate FirstMissingAt(o: map<string, Json>, keys: seq<string>, i: int)
  {
    && 0 <= i < |keys| && keys[i] !in o
    && forall j :: 0 <= j < i ==> keys[j] in o
  }

  /** The loop over 'Y_Points': the first element that is not a number fails the request. */
  function CheckYPoints(ys: seq<Json>): (r: Option<Diagnostic>)
    ensures r.None? <==> forall i :: 0 <= i < |ys| ==> ys[i].JNum?
    ensures r.Some? ==> r.value == PointNotDouble
  {
    if ys == [] then None
    else if !ys[0].JNum? then Some(PointNotDouble)
    else
      var r := CheckYPoints(ys[1..]);
      assert r.None? ==> forall i :: 0 <= i < |ys| ==> ys[i].JNum? by {
        if r.None? {
          forall i | 0 <= i < |ys| ensures ys[i].JNum? {
            if i > 0 { assert ys[i] == ys[1..][i - 1]; }
          }
        }
      }
      r
  }

  /** The gates applied to one element of the outer 'Points' array, in the order the handler
      checks them. */
  function CheckSubobject(v: Json): (r: Option<Diagnostic>)
    ensures r.Some? ==> r.value in SubobjectDiagnostics
    ensures r.None? ==> v.JObj?
    ensures !v.JObj? ==> r == Some(SubobjectNotObject)
  {
    if !v.JObj? then Some(SubobjectNotObject)
    else if ToString(Value(v.members, "Caption")) == "" then Some(EmptyCaption)
    else if !IsArray(Value(v.members, "X_Points")) then Some(SubKeyNotArray("X_Points"))
    else if !IsArray(Value(v.members, "Y_Points")) then Some(SubKeyNotArray("Y_Points"))
    else CheckYPoints(ToArray(Value(v.members, "Y_Points")))
  }

  /** The loop over the sub-objects: the first element that fails a gate decides the reply. */
  function CheckSubobjects(vs: seq<Json>): (r: Option<Diagnostic>)
    ensures r.None? <==> forall i :: 0 <= i < |vs| ==> CheckSubobject(vs[i]).None?
    ensures r.Some? ==> exists i :: FirstFailingAt(vs, i) && CheckSubobject(vs[i]) == r
  {
    if vs == [] then None
    else if CheckSubobject(vs[0]).Some? then
      assert FirstFailingAt(vs, 0);
      CheckSubobject(vs[0])
    else
      var r := CheckSubobjects(vs[1..]);
      assert r.None? ==> forall i :: 0 <= i < |vs| ==> CheckSubobject(vs[i]).None? by {
        if r.None? {
          forall i | 0 <= i < |vs| ensures CheckSubobject(vs[i]).None? {
            if i > 0 { assert vs[i] == vs[1..][i - 1]; }
          }
        }
      }
      assert r.Some? ==> exists i :: FirstFailingAt(vs, i) && CheckSubobject(vs[i]) == r by {
        if r.Some? {
          var i :| FirstFailingAt(vs[1..], i) && CheckSubobject(vs[1..][i]) == r;
          assert vs[i + 1] == vs[1..][i];
          forall j | 0 <= j < i + 1 ensures CheckSubobject(vs[j]).None? {
            if j > 0 { assert vs[j] == vs[1..][j - 1]; }
          }
          assert FirstFailingAt(vs, i + 1);
        }
      }
      r
  }

  /** vs[i] is the first element of vs that fails a gate. */
  ghost predicate FirstFailingAt(vs: seq<Json>, i: int)
  {
    && 0 <= i < |vs| && CheckSubobject(vs[i]).Some?
    && forall j :: 0 <= j < i ==> CheckSubobject(vs[j]).None?
  }

  /** The whole chain, from the parse result (None when the body is not JSON) to the verdict. */
  function Validate(doc: Option<Json>): (r: Verdict)
    ensures r.Rejected? && r.diagnostic.MissingKey? ==> r.diagnostic.key in RequiredKeys
    ensures r.Rejected? && r.diagnostic.NotADouble? ==> r.diagnostic.key in RequiredKeys[..2]
    ensures r.Rejected? && r.diagnostic.SubKeyNotArray? ==> r.diagnostic in SubobjectDiagnostics
    ensures r.Rejected? && r.diagnostic in SubobjectDiagnostics ==> OuterGatesPass(doc)
    ensures r.Accepted? ==>
      && doc.Some? && doc.value.JObj? && "Points" in doc.value.members
      && doc.value.members["Points"].JArr? && r.request.points == doc.value.members["Points"].elems
  {
    if doc.None? then Rejected(InvalidJson)
    else
      var o := ToObject(doc.value);
      if o == map[] then Rejected(InvalidJson)
      else
        match FirstMissingKey(o, RequiredKeys)
        case Some(k) => Rejected(MissingKey(k))
        case None =>
          assert RequiredKeys[0] in o && RequiredKeys[1] in o && RequiredKeys[2] in o;
          if !IsDouble(Value(o, "X_Start")) then Rejected(NotADouble("X_Start"))
          else if !IsDouble(Value(o, "X_End")) then Rejected(NotADouble("X_End"))
          else if !IsArray(Value(o, "Points")) then Rejected(PointsNotArray)
          else
            var points := ToArray(Value(o, "Points"));
            if |points| == 0 then Rejected(PointsEmpty)
            else if |points| > 1 then Rejected(PointsTooMany)
            else if points[0].JNull? then Rejected(NoSubobjects)
            else
              match CheckSubobjects(Elements(points[0]))
              case Some(d) => Rejected(d)
              case None => Accepted(Request(o["X_Start"].n, o["X_End"].n, points))
  }

  // ---------------------------------------------------------------------------------------
  // Reference definitions, written directly against the JSON datatype.

  /** A sub-object that passes every per-element gate. */
  ghost predicate GoodSubobject(v: Json)
  {
    && v.JObj?
    && "Caption" in v.members && v.members["Caption"].JStr? && v.members["Caption"].s != ""
    && "X_Points" in v.members && v.members["X_Points"].JArr?
    && "Y_Points" in v.members && v.members["Y_Points"].JArr?
    && forall y :: y in v.members["Y_Points"].elems ==> y.JNum?
  }

  /** A document the handler goes on to plot. */
  ghost predicate WellFormed(doc: Option<Json>)
  {
    && doc.Some? && doc.value.JObj?
    && var o := doc.value.members;
    && "X_Start" in o && o["X_Start"].JNum?
    && "X_End" in o && o["X_End"].JNum?
    && "Points" in o && o["Points"].JArr? && |o["Points"].elems| == 1
    && var inner := o["Points"].elems[0];
    && !inner.JNull?
    && (inner.JArr? ==> forall v :: v in inner.elems ==> GoodSubobject(v))
  }

  /** The gates that run before the sub-objects are examined all pass. */
  ghost predicate OuterGatesPass(doc: Option<Json>)
  {
    && doc.Some? && doc.value.JObj?
    && var o := doc.value.members;
    && "X_Start" in o && o["X_Start"].JNum?
    && "X_End" in o && o["X_End"].JNum?
    && "Points" in o && o["Points"].JArr? && |o["Points"].elems| == 1
    && !o["Points"].elems[0].JNull?
  }

  /** The element list of a JSON value viewed as an array. */
  function Elements(v: Json): seq<Json>
  {
    ToArray(Some(v))
  }

  // ---------------------------------------------------------------------------------------
  // Properties of the chain.

  /** One element passes its gates exactly when it is a good sub-object. */
  lemma SubobjectAccepted(v: Json)
    ensures CheckSubobject(v).None? <==> GoodSubobject(v)
  {
  }

  /** The chain accepts exactly the well-formed documents, and keeps both bounds and the
      'Points' array of the document it accepts. */
  lemma ValidateAcceptsWellFormed(doc: Option<Json>)
    ensures Validate(doc).Accepted? <==> WellFormed(doc)
    ensures Validate(doc).Accepted? ==>
      var o := doc.value.members;
      Validate(doc).request == Request(o["X_Start"].n, o["X_End"].n, o["Points"].elems)
  {
    if doc.Some? && doc.value.JObj? && "Points" in doc.value.members && doc.value.members["Points"].JArr?
       && |doc.value.members["Points"].elems| == 1
    {
      var vs := Elements(doc.value.members["Points"].elems[0]);
      forall i | 0 <= i < |vs| ensures CheckSubobject(vs[i]).None? <==> GoodSubobject(vs[i]) {
        SubobjectAccepted(vs[i]);
      }
      assert (forall i :: 0 <= i < |vs| ==> CheckSubobject(vs[i]).None?) <==>
             (forall v :: v in vs ==> GoodSubobject(v)) by {
        if forall i :: 0 <= i < |vs| ==> CheckSubobject(vs[i]).None? {
          forall v | v in vs ensures GoodSubobject(v) {
            var i :| 0 <= i < |vs| && vs[i] == v;
          }
        }
      }
    }
  }

  /** An accepted request has exactly one outer element, and it is not null. */
  lemma AcceptedShape(doc: Option<Json>)
    requires Validate(doc).Accepted?
    ensures |Validate(doc).request.points| == 1
    ensures !Validate(doc).request.points[0].JNull?
    ensures forall v :: v in Elements(Validate(doc).request.points[0]) ==> GoodSubobject(v)
  {
  }

  /** A missing document or an empty root object (which is what a root array or scalar reads
      as) ends the chain at its first gate. */
  lemma RootGates(doc: Option<Json>)
    ensures doc.None? ==> Validate(doc) == Rejected(InvalidJson)
    ensures doc.Some? && !doc.value.JObj? ==> Validate(doc) == Rejected(InvalidJson)
    ensures doc.Some? && doc.value == JObj(map[]) ==> Validate(doc) == Rejected(InvalidJson)
  {
  }

  /** On a non-empty root object, the reply names a missing key exactly when that key is the
      first of X_Start, X_End, Points that the root lacks. */
  lemma MissingKeyNamed(doc: Option<Json>, k: string)
    requires doc.Some? && doc.value.JObj? && doc.value.members != map[]
    ensures Validate(doc) == Rejected(MissingKey(k)) <==>
      exists i :: FirstMissingAt(doc.value.members, RequiredKeys, i) && RequiredKeys[i] == k
  {
  }

  /** The missing-key message spells out the key, right after its fixed opening text. */
  lemma MissingKeyMessageNamesKey(k: string)
    ensures |Message(MissingKey(k))| == 72 + |k|
    ensures Message(MissingKey(k))[37..37 + |k|] == k
  {
  }

  /** Different missing keys give different messages, so the reply tells which key is missing. */
  lemma MissingKeyMessagesDiffer(k1: string, k2: string)
    requires k1 != k2
    ensures Message(MissingKey(k1)) != Message(MissingKey(k2))
  {
    MissingKeyMessageNamesKey(k1);
    MissingKeyMessageNamesKey(k2);
  }

  /** The key-naming replies for a non-double root key or a non-array sub-object key spell
      out the key right after "Invalid data sent. JSON-Key '". */
  lemma KeyedMessageNamesKey(k: string)
    ensures Message(NotADouble(k))[29..29 + |k|] == k
    ensures Message(SubKeyNotArray(k))[29..29 + |k|] == k
  {
  }

  /** Every diagnostic the chain can reply with. */
  const ReplyDiagnostics: set<Diagnostic> :=
    {InvalidJson, MissingKey("X_Start"), MissingKey("X_End"), MissingKey("Points"),
     NotADouble("X_Start"), NotADouble("X_End"), PointsNotArray, PointsEmpty, PointsTooMany,
     NoSubobjects} + SubobjectDiagnostics

  /** A rejection always carries one of the reply diagnostics. */
  lemma RejectionsAreReplies(doc: Option<Json>)
    requires Validate(doc).Rejected?
    ensures Validate(doc).diagnostic in ReplyDiagnostics
  {
  }

  /** Reads back the diagnostic from a reply text: the length of the diagnostic's own
      sentence tells the replies apart, except for three pairs of equal length, which one
      character near the end of the sentence separates. */
  function DiagnosticOf(reply: string): Option<Diagnostic>
  {
    var n := |reply| - |MessageHead| - |MessageTail|;
    if n == 0 then Some(InvalidJson)
    else if n == 26 then Some(MissingKey("X_End"))
    else if n == 27 then Some(MissingKey("Points"))
    else if n == 28 then (if reply[44] == '\'' then Some(MissingKey("X_Start")) else Some(PointsEmpty))
    else if n == 35 then Some(PointsNotArray)
    else if n == 40 then Some(NotADouble("X_End"))
    else if n == 42 then Some(NotADouble("X_Start"))
    else if n == 48 then Some(PointsTooMany)
    else if n == 56 then (if reply[72] == 's' then Some(NoSubobjects) else Some(EmptyCaption))
    else if n == 60 then Some(SubobjectNotObject)
    else if n == 73 then (if reply[29] == 'X' then Some(SubKeyNotArray("X_Points")) else Some(SubKeyNotArray("Y_Points")))
    else if n == 84 then Some(PointNotDouble)
    else None
  }

  /** Each reply can be read back to the diagnostic that produced it. */
  lemma MessageDecodes(d: Diagnostic)
    requires d in ReplyDiagnostics
    ensures DiagnosticOf(Message(d)) == Some(d)
  {
    if d.SubKeyNotArray? {
      SubKeyMessageDecodes(d.key);
    } else if d.SubobjectNotObject? || d.EmptyCaption? || d.PointNotDouble? {
      ElementMessagesDecode();
    } else if d.MissingKey? || d.NotADouble? || d.InvalidJson? {
      KeyMessageDecodes(d);
    } else {
      ShapeMessageDecodes(d);
    }
  }

  /** The root-key replies read back. */
  lemma KeyMessageDecodes(d: Diagnostic)
    requires d in {InvalidJson, MissingKey("X_Start"), MissingKey("X_End"), MissingKey("Points"),
                   NotADouble("X_Start"), NotADouble("X_End")}
    ensures DiagnosticOf(Message(d)) == Some(d)
  {
    if d == MissingKey("X_Start") {
      assert Message(d)[44] == Detail(d)[26] == '\'';
    }
  }

  /** The replies about the shape of 'Points' read back. */
  lemma ShapeMessageDecodes(d: Diagnostic)
    requires d in {PointsNotArray, PointsEmpty, PointsTooMany, NoSubobjects}
    ensures DiagnosticOf(Message(d)) == Some(d)
  {
    if d == PointsEmpty {
      assert Message(d)[44] == Detail(d)[26] == 'y';
    } else if d == NoSubobjects {
      assert Message(d)[72] == Detail(d)[54] == 's';
    }
  }

  /** The element replies that name no key read back. */
  lemma ElementMessagesDecode()
    ensures DiagnosticOf(Message(SubobjectNotObject)) == Some(SubobjectNotObject)
    ensures DiagnosticOf(Message(EmptyCaption)) == Some(EmptyCaption)
    ensures DiagnosticOf(Message(PointNotDouble)) == Some(PointNotDouble)
  {
    assert Message(EmptyCaption)[72] == Detail(EmptyCaption)[54] == 'y';
  }

  /** The non-array sub-object key replies read back, by the first letter of the key. */
  lemma SubKeyMessageDecodes(k: string)
    requires k == "X_Points" || k == "Y_Points"
    ensures DiagnosticOf(Message(SubKeyNotArray(k))) == Some(SubKeyNotArray(k))
  {
    var r := Message(SubKeyNotArray(k));
    KeyedMessageNamesKey(k);
    assert |r| == 124;
    assert r[29] == r[29..29 + |k|][0] == k[0];
  }

  /** Different gates reply with different texts, so the reply tells which gate failed. */
  lemma MessagesDiffer(d1: Diagnostic, d2: Diagnostic)
    requires d1 in ReplyDiagnostics && d2 in ReplyDiagnostics && d1 != d2
    ensures Message(d1) != Message(d2)
  {
    MessageDecodes(d1);
    MessageDecodes(d2);
  }

  /** No type or shape gate runs before all three root keys are present. */
  lemma KeysCheckedFirst(doc: Option<Json>)
    requires Validate(doc).Rejected?
    requires !Validate(doc).diagnostic.InvalidJson? && !Validate(doc).diagnostic.MissingKey?
    ensures doc.Some? && doc.value.JObj?
    ensures forall k :: k in RequiredKeys ==> k in doc.value.members
  {
  }

  /** With all root keys present, the type and shape gates run in the order the handler
      checks them, each with its own diagnostic. */
  lemma ShapeGateOrder(doc: Option<Json>)
    requires doc.Some? && doc.value.JObj?
    requires forall k :: k in RequiredKeys ==> k in doc.value.members
    ensures var o := doc.value.members;
      && (!o["X_Start"].JNum? ==> Validate(doc) == Rejected(NotADouble("X_Start")))
      && (o["X_Start"].JNum? && !o["X_End"].JNum? ==> Validate(doc) == Rejected(NotADouble("X_End")))
      && (o["X_Start"].JNum? && o["X_End"].JNum? && !o["Points"].JArr? ==>
            Validate(doc) == Rejected(PointsNotArray))
      && (o["X_Start"].JNum? && o["X_End"].JNum? && o["Points"].JArr? ==>
            && (|o["Points"].elems| == 0 ==> Validate(doc) == Rejected(PointsEmpty))
            && (|o["Points"].elems| > 1 ==> Validate(doc) == Rejected(PointsTooMany))
            && (|o["Points"].elems| == 1 && o["Points"].elems[0].JNull? ==>
                  Validate(doc) == Rejected(NoSubobjects)))
  {
  }

  /** Once the outer gates pass, the first offending sub-object decides the reply, with the
      diagnostic of its own first failing gate. */
  lemma FirstOffendingSubobject(doc: Option<Json>, i: nat)
    requires OuterGatesPass(doc)
    requires var vs := Elements(doc.value.members["Points"].elems[0]);
      && i < |vs| && CheckSubobject(vs[i]).Some?
      && forall j :: 0 <= j < i ==> CheckSubobject(vs[j]).None?
    ensures Validate(doc) == Rejected(CheckSubobject(Elements(doc.value.members["Points"].elems[0])[i]).value)
  {
  }

  /** The gates of one sub-object, in order: object, non-empty string caption (absent or
      non-string captions read as ""), 'X_Points' array, 'Y_Points' array, numeric Y points. */
  lemma SubobjectGateOrder(m: map<string, Json>)
    ensures var captionOk := "Caption" in m && m["Caption"].JStr? && m["Caption"].s != "";
      && (!captionOk ==> CheckSubobject(JObj(m)) == Some(EmptyCaption))
      && (captionOk && !("X_Points" in m && m["X_Points"].JArr?) ==>
            CheckSubobject(JObj(m)) == Some(SubKeyNotArray("X_Points")))
      && (captionOk && "X_Points" in m && m["X_Points"].JArr? &&
          !("Y_Points" in m && m["Y_Points"].JArr?) ==>
            CheckSubobject(JObj(m)) == Some(SubKeyNotArray("Y_Points")))
      && (captionOk && "X_Points" in m && m["X_Points"].JArr? &&
          "Y_Points" in m && m["Y_Points"].JArr? ==>
            (CheckSubobject(JObj(m)).None? <==> forall y :: y in m["Y_Points"].elems ==> y.JNum?))
  {
  }

  /** The elements of 'X_Points' are never type-checked: replacing one X array by another
      does not change any gate's outcome. */
  lemma XPointsUnchecked(m: map<string, Json>, xs: seq<Json>, xs': seq<Json>)
    ensures CheckSubobject(JObj(m["X_Points" := JArr(xs)])) == CheckSubobject(JObj(m["X_Points" := JArr(xs')]))
  {
  }

  /** An outer element that is a number, string, boolean or object holds no sub-objects:
      the chain accepts it with nothing to check. */
  lemma NonArrayOuterAccepted(doc: Option<Json>)
    requires OuterGatesPass(doc)
    requires !doc.value.members["Points"].elems[0].JArr?
    ensures Validate(doc).Accepted?
    ensures Elements(Validate(doc).request.points[0]) == []
  {
  }
}
