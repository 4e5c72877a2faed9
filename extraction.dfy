/** Series extraction: the accepted 'Points' array is flattened into a list of sub-objects,
    which are then folded into a map from caption to the pair (X points, Y points). */
module Extraction {
  import opened JsonValues
  import opened Validation

  /** The QPair of X and Y points kept for one caption. */
  datatype Series = Series(xs: seq<real>, ys: seq<real>)

  /** Each value viewed as an object. */
  function AsObjects(vs: seq<Json>): (r: seq<map<string, Json>>)
    ensures |r| == |vs|
    ensures forall i :: 0 <= i < |vs| ==> r[i] == ToObject(vs[i])
  {
    seq(|vs|, i requires 0 <= i < |vs| => ToObject(vs[i]))
  }

  /** The inner arrays of pointsArray, concatenated in order, each element viewed as an object. */
  function Flatten(pointsArray: seq<Json>): seq<map<string, Json>>
  {
    if pointsArray == [] then []
    else Flatten(pointsArray[..|pointsArray| - 1]) + AsObjects(Elements(pointsArray[|pointsArray| - 1]))
  }

  /** The `pointsObjects` lambda: the nested loops that append every inner element. */
  method CollectObjects(pointsArray: seq<Json>) returns (objs: seq<map<string, Json>>)
    ensures objs == Flatten(pointsArray)
  {
    objs := [];
    for i := 0 to |pointsArray|
      invariant objs == Flatten(pointsArray[..i])
    {
      var inner := Elements(pointsArray[i]);
      for j := 0 to |inner|
        invariant objs == Flatten(pointsArray[..i]) + AsObjects(inner[..j])
      {
        assert AsObjects(inner[..j + 1]) == AsObjects(inner[..j]) + [ToObject(inner[j])];
        objs := objs + [ToObject(inner[j])];
      }
      assert inner[..|inner|] == inner;
      assert pointsArray[..i + 1][..i] == pointsArray[..i];
    }
    assert pointsArray[..|pointsArray|] == pointsArray;
  }

  /** The caption of a sub-object; an absent or non-string caption reads as "". */
  function CaptionOf(o: map<string, Json>): string
  {
    ToString(Value(o, "Caption"))
  }

  /** The array-to-reals conversion, element by element with QJsonValue::toDouble. */
  function Doubles(vs: seq<Json>): (r: seq<real>)
    ensures |r| == |vs|
    ensures forall i :: 0 <= i < |vs| && vs[i].JNum? ==> r[i] == vs[i].n
  {
    seq(|vs|, i requires 0 <= i < |vs| => ToDouble(vs[i]))
  }

  /** The X and Y points of a sub-object. */
  function SeriesOf(o: map<string, Json>): Series
  {
    Series(Doubles(ToArray(Value(o, "X_Points"))), Doubles(ToArray(Value(o, "Y_Points"))))
  }

  /** The caption map as a left fold of QMap::insert over the sub-objects. */
  function CaptionMap(objs: seq<map<string, Json>>): map<string, Series>
  {
    if objs == [] then map[]
    else
      var last := objs[|objs| - 1];
      CaptionMap(objs[..|objs| - 1])[CaptionOf(last) := SeriesOf(last)]
  }

  /** The `captionToPoints` lambda: one insert per sub-object, a later caption replacing
      an earlier equal one. */
  method BuildCaptionMap(objs: seq<map<string, Json>>) returns (m: map<string, Series>)
    ensures m == CaptionMap(objs)
  {
    m := map[];
    for i := 0 to |objs|
      invariant m == CaptionMap(objs[..i])
    {
      var caption := CaptionOf(objs[i]);
      var xPoints := Doubles(ToArray(Value(objs[i], "X_Points")));
      var yPoints := Doubles(ToArray(Value(objs[i], "Y_Points")));
      m := m[caption := Series(xPoints, yPoints)];
      assert objs[..i + 1][..i] == objs[..i];
    }
    assert objs[..|objs|] == objs;
  }

  // ---------------------------------------------------------------------------------------
  // Properties of the extraction.

  /** The flattening of a single outer element is its own element list. */
  lemma FlattenSingle(v: Json)
    ensures Flatten([v]) == AsObjects(Elements(v))
  {
  }

  /** The map's keys are exactly the captions of the sub-objects. */
  lemma {:induction false} CaptionMapKeys(objs: seq<map<string, Json>>, k: string)
    ensures k in CaptionMap(objs) <==> exists i :: 0 <= i < |objs| && CaptionOf(objs[i]) == k
  {
    if objs != [] {
      var n := |objs| - 1;
      var init := objs[..n];
      CaptionMapKeys(init, k);
      if exists i :: 0 <= i < |init| && CaptionOf(init[i]) == k {
        var i :| 0 <= i < |init| && CaptionOf(init[i]) == k;
        assert objs[i] == init[i];
      }
      if exists i :: 0 <= i < |objs| && CaptionOf(objs[i]) == k {
        var i :| 0 <= i < |objs| && CaptionOf(objs[i]) == k;
        if i < n { assert init[i] == objs[i]; }
      }
    }
  }

  /** The last sub-object with caption k is at index i. */
  ghost predicate LastWithCaption(objs: seq<map<string, Json>>, k: string, i: int)
  {
    && 0 <= i < |objs| && CaptionOf(objs[i]) == k
    && forall j :: i < j < |objs| ==> CaptionOf(objs[j]) != k
  }

  /** Each key maps to the points of the last sub-object carrying that caption. */
  lemma {:induction false} CaptionMapLastWins(objs: seq<map<string, Json>>, k: string)
    requires k in CaptionMap(objs)
    ensures exists i :: LastWithCaption(objs, k, i) && CaptionMap(objs)[k] == SeriesOf(objs[i])
  {
    var n := |objs| - 1;
    var init := objs[..n];
    if CaptionOf(objs[n]) == k {
      assert LastWithCaption(objs, k, n);
    } else {
      CaptionMapLastWins(init, k);
      var i :| LastWithCaption(init, k, i) && CaptionMap(init)[k] == SeriesOf(init[i]);
      forall j | i < j < |objs| ensures CaptionOf(objs[j]) != k {
        if j < n { assert objs[j] == init[j]; }
      }
      assert objs[i] == init[i];
      assert LastWithCaption(objs, k, i);
    }
  }

  /** Duplicate captions collapse: there are never more keys than sub-objects. */
  lemma {:induction false} CaptionMapSize(objs: seq<map<string, Json>>)
    ensures |CaptionMap(objs)| <= |objs|
  {
    if objs != [] {
      var n := |objs| - 1;
      var before := CaptionMap(objs[..n]);
      CaptionMapSize(objs[..n]);
      var c := CaptionOf(objs[n]);
      if c in before {
        assert before[c := SeriesOf(objs[n])].Keys == before.Keys;
      } else {
        assert before[c := SeriesOf(objs[n])].Keys == before.Keys + {c};
      }
    }
  }

  /** Good sub-objects yield non-empty keys, each the caption string of one of them. */
  lemma GoodCaptions(vs: seq<Json>)
    requires forall v :: v in vs ==> GoodSubobject(v)
    ensures var m := CaptionMap(AsObjects(vs));
      && |m| <= |vs|
      && forall k :: k in m ==>
           k != "" && exists v :: v in vs && v.JObj? && "Caption" in v.members && v.members["Caption"] == JStr(k)
  {
    var objs := AsObjects(vs);
    CaptionMapSize(objs);
    forall k | k in CaptionMap(objs)
      ensures k != "" && exists v :: v in vs && v.JObj? && "Caption" in v.members && v.members["Caption"] == JStr(k)
    {
      CaptionMapKeys(objs, k);
      var i :| 0 <= i < |objs| && CaptionOf(objs[i]) == k;
      assert vs[i] in vs;
    }
  }

  /** On an accepted request, every key of the caption map is a non-empty caption string of
      one of the sub-objects, and there are at most as many keys as sub-objects. */
  lemma ExtractedCaptions(doc: Option<Json>)
    requires Validate(doc).Accepted?
    ensures var req := Validate(doc).request;
      var vs := Elements(req.points[0]);
      var m := CaptionMap(Flatten(req.points));
      && |m| <= |vs|
      && forall k :: k in m ==>
           k != "" && exists v :: v in vs && v.JObj? && "Caption" in v.members && v.members["Caption"] == JStr(k)
  {
    var req := Validate(doc).request;
    AcceptedShape(doc);
    assert req.points == [req.points[0]];
    FlattenSingle(req.points[0]);
    GoodCaptions(Elements(req.points[0]));
  }

  /** On an accepted request, the Y points kept for a sub-object are exactly its numbers. */
  lemma ExtractedYPoints(v: Json)
    requires GoodSubobject(v)
    ensures var ys := v.members["Y_Points"].elems;
      && |SeriesOf(ToObject(v)).ys| == |ys|
      && forall i :: 0 <= i < |ys| ==> JNum(SeriesOf(ToObject(v)).ys[i]) == ys[i]
  {
  }
}
