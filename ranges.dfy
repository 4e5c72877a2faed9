/** Axis-range derivation: the synthesized X points and the Y range over every Y point
    left in the caption map. */
module Ranges {
  import opened StringOrder
  import opened Extraction

  function Abs(r: real): real
  {
    if r < 0.0 then -r else r
  }

  /** static_cast<int> of a double: truncation toward zero. */
  function Truncate(r: real): (t: int)
    ensures r >= 0.0 ==> 0 <= t && t as real <= r < t as real + 1.0
    ensures r < 0.0 ==> t <= 0 && t as real - 1.0 < r <= t as real
  {
    if r >= 0.0 then r.Floor else -((-r).Floor)
  }

  /** The size the synthesized X vector is resized to. */
  function XRangeLength(xStart: real, xEnd: real): nat
  {
    Truncate(Abs(xStart) + Abs(xEnd))
  }

  /** The `generalXPointsRange` lambda: a zero-filled vector of XRangeLength elements,
      then filled by std::iota counting up from xStart. */
  method SynthesizeXRange(xStart: real, xEnd: real) returns (points: seq<real>)
    ensures |points| == XRangeLength(xStart, xEnd)
    ensures forall i :: 0 <= i < |points| ==> points[i] == xStart + i as real
  {
    var buffer := new real[XRangeLength(xStart, xEnd)](_ => 0.0);
    var value := xStart;
    for i := 0 to buffer.Length
      invariant value == xStart + i as real
      invariant forall j :: 0 <= j < i ==> buffer[j] == xStart + j as real
    {
      buffer[i] := value;
      value := value + 1.0;
    }
    points := buffer[..];
  }

  /** The length is the truncated sum of the endpoint magnitudes, so it does not depend on
      the sign of either endpoint. */
  lemma XRangeLengthBounds(xStart: real, xEnd: real)
    ensures XRangeLength(xStart, xEnd) as real <= Abs(xStart) + Abs(xEnd) < XRangeLength(xStart, xEnd) as real + 1.0
    ensures XRangeLength(xStart, xEnd) == XRangeLength(xStart, -xEnd) == XRangeLength(-xStart, xEnd)
  {
  }

  // ---------------------------------------------------------------------------------------
  // The Y range.

  /** The Y points of the series named by ks, concatenated in that order. */
  function ConcatYs(m: map<string, Series>, ks: seq<string>): seq<real>
    requires forall k :: k in ks ==> k in m
  {
    if ks == [] then []
    else ConcatYs(m, ks[..|ks| - 1]) + m[ks[|ks| - 1]].ys
  }

  /** `allYPoints`: the Y points of every series, taken in ascending caption order. */
  ghost function AllYPoints(m: map<string, Series>): seq<real>
  {
    ConcatYs(m, KeyOrder(m.Keys))
  }

  /** The loop shared by the `yStart` and `yEnd` lambdas, appending each series' Y points
      in QMap::keys() order. */
  method CollectYPoints(m: map<string, Series>) returns (all: seq<real>)
    ensures all == AllYPoints(m)
  {
    var keys := SortedKeys(m);
    all := [];
    for i := 0 to |keys|
      invariant all == ConcatYs(m, keys[..i])
    {
      all := all + m[keys[i]].ys;
      assert keys[..i + 1][..i] == keys[..i];
    }
    assert keys[..|keys|] == keys;
  }

  /** std::min_element: the position of the first smallest element. */
  method MinElement(s: seq<real>) returns (k: nat)
    requires |s| > 0
    ensures k < |s|
    ensures forall j :: 0 <= j < |s| ==> s[k] <= s[j]
    ensures forall j :: 0 <= j < k ==> s[k] < s[j]
  {
    k := 0;
    for i := 1 to |s|
      invariant k < i
      invariant forall j :: 0 <= j < i ==> s[k] <= s[j]
      invariant forall j :: 0 <= j < k ==> s[k] < s[j]
    {
      if s[i] < s[k] {
        k := i;
      }
    }
  }

  /** std::max_element: the position of the first largest element. */
  method MaxElement(s: seq<real>) returns (k: nat)
    requires |s| > 0
    ensures k < |s|
    ensures forall j :: 0 <= j < |s| ==> s[j] <= s[k]
    ensures forall j :: 0 <= j < k ==> s[j] < s[k]
  {
    k := 0;
    for i := 1 to |s|
      invariant k < i
      invariant forall j :: 0 <= j < i ==> s[j] <= s[k]
      invariant forall j :: 0 <= j < k ==> s[j] < s[k]
    {
      if s[k] < s[i] {
        k := i;
      }
    }
  }

  /** The `yStart` lambda: the least Y point when there are at least two, and 0 otherwise. */
  method YStart(m: map<string, Series>) returns (y: real)
    ensures |AllYPoints(m)| > 1 ==> y in AllYPoints(m) && forall v :: v in AllYPoints(m) ==> y <= v
    ensures |AllYPoints(m)| <= 1 ==> y == 0.0
  {
    var all := CollectYPoints(m);
    if |all| > 1 {
      var k := MinElement(all);
      y := all[k];
    } else {
      y := 0.0;
    }
  }

  /** The `yEnd` lambda: the greatest Y point when there are at least two, and 0 otherwise. */
  method YEnd(m: map<string, Series>) returns (y: real)
    ensures |AllYPoints(m)| > 1 ==> y in AllYPoints(m) && forall v :: v in AllYPoints(m) ==> v <= y
    ensures |AllYPoints(m)| <= 1 ==> y == 0.0
  {
    var all := CollectYPoints(m);
    if |all| > 1 {
      var k := MaxElement(all);
      y := all[k];
    } else {
      y := 0.0;
    }
  }

  // ---------------------------------------------------------------------------------------
  // Properties of the collected Y points.

  lemma {:induction false} ConcatYsMembers(m: map<string, Series>, ks: seq<string>, v: real)
    requires forall k :: k in ks ==> k in m
    ensures v in ConcatYs(m, ks) <==> exists i :: 0 <= i < |ks| && v in m[ks[i]].ys
  {
    if ks != [] {
      var n := |ks| - 1;
      var init := ks[..n];
      ConcatYsMembers(m, init, v);
      if exists i :: 0 <= i < |init| && v in m[init[i]].ys {
        var i :| 0 <= i < |init| && v in m[init[i]].ys;
        assert ks[i] == init[i];
      }
      if exists i :: 0 <= i < |ks| && v in m[ks[i]].ys {
        var i :| 0 <= i < |ks| && v in m[ks[i]].ys;
        if i < n { assert init[i] == ks[i]; }
      }
    }
  }

  /** The collected Y points are exactly the Y points of the map's series. */
  lemma AllYPointsMembers(m: map<string, Series>, v: real)
    ensures v in AllYPoints(m) <==> exists k :: k in m && v in m[k].ys
  {
    var ks := KeyOrder(m.Keys);
    ConcatYsMembers(m, ks, v);
    if exists k :: k in m && v in m[k].ys {
      var k :| k in m && v in m[k].ys;
      var i :| 0 <= i < |ks| && ks[i] == k;
    }
  }

  lemma {:induction false} ConcatYsCountsEach(m: map<string, Series>, ks: seq<string>, i: nat)
    requires forall k :: k in ks ==> k in m
    requires i < |ks|
    ensures |m[ks[i]].ys| <= |ConcatYs(m, ks)|
  {
    var n := |ks| - 1;
    if i < n {
      ConcatYsCountsEach(m, ks[..n], i);
      assert ks[..n][i] == ks[i];
    }
  }

  /** A series with two or more Y points always gives a Y range taken from the data. */
  lemma AllYPointsCountsEach(m: map<string, Series>, k: string)
    requires k in m
    ensures |m[k].ys| <= |AllYPoints(m)|
  {
    var ks := KeyOrder(m.Keys);
    var i :| 0 <= i < |ks| && ks[i] == k;
    ConcatYsCountsEach(m, ks, i);
  }

  lemma {:induction false} ConcatYsCountsPair(m: map<string, Series>, ks: seq<string>, i: nat, j: nat)
    requires forall k :: k in ks ==> k in m
    requires i < j < |ks|
    ensures |m[ks[i]].ys| + |m[ks[j]].ys| <= |ConcatYs(m, ks)|
  {
    var n := |ks| - 1;
    var init := ks[..n];
    assert init[i] == ks[i];
    if j < n {
      ConcatYsCountsPair(m, init, i, j);
      assert init[j] == ks[j];
    } else {
      ConcatYsCountsEach(m, init, i);
    }
  }

  /** The Y points of two different series add up in the collection, so two series with
      one Y point each give a Y range taken from the data. */
  lemma AllYPointsCountsPair(m: map<string, Series>, k1: string, k2: string)
    requires k1 in m && k2 in m && k1 != k2
    ensures |m[k1].ys| + |m[k2].ys| <= |AllYPoints(m)|
  {
    var ks := KeyOrder(m.Keys);
    var i1 :| 0 <= i1 < |ks| && ks[i1] == k1;
    var i2 :| 0 <= i2 < |ks| && ks[i2] == k2;
    if i1 < i2 {
      ConcatYsCountsPair(m, ks, i1, i2);
    } else {
      ConcatYsCountsPair(m, ks, i2, i1);
    }
  }

  /** A single series with a single Y point yields just that point, so both ends of the
      Y range fall back to 0. */
  lemma SingleYPoint(caption: string, xs: seq<real>, y: real)
    ensures AllYPoints(map[caption := Series(xs, [y])]) == [y]
  {
    var m := map[caption := Series(xs, [y])];
    var ks := KeyOrder(m.Keys);
    assert caption in ks;
    assert ks == [caption];
    assert ks[..0] == [];
    assert ConcatYs(m, ks) == ConcatYs(m, []) + m[caption].ys;
  }

  /** An empty map has no Y points, so both ends of the Y range are 0. */
  lemma NoSeriesNoYPoints()
    ensures AllYPoints(map[]) == []
  {
  }
}
