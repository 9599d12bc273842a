/** script.py: `Solution.countGoodRectangles`. A rectangle is a list of side lengths; its usable
    square side is the smallest of them, and a rectangle is good when that side is the largest
    over all rectangles. */
module Rectangles {

  /** Python's `min` of a non-empty list. */
  function MinSide(r: seq<int>): (m: int)
    requires |r| > 0
    ensures m in r
    ensures forall x :: x in r ==> m <= x
  {
    if |r| == 1 then r[0]
    else
      var rest := MinSide(r[1..]);
      assert forall x :: x in r[1..] ==> x in r;
      assert forall x :: x in r ==> x == r[0] || x in r[1..];
      if r[0] <= rest then r[0] else rest
  }

  ghost predicate NonEmptySides(rs: seq<seq<int>>) {
    forall i :: 0 <= i < |rs| ==> |rs[i]| > 0
  }

  /** The largest shorter side among the rectangles. */
  function MaxShortSide(rs: seq<seq<int>>): (m: int)
    requires |rs| > 0 && NonEmptySides(rs)
    ensures forall i :: 0 <= i < |rs| ==> MinSide(rs[i]) <= m
    ensures exists i :: 0 <= i < |rs| && MinSide(rs[i]) == m
  {
    if |rs| == 1 then MinSide(rs[0])
    else
      var prefix := rs[..|rs| - 1];
      var rest := MaxShortSide(prefix);
      assert forall i :: 0 <= i < |prefix| ==> prefix[i] == rs[i];
      var last := MinSide(rs[|rs| - 1]);
      if last > rest then last else rest
  }

  /** How many rectangles have a shorter side of at least `m`. */
  function CountAtLeast(rs: seq<seq<int>>, m: int): (n: nat)
    requires NonEmptySides(rs)
    ensures n <= |rs|
  {
    if rs == [] then 0
    else CountAtLeast(rs[..|rs| - 1], m) + (if MinSide(rs[|rs| - 1]) >= m then 1 else 0)
  }

  /** How many rectangles have a shorter side of exactly `m`. */
  function CountEqual(rs: seq<seq<int>>, m: int): (n: nat)
    requires NonEmptySides(rs)
    ensures n <= |rs|
  {
    if rs == [] then 0
    else CountEqual(rs[..|rs| - 1], m) + (if MinSide(rs[|rs| - 1]) == m then 1 else 0)
  }

  /** The number of good rectangles, by definition. */
  function GoodRectangles(rs: seq<seq<int>>): nat
    requires |rs| > 0 && NonEmptySides(rs)
  {
    CountEqual(rs, MaxShortSide(rs))
  }

  /** When no shorter side exceeds `m`, "at least m" and "exactly m" count the same rectangles, so
      the `>=` of the second loop is as good as `==`. */
  lemma {:induction false} AtLeastIsEqualBelowBound(rs: seq<seq<int>>, m: int)
    requires NonEmptySides(rs)
    requires forall i :: 0 <= i < |rs| ==> MinSide(rs[i]) <= m
    ensures CountAtLeast(rs, m) == CountEqual(rs, m)
  {
    if rs != [] {
      var prefix := rs[..|rs| - 1];
      assert forall i :: 0 <= i < |prefix| ==> prefix[i] == rs[i];
      AtLeastIsEqualBelowBound(prefix, m);
    }
  }

  /** A shorter side some rectangle has is counted at least once. */
  lemma {:induction false} CountEqualPositive(rs: seq<seq<int>>, k: int)
    requires NonEmptySides(rs)
    requires 0 <= k < |rs|
    ensures CountEqual(rs, MinSide(rs[k])) >= 1
  {
    if k < |rs| - 1 {
      var prefix := rs[..|rs| - 1];
      assert prefix[k] == rs[k];
      CountEqualPositive(prefix, k);
    }
  }

  /** There is always at least one good rectangle, and at most all of them. */
  lemma GoodRectanglesBounds(rs: seq<seq<int>>)
    requires |rs| > 0 && NonEmptySides(rs)
    ensures 1 <= GoodRectangles(rs) <= |rs|
  {
    var k :| 0 <= k < |rs| && MinSide(rs[k]) == MaxShortSide(rs);
    CountEqualPositive(rs, k);
  }

  /** The two loops of `countGoodRectangles`: the first finds the largest shorter side, the second
      counts the rectangles whose shorter side reaches it. The input is only read. */
  method CountGoodRectangles(rectangles: seq<seq<int>>) returns (result: int)
    requires |rectangles| > 0 && NonEmptySides(rectangles)
    ensures result == GoodRectangles(rectangles)
    ensures 1 <= result <= |rectangles|
  {
    var maxLen := MinSide(rectangles[0]);
    for i := 0 to |rectangles|
      invariant i == 0 ==> maxLen == MinSide(rectangles[0])
      invariant i > 0 ==> maxLen == MaxShortSide(rectangles[..i])
    {
      assert rectangles[..i + 1][..i] == rectangles[..i];
      if MinSide(rectangles[i]) > maxLen {
        maxLen := MinSide(rectangles[i]);
      }
    }
    assert rectangles[..|rectangles|] == rectangles;

    result := 0;
    for i := 0 to |rectangles|
      invariant result == CountAtLeast(rectangles[..i], maxLen)
    {
      assert rectangles[..i + 1][..i] == rectangles[..i];
      if MinSide(rectangles[i]) >= maxLen {
        result := result + 1;
      }
    }
    assert rectangles[..|rectangles|] == rectangles;
    AtLeastIsEqualBelowBound(rectangles, maxLen);
    GoodRectanglesBounds(rectangles);
  }

  /** The example at the bottom of script.py. */
  lemma ScriptExample()
    ensures GoodRectangles([[2, 3], [3, 7], [4, 3], [3, 7]]) == 3
  {
    var rs := [[2, 3], [3, 7], [4, 3], [3, 7]];
    assert MinSide([2, 3]) == 2 && MinSide([3, 7]) == 3 && MinSide([4, 3]) == 3;
    assert rs[..3] == [[2, 3], [3, 7], [4, 3]];
    assert rs[..3][..2] == [[2, 3], [3, 7]];
    assert rs[..3][..2][..1] == [[2, 3]];
    assert MaxShortSide(rs) == 3;
    assert CountEqual(rs[..3][..2][..1], 3) == 0;
    assert CountEqual(rs[..3][..2], 3) == 1;
    assert CountEqual(rs[..3], 3) == 2;
  }
}
