/**
 * Colour comparison of colorise/color_tools.py: the L1 difference of two RGB
 * triples and the nearest entry of a colour look-up table (CLUT).
 */
module ColorTools {
  import opened Wrappers
  import opened OrderedDicts

  type Rgb = (int, int, int)

  /** A CLUT as its (index, colour) entries in the table's iteration order. */
  type Clut = seq<(int, Rgb)>

  function Abs(x: int): nat { if x < 0 then -x else x }

  /** `color_difference`: the sum of the component-wise absolute differences. */
  function ColorDifference(a: Rgb, b: Rgb): (d: int)
    ensures d >= 0
    ensures d == 0 <==> a == b
    ensures d >= Abs(a.0 - b.0) && d >= Abs(a.1 - b.1) && d >= Abs(a.2 - b.2)
  {
    Abs(a.0 - b.0) + Abs(a.1 - b.1) + Abs(a.2 - b.2)
  }

  lemma ColorDifferenceSymmetric(a: Rgb, b: Rgb)
    ensures ColorDifference(a, b) == ColorDifference(b, a)
  {
  }

  /** Red and green differ by 510; forest green and orangish by 199. */
  lemma ColorDifferenceExamples()
    ensures ColorDifference((255, 0, 0), (0, 255, 0)) == 510
    ensures ColorDifference((50, 138, 45), (226, 140, 66)) == 199
  {
  }

  /** The L1 difference obeys the triangle inequality. */
  lemma ColorDifferenceTriangle(a: Rgb, b: Rgb, c: Rgb)
    ensures ColorDifference(a, c) <= ColorDifference(a, b) + ColorDifference(b, c)
  {
  }

  /** Entry `k` is a minimum of the differences to `rgb` and no earlier entry ties with it. */
  ghost predicate IsEarliestMinimum(rgb: Rgb, clut: Clut, k: int)
  {
    && 0 <= k < |clut|
    && (forall j :: 0 <= j < |clut| ==> ColorDifference(rgb, clut[k].1) <= ColorDifference(rgb, clut[j].1))
    && (forall j :: 0 <= j < k ==> ColorDifference(rgb, clut[j].1) > ColorDifference(rgb, clut[k].1))
  }

  /**
   * Python's `min(..., key=...)` over the entries from `i` on, with `best` the position
   * of the smallest difference seen so far: a later entry replaces it only when strictly smaller.
   */
  function MinFrom(rgb: Rgb, clut: Clut, i: nat, best: nat): (k: nat)
    requires best < i <= |clut|
    requires forall j :: 0 <= j < i ==> ColorDifference(rgb, clut[best].1) <= ColorDifference(rgb, clut[j].1)
    requires forall j :: 0 <= j < best ==> ColorDifference(rgb, clut[j].1) > ColorDifference(rgb, clut[best].1)
    ensures IsEarliestMinimum(rgb, clut, k)
    decreases |clut| - i
  {
    if i == |clut| then best
    else if ColorDifference(rgb, clut[i].1) < ColorDifference(rgb, clut[best].1) then MinFrom(rgb, clut, i + 1, i)
    else MinFrom(rgb, clut, i + 1, best)
  }

  /** `closest_color`: the key of the nearest entry; `None` where `min` raises on an empty CLUT. */
  function ClosestColor(rgb: Rgb, clut: Clut): (r: Option<int>)
    ensures r.None? <==> clut == []
    ensures r.Some? ==> exists k :: IsEarliestMinimum(rgb, clut, k) && clut[k].0 == r.value
  {
    if clut == [] then None else Some(clut[MinFrom(rgb, clut, 1, 0)].0)
  }

  /** The entry chosen by `ClosestColor` is the only earliest minimum, so the contract pins the result down. */
  lemma EarliestMinimumUnique(rgb: Rgb, clut: Clut, k1: int, k2: int)
    requires IsEarliestMinimum(rgb, clut, k1) && IsEarliestMinimum(rgb, clut, k2)
    ensures k1 == k2
  {
    var d1, d2 := ColorDifference(rgb, clut[k1].1), ColorDifference(rgb, clut[k2].1);
    assert d1 == d2;
  }

  /** An entry equal to `rgb` is chosen when no earlier entry is equal to it too. */
  lemma {:induction false} ExactEntryChosen(rgb: Rgb, clut: Clut, k: nat)
    requires k < |clut| && clut[k].1 == rgb
    requires forall j :: 0 <= j < k ==> clut[j].1 != rgb
    ensures ClosestColor(rgb, clut) == Some(clut[k].0)
  {
    assert IsEarliestMinimum(rgb, clut, k);
    var m := MinFrom(rgb, clut, 1, 0);
    EarliestMinimumUnique(rgb, clut, m, k);
  }

  /** The position of the closest colour is pinned down by naming the earliest minimum. */
  lemma ClosestAt(rgb: Rgb, clut: Clut, k: int)
    requires IsEarliestMinimum(rgb, clut, k)
    ensures ClosestColor(rgb, clut) == Some(clut[k].0)
  {
    var m :| IsEarliestMinimum(rgb, clut, m) && clut[m].0 == ClosestColor(rgb, clut).value;
    EarliestMinimumUnique(rgb, clut, m, k);
  }

  /** A colour found under exactly one key of a table is its own closest colour, whatever the table's order. */
  lemma ClosestExact(rgb: Rgb, clut: Clut, key: int)
    requires DistinctKeys(clut)
    requires Get(clut, key) == Some(rgb)
    requires forall k :: Get(clut, k) == Some(rgb) ==> k == key
    ensures ClosestColor(rgb, clut) == Some(key)
  {
    var i :| 0 <= i < |clut| && clut[i] == (key, rgb);
    var r := ClosestColor(rgb, clut);
    var m :| IsEarliestMinimum(rgb, clut, m) && clut[m].0 == r.value;
    assert ColorDifference(rgb, clut[m].1) <= ColorDifference(rgb, clut[i].1) == 0;
    EntryIsLookup(clut, m);
  }

  /** `key` is a key of `clut` whose colour is at least as near to `rgb` as every colour of the table. */
  ghost predicate IsNearestKey(rgb: Rgb, clut: Clut, key: int)
  {
    && Get(clut, key).Some?
    && forall k :: Get(clut, k).Some? ==> ColorDifference(rgb, Get(clut, key).value) <= ColorDifference(rgb, Get(clut, k).value)
  }

  /** What `closest_color` returns is a nearest key of the table. */
  lemma ClosestIsNearest(rgb: Rgb, clut: Clut)
    requires DistinctKeys(clut) && clut != []
    ensures IsNearestKey(rgb, clut, ClosestColor(rgb, clut).value)
  {
    var r := ClosestColor(rgb, clut);
    var m :| IsEarliestMinimum(rgb, clut, m) && clut[m].0 == r.value;
    EntryIsLookup(clut, m);
    forall k | Get(clut, k).Some? ensures ColorDifference(rgb, clut[m].1) <= ColorDifference(rgb, Get(clut, k).value) {
      var j :| 0 <= j < |clut| && clut[j] == (k, Get(clut, k).value);
    }
  }
}
