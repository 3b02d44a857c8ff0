/**
 * Colour comparison of src/colorise/color_tools.py. The later file has the same
 * expressions as colorise/color_tools.py, typed: `color_difference` sums over
 * `zip(rgb1, rgb2)`, so it is stated here over component sequences of any
 * length, and `closest_color` over any kind of CLUT key.
 */
module SrcColorTools {
  import opened Wrappers
  import ColorTools

  /** `color_difference`: the sum of absolute differences over the zipped components (zip stops at the shorter). */
  function ColorDifference(a: seq<int>, b: seq<int>): (d: int)
    ensures d >= 0
  {
    if a == [] || b == [] then 0 else ColorTools.Abs(a[0] - b[0]) + ColorDifference(a[1..], b[1..])
  }

  lemma {:induction false} ColorDifferenceSymmetric(a: seq<int>, b: seq<int>)
    ensures ColorDifference(a, b) == ColorDifference(b, a)
  {
    if a != [] && b != [] {
      ColorDifferenceSymmetric(a[1..], b[1..]);
    }
  }

  lemma {:induction false} ColorDifferenceSelf(a: seq<int>)
    ensures ColorDifference(a, a) == 0
  {
    if a != [] {
      ColorDifferenceSelf(a[1..]);
    }
  }

  /** Two colours of equal length are at difference zero exactly when they are equal. */
  lemma {:induction false} ColorDifferenceZero(a: seq<int>, b: seq<int>)
    requires |a| == |b|
    ensures ColorDifference(a, b) == 0 <==> a == b
  {
    if a != [] {
      ColorDifferenceZero(a[1..], b[1..]);
      if a[1..] == b[1..] && a[0] == b[0] {
        assert a == [a[0]] + a[1..] && b == [b[0]] + b[1..];
      }
    } else {
      ColorDifferenceSelf(a);
    }
  }

  /** On RGB triples the typed function agrees with the older one. */
  lemma ColorDifferenceOnTriples(r: ColorTools.Rgb, s: ColorTools.Rgb)
    ensures ColorDifference([r.0, r.1, r.2], [s.0, s.1, s.2]) == ColorTools.ColorDifference(r, s)
  {
    assert [r.0, r.1, r.2][1..] == [r.1, r.2];
    assert [s.0, s.1, s.2][1..] == [s.1, s.2];
    assert [r.1, r.2][1..] == [r.2];
    assert [s.1, s.2][1..] == [s.2];
    assert ColorDifference([r.2], [s.2]) == ColorTools.Abs(r.2 - s.2) + ColorDifference([], []);
  }

  ghost predicate IsEarliestMinimum<K>(rgb: seq<int>, clut: seq<(K, seq<int>)>, k: int)
  {
    && 0 <= k < |clut|
    && (forall j :: 0 <= j < |clut| ==> ColorDifference(rgb, clut[k].1) <= ColorDifference(rgb, clut[j].1))
    && (forall j :: 0 <= j < k ==> ColorDifference(rgb, clut[j].1) > ColorDifference(rgb, clut[k].1))
  }

  /** `min` with a key: a later entry wins only with a strictly smaller difference. */
  function MinFrom<K>(rgb: seq<int>, clut: seq<(K, seq<int>)>, i: nat, best: nat): (k: nat)
    requires best < i <= |clut|
    requires forall j :: 0 <= j < i ==> ColorDifference(rgb, clut[best].1) <= ColorDifference(rgb, clut[j].1)
    requires forall j :: 0 <= j < best ==> ColorDifference(rgb, clut[j].1) > ColorDifference(rgb, clut[best].1)
    ensures IsEarliestMinimum(rgb, clut, k)
    decreases |clut| - i
  {
    if i == |clut| then best
    else if ColorDifference(rgb, clut[i].1) < ColorDifference(rgb, clut[best].1) then MinFrom(rgb, clut, i + 1, i)
    else MinFrom(rgb, clut, i + 1, best)
  }

  /** `closest_color`: the key of the earliest entry at minimal difference; `None` where `min` raises. */
  function ClosestColor<K>(rgb: seq<int>, clut: seq<(K, seq<int>)>): (r: Option<K>)
    ensures r.None? <==> clut == []
    ensures r.Some? ==> exists k :: IsEarliestMinimum(rgb, clut, k) && clut[k].0 == r.value
  {
    if clut == [] then None else Some(clut[MinFrom(rgb, clut, 1, 0)].0)
  }

  lemma EarliestMinimumUnique<K>(rgb: seq<int>, clut: seq<(K, seq<int>)>, k1: int, k2: int)
    requires IsEarliestMinimum(rgb, clut, k1) && IsEarliestMinimum(rgb, clut, k2)
    ensures k1 == k2
  {
    var d1, d2 := ColorDifference(rgb, clut[k1].1), ColorDifference(rgb, clut[k2].1);
    assert d1 == d2;
  }

  /** An RGB triple as the later file's sequence of components. */
  function Components(c: ColorTools.Rgb): seq<int> { [c.0, c.1, c.2] }

  /** A CLUT of triples as a CLUT of component sequences, entry for entry. */
  function AsSequences(clut: ColorTools.Clut): (t: seq<(int, seq<int>)>)
    ensures |t| == |clut| && forall j :: 0 <= j < |clut| ==> t[j] == (clut[j].0, Components(clut[j].1))
  {
    seq(|clut|, j requires 0 <= j < |clut| => (clut[j].0, Components(clut[j].1)))
  }

  /** On a CLUT of RGB triples, the typed `closest_color` picks the same key as the older one. */
  lemma ClosestColorAgrees(rgb: ColorTools.Rgb, clut: ColorTools.Clut)
    ensures ClosestColor(Components(rgb), AsSequences(clut)) == ColorTools.ClosestColor(rgb, clut)
  {
    if clut != [] {
      var t, c := AsSequences(clut), Components(rgb);
      var k := ColorTools.MinFrom(rgb, clut, 1, 0);
      EarliestMinimumAgrees(rgb, clut, k);
      EarliestMinimumUnique(c, t, k, MinFrom(c, t, 1, 0));
    }
  }

  /** The same entry is the earliest minimum in both forms of the table. */
  lemma EarliestMinimumAgrees(rgb: ColorTools.Rgb, clut: ColorTools.Clut, k: int)
    requires ColorTools.IsEarliestMinimum(rgb, clut, k)
    ensures IsEarliestMinimum(Components(rgb), AsSequences(clut), k)
  {
    var t, c := AsSequences(clut), Components(rgb);
    forall j | 0 <= j < |clut| ensures ColorDifference(c, t[j].1) == ColorTools.ColorDifference(rgb, clut[j].1) {
      ColorDifferenceOnTriples(rgb, clut[j].1);
    }
  }
}
