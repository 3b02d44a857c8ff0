/**
 * The part of Python's `collections.OrderedDict` that builds the colour tables:
 * a table is its (key, value) entries in insertion order.
 */
module OrderedDicts {
  import opened Wrappers

  /** Position of the entry with key `k`, if any. */
  function Find<V>(od: seq<(int, V)>, k: int): (r: Option<nat>)
    ensures r.Some? ==> r.value < |od| && od[r.value].0 == k
    ensures r.Some? ==> forall j :: 0 <= j < r.value ==> od[j].0 != k
    ensures r.None? <==> forall j :: 0 <= j < |od| ==> od[j].0 != k
  {
    if od == [] then None
    else if od[0].0 == k then Some(0)
    else match Find(od[1..], k)
      case None => None
      case Some(i) => Some(i + 1)
  }

  /** `od[k]`; `None` where Python raises KeyError. */
  function Get<V>(od: seq<(int, V)>, k: int): (r: Option<V>)
    ensures r.Some? <==> exists i :: 0 <= i < |od| && od[i].0 == k
    ensures r.Some? ==> exists i :: 0 <= i < |od| && od[i] == (k, r.value)
  {
    match Find(od, k)
    case None => None
    case Some(i) => Some(od[i].1)
  }

  /** `od[k] = v`: an existing key keeps its position and takes the new value; a new key goes last. */
  function Put<V>(od: seq<(int, V)>, k: int, v: V): (r: seq<(int, V)>)
    ensures |od| <= |r| <= |od| + 1
    ensures forall i :: 0 <= i < |od| ==> r[i].0 == od[i].0
    ensures |r| == |od| + 1 ==> r[|od|] == (k, v)
  {
    match Find(od, k)
    case Some(i) => od[i := (k, v)]
    case None => od + [(k, v)]
  }

  /** Two tables whose keys agree up to the shorter one, and whose extra entries lack `x`, find `x` at the same place. */
  lemma FindAgree<V>(a: seq<(int, V)>, b: seq<(int, V)>, x: int)
    requires |a| <= |b|
    requires forall j :: 0 <= j < |a| ==> a[j].0 == b[j].0
    requires forall j :: |a| <= j < |b| ==> b[j].0 != x
    ensures Find(a, x) == Find(b, x)
  {
    var fa := Find(a, x);
    if fa.Some? {
      assert b[fa.value].0 == x;
    }
  }

  /** After `od[k] = v`, key `k` maps to `v` and every other key to what it mapped to before. */
  lemma GetPut<V>(od: seq<(int, V)>, k: int, v: V, x: int)
    ensures Get(Put(od, k, v), x) == if x == k then Some(v) else Get(od, x)
  {
    var r := Put(od, k, v);
    if x != k {
      FindAgree(od, r, x);
    } else if Find(od, k).None? {
      assert r[|od|].0 == k;
    }
  }

  /** `od.update(pairs)`: the pairs are stored one after the other, left to right. */
  function Update<V>(od: seq<(int, V)>, pairs: seq<(int, V)>): (r: seq<(int, V)>)
    ensures |od| <= |r| <= |od| + |pairs|
    ensures forall i :: 0 <= i < |od| ==> r[i].0 == od[i].0
  {
    if pairs == [] then od
    else
      var prefix := Update(od, pairs[..|pairs| - 1]);
      Put(prefix, pairs[|pairs| - 1].0, pairs[|pairs| - 1].1)
  }

  /** No pair after position `i` repeats its key. */
  ghost predicate IsLastKey<V>(pairs: seq<(int, V)>, i: int)
    requires 0 <= i < |pairs|
  {
    forall j :: i < j < |pairs| ==> pairs[j].0 != pairs[i].0
  }

  /** The value of the last pair with key `k`: the one an update leaves in place. */
  function LastValue<V>(pairs: seq<(int, V)>, k: int): (r: Option<V>)
    ensures r.None? <==> forall i :: 0 <= i < |pairs| ==> pairs[i].0 != k
  {
    if pairs == [] then None
    else if pairs[|pairs| - 1].0 == k then Some(pairs[|pairs| - 1].1)
    else LastValue(pairs[..|pairs| - 1], k)
  }

  /** The last pair with key `k` supplies its value. */
  lemma {:induction false} LastValueAt<V>(pairs: seq<(int, V)>, k: int, i: int)
    requires 0 <= i < |pairs| && pairs[i].0 == k && IsLastKey(pairs, i)
    ensures LastValue(pairs, k) == Some(pairs[i].1)
  {
    if i < |pairs| - 1 {
      var front := pairs[..|pairs| - 1];
      assert front[i] == pairs[i];
      LastValueAt(front, k, i);
    }
  }

  /** After an update a key maps to its last value among the pairs, or to its old value if no pair has it. */
  lemma {:induction false} GetUpdate<V>(od: seq<(int, V)>, pairs: seq<(int, V)>, k: int)
    ensures Get(Update(od, pairs), k) == if LastValue(pairs, k).Some? then LastValue(pairs, k) else Get(od, k)
  {
    if pairs != [] {
      var front := pairs[..|pairs| - 1];
      var last := pairs[|pairs| - 1];
      GetUpdate(od, front, k);
      GetPut(Update(od, front), last.0, last.1, k);
    }
  }

  /** No key occurs twice: the shape of every dictionary. */
  ghost predicate DistinctKeys<V>(od: seq<(int, V)>)
  {
    forall i, j :: 0 <= i < j < |od| ==> od[i].0 != od[j].0
  }

  lemma PutDistinct<V>(od: seq<(int, V)>, k: int, v: V)
    requires DistinctKeys(od)
    ensures DistinctKeys(Put(od, k, v))
  {
  }

  lemma {:induction false} UpdateDistinct<V>(od: seq<(int, V)>, pairs: seq<(int, V)>)
    requires DistinctKeys(od)
    ensures DistinctKeys(Update(od, pairs))
  {
    if pairs != [] {
      UpdateDistinct(od, pairs[..|pairs| - 1]);
      PutDistinct(Update(od, pairs[..|pairs| - 1]), pairs[|pairs| - 1].0, pairs[|pairs| - 1].1);
    }
  }

  /** In a table without repeated keys, every entry is what its key looks up. */
  lemma EntryIsLookup<V>(od: seq<(int, V)>, i: int)
    requires DistinctKeys(od) && 0 <= i < |od|
    ensures Get(od, od[i].0) == Some(od[i].1)
  {
    var f := Find(od, od[i].0);
    assert f.Some?;
    assert f.value == i;
  }

  /** `range(lo, hi)`. */
  function Range(lo: int, hi: int): (r: seq<int>)
    ensures |r| == if hi > lo then hi - lo else 0
    ensures forall i :: 0 <= i < |r| ==> r[i] == lo + i
  {
    seq(if hi > lo then hi - lo else 0, i => lo + i)
  }

  /** `zip(keys, values)`: as long as the shorter of the two. */
  function Zip<V>(keys: seq<int>, values: seq<V>): (r: seq<(int, V)>)
    ensures |r| == if |keys| < |values| then |keys| else |values|
    ensures forall i :: 0 <= i < |r| ==> r[i] == (keys[i], values[i])
  {
    seq(if |keys| < |values| then |keys| else |values|, i requires 0 <= i < |keys| && 0 <= i < |values| => (keys[i], values[i]))
  }

  /** Looking up `k` among `zip(range(lo, hi), values)` gives the value at offset `k - lo`, if the zip reaches it. */
  lemma LastValueZipRange<V>(lo: int, hi: int, values: seq<V>, k: int)
    ensures var n := |Zip(Range(lo, hi), values)|;
      LastValue(Zip(Range(lo, hi), values), k) == if lo <= k < lo + n then Some(values[k - lo]) else None
  {
    var z := Zip(Range(lo, hi), values);
    if lo <= k < lo + |z| {
      LastValueAt(z, k, k - lo);
    }
  }
}
