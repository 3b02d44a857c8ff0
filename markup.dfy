/**
 * The scanning both bracket-markup tokenizers share: the regular expression
 * `(\\+)?([<:>])` run left to right over the input, and the text the input
 * stands for once escapes are taken into account.
 */
module Markup {
  import opened Text

  /** The start, format and stop characters of the markup. */
  predicate IsStructural(c: char) { c == '<' || c == ':' || c == '>' }

  const Escape: char := '\\'

  predicate NoStructural(t: string) { forall k :: 0 <= k < |t| ==> !IsStructural(t[k]) }

  /** The first index at or after `p` that does not hold an escape. */
  function RunEnd(s: string, p: nat): (r: nat)
    requires p <= |s|
    ensures p <= r <= |s|
    ensures r == |s| || s[r] != Escape
    decreases |s| - p
  {
    if p < |s| && s[p] == Escape then RunEnd(s, p + 1) else p
  }

  /** Everything the run covers is an escape. */
  lemma {:induction false} RunEscapes(s: string, p: nat, k: nat)
    requires p <= |s| && p <= k < RunEnd(s, p)
    ensures s[k] == Escape
    decreases k - p
  {
    if p < k {
      RunEscapes(s, p + 1, k);
    }
  }

  /**
   * One match of the pattern: the escape run (group 2) is `s[start..mark]`,
   * the structural character (group 3) is `s[mark]`, kept as `symbol`.
   */
  datatype Match = Match(start: nat, mark: nat, symbol: char)
  {
    function End(): nat { mark + 1 }

    /** An odd number of escapes precedes the structural character. */
    predicate Escaped() { (mark - start) % 2 == 1 }
  }

  /** The match lies inside `s` and ends on a structural character. */
  predicate IsMatchIn(s: string, m: Match)
  {
    m.start <= m.mark < |s| && IsStructural(s[m.mark]) && m.symbol == s[m.mark]
  }

  /**
   * `finditer` from position `p`. The scan reads a chunk at a time: the
   * escape run from `p` (possibly empty) and the character after it. A chunk
   * ending in a structural character is a match (leftmost, escape run taken
   * whole); the next search starts after the chunk either way.
   */
  function MatchesFrom(s: string, p: nat): (r: seq<Match>)
    requires p <= |s|
    ensures r != [] ==> p <= r[0].start
    decreases |s| - p
  {
    var q := RunEnd(s, p);
    if q == |s| then []
    else if IsStructural(s[q]) then [Match(p, q, s[q])] + MatchesFrom(s, q + 1)
    else MatchesFrom(s, q + 1)
  }

  function Matches(s: string): seq<Match> { MatchesFrom(s, 0) }

  /**
   * What a match stands for in the text: its escape run with one escape
   * removed when the run is odd, kept whole when it is even, then the
   * structural character.
   */
  function VisibleMatch(s: string, m: Match): (r: string)
    requires IsMatchIn(s, m)
    ensures |r| >= 1 && r[|r| - 1] == m.symbol
  {
    (if m.Escaped() then s[m.start..m.mark - 1] else s[m.start..m.mark]) + [m.symbol]
  }

  /**
   * The text the input denotes, scanned chunk by chunk from `p`: a chunk
   * that is a match stands for its `VisibleMatch`, except that at offset 0
   * (`atStart`) it loses its whole escape run; any other chunk, and a final
   * escape run, stands for itself.
   */
  function VisibleFrom(s: string, p: nat, atStart: bool): string
    requires p <= |s|
    decreases |s| - p
  {
    var q := RunEnd(s, p);
    if q == |s| then s[p..] else VisibleChunk(s, p, q, atStart) + VisibleFrom(s, q + 1, false)
  }

  /** What the chunk `s[p..q + 1]`, `q` ending its escape run, stands for. */
  function VisibleChunk(s: string, p: nat, q: nat, atStart: bool): string
    requires p <= q < |s|
  {
    if !IsStructural(s[q]) then s[p..q + 1]
    else if atStart then [s[q]]
    else (if (q - p) % 2 == 1 then s[p..q - 1] else s[p..q]) + [s[q]]
  }

  function Visible(s: string): string { VisibleFrom(s, 0, true) }

  /** The plain chunk `s[p..q + 1]` has no structural character. */
  lemma PlainChunk(s: string, p: nat)
    requires p <= |s| && RunEnd(s, p) < |s| && !IsStructural(s[RunEnd(s, p)])
    ensures NoStructural(s[p..RunEnd(s, p) + 1])
  {
    var q := RunEnd(s, p);
    var chunk := s[p..q + 1];
    forall k | 0 <= k < |chunk| ensures !IsStructural(chunk[k]) {
      assert chunk[k] == s[p + k];
      if p + k < q { RunEscapes(s, p, p + k); }
    }
  }

  lemma NoStructuralAppend(a: string, b: string)
    requires NoStructural(a) && NoStructural(b)
    ensures NoStructural(a + b)
  {
    forall k | 0 <= k < |a + b| ensures !IsStructural((a + b)[k]) {
      if k >= |a| { assert (a + b)[k] == b[k - |a|]; }
    }
  }

  /** Where the scan from `p` finds nothing, nothing from `p` on is structural. */
  lemma {:induction false} NoMatchFrom(s: string, p: nat)
    requires p <= |s| && MatchesFrom(s, p) == []
    ensures NoStructural(s[p..])
    decreases |s| - p
  {
    var q := RunEnd(s, p);
    if q == |s| {
      forall k | 0 <= k < |s| - p ensures !IsStructural(s[p..][k]) {
        assert s[p..][k] == s[p + k];
        RunEscapes(s, p, p + k);
      }
    } else {
      NoMatchFrom(s, q + 1);
      PlainChunk(s, p);
      NoStructuralAppend(s[p..q + 1], s[q + 1..]);
      assert s[p..] == s[p..q + 1] + s[q + 1..];
    }
  }

  /** Where the scan from `p` finds nothing, the rest stands for itself. */
  lemma {:induction false} NoMatchVisible(s: string, p: nat, atStart: bool)
    requires p <= |s| && MatchesFrom(s, p) == []
    ensures VisibleFrom(s, p, atStart) == s[p..]
    decreases |s| - p
  {
    var q := RunEnd(s, p);
    if q < |s| {
      NoMatchVisible(s, q + 1, false);
      assert s[p..] == s[p..q + 1] + s[q + 1..];
    }
  }

  /**
   * Where the scan from `p` finds something, the first match is preceded by
   * plain text only, its escape run is all escapes, and the remaining
   * matches are those after it.
   */
  lemma {:induction false} FirstMatchFrom(s: string, p: nat)
    requires p <= |s| && MatchesFrom(s, p) != []
    ensures var m := MatchesFrom(s, p)[0];
      IsMatchIn(s, m) && NoStructural(s[p..m.start]) && (forall k :: m.start <= k < m.mark ==> s[k] == Escape) &&
      MatchesFrom(s, p)[1..] == MatchesFrom(s, m.End())
    decreases |s| - p
  {
    var q := RunEnd(s, p);
    if IsStructural(s[q]) {
      assert s[p..p] == "";
      forall k | p <= k < q ensures s[k] == Escape {
        RunEscapes(s, p, k);
      }
    } else {
      FirstMatchFrom(s, q + 1);
      var m := MatchesFrom(s, p)[0];
      PlainChunk(s, p);
      NoStructuralAppend(s[p..q + 1], s[q + 1..m.start]);
      assert s[p..m.start] == s[p..q + 1] + s[q + 1..m.start];
    }
  }

  /** Where the scan from `p` finds something, the denoted text splits at the first match. */
  lemma {:induction false} FirstMatchVisible(s: string, p: nat, atStart: bool)
    requires p <= |s| && MatchesFrom(s, p) != []
    ensures var m := MatchesFrom(s, p)[0];
      IsMatchIn(s, m) && VisibleFrom(s, p, atStart) ==
        s[p..m.start] + (if atStart && m.start == p then [m.symbol] else VisibleMatch(s, m))
        + VisibleFrom(s, m.End(), false)
    decreases |s| - p, 1
  {
    var q := RunEnd(s, p);
    if IsStructural(s[q]) {
      MatchChunkVisible(s, p, atStart);
    } else {
      FirstMatchVisiblePlain(s, p, atStart);
    }
  }

  /** The case of `FirstMatchVisible` where the first chunk is plain. */
  lemma {:induction false} FirstMatchVisiblePlain(s: string, p: nat, atStart: bool)
    requires p <= |s| && MatchesFrom(s, p) != []
    requires RunEnd(s, p) < |s| && !IsStructural(s[RunEnd(s, p)])
    ensures var m := MatchesFrom(s, p)[0];
      IsMatchIn(s, m) && VisibleFrom(s, p, atStart) ==
        s[p..m.start] + (if atStart && m.start == p then [m.symbol] else VisibleMatch(s, m))
        + VisibleFrom(s, m.End(), false)
    decreases |s| - p, 0
  {
    PlainChunkVisible(s, p, atStart);
    FirstMatchVisible(s, RunEnd(s, p) + 1, false);
    PlainChunkStep(s, p, atStart);
  }

  /** The step of `FirstMatchVisiblePlain`: the plain chunk joins the text before the first match found after it. */
  lemma PlainChunkStep(s: string, p: nat, atStart: bool)
    requires p <= |s| && MatchesFrom(s, p) != []
    requires RunEnd(s, p) < |s| && !IsStructural(s[RunEnd(s, p)])
    requires var b := RunEnd(s, p) + 1;
      MatchesFrom(s, b) != [] &&
      var m := MatchesFrom(s, b)[0];
      IsMatchIn(s, m) && VisibleFrom(s, b, false) == s[b..m.start] + VisibleMatch(s, m) + VisibleFrom(s, m.End(), false)
    ensures var m := MatchesFrom(s, p)[0];
      IsMatchIn(s, m) && VisibleFrom(s, p, atStart) ==
        s[p..m.start] + (if atStart && m.start == p then [m.symbol] else VisibleMatch(s, m))
        + VisibleFrom(s, m.End(), false)
  {
    var b := RunEnd(s, p) + 1;
    PlainChunkVisible(s, p, atStart);
    var m := MatchesFrom(s, b)[0];
    PlainJoin(s, p, b, m, atStart, VisibleFrom(s, p, atStart), VisibleFrom(s, b, false), VisibleMatch(s, m), VisibleFrom(s, m.End(), false));
  }

  /** Joining a plain chunk onto the text up to and after a match that starts later. */
  lemma PlainJoin(s: string, p: nat, b: nat, m: Match, atStart: bool, vp: string, vb: string, vm: string, rest: string)
    requires p < b <= m.start <= |s|
    requires vp == s[p..b] + vb && vb == s[b..m.start] + vm + rest
    ensures vp == s[p..m.start] + (if atStart && m.start == p then [m.symbol] else vm) + rest
  {
    SliceJoin(s, p, b, m.start, vm, rest);
  }

  lemma SliceJoin(s: string, a: nat, b: nat, c: nat, x: string, y: string)
    requires a <= b <= c <= |s|
    ensures s[a..b] + ((s[b..c] + x) + y) == (s[a..c] + x) + y
  {
    assert s[a..c] == s[a..b] + s[b..c];
  }

  /** A chunk that is no match stands for itself, and the scan goes on after it. */
  lemma PlainChunkVisible(s: string, p: nat, atStart: bool)
    requires p <= |s| && RunEnd(s, p) < |s| && !IsStructural(s[RunEnd(s, p)])
    ensures var q := RunEnd(s, p);
      MatchesFrom(s, p) == MatchesFrom(s, q + 1) &&
      VisibleFrom(s, p, atStart) == s[p..q + 1] + VisibleFrom(s, q + 1, false)
  {
  }

  /** A chunk that is a match stands for its visible form, or for its character alone at offset 0. */
  lemma MatchChunkVisible(s: string, p: nat, atStart: bool)
    requires p <= |s| && RunEnd(s, p) < |s| && IsStructural(s[RunEnd(s, p)])
    requires MatchesFrom(s, p) != []
    ensures var m := MatchesFrom(s, p)[0];
      IsMatchIn(s, m) && VisibleFrom(s, p, atStart) ==
        s[p..m.start] + (if atStart && m.start == p then [m.symbol] else VisibleMatch(s, m))
        + VisibleFrom(s, m.End(), false)
  {
    assert s[p..p] == [];
  }

  /** Every match lies inside the input and ends on a structural character. */
  lemma {:induction false} MatchesInside(s: string, p: nat)
    requires p <= |s|
    ensures forall i :: 0 <= i < |MatchesFrom(s, p)| ==> IsMatchIn(s, MatchesFrom(s, p)[i])
    decreases |s| - p
  {
    var r := MatchesFrom(s, p);
    if r != [] {
      FirstMatchFrom(s, p);
      MatchesInside(s, r[0].End());
      forall i | 0 <= i < |r| ensures IsMatchIn(s, r[i]) {
        if i > 0 { assert r[i] == r[1..][i - 1]; }
      }
    }
  }

  /** No match at all exactly when no character is structural. */
  lemma NoMatches(s: string)
    ensures Matches(s) == [] <==> NoStructural(s)
  {
    if Matches(s) == [] {
      NoMatchFrom(s, 0);
      assert s[0..] == s;
    } else {
      var m := Matches(s)[0];
      FirstMatchFrom(s, 0);
      assert IsStructural(s[m.mark]);
    }
  }

  /** Without structural characters the input denotes itself. */
  lemma VisiblePlain(s: string)
    requires NoStructural(s)
    ensures Visible(s) == s
  {
    NoMatches(s);
    NoMatchVisible(s, 0, true);
    assert s[0..] == s;
  }

  /**
   * A structural character with no escape right before it is found as a
   * match of its own, followed by the matches after it.
   */
  lemma {:induction false} MatchesReach(s: string, p: nat, i: nat)
    requires p <= i < |s| && IsStructural(s[i])
    requires i == p || s[i - 1] != Escape
    ensures exists before :: MatchesFrom(s, p) == before + [Match(i, i, s[i])] + MatchesFrom(s, i + 1)
    decreases i - p
  {
    var q := RunEnd(s, p);
    if p == i {
      assert MatchesFrom(s, p) == [] + [Match(i, i, s[i])] + MatchesFrom(s, i + 1);
    } else {
      if q >= i {
        RunEscapes(s, p, i - 1);
      }
      MatchesReach(s, q + 1, i);
      var before :| MatchesFrom(s, q + 1) == before + [Match(i, i, s[i])] + MatchesFrom(s, i + 1);
      if IsStructural(s[q]) {
        assert MatchesFrom(s, p) == ([Match(p, q, s[q])] + before) + [Match(i, i, s[i])] + MatchesFrom(s, i + 1);
      }
    }
  }

  /**
   * A structural character after plain text, with no escape right before
   * it, is the next match.
   */
  lemma {:induction false} NextMatchAfterPlain(s: string, p: nat, i: nat)
    requires p <= i < |s| && IsStructural(s[i]) && (i == p || s[i - 1] != Escape)
    requires forall k :: p <= k < i ==> !IsStructural(s[k])
    ensures MatchesFrom(s, p) == [Match(i, i, s[i])] + MatchesFrom(s, i + 1)
    decreases i - p
  {
    if p < i {
      var q := RunEnd(s, p);
      if q >= i {
        RunEscapes(s, p, i - 1);
      }
      NextMatchAfterPlain(s, q + 1, i);
    }
  }

  /** A slice that starts at -1 (the last character) and ends before it is empty. */
  lemma SliceFromLast(s: string, hi: nat)
    requires hi < |s|
    ensures PySlice(s, -1, hi) == ""
  {
  }
}
