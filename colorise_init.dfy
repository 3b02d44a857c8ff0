/**
 * The functions colorise/__init__.py exports: `formatcolor` and
 * `formatbyindex`, which build bracket markup, and `set_color`, `cprint`,
 * `fprint` and `highlight`, which print through the colour manager. Calls on
 * the colour manager and on the output stream are recorded in the order they
 * are made; replaying that record gives the text shown and the colours in
 * force while each piece of it was written.
 */
module Colorise {
  import opened Wrappers
  import opened Text
  import opened Markup
  import CFP = ColorFormatParser

  // ---------------------------------------------------------------------------
  // formatcolor
  // ---------------------------------------------------------------------------

  /** `['fg=' + fg] if fg else []` followed by the same for `bg`. */
  function SpecPieces(fg: Option<string>, bg: Option<string>): seq<string>
  {
    (if CFP.Truthy(fg) then [CFP.FgKey + fg.value] else [])
      + (if CFP.Truthy(bg) then [CFP.BgKey + bg.value] else [])
  }

  /**
   * `formatcolor`: the string unchanged when both colours are None, else the
   * string wrapped in `<spec:` and `>`, the spec joining the truthy colours.
   */
  function FormatColor(s: string, fg: Option<string>, bg: Option<string>): (r: string)
    ensures fg == None && bg == None ==> r == s
  {
    if fg == None && bg == None then s
    else "<" + Join(SpecPieces(fg, bg), ',') + ":" + s + ">"
  }

  /** A colour that the parser reads back as given: no markup character, no comma, no trailing escape. */
  predicate SafeColor(o: Option<string>)
  {
    o.Some? ==> NoStructural(o.value) && ',' !in o.value && (o.value != "" ==> o.value[|o.value| - 1] != Escape)
  }

  /** Text that the parser reads back as given: non-empty, no markup character, no trailing escape. */
  predicate SafeText(s: string)
  {
    s != "" && NoStructural(s) && s[|s| - 1] != Escape
  }

  /** The colour a scope keeps: a truthy colour, otherwise None. */
  function Kept(o: Option<string>): (r: Option<string>)
    ensures r.Some? ==> CFP.Truthy(r)
  {
    if CFP.Truthy(o) then o else None
  }

  lemma KeyedPiece(key: string, v: string, other: string)
    requires |key| == 3 && |other| == 3 && key[0] != other[0]
    ensures StartsWith(key + v, key) && (key + v)[3..] == v
    ensures !StartsWith(key + v, other)
  {
    assert (key + v)[..3] == key;
  }

  /** A key followed by a truthy safe colour is a non-empty piece without markup, commas or a trailing escape. */
  lemma PieceSafe(key: string, v: string)
    requires key == CFP.FgKey || key == CFP.BgKey
    requires SafeColor(Some(v)) && v != ""
    ensures var p := key + v;
      NoStructural(p) && ',' !in p && p != "" && p[|p| - 1] != Escape
  {
    assert NoStructural(key) by { assert key[0] in "fb" && key[1] == 'g' && key[2] == '='; }
    NoStructuralAppend(key, v);
    assert (key + v)[|key + v| - 1] == v[|v| - 1];
    assert ',' !in key;
  }

  /** The spec `formatcolor` builds is non-empty markup-free text that does not end in an escape. */
  lemma SpecShape(fg: Option<string>, bg: Option<string>)
    requires SafeColor(fg) && SafeColor(bg) && (CFP.Truthy(fg) || CFP.Truthy(bg))
    ensures var spec := Join(SpecPieces(fg, bg), ',');
      spec != "" && NoStructural(spec) && spec[|spec| - 1] != Escape
  {
    if CFP.Truthy(fg) && CFP.Truthy(bg) {
      var f, b := CFP.FgKey + fg.value, CFP.BgKey + bg.value;
      PieceSafe(CFP.FgKey, fg.value);
      PieceSafe(CFP.BgKey, bg.value);
      assert SpecPieces(fg, bg) == [f, b];
      assert Join([f, b], ',') == f + [','] + b;
      NoStructualComma(f, b);
    } else if CFP.Truthy(fg) {
      PieceSafe(CFP.FgKey, fg.value);
      assert SpecPieces(fg, bg) == [CFP.FgKey + fg.value];
    } else {
      PieceSafe(CFP.BgKey, bg.value);
      assert SpecPieces(fg, bg) == [CFP.BgKey + bg.value];
    }
  }

  lemma NoStructualComma(f: string, b: string)
    requires NoStructural(f) && NoStructural(b) && b != "" && b[|b| - 1] != Escape
    ensures var j := f + [','] + b; NoStructural(j) && j != "" && j[|j| - 1] != Escape
  {
    NoStructuralAppend(f, [',']);
    NoStructuralAppend(f + [','], b);
    var j := f + [','] + b;
    assert j[|j| - 1] == b[|b| - 1];
  }

  /** The spec `formatcolor` builds is read back as the truthy colours. */
  lemma SpecExtracts(fg: Option<string>, bg: Option<string>)
    requires SafeColor(fg) && SafeColor(bg) && (CFP.Truthy(fg) || CFP.Truthy(bg))
    ensures CFP.ExtractSpec(Join(SpecPieces(fg, bg), ',')) == Ok(CFP.Scope(Kept(fg), Kept(bg)))
  {
    var ps := SpecPieces(fg, bg);
    if CFP.Truthy(fg) {
      PieceSafe(CFP.FgKey, fg.value);
      KeyedPiece(CFP.FgKey, fg.value, CFP.BgKey);
    }
    if CFP.Truthy(bg) {
      PieceSafe(CFP.BgKey, bg.value);
      KeyedPiece(CFP.BgKey, bg.value, CFP.FgKey);
    }
    if CFP.Truthy(fg) && CFP.Truthy(bg) {
      var f, b := CFP.FgKey + fg.value, CFP.BgKey + bg.value;
      assert ps == [f, b];
      SplitJoin(ps, ',');
      CFP.LastKeyedSnoc([f], b, CFP.FgKey);
      CFP.LastKeyedSnoc([f], b, CFP.BgKey);
      CFP.LastKeyedSnoc([], f, CFP.FgKey);
      CFP.LastKeyedSnoc([], f, CFP.BgKey);
      assert [f] + [b] == ps && [] + [f] == [f];
    } else {
      var p := if CFP.Truthy(fg) then CFP.FgKey + fg.value else CFP.BgKey + bg.value;
      assert ps == [p];
      SplitJoin(ps, ',');
      CFP.LastKeyedSnoc([], p, CFP.FgKey);
      CFP.LastKeyedSnoc([], p, CFP.BgKey);
      assert [] + [p] == [p];
    }
  }

  /** The three matches in wrapped markup-free text: the brackets and the colon, none escaped. */
  lemma WrappedMatches(spec: string, t: string)
    requires spec != "" && NoStructural(spec) && spec[|spec| - 1] != Escape
    requires SafeText(t)
    ensures var a := |spec| + 1; var b := a + |t| + 1;
      Matches("<" + spec + ":" + t + ">") == [Match(0, 0, '<'), Match(a, a, ':'), Match(b, b, '>')]
  {
    var r := "<" + spec + ":" + t + ">";
    var a := |spec| + 1;
    var b := a + |t| + 1;
    assert r[0] == '<' && r[a] == ':' && r[b] == '>' && |r| == b + 1;
    assert r[a - 1] == spec[|spec| - 1] && r[b - 1] == t[|t| - 1];
    forall k | 1 <= k < a ensures !IsStructural(r[k]) { assert r[k] == spec[k - 1]; }
    forall k | a + 1 <= k < b ensures !IsStructural(r[k]) { assert r[k] == t[k - a - 1]; }
    NextMatchAfterPlain(r, 0, 0);
    NextMatchAfterPlain(r, 1, a);
    NextMatchAfterPlain(r, a + 1, b);
    assert MatchesFrom(r, b + 1) == [];
  }

  /** An unescaped match after plain text and nothing pending yields the text, then the symbol. */
  lemma StepAfterText(s: string, st: CFP.TokState, m: Match)
    requires st.buf == "" && m.start == m.mark < |s| && 0 <= st.pos < m.mark && st.lm != m.start
    ensures CFP.Step(s, st, m) == CFP.TokState(st.out + [s[st.pos..m.mark], [m.symbol]], m.mark + 1, "", m.mark + 1)
  {
    assert !m.Escaped();
    assert "" + s[st.pos..m.mark] == s[st.pos..m.mark];
  }

  /** The tokenizer's loop over three matches. */
  lemma ThreeSteps(r: string, st: CFP.TokState, m0: Match, m1: Match, m2: Match)
    ensures CFP.Steps(r, st, [m0, m1, m2]) == CFP.Step(r, CFP.Step(r, CFP.Step(r, st, m0), m1), m2)
  {
    var s1 := CFP.Step(r, st, m0);
    var s2 := CFP.Step(r, s1, m1);
    var s3 := CFP.Step(r, s2, m2);
    assert [m2][1..] == [];
    assert CFP.Steps(r, s2, [m2]) == CFP.Steps(r, s3, []) == s3;
    assert [m1, m2][1..] == [m2];
    assert CFP.Steps(r, s1, [m1, m2]) == s3;
    assert [m0, m1, m2][1..] == [m1, m2];
  }

  /**
   * Wrapped markup-free text is tokenized into the start token, the spec,
   * the format token, the text and the stop token.
   */
  lemma WrappedTokens(spec: string, t: string)
    requires spec != "" && NoStructural(spec) && spec[|spec| - 1] != Escape
    requires SafeText(t)
    ensures CFP.Tokens("<" + spec + ":" + t + ">") == ["<", spec, ":", t, ">"]
  {
    var r := "<" + spec + ":" + t + ">";
    var a := |spec| + 1;
    var b := a + |t| + 1;
    var m0, m1, m2 := Match(0, 0, '<'), Match(a, a, ':'), Match(b, b, '>');
    WrappedMatches(spec, t);
    var st0 := CFP.TokState([], -1, "", -1);
    assert CFP.Init(r, m0) == st0;
    SliceFromLast(r, 0);
    var st1 := CFP.TokState(["<"], 1, "", 1);
    assert CFP.Step(r, st0, m0) == st1 by { assert !m0.Escaped(); }
    StepAfterText(r, st1, m1);
    assert r[1..a] == spec;
    var st2 := CFP.TokState(["<", spec, ":"], a + 1, "", a + 1);
    assert CFP.Step(r, st1, m1) == st2 by { assert ["<"] + [spec, [':']] == ["<", spec, ":"]; }
    StepAfterText(r, st2, m2);
    assert r[a + 1..b] == t;
    var st3 := CFP.TokState(["<", spec, ":", t, ">"], b + 1, "", b + 1);
    assert CFP.Step(r, st2, m2) == st3 by { assert ["<", spec, ":"] + [t, ['>']] == ["<", spec, ":", t, ">"]; }
    ThreeSteps(r, st0, m0, m1, m2);
    assert CFP.Finish(r, st3) == st3.out + [] + [];
    assert CFP.Tokens(r) == CFP.Finish(r, CFP.Steps(r, CFP.Init(r, m0), [m0, m1, m2]));
  }

  /** The five tokens of a wrapped text parse to that text in the spec's colours. */
  lemma WrappedParse(spec: string, t: string, colors: CFP.Scope)
    requires CFP.ExtractSpec(spec) == Ok(colors)
    requires t != "" && !CFP.IsMarkupToken(t)
    ensures CFP.ParseTokens(["<", spec, ":", t, ">"]) ==
      CFP.Outcome([CFP.Segment(t, CFP.Merge(CFP.Plain, colors))], CFP.Finished)
  {
    var tokens := ["<", spec, ":", t, ">"];
    var top := CFP.Merge(CFP.Plain, colors);
    var entered := CFP.ParseState([], "", 1, [CFP.Plain, top]);
    assert CFP.Flush(CFP.Start) == [] && CFP.Top(CFP.Start) == CFP.Plain;
    assert CFP.Start.stack + [top] == [CFP.Plain, top];
    assert tokens[0] == "<" && tokens[1] == spec;
    assert CFP.ParseFrom(tokens, 0, CFP.Start) == CFP.ParseFrom(tokens, 2, entered);
    assert ":" != "<";
    assert CFP.ParseFrom(tokens, 2, entered) == CFP.ParseFrom(tokens, 3, entered.(state := 2));
    var inside := entered.(state := 2, txt := t);
    assert "" + t == t;
    assert CFP.ParseFrom(tokens, 3, entered.(state := 2)) == CFP.ParseFrom(tokens, 4, inside);
    assert ">" != "<" && ">" != ":";
    assert [CFP.Plain, top][..1] == [CFP.Plain];
    var done := CFP.ParseState([CFP.Segment(t, top)], "", 0, [CFP.Plain]);
    assert CFP.ParseFrom(tokens, 4, inside) == CFP.ParseFrom(tokens, 5, done);
  }

  /**
   * What `formatcolor` builds from markup-free text and at least one truthy
   * colour, the parser reads back as that one text in those colours.
   */
  lemma FormatColorParses(s: string, fg: Option<string>, bg: Option<string>)
    requires SafeText(s) && SafeColor(fg) && SafeColor(bg)
    requires CFP.Truthy(fg) || CFP.Truthy(bg)
    ensures CFP.ParseTokens(CFP.Tokens(FormatColor(s, fg, bg))) ==
      CFP.Outcome([CFP.Segment(s, CFP.Scope(Kept(fg), Kept(bg)))], CFP.Finished)
  {
    var spec := Join(SpecPieces(fg, bg), ',');
    SpecShape(fg, bg);
    SpecExtracts(fg, bg);
    WrappedTokens(spec, s);
    assert s[0] != '<' && s[0] != ':' && s[0] != '>';
    WrappedParse(spec, s, CFP.Scope(Kept(fg), Kept(bg)));
  }

  /**
   * With colours that are set but all empty, the spec is empty and the
   * markup `formatcolor` builds is rejected by the parser.
   */
  lemma FormatColorEmptySpec(s: string, fg: Option<string>, bg: Option<string>)
    requires SafeText(s) && !(fg == None && bg == None)
    requires !CFP.Truthy(fg) && !CFP.Truthy(bg)
    ensures FormatColor(s, fg, bg) == "<:" + s + ">"
    ensures CFP.ExtractSpec("").Err?
  {
    assert SpecPieces(fg, bg) == [];
    assert Split("", ',') == [""];
  }

  // ---------------------------------------------------------------------------
  // sorted(indices) and itertools.groupby over runs of consecutive values
  // ---------------------------------------------------------------------------

  predicate Sorted(xs: seq<int>) { forall i, j :: 0 <= i < j < |xs| ==> xs[i] <= xs[j] }

  predicate Increasing(xs: seq<int>) { forall i, j :: 0 <= i < j < |xs| ==> xs[i] < xs[j] }

  /** `x` inserted into `xs` before the first value not below it. */
  function Insert(x: int, xs: seq<int>): (r: seq<int>)
    ensures multiset(r) == multiset(xs) + multiset{x}
    decreases |xs|
  {
    if xs == [] || x <= xs[0] then [x] + xs
    else
      assert xs == [xs[0]] + xs[1..];
      [xs[0]] + Insert(x, xs[1..])
  }

  /** Inserting into a sorted list keeps it sorted. */
  lemma {:induction false} InsertSorted(x: int, xs: seq<int>)
    requires Sorted(xs)
    ensures Sorted(Insert(x, xs))
    decreases |xs|
  {
    if xs != [] && x > xs[0] {
      var rest := Insert(x, xs[1..]);
      InsertSorted(x, xs[1..]);
      forall k | 0 <= k < |rest| ensures xs[0] <= rest[k] {
        assert rest[k] in multiset(rest);
        if rest[k] != x {
          assert rest[k] in multiset(xs[1..]);
          assert rest[k] in xs[1..];
        }
      }
      var r := [xs[0]] + rest;
      forall i, j | 0 <= i < j < |r| ensures r[i] <= r[j] {
        assert r[j] == rest[j - 1];
        if i > 0 {
          assert r[i] == rest[i - 1];
        }
      }
    }
  }

  /** `sorted(xs)`: the same values in ascending order. */
  function SortInts(xs: seq<int>): (r: seq<int>)
    ensures multiset(r) == multiset(xs)
    ensures Sorted(r)
    decreases |xs|
  {
    if xs == [] then []
    else
      assert xs == [xs[0]] + xs[1..];
      InsertSorted(xs[0], SortInts(xs[1..]));
      Insert(xs[0], SortInts(xs[1..]))
  }

  /** Sorting a sorted list changes nothing. */
  lemma {:induction false} SortIntsSorted(xs: seq<int>)
    requires Sorted(xs)
    ensures SortInts(xs) == xs
    decreases |xs|
  {
    if xs != [] {
      SortIntsSorted(xs[1..]);
      assert xs == [xs[0]] + xs[1..];
    }
  }

  /** One group: `lo` is its first value, `hi` one past its last (`s, e` in the source). */
  datatype Run = Run(lo: int, hi: int)

  /**
   * The groups of `groupby(enumerate(xs), lambda x: x[0] - x[1])`: two
   * neighbours share a key exactly when the second is the first plus one.
   */
  function Runs(xs: seq<int>): seq<Run>
    decreases |xs|
  {
    if xs == [] then [] else Extend(Runs(xs[..|xs| - 1]), xs[|xs| - 1])
  }

  /** The groups after one more value: it joins the last group when it is one past its end, else opens its own. */
  function Extend(init: seq<Run>, x: int): seq<Run>
  {
    if init != [] && init[|init| - 1].hi == x then init[..|init| - 1] + [Run(init[|init| - 1].lo, x + 1)]
    else init + [Run(x, x + 1)]
  }

  lemma LastSplit<T>(xs: seq<T>)
    requires xs != []
    ensures xs[..|xs| - 1] + [xs[|xs| - 1]] == xs
  {
  }

  lemma RunsSnoc(xs: seq<int>)
    requires xs != []
    ensures Runs(xs) == Extend(Runs(xs[..|xs| - 1]), xs[|xs| - 1])
  {
  }

  lemma RunsAppend(front: seq<int>, x: int)
    ensures Runs(front + [x]) == Extend(Runs(front), x)
  {
    assert (front + [x])[..|front|] == front;
  }

  /** Every group holds at least one value. */
  predicate Proper(runs: seq<Run>) { forall j :: 0 <= j < |runs| ==> runs[j].lo < runs[j].hi }

  lemma ExtendShape(init: seq<Run>, x: int)
    requires Proper(init)
    ensures var ext := Extend(init, x);
      |ext| <= |init| + 1 && ext != [] && ext[|ext| - 1].hi == x + 1 && Proper(ext)
  {
    var ext := Extend(init, x);
    if init != [] && init[|init| - 1].hi == x {
      assert forall j :: 0 <= j < |ext| - 1 ==> ext[j] == init[j];
    } else {
      assert forall j :: 0 <= j < |init| ==> ext[j] == init[j];
    }
  }

  /** No more groups than values, none without values, and the last ends one past the last value. */
  lemma {:induction false} RunsShape(xs: seq<int>)
    ensures |Runs(xs)| <= |xs| && (Runs(xs) == [] <==> xs == []) && Proper(Runs(xs))
    ensures xs != [] ==> Runs(xs)[|Runs(xs)| - 1].hi == xs[|xs| - 1] + 1
    decreases |xs|
  {
    if xs != [] {
      var front := xs[..|xs| - 1];
      RunsShape(front);
      RunsSnoc(xs);
      ExtendShape(Runs(front), xs[|xs| - 1]);
    }
  }

  /** The source's `groupby` loop, one element at a time, comparing keys. */
  method GroupRuns(xs: seq<int>) returns (runs: seq<Run>)
    ensures runs == Runs(xs)
  {
    runs := [];
    var key := 0;
    for i := 0 to |xs|
      invariant runs == Runs(xs[..i])
      invariant i > 0 ==> key == (i - 1) - xs[i - 1]
    {
      runs := GroupStep(xs, i, runs, key);
      key := i - xs[i];
    }
    assert xs[..|xs|] == xs;
  }

  /** One element of the `groupby` loop: it joins the open group exactly when its key is the previous key. */
  method GroupStep(xs: seq<int>, i: nat, runs: seq<Run>, key: int) returns (runs': seq<Run>)
    requires i < |xs| && runs == Runs(xs[..i])
    requires i > 0 ==> key == (i - 1) - xs[i - 1]
    ensures runs' == Runs(xs[..i + 1])
  {
    var front := xs[..i + 1];
    assert front[..i] == xs[..i] && front[i] == xs[i];
    RunsSnoc(front);
    if i > 0 {
      RunsLast(xs, i);
    }
    if i > 0 && i - xs[i] == key {
      assert runs[|runs| - 1].hi == xs[i];
      runs' := runs[..|runs| - 1] + [Run(runs[|runs| - 1].lo, xs[i] + 1)];
    } else {
      assert !(runs != [] && runs[|runs| - 1].hi == xs[i]);
      runs' := runs + [Run(xs[i], xs[i] + 1)];
    }
  }

  /** The open group ends one past the previous element. */
  lemma RunsLast(xs: seq<int>, i: nat)
    requires 0 < i <= |xs|
    ensures Runs(xs[..i]) != [] && Runs(xs[..i])[|Runs(xs[..i])| - 1].hi == xs[i - 1] + 1
  {
    RunsShape(xs[..i]);
    assert xs[..i][i - 1] == xs[i - 1];
  }

  /** The values `lo, lo + 1, ..., hi - 1`. */
  function Range(lo: int, hi: int): (r: seq<int>)
    ensures |r| == if lo <= hi then hi - lo else 0
  {
    if hi <= lo then [] else seq(hi - lo, k requires 0 <= k < hi - lo => lo + k)
  }

  lemma InRange(lo: int, hi: int, k: int)
    ensures k in Range(lo, hi) <==> lo <= k < hi
  {
    if lo <= k < hi {
      assert Range(lo, hi)[k - lo] == k;
    }
  }

  lemma RangeSnoc(lo: int, hi: int)
    requires lo <= hi
    ensures Range(lo, hi + 1) == Range(lo, hi) + [hi]
  {
  }

  /** Every value of every group, in order. */
  function Expand(runs: seq<Run>): seq<int>
    decreases |runs|
  {
    if runs == [] then []
    else Expand(runs[..|runs| - 1]) + Range(runs[|runs| - 1].lo, runs[|runs| - 1].hi)
  }

  lemma ExpandSnoc(runs: seq<Run>, r: Run)
    ensures Expand(runs + [r]) == Expand(runs) + Range(r.lo, r.hi)
  {
    assert (runs + [r])[..|runs|] == runs;
  }

  /** One more value adds exactly that value to the expansion. */
  lemma ExtendExpand(init: seq<Run>, x: int)
    requires Proper(init)
    ensures Expand(Extend(init, x)) == Expand(init) + [x]
  {
    if init != [] && init[|init| - 1].hi == x {
      var pre, last := init[..|init| - 1], init[|init| - 1];
      LastSplit(init);
      ExpandSnoc(pre, last);
      ExpandSnoc(pre, Run(last.lo, x + 1));
      RangeSnoc(last.lo, x);
      assert Expand(Extend(init, x)) == Expand(pre) + (Range(last.lo, x) + [x]);
    } else {
      ExpandSnoc(init, Run(x, x + 1));
      RangeSnoc(x, x);
      assert Range(x, x + 1) == [x];
    }
  }

  /** Expanding the groups gives the values back: the groups split the list and lose nothing. */
  lemma {:induction false} RunsExpand(xs: seq<int>)
    ensures Expand(Runs(xs)) == xs
    decreases |xs|
  {
    if xs != [] {
      var front := xs[..|xs| - 1];
      RunsExpand(front);
      RunsShape(front);
      RunsSnoc(xs);
      ExtendExpand(Runs(front), xs[|xs| - 1]);
      LastSplit(xs);
    }
  }

  /** Neighbouring groups are never contiguous. */
  predicate Separated(runs: seq<Run>) { forall j :: 0 <= j < |runs| - 1 ==> runs[j].hi != runs[j + 1].lo }

  lemma ExtendSeparated(init: seq<Run>, x: int)
    requires Separated(init)
    ensures Separated(Extend(init, x))
  {
    var ext := Extend(init, x);
    if init != [] && init[|init| - 1].hi == x {
      assert forall j :: 0 <= j < |ext| - 1 ==> ext[j] == init[j];
      assert ext[|ext| - 1].lo == init[|init| - 1].lo;
    } else {
      assert forall j :: 0 <= j < |init| ==> ext[j] == init[j];
    }
  }

  /** Each group is as long as it can be: the next one never starts where it ends. */
  lemma {:induction false} RunsSeparated(xs: seq<int>)
    ensures Separated(Runs(xs))
    decreases |xs|
  {
    if xs != [] {
      var front := xs[..|xs| - 1];
      RunsSeparated(front);
      RunsSnoc(xs);
      ExtendSeparated(Runs(front), xs[|xs| - 1]);
    }
  }

  /** Groups in ascending order with gaps between them. */
  predicate Ordered(runs: seq<Run>)
  {
    forall j :: 0 <= j < |runs| ==>
      runs[j].lo < runs[j].hi && (j + 1 < |runs| ==> runs[j].hi < runs[j + 1].lo)
  }

  /** Groups whose values all lie in `lo .. hi - 1`. */
  predicate Between(runs: seq<Run>, lo: int, hi: int)
  {
    forall j :: 0 <= j < |runs| ==> lo <= runs[j].lo && runs[j].hi <= hi
  }

  lemma InitKeeps(runs: seq<Run>, n: int)
    requires runs != []
    ensures Ordered(runs) ==> Ordered(runs[..|runs| - 1])
    ensures Between(runs, 0, n) ==> Between(runs[..|runs| - 1], 0, n)
  {
    var init := runs[..|runs| - 1];
    assert forall j :: 0 <= j < |init| ==> init[j] == runs[j];
  }

  /** A value at or past where ordered groups end keeps them ordered. */
  lemma ExtendOrdered(init: seq<Run>, x: int)
    requires Ordered(init) && (init != [] ==> init[|init| - 1].hi <= x)
    ensures Ordered(Extend(init, x))
  {
    var ext := Extend(init, x);
    if init != [] && init[|init| - 1].hi == x {
      assert forall j :: 0 <= j < |ext| - 1 ==> ext[j] == init[j];
    } else {
      assert forall j :: 0 <= j < |init| ==> ext[j] == init[j];
    }
  }

  /** Strictly increasing values fall into ordered groups. */
  lemma {:induction false} RunsOrdered(xs: seq<int>)
    requires Increasing(xs)
    ensures Ordered(Runs(xs))
    decreases |xs|
  {
    if xs != [] {
      var front := xs[..|xs| - 1];
      var x := xs[|xs| - 1];
      assert Increasing(front);
      RunsOrdered(front);
      RunsShape(front);
      RunsSnoc(xs);
      assert front != [] ==> front[|front| - 1] < x;
      ExtendOrdered(Runs(front), x);
    }
  }

  lemma ExtendBetween(init: seq<Run>, x: int, lo: int)
    requires Between(init, lo, x) && lo <= x
    ensures Between(Extend(init, x), lo, x + 1)
  {
    var ext := Extend(init, x);
    if init != [] && init[|init| - 1].hi == x {
      assert forall j :: 0 <= j < |ext| - 1 ==> ext[j] == init[j];
      assert ext[|ext| - 1].lo == init[|init| - 1].lo;
    } else {
      assert forall j :: 0 <= j < |init| ==> ext[j] == init[j];
    }
  }

  /** Over strictly increasing values, every group lies between the first value and one past the last. */
  lemma {:induction false} RunsBounds(xs: seq<int>)
    requires Increasing(xs) && xs != []
    ensures Between(Runs(xs), xs[0], xs[|xs| - 1] + 1)
    decreases |xs|
  {
    var front := xs[..|xs| - 1];
    var x := xs[|xs| - 1];
    RunsSnoc(xs);
    if front == [] {
      ExtendBetween([], x, x);
    } else {
      assert Increasing(front);
      RunsBounds(front);
      assert front[0] == xs[0] && front[|front| - 1] + 1 <= x;
      assert Between(Runs(front), xs[0], x);
      ExtendBetween(Runs(front), x, xs[0]);
    }
  }

  /** Each group starts at one of the values. */
  predicate StartsIn(runs: seq<Run>, vs: seq<int>) { forall j :: 0 <= j < |runs| ==> runs[j].lo in vs }

  lemma ExtendStarts(init: seq<Run>, x: int, front: seq<int>)
    requires StartsIn(init, front)
    ensures StartsIn(Extend(init, x), front + [x])
  {
    var ext := Extend(init, x);
    assert forall v :: v in front ==> v in front + [x];
    if init != [] && init[|init| - 1].hi == x {
      assert forall j :: 0 <= j < |ext| - 1 ==> ext[j] == init[j];
      assert ext[|ext| - 1].lo == init[|init| - 1].lo;
    } else {
      assert forall j :: 0 <= j < |init| ==> ext[j] == init[j];
      assert (front + [x])[|front|] == x;
    }
  }

  lemma {:induction false} RunsStartIn(xs: seq<int>)
    ensures StartsIn(Runs(xs), xs)
    decreases |xs|
  {
    if xs != [] {
      var front := xs[..|xs| - 1];
      RunsStartIn(front);
      RunsSnoc(xs);
      ExtendStarts(Runs(front), xs[|xs| - 1], front);
      LastSplit(xs);
    }
  }

  // ---------------------------------------------------------------------------
  // The loop both formatbyindex and highlight run over the groups
  // ---------------------------------------------------------------------------

  /** For one group taken: the text since the previous group, and the group's own text. */
  datatype Cut = Cut(before: string, run: string)

  /**
   * The loop over the groups: the cuts made, and `p`, the position after the
   * last group taken. `formatbyindex` skips a group that starts at or past
   * the end (`skipPastEnd`); `highlight` takes every group.
   */
  function Cuts(s: string, runs: seq<Run>, skipPastEnd: bool): (r: (seq<Cut>, int))
    decreases |runs|
  {
    if runs == [] then ([], 0)
    else
      var (cuts, p) := Cuts(s, runs[..|runs| - 1], skipPastEnd);
      var run := runs[|runs| - 1];
      if skipPastEnd && run.lo >= |s| then (cuts, p)
      else (cuts + [Cut(PySlice(s, p, run.lo), PySlice(s, run.lo, run.hi))], run.hi)
  }

  /** Taking one more group (when `highlight` takes every group). */
  lemma CutsSnoc(s: string, runs: seq<Run>, i: nat)
    requires i < |runs|
    ensures var (cuts, p) := Cuts(s, runs[..i], false);
      Cuts(s, runs[..i + 1], false) ==
        (cuts + [Cut(PySlice(s, p, runs[i].lo), PySlice(s, runs[i].lo, runs[i].hi))], runs[i].hi)
  {
    var front := runs[..i + 1];
    assert front[..i] == runs[..i] && front[i] == runs[i];
  }

  /** `string[p:]` when `p < len(string)`, else nothing. */
  function Rest(s: string, p: int): string
  {
    if p < |s| then PySlice(s, p, |s|) else ""
  }

  /** Where the last of the groups ends, or 0 without groups. */
  function Reach(runs: seq<Run>): int
  {
    if runs == [] then 0 else runs[|runs| - 1].hi
  }

  /** Each character of `t` with the same mark. */
  function Paint<T>(t: string, mark: T): (r: seq<(char, T)>)
    ensures |r| == |t|
  {
    seq(|t|, k requires 0 <= k < |t| => (t[k], mark))
  }

  /** The characters of the cuts, those between groups marked `off`, those of a group `on`. */
  function CutsPainted<T>(cuts: seq<Cut>, off: T, on: T): seq<(char, T)>
    decreases |cuts|
  {
    if cuts == [] then []
    else
      var c := cuts[|cuts| - 1];
      CutsPainted(cuts[..|cuts| - 1], off, on) + Paint(c.before, off) + Paint(c.run, on)
  }

  /** The characters of `t`, marked `on` exactly where a group covers their position. */
  function Marking<T>(t: string, runs: seq<Run>, off: T, on: T): (r: seq<(char, T)>)
    ensures |r| == |t|
  {
    seq(|t|, k requires 0 <= k < |t| => (t[k], if k in Expand(runs) then on else off))
  }

  /** Ordered groups end before the next one starts, so everything they cover lies below where the last ends. */
  lemma {:induction false} CoveredBelowReach(runs: seq<Run>, k: int)
    requires Ordered(runs) && k in Expand(runs)
    ensures k < Reach(runs)
    decreases |runs|
  {
    var init := runs[..|runs| - 1];
    var last := runs[|runs| - 1];
    InRange(last.lo, last.hi, k);
    if k !in Range(last.lo, last.hi) {
      InitKeeps(runs, 0);
      CoveredBelowReach(init, k);
      assert init[|init| - 1] == runs[|runs| - 2];
    }
  }

  /** The marks after one more group: below it as before, the gap off, the group on. */
  lemma MarkingStep<T>(s: string, init: seq<Run>, run: Run, off: T, on: T)
    requires Ordered(init) && 0 <= Reach(init) <= run.lo < run.hi <= |s|
    ensures Marking(s[..run.hi], init + [run], off, on) ==
      Marking(s[..Reach(init)], init, off, on) + Paint(s[Reach(init)..run.lo], off) + Paint(s[run.lo..run.hi], on)
  {
    var p := Reach(init);
    ExpandSnoc(init, run);
    var lhs := Marking(s[..run.hi], init + [run], off, on);
    var rhs := Marking(s[..p], init, off, on) + Paint(s[p..run.lo], off) + Paint(s[run.lo..run.hi], on);
    forall k | 0 <= k < run.hi ensures lhs[k] == rhs[k] {
      InRange(run.lo, run.hi, k);
      if k >= p && k in Expand(init) {
        CoveredBelowReach(init, k);
      }
    }
  }

  /** Over ordered groups inside the string, the cuts mark exactly the characters the groups cover. */
  lemma {:induction false} CutsReach(s: string, runs: seq<Run>, skipPastEnd: bool)
    requires Ordered(runs) && Between(runs, 0, |s|)
    ensures 0 <= Reach(runs) <= |s| && Cuts(s, runs, skipPastEnd).1 == Reach(runs)
    decreases |runs|
  {
    if runs != [] {
      InitKeeps(runs, |s|);
      CutsReach(s, runs[..|runs| - 1], skipPastEnd);
    }
  }

  lemma {:induction false} CutsPaint<T>(s: string, runs: seq<Run>, skipPastEnd: bool, off: T, on: T)
    requires Ordered(runs) && Between(runs, 0, |s|)
    ensures 0 <= Reach(runs) <= |s|
    ensures CutsPainted(Cuts(s, runs, skipPastEnd).0, off, on) == Marking(s[..Reach(runs)], runs, off, on)
    decreases |runs|
  {
    CutsReach(s, runs, skipPastEnd);
    if runs != [] {
      InitKeeps(runs, |s|);
      CutsPaint(s, runs[..|runs| - 1], skipPastEnd, off, on);
      CutsPaintStep(s, runs, skipPastEnd, off, on);
    }
  }

  /** The step of `CutsPaint`: the marks of the earlier groups, then the gap and the last group. */
  lemma CutsPaintStep<T>(s: string, runs: seq<Run>, skipPastEnd: bool, off: T, on: T)
    requires runs != [] && Ordered(runs) && Between(runs, 0, |s|)
    requires var init := runs[..|runs| - 1];
      Ordered(init) && Between(init, 0, |s|) && 0 <= Reach(init) <= |s| &&
      CutsPainted(Cuts(s, init, skipPastEnd).0, off, on) == Marking(s[..Reach(init)], init, off, on)
    ensures CutsPainted(Cuts(s, runs, skipPastEnd).0, off, on) == Marking(s[..Reach(runs)], runs, off, on)
  {
    var init := runs[..|runs| - 1];
    var run := runs[|runs| - 1];
    CutsReach(s, init, skipPastEnd);
    var p := Reach(init);
    assert p <= run.lo by {
      if init != [] {
        assert init[|init| - 1] == runs[|runs| - 2];
      }
    }
    LastSplit(runs);
    MarkingStep(s, init, run, off, on);
    CutsTaken(s, runs, skipPastEnd);
    CutsPaintedSnoc(Cuts(s, init, skipPastEnd).0, Cut(s[p..run.lo], s[run.lo..run.hi]), off, on);
  }

  /** A group inside the string is taken: one more cut, from where the previous group ended. */
  lemma CutsTaken(s: string, runs: seq<Run>, skipPastEnd: bool)
    requires runs != [] && runs[|runs| - 1].hi <= |s|
    requires 0 <= Cuts(s, runs[..|runs| - 1], skipPastEnd).1 <= runs[|runs| - 1].lo < runs[|runs| - 1].hi
    ensures var (cuts, p) := Cuts(s, runs[..|runs| - 1], skipPastEnd); var run := runs[|runs| - 1];
      Cuts(s, runs, skipPastEnd) == (cuts + [Cut(s[p..run.lo], s[run.lo..run.hi])], run.hi)
  {
  }

  lemma CutsPaintedSnoc<T>(cuts: seq<Cut>, c: Cut, off: T, on: T)
    ensures CutsPainted(cuts + [c], off, on) == CutsPainted(cuts, off, on) + Paint(c.before, off) + Paint(c.run, on)
  {
    assert (cuts + [c])[..|cuts|] == cuts;
  }

  /** Marking a prefix and leaving the rest unmarked marks the whole string, when no group reaches past the prefix. */
  lemma MarkingRest<T>(s: string, runs: seq<Run>, off: T, on: T)
    requires Ordered(runs) && 0 <= Reach(runs) <= |s|
    ensures Marking(s[..Reach(runs)], runs, off, on) + Paint(Rest(s, Reach(runs)), off) == Marking(s, runs, off, on)
  {
    var p := Reach(runs);
    var lhs := Marking(s[..p], runs, off, on) + Paint(Rest(s, p), off);
    var rhs := Marking(s, runs, off, on);
    forall k | 0 <= k < |s| ensures lhs[k] == rhs[k] {
      if k >= p && k in Expand(runs) {
        CoveredBelowReach(runs, k);
      }
    }
  }

  /** With the rest of the string added, the whole string is marked where the groups cover it. */
  lemma CutsPaintAll<T>(s: string, runs: seq<Run>, skipPastEnd: bool, off: T, on: T)
    requires Ordered(runs) && Between(runs, 0, |s|)
    ensures var (cuts, p) := Cuts(s, runs, skipPastEnd);
      CutsPainted(cuts, off, on) + Paint(Rest(s, p), off) == Marking(s, runs, off, on)
  {
    CutsReach(s, runs, skipPastEnd);
    CutsPaint(s, runs, skipPastEnd, off, on);
    MarkingRest(s, runs, off, on);
  }

  // ---------------------------------------------------------------------------
  // formatbyindex
  // ---------------------------------------------------------------------------

  /** The cuts joined, each group's text wrapped by `formatcolor`. */
  function Render(cuts: seq<Cut>, fg: Option<string>, bg: Option<string>): string
    decreases |cuts|
  {
    if cuts == [] then ""
    else
      var c := cuts[|cuts| - 1];
      Render(cuts[..|cuts| - 1], fg, bg) + c.before + FormatColor(c.run, fg, bg)
  }

  /** `formatbyindex`. */
  function ByIndex(s: string, fg: Option<string>, bg: Option<string>, indices: seq<int>): string
  {
    if s == "" || indices == [] || (fg == None && bg == None) then s
    else ByIndexRuns(s, fg, bg, Runs(SortInts(indices)))
  }

  /** `formatbyindex` once the groups are known. */
  function ByIndexRuns(s: string, fg: Option<string>, bg: Option<string>, runs: seq<Run>): string
  {
    var (cuts, p) := Cuts(s, runs, true);
    Render(cuts, fg, bg) + Rest(s, p)
  }

  /** The source's `formatbyindex`. */
  method FormatByIndex(s: string, fg: Option<string>, bg: Option<string>, indices: seq<int>) returns (result: string)
    ensures result == ByIndex(s, fg, bg, indices)
  {
    if s == "" || indices == [] || (fg == None && bg == None) {
      result := s;
    } else {
      var runs := GroupRuns(SortInts(indices));
      result := RenderRuns(s, fg, bg, runs);
    }
  }

  /** The source's loop over the groups, building the result left to right. */
  method RenderRuns(s: string, fg: Option<string>, bg: Option<string>, runs: seq<Run>) returns (result: string)
    ensures result == ByIndexRuns(s, fg, bg, runs)
  {
    result := "";
    var p := 0;
    for i := 0 to |runs|
      invariant p == Cuts(s, runs[..i], true).1
      invariant result == Render(Cuts(s, runs[..i], true).0, fg, bg)
    {
      p, result := RenderRun(s, fg, bg, runs, i, p, result);
    }
    assert runs[..|runs|] == runs;
    if p < |s| {
      result := result + PySlice(s, p, |s|);
    }
  }

  /** One group of the loop: skipped when it starts at or past the end, otherwise cut and wrapped. */
  method RenderRun(s: string, fg: Option<string>, bg: Option<string>, runs: seq<Run>, i: nat, p: int, result: string)
    returns (p': int, result': string)
    requires i < |runs| && p == Cuts(s, runs[..i], true).1
    requires result == Render(Cuts(s, runs[..i], true).0, fg, bg)
    ensures p' == Cuts(s, runs[..i + 1], true).1
    ensures result' == Render(Cuts(s, runs[..i + 1], true).0, fg, bg)
  {
    var front := runs[..i + 1];
    assert front[..i] == runs[..i] && front[i] == runs[i];
    var run := runs[i];
    p', result' := p, result;
    if run.lo < |s| {
      ghost var cuts := Cuts(s, runs[..i], true).0;
      var c := Cut(PySlice(s, p, run.lo), PySlice(s, run.lo, run.hi));
      RenderSnoc(cuts, c, fg, bg);
      result' := result + c.before + FormatColor(c.run, fg, bg);
      p' := run.hi;
    }
  }

  lemma RenderSnoc(cuts: seq<Cut>, c: Cut, fg: Option<string>, bg: Option<string>)
    ensures Render(cuts + [c], fg, bg) == Render(cuts, fg, bg) + c.before + FormatColor(c.run, fg, bg)
  {
    assert (cuts + [c])[..|cuts|] == cuts;
  }

  /**
   * For distinct indices inside the string, in ascending order, the result
   * is the string cut at the maximal groups of consecutive indices, each
   * group wrapped by `formatcolor`: exactly the indexed characters are in
   * wrapped cuts.
   */
  lemma ByIndexWraps(s: string, fg: Option<string>, bg: Option<string>, indices: seq<int>)
    requires s != "" && indices != [] && !(fg == None && bg == None)
    requires Increasing(indices) && forall i :: 0 <= i < |indices| ==> 0 <= indices[i] < |s|
    ensures var (cuts, p) := Cuts(s, Runs(indices), true);
      ByIndex(s, fg, bg, indices) == Render(cuts, fg, bg) + Rest(s, p) &&
      CutsPainted(cuts, false, true) + Paint(Rest(s, p), false) ==
        seq(|s|, k requires 0 <= k < |s| => (s[k], k in indices))
  {
    ByIndexSorted(s, fg, bg, indices);
    RunsOrdered(indices);
    RunsBounds(indices);
    var runs := Runs(indices);
    assert Between(runs, 0, |s|);
    CutsPaintAll(s, runs, true, false, true);
    RunsExpand(indices);
    MarkingIndexed(s, runs, indices);
  }

  /** Over sorted indices sorting changes nothing, so `formatbyindex` works on their own groups. */
  lemma ByIndexSorted(s: string, fg: Option<string>, bg: Option<string>, indices: seq<int>)
    requires s != "" && indices != [] && !(fg == None && bg == None) && Sorted(indices)
    ensures ByIndex(s, fg, bg, indices) == ByIndexRuns(s, fg, bg, Runs(indices))
  {
    SortIntsSorted(indices);
  }

  lemma MarkingIndexed(s: string, runs: seq<Run>, xs: seq<int>)
    requires Expand(runs) == xs
    ensures Marking(s, runs, false, true) == seq(|s|, k requires 0 <= k < |s| => (s[k], k in xs))
  {
    MarkingExpands(s, runs, xs, false, true);
    assert seq(|s|, k requires 0 <= k < |s| => (s[k], if k in xs then true else false)) ==
      seq(|s|, k requires 0 <= k < |s| => (s[k], k in xs));
  }

  /** Groups that expand to `xs` mark exactly the positions in `xs`. */
  lemma MarkingExpands<T>(s: string, runs: seq<Run>, xs: seq<int>, off: T, on: T)
    requires Expand(runs) == xs
    ensures Marking(s, runs, off, on) == seq(|s|, k requires 0 <= k < |s| => (s[k], if k in xs then on else off))
  {
  }

  /** Groups that start at or past the end are skipped: the cuts stay empty. */
  lemma {:induction false} CutsPastEnd(s: string, runs: seq<Run>)
    requires forall j :: 0 <= j < |runs| ==> runs[j].lo >= |s|
    ensures Cuts(s, runs, true) == ([], 0)
    decreases |runs|
  {
    if runs != [] {
      CutsPastEnd(s, runs[..|runs| - 1]);
    }
  }

  /** Indices all at or past the end leave the string as it is. */
  lemma ByIndexPastEnd(s: string, fg: Option<string>, bg: Option<string>, indices: seq<int>)
    requires forall i :: 0 <= i < |indices| ==> indices[i] >= |s|
    ensures ByIndex(s, fg, bg, indices) == s
  {
    var sorted := SortInts(indices);
    var runs := Runs(sorted);
    forall v | v in sorted ensures v >= |s| {
      SortedFrom(indices, v);
    }
    RunsStartPast(sorted, |s|);
    CutsPastEnd(s, runs);
    if !(s == "" || indices == [] || (fg == None && bg == None)) {
      assert ByIndex(s, fg, bg, indices) == Render([], fg, bg) + Rest(s, 0);
    }
  }

  lemma SortedFrom(xs: seq<int>, v: int)
    requires v in SortInts(xs)
    ensures exists i :: 0 <= i < |xs| && xs[i] == v
  {
    assert v in multiset(SortInts(xs));
    assert v in multiset(xs);
    assert v in xs;
  }

  /** When every value is at least `n`, so is the start of every group. */
  lemma RunsStartPast(xs: seq<int>, n: int)
    requires forall v :: v in xs ==> v >= n
    ensures forall j :: 0 <= j < |Runs(xs)| ==> Runs(xs)[j].lo >= n
  {
    RunsStartIn(xs);
  }

  /**
   * A repeated index starts a group of its own, so its character is wrapped
   * twice: indices `[i, i, i + 1]` give the text before `i`, the wrapped
   * character at `i`, the wrapped two characters from `i`, then the rest
   * (for "abcd" and `[1, 1, 2]`: `a`, the wrapped `b`, the wrapped `bc`, `d`).
   */
  lemma ByIndexRepeated(s: string, fg: Option<string>, bg: Option<string>, i: nat)
    requires i + 2 <= |s| && !(fg == None && bg == None)
    ensures ByIndex(s, fg, bg, [i, i, i + 1]) ==
      s[..i] + FormatColor(s[i..i + 1], fg, bg) + FormatColor(s[i..i + 2], fg, bg) + s[i + 2..]
  {
    var xs := [i, i, i + 1];
    assert Sorted(xs);
    ByIndexSorted(s, fg, bg, xs);
    RepeatedRuns(i);
    RepeatedRender(s, fg, bg, i);
  }

  lemma RepeatedRender(s: string, fg: Option<string>, bg: Option<string>, i: nat)
    requires i + 2 <= |s|
    ensures ByIndexRuns(s, fg, bg, [Run(i, i + 1), Run(i, i + 2)]) ==
      s[..i] + FormatColor(s[i..i + 1], fg, bg) + FormatColor(s[i..i + 2], fg, bg) + s[i + 2..]
  {
    var runs := [Run(i, i + 1), Run(i, i + 2)];
    var c1, c2 := Cut(s[..i], s[i..i + 1]), Cut("", s[i..i + 2]);
    RepeatedCuts(s, i);
    assert ByIndexRuns(s, fg, bg, runs) == Render([c1, c2], fg, bg) + s[i + 2..];
    var r1 := s[..i] + FormatColor(s[i..i + 1], fg, bg);
    assert Render([c1], fg, bg) == r1 by {
      RenderSnoc([], c1, fg, bg);
      assert [] + [c1] == [c1];
      assert Render([], fg, bg) == "" && "" + s[..i] == s[..i];
    }
    assert Render([c1, c2], fg, bg) == r1 + FormatColor(s[i..i + 2], fg, bg) by {
      RenderSnoc([c1], c2, fg, bg);
      assert [c1] + [c2] == [c1, c2];
      assert r1 + "" == r1;
    }
  }

  lemma RepeatedRuns(i: int)
    ensures Runs([i, i, i + 1]) == [Run(i, i + 1), Run(i, i + 2)]
  {
    RunsAppend([], i);
    assert [] + [i] == [i];
    RunsAppend([i], i);
    assert [i] + [i] == [i, i];
    RunsAppend([i, i], i + 1);
    assert [i, i] + [i + 1] == [i, i, i + 1];
    assert [Run(i, i + 1), Run(i, i + 1)][..1] == [Run(i, i + 1)];
  }

  lemma RepeatedCuts(s: string, i: nat)
    requires i + 2 <= |s|
    ensures Cuts(s, [Run(i, i + 1), Run(i, i + 2)], true) == ([Cut(s[..i], s[i..i + 1]), Cut("", s[i..i + 2])], i + 2)
    ensures Rest(s, i + 2) == s[i + 2..]
  {
    var first, runs := [Run(i, i + 1)], [Run(i, i + 1), Run(i, i + 2)];
    var c1, c2 := Cut(s[..i], s[i..i + 1]), Cut("", s[i..i + 2]);
    CutsLast(s, first, true);
    assert first[..0] == [] && [] + [c1] == [c1];
    assert Cuts(s, first, true) == ([c1], i + 1);
    CutsLast(s, runs, true);
    assert runs[..1] == first;
    assert PySlice(s, i + 1, i) == "";
    assert Cuts(s, runs, true) == ([c1] + [c2], i + 2);
    assert [c1] + [c2] == [c1, c2];
  }

  /** The last group, when taken, adds one cut from where the previous ones ended. */
  lemma CutsLast(s: string, runs: seq<Run>, skipPastEnd: bool)
    requires runs != [] && !(skipPastEnd && runs[|runs| - 1].lo >= |s|)
    ensures var (cuts, p) := Cuts(s, runs[..|runs| - 1], skipPastEnd); var run := runs[|runs| - 1];
      Cuts(s, runs, skipPastEnd) == (cuts + [Cut(PySlice(s, p, run.lo), PySlice(s, run.lo, run.hi))], run.hi)
  {
  }

  // ---------------------------------------------------------------------------
  // The colour manager and the output stream
  // ---------------------------------------------------------------------------

  /** A call on the colour manager or on the output stream. */
  datatype Event =
    | SetColorCall(fg: Option<string>, bg: Option<string>)  // `_color_manager.set_color(fg, bg)`
    | SetDefaultsCall                                       // `_color_manager.set_defaults()`
    | WriteCall(text: string)                               // `target.write(text)`
    | FlushCall                                             // `target.flush()`

  /** The colours in force on the terminal. */
  datatype Colors = Defaults | Colored(fg: Option<string>, bg: Option<string>)

  /** The colour manager's `set_color` sets colours when either is truthy, the defaults otherwise. */
  function InForce(fg: Option<string>, bg: Option<string>): (c: Colors)
    ensures c == Defaults <==> !CFP.Truthy(fg) && !CFP.Truthy(bg)
  {
    if CFP.Truthy(fg) || CFP.Truthy(bg) then Colored(fg, bg) else Defaults
  }

  function Apply(c: Colors, e: Event): Colors
  {
    match e
    case SetColorCall(fg, bg) => InForce(fg, bg)
    case SetDefaultsCall => Defaults
    case _ => c
  }

  /** The colours in force after the calls, starting from `c`. */
  function After(c: Colors, events: seq<Event>): Colors
    decreases |events|
  {
    if events == [] then c else After(Apply(c, events[0]), events[1..])
  }

  /** A piece of written text and the colours in force while it was written. */
  datatype Shown = Shown(text: string, colors: Colors)

  /** Every write among the calls, with the colours in force at that moment, starting from `c`. */
  function Writes(c: Colors, events: seq<Event>): seq<Shown>
    decreases |events|
  {
    if events == [] then []
    else (if events[0].WriteCall? then [Shown(events[0].text, c)] else []) + Writes(Apply(c, events[0]), events[1..])
  }

  /** Replaying two records one after the other. */
  lemma {:induction false} WritesAppend(c: Colors, a: seq<Event>, b: seq<Event>)
    ensures Writes(c, a + b) == Writes(c, a) + Writes(After(c, a), b)
    ensures After(c, a + b) == After(After(c, a), b)
    decreases |a|
  {
    if a != [] {
      var ab := a + b;
      assert ab[0] == a[0] && ab[1..] == a[1..] + b;
      var c' := Apply(c, a[0]);
      var w := if a[0].WriteCall? then [Shown(a[0].text, c)] else [];
      WritesAppend(c', a[1..], b);
      assert Writes(c, ab) == w + Writes(c', ab[1..]);
      assert Writes(c, a) == w + Writes(c', a[1..]);
      assert After(c, a) == After(c', a[1..]);
      assert After(c, ab) == After(c', ab[1..]);
      AppendAssoc(w, Writes(c', a[1..]), Writes(After(c', a[1..]), b));
    } else {
      assert a + b == b;
    }
  }

  /** The written characters, each with the colours it was written in. */
  function Chars(shown: seq<Shown>): seq<(char, Colors)>
    decreases |shown|
  {
    if shown == [] then [] else Paint(shown[0].text, shown[0].colors) + Chars(shown[1..])
  }

  lemma {:induction false} CharsAppend(a: seq<Shown>, b: seq<Shown>)
    ensures Chars(a + b) == Chars(a) + Chars(b)
    decreases |a|
  {
    if a != [] {
      var ab := a + b;
      assert ab[0] == a[0] && ab[1..] == a[1..] + b;
      CharsAppend(a[1..], b);
      assert Chars(ab) == Paint(a[0].text, a[0].colors) + Chars(ab[1..]);
    } else {
      assert a + b == b;
    }
  }

  lemma CharsTwo(two: seq<Shown>)
    requires |two| == 2
    ensures Chars(two) == Paint(two[0].text, two[0].colors) + Paint(two[1].text, two[1].colors)
  {
    assert two[1..][1..] == [];
    assert Chars(two[1..]) == Paint(two[1].text, two[1].colors) + [];
  }

  /** The calls made so far, one `Event` each. */
  class Console {
    var events: seq<Event>

    constructor()
      ensures events == []
    {
      events := [];
    }

    /** `set_color`. */
    method SetColor(fg: Option<string>, bg: Option<string>)
      modifies this
      ensures events == old(events) + SetColorEvents(fg, bg)
    {
      if CFP.Truthy(fg) || CFP.Truthy(bg) {
        events := events + [SetColorCall(fg, bg)];
      } else {
        events := events + [SetDefaultsCall];
      }
    }

    /** `cprint`. */
    method Cprint(s: string, fg: Option<string>, bg: Option<string>, end: string)
      modifies this
      ensures events == old(events) + CprintEvents(s, fg, bg, end)
    {
      events := events + [SetColorCall(fg, bg), WriteCall(s + end), FlushCall, SetDefaultsCall];
    }

    /**
     * `fprint`: `formatArgs` stands for `fmt.format(*args, **kwargs)`. The
     * result is the message of the ColorSyntaxError the parser raises, if any.
     */
    method Fprint(fmt: string, formatArgs: string -> string, end: string) returns (error: Option<string>)
      modifies this
      ensures events == old(events) + FprintEvents(fmt, formatArgs, end)
      ensures error == FprintError(fmt, formatArgs)
    {
      if fmt == "" {
        error := None;
      } else {
        var outcome := CFP.ParseString(formatArgs(fmt));
        error := WriteOutcome(outcome, end);
      }
    }

    /** `fprint` once the parser's outcome is known. */
    method WriteOutcome(outcome: CFP.Outcome, end: string) returns (error: Option<string>)
      modifies this
      ensures events == old(events) + OutcomeEvents(outcome, end)
      ensures error == OutcomeError(outcome)
    {
      WriteSegments(outcome.segments);
      if outcome.end.Raised? {
        return Some(outcome.end.message);
      }
      events := events + Closing(end);
      return None;
    }

    /** The loop of `fprint` over the yielded segments. */
    method WriteSegments(segments: seq<CFP.Segment>)
      modifies this
      ensures events == old(events) + SegmentEvents(segments)
    {
      var hascolor := false;
      for i := 0 to |segments|
        invariant events == old(events) + SegmentEvents(segments[..i])
        invariant hascolor == (i > 0 && segments[i - 1].scope != CFP.Plain)
      {
        ghost var before := events;
        hascolor := WriteSegment(segments[i], hascolor);
        SegmentEventsSnoc(segments, i);
        assert events == before + Block(segments[i], i > 0 && segments[i - 1].scope != CFP.Plain);
      }
      assert segments[..|segments|] == segments;
    }

    /** One yielded segment of `fprint`'s loop; the result is the new `hascolor`. */
    method WriteSegment(seg: CFP.Segment, hascolor: bool) returns (hascolor': bool)
      modifies this
      ensures events == old(events) + Block(seg, hascolor)
      ensures hascolor' == (seg.scope != CFP.Plain)
    {
      hascolor' := hascolor;
      if seg.scope != CFP.Plain {
        events := events + [SetColorCall(seg.scope.fg, seg.scope.bg)];
        hascolor' := true;
      } else if hascolor {
        events := events + [SetDefaultsCall];
        hascolor' := false;
      }
      events := events + [WriteCall(seg.text), FlushCall];
    }

    /** `highlight`. */
    method Highlight(s: string, fg: Option<string>, bg: Option<string>, indices: seq<int>, end: string)
      modifies this
      ensures events == old(events) + HighlightEvents(s, fg, bg, indices, end)
    {
      if !(s == "" || indices == [] || (fg == None && bg == None)) {
        var runs := GroupRuns(SortInts(indices));
        WriteRuns(s, fg, bg, runs, end);
      }
    }

    /** `highlight` once the groups are known. */
    method WriteRuns(s: string, fg: Option<string>, bg: Option<string>, runs: seq<Run>, end: string)
      modifies this
      ensures events == old(events) + HighlightRuns(s, fg, bg, runs, end)
    {
      var p := WriteCuts(s, runs, fg, bg);
      events := events + HighlightTail(s, p, end);
    }

    /**
     * One group of `highlight`: the text before it, then the group between
     * `set_color` and `set_defaults`; the result is the position after it.
     */
    method TakeRun(s: string, runs: seq<Run>, i: nat, p: int, fg: Option<string>, bg: Option<string>, ghost start: seq<Event>)
      returns (p': int)
      requires i < |runs| && p == Cuts(s, runs[..i], false).1
      requires events == start + CutEvents(Cuts(s, runs[..i], false).0, fg, bg)
      modifies this
      ensures p' == Cuts(s, runs[..i + 1], false).1
      ensures events == start + CutEvents(Cuts(s, runs[..i + 1], false).0, fg, bg)
    {
      ghost var cuts := Cuts(s, runs[..i], false).0;
      var run := runs[i];
      var c := Cut(PySlice(s, p, run.lo), PySlice(s, run.lo, run.hi));
      CutsSnoc(s, runs, i);
      CutEventsSnoc(cuts, c, fg, bg);
      events := events + [WriteCall(c.before), FlushCall, SetColorCall(fg, bg), WriteCall(c.run), FlushCall, SetDefaultsCall];
      p' := run.hi;
    }

    /** The loop of `highlight` over the groups; the result is the position after the last one. */
    method WriteCuts(s: string, runs: seq<Run>, fg: Option<string>, bg: Option<string>) returns (p: int)
      modifies this
      ensures p == Cuts(s, runs, false).1
      ensures events == old(events) + CutEvents(Cuts(s, runs, false).0, fg, bg)
    {
      p := 0;
      for i := 0 to |runs|
        invariant p == Cuts(s, runs[..i], false).1
        invariant events == old(events) + CutEvents(Cuts(s, runs[..i], false).0, fg, bg)
      {
        p := TakeRun(s, runs, i, p, fg, bg, old(events));
      }
      assert runs[..|runs|] == runs;
    }
  }

  // ---------------------------------------------------------------------------
  // set_color and cprint
  // ---------------------------------------------------------------------------

  function SetColorEvents(fg: Option<string>, bg: Option<string>): seq<Event>
  {
    if CFP.Truthy(fg) || CFP.Truthy(bg) then [SetColorCall(fg, bg)] else [SetDefaultsCall]
  }

  /** `set_color` writes nothing and leaves the given colours in force, or the defaults when none is truthy. */
  lemma SetColorInForce(c: Colors, fg: Option<string>, bg: Option<string>)
    ensures Writes(c, SetColorEvents(fg, bg)) == []
    ensures After(c, SetColorEvents(fg, bg)) == InForce(fg, bg)
  {
  }

  function CprintEvents(s: string, fg: Option<string>, bg: Option<string>, end: string): seq<Event>
  {
    [SetColorCall(fg, bg), WriteCall(s + end), FlushCall, SetDefaultsCall]
  }

  /** `cprint` shows the string and `end` in the given colours, then returns to the defaults. */
  lemma CprintShows(c: Colors, s: string, fg: Option<string>, bg: Option<string>, end: string)
    ensures Writes(c, CprintEvents(s, fg, bg, end)) == [Shown(s + end, InForce(fg, bg))]
    ensures After(c, CprintEvents(s, fg, bg, end)) == Defaults
  {
    var on := InForce(fg, bg);
    var last := [SetDefaultsCall];
    assert last[1..] == [];
    var flush := [FlushCall] + last;
    assert Writes(on, flush) == [] && After(on, flush) == Defaults by { assert flush[1..] == last; }
    var write := [WriteCall(s + end)] + flush;
    assert Writes(on, write) == [Shown(s + end, on)] && After(on, write) == Defaults by { assert write[1..] == flush; }
    var evs := [SetColorCall(fg, bg)] + write;
    assert evs[1..] == write;
    assert evs == CprintEvents(s, fg, bg, end);
  }

  // ---------------------------------------------------------------------------
  // fprint
  // ---------------------------------------------------------------------------

  /**
   * The calls for one yielded segment: a scope other than (None, None) is set
   * first; a plain segment after a coloured one resets to the defaults first.
   */
  function Block(seg: CFP.Segment, hascolor: bool): seq<Event>
  {
    (if seg.scope != CFP.Plain then [SetColorCall(seg.scope.fg, seg.scope.bg)]
     else if hascolor then [SetDefaultsCall] else [])
      + [WriteCall(seg.text), FlushCall]
  }

  /** The calls of the loop of `fprint` over the yielded segments. */
  function SegmentEvents(segments: seq<CFP.Segment>): seq<Event>
    decreases |segments|
  {
    if segments == [] then []
    else
      var n := |segments| - 1;
      SegmentEvents(segments[..n]) + Block(segments[n], n > 0 && segments[n - 1].scope != CFP.Plain)
  }

  lemma SegmentEventsSnoc(segments: seq<CFP.Segment>, i: nat)
    requires i < |segments|
    ensures SegmentEvents(segments[..i + 1]) ==
      SegmentEvents(segments[..i]) + Block(segments[i], i > 0 && segments[i - 1].scope != CFP.Plain)
  {
    var front := segments[..i + 1];
    assert front[..i] == segments[..i] && front[i] == segments[i];
    assert i > 0 ==> front[i - 1] == segments[i - 1];
  }

  /** The parser's outcome on the formatted text. */
  function FprintOutcome(fmt: string, formatArgs: string -> string): CFP.Outcome
  {
    CFP.ParseTokens(CFP.Tokens(formatArgs(fmt)))
  }

  /**
   * `fprint`: nothing for an empty format; otherwise the segments, and, unless
   * the parser raised, the defaults, `end`, and the defaults again.
   */
  function FprintEvents(fmt: string, formatArgs: string -> string, end: string): seq<Event>
  {
    if fmt == "" then [] else OutcomeEvents(FprintOutcome(fmt, formatArgs), end)
  }

  /** The calls for the parser's outcome: the segments, then, unless it raised, the closing calls. */
  function OutcomeEvents(outcome: CFP.Outcome, end: string): seq<Event>
  {
    SegmentEvents(outcome.segments) + (if outcome.end.Raised? then [] else Closing(end))
  }

  function FprintError(fmt: string, formatArgs: string -> string): Option<string>
  {
    if fmt == "" then None else OutcomeError(FprintOutcome(fmt, formatArgs))
  }

  /** The message of the ColorSyntaxError the parser raised, if it did. */
  function OutcomeError(outcome: CFP.Outcome): Option<string>
  {
    match outcome.end
    case Raised(message) => Some(message)
    case _ => None
  }

  function ScopeColors(scope: CFP.Scope): Colors { InForce(scope.fg, scope.bg) }

  /** Each segment's text with the colours of its scope. */
  function ShownSegments(segments: seq<CFP.Segment>): (r: seq<Shown>)
    ensures |r| == |segments|
  {
    seq(|segments|, k requires 0 <= k < |segments| => Shown(segments[k].text, ScopeColors(segments[k].scope)))
  }

  /** One segment is written in its own colours, which stay in force after it. */
  lemma BlockShows(seg: CFP.Segment, hascolor: bool, c: Colors)
    requires c == Defaults || hascolor
    ensures Writes(c, Block(seg, hascolor)) == [Shown(seg.text, ScopeColors(seg.scope))]
    ensures After(c, Block(seg, hascolor)) == ScopeColors(seg.scope)
  {
    var on := ScopeColors(seg.scope);
    var flush := [FlushCall];
    assert flush[1..] == [];
    var tail := [WriteCall(seg.text)] + flush;
    assert Writes(on, tail) == [Shown(seg.text, on)] && After(on, tail) == on by { assert tail[1..] == flush; }
    var b := Block(seg, hascolor);
    if seg.scope != CFP.Plain || hascolor {
      assert b == [b[0]] + tail && Apply(c, b[0]) == on;
      assert b[1..] == tail;
    } else {
      assert b == tail;
    }
  }

  /**
   * Starting from the defaults, the loop of `fprint` writes every segment in
   * the colours of its scope, and leaves the last segment's colours in force.
   */
  lemma {:induction false} SegmentsShow(segments: seq<CFP.Segment>)
    ensures Writes(Defaults, SegmentEvents(segments)) == ShownSegments(segments)
    ensures After(Defaults, SegmentEvents(segments)) ==
      if segments == [] then Defaults else ScopeColors(segments[|segments| - 1].scope)
    decreases |segments|
  {
    if segments != [] {
      SegmentsShow(segments[..|segments| - 1]);
      SegmentsShowStep(segments);
    }
  }

  /** The step of `SegmentsShow`: one more segment, written in the colours left by the previous one. */
  lemma SegmentsShowStep(segments: seq<CFP.Segment>)
    requires segments != []
    requires var front := segments[..|segments| - 1];
      Writes(Defaults, SegmentEvents(front)) == ShownSegments(front) &&
      After(Defaults, SegmentEvents(front)) == if front == [] then Defaults else ScopeColors(front[|front| - 1].scope)
    ensures Writes(Defaults, SegmentEvents(segments)) == ShownSegments(segments)
    ensures After(Defaults, SegmentEvents(segments)) == ScopeColors(segments[|segments| - 1].scope)
  {
    var n := |segments| - 1;
    var front := segments[..n];
    var hascolor := n > 0 && segments[n - 1].scope != CFP.Plain;
    var c := After(Defaults, SegmentEvents(front));
    assert n > 0 ==> front[n - 1] == segments[n - 1];
    assert c == Defaults || hascolor;
    WritesAppend(Defaults, SegmentEvents(front), Block(segments[n], hascolor));
    BlockShows(segments[n], hascolor, c);
    ShownSegmentsSnoc(segments);
  }

  lemma ShownSegmentsSnoc(segments: seq<CFP.Segment>)
    requires segments != []
    ensures var n := |segments| - 1;
      ShownSegments(segments) == ShownSegments(segments[..n]) + [Shown(segments[n].text, ScopeColors(segments[n].scope))]
  {
  }

  /** The calls `fprint` ends with when the parser did not raise. */
  function Closing(end: string): seq<Event>
  {
    [SetDefaultsCall, WriteCall(end), SetDefaultsCall]
  }

  /** Whatever was in force, the closing calls write `end` in the defaults and leave the defaults. */
  lemma ClosingShows(c: Colors, end: string)
    ensures Writes(c, Closing(end)) == [Shown(end, Defaults)]
    ensures After(c, Closing(end)) == Defaults
  {
    var last := [SetDefaultsCall];
    assert last[1..] == [];
    var write := [WriteCall(end)] + last;
    assert Writes(Defaults, write) == [Shown(end, Defaults)] && After(Defaults, write) == Defaults by {
      assert write[1..] == last;
    }
    var evs := [SetDefaultsCall] + write;
    assert evs[1..] == write;
    assert evs == Closing(end);
  }

  /**
   * From the defaults, `fprint` writes each yielded segment in its scope's
   * colours, then, unless the parser raised, `end` in the defaults.
   */
  lemma FprintShows(fmt: string, formatArgs: string -> string, end: string)
    requires fmt != ""
    ensures var outcome := FprintOutcome(fmt, formatArgs);
      Writes(Defaults, FprintEvents(fmt, formatArgs, end)) ==
        ShownSegments(outcome.segments) + (if outcome.end.Raised? then [] else [Shown(end, Defaults)])
  {
    var outcome := FprintOutcome(fmt, formatArgs);
    var body := SegmentEvents(outcome.segments);
    SegmentsShow(outcome.segments);
    if outcome.end.Raised? {
      assert FprintEvents(fmt, formatArgs, end) == body + [];
      assert body + [] == body;
      assert ShownSegments(outcome.segments) + [] == ShownSegments(outcome.segments);
    } else {
      assert FprintEvents(fmt, formatArgs, end) == body + Closing(end);
      WritesAppend(Defaults, body, Closing(end));
      ClosingShows(After(Defaults, body), end);
    }
  }

  /** Whatever was in force before, `fprint` returns to the defaults unless the parser raised. */
  lemma FprintRestores(c: Colors, fmt: string, formatArgs: string -> string, end: string)
    requires fmt != "" && !FprintOutcome(fmt, formatArgs).end.Raised?
    ensures After(c, FprintEvents(fmt, formatArgs, end)) == Defaults
  {
    var body := SegmentEvents(FprintOutcome(fmt, formatArgs).segments);
    assert FprintEvents(fmt, formatArgs, end) == body + Closing(end);
    WritesAppend(c, body, Closing(end));
    ClosingShows(After(c, body), end);
  }

  /**
   * Printing what `formatcolor` builds (with formatting leaving it as it is)
   * shows the text in its colours, then `end` in the defaults.
   */
  lemma FprintFormatColor(s: string, fg: Option<string>, bg: Option<string>, formatArgs: string -> string, end: string)
    requires SafeText(s) && SafeColor(fg) && SafeColor(bg)
    requires CFP.Truthy(fg) || CFP.Truthy(bg)
    requires formatArgs(FormatColor(s, fg, bg)) == FormatColor(s, fg, bg)
    ensures Writes(Defaults, FprintEvents(FormatColor(s, fg, bg), formatArgs, end)) ==
      [Shown(s, Colored(Kept(fg), Kept(bg))), Shown(end, Defaults)]
  {
    FormatColorParses(s, fg, bg);
    FprintShows(FormatColor(s, fg, bg), formatArgs, end);
  }

  /**
   * `fprint` of non-empty markup-free text writes only `end`: the tokenizer
   * yields nothing for it, so the text itself is lost.
   */
  lemma FprintMarkupFreeLost(fmt: string, formatArgs: string -> string, end: string)
    requires fmt != "" && formatArgs(fmt) != "" && NoStructural(formatArgs(fmt))
    ensures Writes(Defaults, FprintEvents(fmt, formatArgs, end)) == [Shown(end, Defaults)]
  {
    CFP.MarkupFreeLost(formatArgs(fmt));
    FprintShows(fmt, formatArgs, end);
  }

  // ---------------------------------------------------------------------------
  // highlight
  // ---------------------------------------------------------------------------

  /** The calls for the cuts: the text before, then the group's text between `set_color` and `set_defaults`. */
  function CutEvents(cuts: seq<Cut>, fg: Option<string>, bg: Option<string>): seq<Event>
    decreases |cuts|
  {
    if cuts == [] then []
    else
      var c := cuts[|cuts| - 1];
      CutEvents(cuts[..|cuts| - 1], fg, bg) + CutBlock(c, fg, bg)
  }

  function CutBlock(c: Cut, fg: Option<string>, bg: Option<string>): seq<Event>
  {
    [WriteCall(c.before), FlushCall, SetColorCall(fg, bg), WriteCall(c.run), FlushCall, SetDefaultsCall]
  }

  lemma CutEventsSnoc(cuts: seq<Cut>, c: Cut, fg: Option<string>, bg: Option<string>)
    ensures CutEvents(cuts + [c], fg, bg) == CutEvents(cuts, fg, bg) + CutBlock(c, fg, bg)
  {
    assert (cuts + [c])[..|cuts|] == cuts;
  }

  /** `highlight`: no call at all when there is nothing to do, not even for `end`. */
  function HighlightEvents(s: string, fg: Option<string>, bg: Option<string>, indices: seq<int>, end: string): seq<Event>
  {
    if s == "" || indices == [] || (fg == None && bg == None) then []
    else HighlightRuns(s, fg, bg, Runs(SortInts(indices)), end)
  }

  /** The calls of `highlight` once the groups are known. */
  function HighlightRuns(s: string, fg: Option<string>, bg: Option<string>, runs: seq<Run>, end: string): seq<Event>
  {
    var (cuts, p) := Cuts(s, runs, false);
    CutEvents(cuts, fg, bg) + HighlightTail(s, p, end)
  }

  /** After the groups: the rest of the string when there is any, then `end`. */
  function HighlightTail(s: string, p: int, end: string): seq<Event>
  {
    (if p < |s| then [WriteCall(PySlice(s, p, |s|))] else []) + [WriteCall(end)]
  }

  /** The cuts as shown: the text before each group in the defaults, the group in `on`. */
  function ShownCuts(cuts: seq<Cut>, on: Colors): seq<Shown>
    decreases |cuts|
  {
    if cuts == [] then []
    else
      var c := cuts[|cuts| - 1];
      ShownCuts(cuts[..|cuts| - 1], on) + [Shown(c.before, Defaults), Shown(c.run, on)]
  }

  /** From the defaults, the cuts' calls show the gaps in the defaults and the groups highlighted, and end in the defaults. */
  lemma {:induction false} CutEventsShow(cuts: seq<Cut>, fg: Option<string>, bg: Option<string>)
    ensures Writes(Defaults, CutEvents(cuts, fg, bg)) == ShownCuts(cuts, InForce(fg, bg))
    ensures After(Defaults, CutEvents(cuts, fg, bg)) == Defaults
    decreases |cuts|
  {
    if cuts != [] {
      var init, c := cuts[..|cuts| - 1], cuts[|cuts| - 1];
      CutEventsShow(init, fg, bg);
      LastSplit(cuts);
      CutEventsSnoc(init, c, fg, bg);
      WritesAppend(Defaults, CutEvents(init, fg, bg), CutBlock(c, fg, bg));
      CutBlockShows(c, fg, bg);
    }
  }

  /** From the defaults, one cut shows its gap in the defaults and its group highlighted, and returns to the defaults. */
  lemma CutBlockShows(c: Cut, fg: Option<string>, bg: Option<string>)
    ensures Writes(Defaults, CutBlock(c, fg, bg)) == [Shown(c.before, Defaults), Shown(c.run, InForce(fg, bg))]
    ensures After(Defaults, CutBlock(c, fg, bg)) == Defaults
  {
    var on := InForce(fg, bg);
    var b5 := [SetDefaultsCall];
    var b4 := [FlushCall] + b5;
    var b3 := [WriteCall(c.run)] + b4;
    var b2 := [SetColorCall(fg, bg)] + b3;
    var b1 := [FlushCall] + b2;
    var b := [WriteCall(c.before)] + b1;
    assert b5[1..] == [] && b4[1..] == b5 && b3[1..] == b4 && b2[1..] == b3 && b1[1..] == b2 && b[1..] == b1;
    assert Writes(on, b5) == [] && After(on, b5) == Defaults;
    assert Writes(on, b4) == Writes(on, b5) && After(on, b4) == After(on, b5);
    assert Writes(on, b3) == [Shown(c.run, on)] + Writes(on, b4) && After(on, b3) == After(on, b4);
    assert Writes(Defaults, b2) == Writes(on, b3) && After(Defaults, b2) == After(on, b3);
    assert Writes(Defaults, b1) == Writes(Defaults, b2) && After(Defaults, b1) == After(Defaults, b2);
    assert Writes(Defaults, b) == [Shown(c.before, Defaults)] + Writes(Defaults, b1) && After(Defaults, b) == After(Defaults, b1);
    assert b == CutBlock(c, fg, bg);
  }

  /** What the calls after the groups show: the rest of the string, then `end`, both in the defaults. */
  function TailShown(s: string, p: int, end: string): seq<Shown>
  {
    (if p < |s| then [Shown(PySlice(s, p, |s|), Defaults)] else []) + [Shown(end, Defaults)]
  }

  lemma TailShows(s: string, p: int, end: string)
    ensures Writes(Defaults, HighlightTail(s, p, end)) == TailShown(s, p, end)
    ensures Chars(TailShown(s, p, end)) == Paint(Rest(s, p), Defaults) + Paint(end, Defaults)
  {
    var w := [WriteCall(end)];
    assert w[1..] == [];
    assert Writes(Defaults, w) == [Shown(end, Defaults)];
    var one := [Shown(end, Defaults)];
    assert one[1..] == [];
    assert Chars(one) == Paint(end, Defaults) + [];
    if p < |s| {
      var t := [WriteCall(PySlice(s, p, |s|))];
      assert t[1..] == [];
      WritesAppend(Defaults, t, w);
      CharsTwo(TailShown(s, p, end));
    } else {
      assert [] + w == w && [] + one == one;
      assert Paint(Rest(s, p), Defaults) == [];
    }
  }

  /** `highlight` once the groups are known, from the defaults: the cuts as shown, then the tail. */
  lemma HighlightRunsShow(s: string, fg: Option<string>, bg: Option<string>, runs: seq<Run>, end: string)
    ensures var (cuts, p) := Cuts(s, runs, false);
      Writes(Defaults, HighlightRuns(s, fg, bg, runs, end)) == ShownCuts(cuts, InForce(fg, bg)) + TailShown(s, p, end)
  {
    var (cuts, p) := Cuts(s, runs, false);
    CutEventsShow(cuts, fg, bg);
    TailShows(s, p, end);
    WritesAppend(Defaults, CutEvents(cuts, fg, bg), HighlightTail(s, p, end));
  }

  /**
   * From the defaults, `highlight` shows the text before each group in the
   * defaults and the group highlighted, then the rest of the string and
   * `end` in the defaults; it shows nothing when there is nothing to do.
   */
  lemma HighlightShows(s: string, fg: Option<string>, bg: Option<string>, indices: seq<int>, end: string)
    ensures Writes(Defaults, HighlightEvents(s, fg, bg, indices, end)) ==
      if s == "" || indices == [] || (fg == None && bg == None) then []
      else
        var (cuts, p) := Cuts(s, Runs(SortInts(indices)), false);
        ShownCuts(cuts, InForce(fg, bg)) + TailShown(s, p, end)
  {
    if !(s == "" || indices == [] || (fg == None && bg == None)) {
      HighlightRunsShow(s, fg, bg, Runs(SortInts(indices)), end);
    }
  }

  lemma {:induction false} ShownCutsChars(cuts: seq<Cut>, on: Colors)
    ensures Chars(ShownCuts(cuts, on)) == CutsPainted(cuts, Defaults, on)
    decreases |cuts|
  {
    if cuts != [] {
      var c := cuts[|cuts| - 1];
      ShownCutsChars(cuts[..|cuts| - 1], on);
      var two := [Shown(c.before, Defaults), Shown(c.run, on)];
      CharsAppend(ShownCuts(cuts[..|cuts| - 1], on), two);
      CharsTwo(two);
    }
  }

  /**
   * For distinct indices inside the string, in ascending order, `highlight`
   * shows every character of the string, each indexed one in the given
   * colours and every other one in the defaults, then `end` in the defaults.
   */
  lemma HighlightPaints(s: string, fg: Option<string>, bg: Option<string>, indices: seq<int>, end: string)
    requires s != "" && indices != [] && !(fg == None && bg == None)
    requires Increasing(indices) && forall i :: 0 <= i < |indices| ==> 0 <= indices[i] < |s|
    ensures Chars(Writes(Defaults, HighlightEvents(s, fg, bg, indices, end))) ==
      seq(|s|, k requires 0 <= k < |s| => (s[k], if k in indices then InForce(fg, bg) else Defaults))
        + Paint(end, Defaults)
  {
    HighlightSorted(s, fg, bg, indices, end);
    RunsOrdered(indices);
    RunsBounds(indices);
    RunsExpand(indices);
    var runs := Runs(indices);
    assert Between(runs, 0, |s|);
    HighlightIndexed(s, fg, bg, runs, indices, end);
  }

  lemma HighlightIndexed(s: string, fg: Option<string>, bg: Option<string>, runs: seq<Run>, xs: seq<int>, end: string)
    requires Ordered(runs) && Between(runs, 0, |s|) && Expand(runs) == xs
    ensures Chars(Writes(Defaults, HighlightRuns(s, fg, bg, runs, end))) ==
      seq(|s|, k requires 0 <= k < |s| => (s[k], if k in xs then InForce(fg, bg) else Defaults)) + Paint(end, Defaults)
  {
    HighlightRunsPaint(s, fg, bg, runs, end);
    MarkingExpands(s, runs, xs, Defaults, InForce(fg, bg));
  }

  lemma HighlightSorted(s: string, fg: Option<string>, bg: Option<string>, indices: seq<int>, end: string)
    requires s != "" && indices != [] && !(fg == None && bg == None) && Sorted(indices)
    ensures HighlightEvents(s, fg, bg, indices, end) == HighlightRuns(s, fg, bg, Runs(indices), end)
  {
    SortIntsSorted(indices);
  }

  /** Over ordered groups inside the string, `highlight` shows the string marked where the groups cover it, then `end`. */
  lemma HighlightRunsPaint(s: string, fg: Option<string>, bg: Option<string>, runs: seq<Run>, end: string)
    requires Ordered(runs) && Between(runs, 0, |s|)
    ensures Chars(Writes(Defaults, HighlightRuns(s, fg, bg, runs, end))) ==
      Marking(s, runs, Defaults, InForce(fg, bg)) + Paint(end, Defaults)
  {
    var (cuts, p) := Cuts(s, runs, false);
    var on := InForce(fg, bg);
    HighlightRunsShow(s, fg, bg, runs, end);
    ShownCutsChars(cuts, on);
    TailShows(s, p, end);
    CharsAppend(ShownCuts(cuts, on), TailShown(s, p, end));
    CutsPaintAll(s, runs, false, Defaults, on);
    AppendAssoc(CutsPainted(cuts, Defaults, on), Paint(Rest(s, p), Defaults), Paint(end, Defaults));
  }
}
