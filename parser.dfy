/**
 * The newer bracket-markup parser. Its tokenizer tags every token with
 * whether an escaped structural character went into it, copes with input
 * that has no structural character, and its `parse` treats escaped tokens
 * as text and a `:` outside a spec as text. Scopes, segments, outcomes and
 * `extract_syntax` are the older parser's, which this file shares.
 */
module Parser {
  import opened Wrappers
  import opened Text
  import opened Markup
  import Old = ColorFormatParser

  // ---------------------------------------------------------------------------
  // tokenize
  // ---------------------------------------------------------------------------

  /** A token and its escape flag. */
  datatype Token = Token(text: string, escaped: bool)

  /** The scanning loop's variables: the tokens yielded so far, `pos`, `buf`, `lm` and `escapeflag`. */
  datatype TokState = TokState(out: seq<Token>, pos: int, buf: string, lm: int, flag: bool)

  /** Before the loop: text before the first match is yielded unflagged, otherwise `pos` stays -1. */
  function Init(s: string, first: Match): TokState
  {
    if first.start > 0 then TokState([Token(PySlice(s, 0, first.start), false)], first.start, "", -1, false)
    else TokState([], -1, "", -1, false)
  }

  /**
   * One loop iteration over match `m`: an escaped match goes into the buffer
   * and raises the flag; an unescaped one flushes the buffer with its flag
   * (clearing the flag), then an empty token if it directly follows the
   * previous unescaped match, then its character, unflagged.
   */
  function Step(s: string, st: TokState, m: Match): TokState
  {
    var c := [m.symbol];
    if m.Escaped() then
      st.(pos := m.End(), buf := st.buf + PySlice(s, st.pos, m.mark - 1) + c, flag := true)
    else
      var buf := st.buf + PySlice(s, st.pos, m.mark);
      var out := st.out + (if buf != "" then [Token(buf, st.flag)] else [])
                        + (if st.lm == m.start then [Token("", false)] else []) + [Token(c, false)];
      TokState(out, m.End(), "", m.End(), if buf != "" then false else st.flag)
  }

  function Steps(s: string, st: TokState, ms: seq<Match>): TokState
    decreases |ms|
  {
    if ms == [] then st else Steps(s, Step(s, st, ms[0]), ms[1..])
  }

  /** After the loop: the pending buffer with its flag, then whatever follows the last match, unflagged. */
  function Finish(s: string, st: TokState): seq<Token>
  {
    st.out + (if st.buf != "" then [Token(st.buf, st.flag)] else [])
           + (if st.pos < |s| then [Token(PySlice(s, st.pos, |s|), false)] else [])
  }

  /** The tokens `tokenize` yields; input with no match is one unflagged token. */
  function Tokens(s: string): seq<Token>
  {
    var ms := Matches(s);
    if ms == [] then [Token(s, false)] else Finish(s, Steps(s, Init(s, ms[0]), ms))
  }

  method Tokenize(s: string) returns (tokens: seq<Token>)
    ensures tokens == Tokens(s)
  {
    var ms := Matches(s);
    if |ms| == 0 {
      return [Token(s, false)];
    }
    tokens := [];
    var pos: int, buf: string, lm: int, escapeflag: bool := -1, "", -1, false;
    var t := ms[0];
    if t.start > 0 {
      tokens := tokens + [Token(PySlice(s, 0, t.start), false)];
      pos := t.start;
    }
    assert TokState(tokens, pos, buf, lm, escapeflag) == Init(s, t);
    var i := 0;
    while i < |ms|
      invariant 0 <= i <= |ms|
      invariant Steps(s, TokState(tokens, pos, buf, lm, escapeflag), ms[i..]) == Steps(s, Init(s, t), ms)
    {
      assert ms[i..][0] == ms[i] && ms[i..][1..] == ms[i + 1..];
      tokens, pos, buf, lm, escapeflag := TokenizeStep(s, ms[i], tokens, pos, buf, lm, escapeflag);
      i := i + 1;
    }
    if buf != "" {
      tokens := tokens + [Token(buf, escapeflag)];
      escapeflag := false;
    }
    if pos < |s| {
      tokens := tokens + [Token(PySlice(s, pos, |s|), false)];
    }
  }

  /** One pass of the loop of `tokenize`: an escaped match joins the buffer; any other flushes the buffer and yields the symbol. */
  method TokenizeStep(s: string, m: Match, tokens: seq<Token>, pos: int, buf: string, lm: int, escapeflag: bool)
    returns (tokens': seq<Token>, pos': int, buf': string, lm': int, escapeflag': bool)
    ensures TokState(tokens', pos', buf', lm', escapeflag') == Step(s, TokState(tokens, pos, buf, lm, escapeflag), m)
  {
    tokens', pos', buf', lm', escapeflag' := tokens, pos, buf, lm, escapeflag;
    var c := [m.symbol];
    if (m.mark - m.start) % 2 == 1 {
      buf' := buf' + PySlice(s, pos', m.mark - 1) + c;
      escapeflag' := true;
    } else {
      buf' := buf' + PySlice(s, pos', m.mark);
      if buf' != "" {
        tokens' := tokens' + [Token(buf', escapeflag')];
        buf' := "";
        escapeflag' := false;
      }
      if lm' == m.start {
        tokens' := tokens' + [Token("", false)];
      }
      tokens' := tokens' + [Token(c, false)];
      lm' := m.End();
    }
    pos' := m.End();
  }

  function Texts(ts: seq<Token>): (r: seq<string>)
    ensures |r| == |ts| && forall k :: 0 <= k < |ts| ==> r[k] == ts[k].text
  {
    seq(|ts|, k requires 0 <= k < |ts| => ts[k].text)
  }

  lemma TextsAppend(a: seq<Token>, b: seq<Token>)
    ensures Texts(a + b) == Texts(a) + Texts(b)
  {
    assert forall k :: 0 <= k < |a + b| ==> Texts(a + b)[k] == (Texts(a) + Texts(b))[k];
  }

  // ---------------------------------------------------------------------------
  // The texts are those of the older tokenizer, as intended
  // ---------------------------------------------------------------------------

  /** The older tokenizer's loop state: the same variables without the flag. */
  function Erase(st: TokState): Old.TokState
  {
    Old.TokState(Texts(st.out), st.pos, st.buf, st.lm)
  }

  /** One iteration does to the texts what the older one does. */
  lemma StepErase(s: string, st: TokState, m: Match)
    ensures Erase(Step(s, st, m)) == Old.Step(s, Erase(st), m)
  {
    if !m.Escaped() {
      UnescapedErase(s, st, m);
    }
  }

  lemma UnescapedErase(s: string, st: TokState, m: Match)
    requires !m.Escaped()
    ensures Texts(Step(s, st, m).out) == Old.Step(s, Erase(st), m).out
  {
    var buf := st.buf + PySlice(s, st.pos, m.mark);
    var b := if buf != "" then [Token(buf, st.flag)] else [];
    var e := if st.lm == m.start then [Token("", false)] else [];
    var c := [Token([m.symbol], false)];
    TextsAppend(st.out + b + e, c);
    TextsAppend(st.out + b, e);
    TextsAppend(st.out, b);
    assert Texts(b) == if buf != "" then [buf] else [];
    assert Texts(e) == if st.lm == m.start then [""] else [];
    assert Texts(c) == [[m.symbol]];
  }

  lemma {:induction false} StepsErase(s: string, st: TokState, ms: seq<Match>)
    ensures Erase(Steps(s, st, ms)) == Old.Steps(s, Erase(st), ms)
    decreases |ms|
  {
    if ms != [] {
      StepErase(s, st, ms[0]);
      StepsErase(s, Step(s, st, ms[0]), ms[1..]);
    }
  }

  lemma FinishErase(s: string, st: TokState)
    ensures Texts(Finish(s, st)) == Old.Finish(s, Erase(st))
  {
    var b := if st.buf != "" then [Token(st.buf, st.flag)] else [];
    var r := if st.pos < |s| then [Token(PySlice(s, st.pos, |s|), false)] else [];
    TextsAppend(st.out + b, r);
    TextsAppend(st.out, b);
  }

  /**
   * Apart from the flags, the tokens are exactly those the older tokenizer
   * yields, with markup-free input kept as one token instead of lost.
   */
  lemma TextsAgree(s: string)
    ensures Texts(Tokens(s)) == Old.TokensIntended(s)
  {
    var ms := Matches(s);
    if ms != [] {
      var st := Init(s, ms[0]);
      assert Erase(st) == Old.Init(s, ms[0]);
      StepsErase(s, st, ms);
      FinishErase(s, Steps(s, st, ms));
    }
  }

  /**
   * Round trip: the token texts put together are the input as it reads,
   * for every input: one escape dropped before a structural character
   * after an odd run, an even run kept, a run at offset 0 dropped whole.
   */
  lemma TokensRoundTrip(s: string)
    ensures Concat(Texts(Tokens(s))) == Visible(s)
  {
    TextsAgree(s);
    Old.TokensIntendedVisible(s);
  }

  // ---------------------------------------------------------------------------
  // What the flag tells
  // ---------------------------------------------------------------------------

  /** A token that `parse` takes as structure: one structural character, unflagged. */
  predicate IsMarker(t: Token) { !t.escaped && |t.text| == 1 && IsStructural(t.text[0]) }

  /**
   * The flag is truthful: a flagged token holds an escaped structural
   * character, and an unflagged one is either a marker or free of
   * structural characters.
   */
  predicate Tagged(t: Token)
  {
    if t.escaped then !NoStructural(t.text) else IsMarker(t) || NoStructural(t.text)
  }

  predicate AllTagged(ts: seq<Token>) { forall k :: 0 <= k < |ts| ==> Tagged(ts[k]) }

  /** The characters of the markers, in order. */
  function Markers(ts: seq<Token>): (r: string)
    ensures |r| <= |ts|
  {
    if ts == [] then ""
    else (if IsMarker(ts[0]) then [ts[0].text[0]] else "") + Markers(ts[1..])
  }

  /** The structural characters of the unescaped matches, in order. */
  function UnescapedSymbols(ms: seq<Match>): (r: string)
    ensures |r| <= |ms|
  {
    if ms == [] then ""
    else (if ms[0].Escaped() then "" else [ms[0].symbol]) + UnescapedSymbols(ms[1..])
  }

  lemma {:induction false} MarkersAppend(a: seq<Token>, b: seq<Token>)
    ensures Markers(a + b) == Markers(a) + Markers(b)
    decreases |a|
  {
    if a == [] {
      assert a + b == b;
    } else {
      assert (a + b)[0] == a[0] && (a + b)[1..] == a[1..] + b;
      MarkersAppend(a[1..], b);
      AppendAssoc(if IsMarker(a[0]) then [a[0].text[0]] else "", Markers(a[1..]), Markers(b));
    }
  }

  lemma AllTaggedAppend(a: seq<Token>, b: seq<Token>)
    requires AllTagged(a) && AllTagged(b)
    ensures AllTagged(a + b)
  {
    forall k | 0 <= k < |a + b| ensures Tagged((a + b)[k]) {
      if k >= |a| { assert (a + b)[k] == b[k - |a|]; }
    }
  }

  /** The loop state is truthful: yielded tokens are tagged, and the flag tells whether the buffer holds an escaped character. */
  predicate Truthful(st: TokState)
  {
    AllTagged(st.out) && (st.flag <==> !NoStructural(st.buf))
  }

  /** Where the next match `m` is found scanning from `pos`, the text taken before its character is plain. */
  predicate ScansTo(s: string, pos: int, m: Match)
  {
    IsMatchIn(s, m) && (forall k :: m.start <= k < m.mark ==> s[k] == Escape) &&
    ((pos == -1 && m.start == 0) || (0 <= pos <= m.start && NoStructural(s[pos..m.start])))
  }

  /** The slice of text the loop takes in front of a match has no structural character. */
  lemma PieceFree(s: string, pos: int, m: Match, hi: int)
    requires ScansTo(s, pos, m) && m.start <= hi <= m.mark
    ensures NoStructural(PySlice(s, pos, hi))
  {
    if pos == -1 {
      SliceFromLast(s, hi);
    } else {
      var piece := PySlice(s, pos, hi);
      assert piece == s[pos..m.start] + s[m.start..hi];
      forall k | 0 <= k < |piece| ensures !IsStructural(piece[k]) {
        if k < m.start - pos {
          assert piece[k] == s[pos..m.start][k];
        } else {
          assert piece[k] == s[m.start + (k - (m.start - pos))];
        }
      }
    }
  }

  lemma NoStructuralConcat3(a: string, b: string, c: string)
    ensures !NoStructural(a + b + c) <==> !NoStructural(a) || !NoStructural(b) || !NoStructural(c)
  {
    if !NoStructural(a + b + c) {
      var k :| 0 <= k < |a + b + c| && IsStructural((a + b + c)[k]);
      if k < |a| {
        assert (a + b + c)[k] == a[k];
      } else if k < |a| + |b| {
        assert (a + b + c)[k] == b[k - |a|];
      } else {
        assert (a + b + c)[k] == c[k - |a| - |b|];
      }
    }
    if !NoStructural(a) {
      var k :| 0 <= k < |a| && IsStructural(a[k]);
      assert (a + b + c)[k] == a[k];
    }
    if !NoStructural(b) {
      var k :| 0 <= k < |b| && IsStructural(b[k]);
      assert (a + b + c)[|a| + k] == b[k];
    }
    if !NoStructural(c) {
      var k :| 0 <= k < |c| && IsStructural(c[k]);
      assert (a + b + c)[|a| + |b| + k] == c[k];
    }
  }

  /**
   * One iteration keeps the state truthful, and adds a marker exactly when
   * the match is unescaped.
   */
  lemma StepTagged(s: string, st: TokState, m: Match)
    requires Truthful(st) && ScansTo(s, st.pos, m)
    ensures Truthful(Step(s, st, m))
    ensures Markers(Step(s, st, m).out) == Markers(st.out) + (if m.Escaped() then "" else [m.symbol])
  {
    var c := [m.symbol];
    assert IsStructural(c[0]);
    if m.Escaped() {
      var piece := PySlice(s, st.pos, m.mark - 1);
      PieceFree(s, st.pos, m, m.mark - 1);
      NoStructuralConcat3(st.buf, piece, c);
    } else {
      StepTaggedUnescaped(s, st, m);
    }
  }

  /** The unescaped case of `StepTagged`: the pending text and the marker become tagged tokens. */
  lemma StepTaggedUnescaped(s: string, st: TokState, m: Match)
    requires Truthful(st) && ScansTo(s, st.pos, m) && !m.Escaped()
    ensures Truthful(Step(s, st, m))
    ensures Markers(Step(s, st, m).out) == Markers(st.out) + [m.symbol]
  {
    var c := [m.symbol];
    assert IsStructural(c[0]);
    {
      var buf := st.buf + PySlice(s, st.pos, m.mark);
      PieceFree(s, st.pos, m, m.mark);
      NoStructuralConcat3(st.buf, PySlice(s, st.pos, m.mark), "");
      assert st.buf + PySlice(s, st.pos, m.mark) + "" == buf;
      var b := if buf != "" then [Token(buf, st.flag)] else [];
      var e := if st.lm == m.start then [Token("", false)] else [];
      var ct := [Token(c, false)];
      assert AllTagged(b) && Markers(b) == "" by {
        if buf != "" {
          assert !IsMarker(Token(buf, st.flag)) by {
            if !st.flag { assert !IsStructural(buf[0]); }
          }
          assert Markers(b) == "" + Markers([]);
        }
      }
      assert AllTagged(e) && Markers(e) == "" by {
        if st.lm == m.start { assert Markers(e) == "" + Markers([]); }
      }
      assert AllTagged(ct) && Markers(ct) == c by {
        assert Markers(ct) == c + Markers([]);
      }
      AllTaggedAppend(st.out, b);
      AllTaggedAppend(st.out + b, e);
      AllTaggedAppend(st.out + b + e, ct);
      MarkersAppend(st.out + b + e, ct);
      MarkersAppend(st.out + b, e);
      MarkersAppend(st.out, b);
    }
  }

  /** The flush after the loop keeps every token tagged and adds no marker. */
  lemma FinishTagged(s: string, st: TokState)
    requires Truthful(st) && 0 <= st.pos <= |s| && NoStructural(s[st.pos..])
    ensures AllTagged(Finish(s, st)) && Markers(Finish(s, st)) == Markers(st.out)
  {
    var b := if st.buf != "" then [Token(st.buf, st.flag)] else [];
    var r := if st.pos < |s| then [Token(PySlice(s, st.pos, |s|), false)] else [];
    assert AllTagged(b) && Markers(b) == "" by {
      if st.buf != "" {
        assert !IsMarker(Token(st.buf, st.flag)) by {
          if !st.flag { assert !IsStructural(st.buf[0]); }
        }
        assert Markers(b) == "" + Markers([]);
      }
    }
    assert AllTagged(r) && Markers(r) == "" by {
      if st.pos < |s| {
        assert PySlice(s, st.pos, |s|) == s[st.pos..];
        assert !IsStructural(s[st.pos..][0]);
        assert Markers(r) == "" + Markers([]);
      }
    }
    AllTaggedAppend(st.out, b);
    AllTaggedAppend(st.out + b, r);
    MarkersAppend(st.out + b, r);
    MarkersAppend(st.out, b);
  }

  /** The loop from `st` over the matches from `p` is its first iteration, then the loop over the rest. */
  lemma StepsFirst(s: string, st: TokState, p: nat)
    requires p <= |s| && MatchesFrom(s, p) != []
    ensures var m := MatchesFrom(s, p)[0];
      ScansTo(s, p, m) && m.End() <= |s| &&
      Steps(s, st, MatchesFrom(s, p)) == Steps(s, Step(s, st, m), MatchesFrom(s, m.End())) &&
      UnescapedSymbols(MatchesFrom(s, p)) ==
        (if m.Escaped() then "" else [m.symbol]) + UnescapedSymbols(MatchesFrom(s, m.End()))
  {
    FirstMatchFrom(s, p);
  }

  /**
   * From a truthful state whose `pos` is where the scan resumes, the rest of
   * the loop and the flush yield tagged tokens, and their markers are the
   * unescaped matches still to come.
   */
  lemma {:induction false} RunTagged(s: string, st: TokState)
    requires 0 <= st.pos <= |s| && Truthful(st)
    ensures var r := Finish(s, Steps(s, st, MatchesFrom(s, st.pos)));
      AllTagged(r) && Markers(r) == Markers(st.out) + UnescapedSymbols(MatchesFrom(s, st.pos))
    decreases |s| - st.pos, 1
  {
    if MatchesFrom(s, st.pos) == [] {
      NoMatchFrom(s, st.pos);
      FinishTagged(s, st);
    } else {
      RunTaggedStep(s, st);
    }
  }

  lemma {:induction false} RunTaggedStep(s: string, st: TokState)
    requires 0 <= st.pos <= |s| && Truthful(st) && MatchesFrom(s, st.pos) != []
    ensures var r := Finish(s, Steps(s, st, MatchesFrom(s, st.pos)));
      AllTagged(r) && Markers(r) == Markers(st.out) + UnescapedSymbols(MatchesFrom(s, st.pos))
    decreases |s| - st.pos, 0
  {
    var m := MatchesFrom(s, st.pos)[0];
    StepsFirst(s, st, st.pos);
    StepTagged(s, st, m);
    RunTagged(s, Step(s, st, m));
    AppendAssoc(Markers(st.out), if m.Escaped() then "" else [m.symbol], UnescapedSymbols(MatchesFrom(s, m.End())));
  }

  /**
   * Every token's flag is truthful, and the markers `parse` sees are exactly
   * the unescaped structural characters of the input, in order: an escaped
   * character never reaches `parse` as structure.
   */
  lemma TokensTagged(s: string)
    ensures AllTagged(Tokens(s))
    ensures Markers(Tokens(s)) == UnescapedSymbols(Matches(s))
  {
    if Matches(s) == [] {
      MarkupFreeTagged(s);
    } else {
      var m := Matches(s)[0];
      var st := Init(s, m);
      InitTagged(s);
      StepsFirst(s, st, 0);
      StepTagged(s, st, m);
      var next := Step(s, st, m);
      var sym := if m.Escaped() then "" else [m.symbol];
      assert Markers(next.out) == sym by {
        assert Markers(st.out) + sym == "" + sym;
      }
      RunTagged(s, next);
      assert Tokens(s) == Finish(s, Steps(s, next, MatchesFrom(s, next.pos)));
    }
  }

  lemma MarkupFreeTagged(s: string)
    requires Matches(s) == []
    ensures AllTagged(Tokens(s)) && Markers(Tokens(s)) == ""
  {
    NoMatches(s);
    assert !IsMarker(Token(s, false)) by {
      if |s| == 1 { assert !IsStructural(s[0]); }
    }
    assert Markers([Token(s, false)]) == "" + Markers([]);
  }

  /** The state before the loop is truthful, has no marker, and the scan reaches the first match from it. */
  lemma InitTagged(s: string)
    requires Matches(s) != []
    ensures var m := Matches(s)[0];
      Truthful(Init(s, m)) && Markers(Init(s, m).out) == "" && ScansTo(s, Init(s, m).pos, m)
  {
    var m := Matches(s)[0];
    var st := Init(s, m);
    FirstMatchFrom(s, 0);
    if m.start > 0 {
      var t := s[0..m.start];
      assert st.out == [Token(t, false)];
      assert !IsMarker(st.out[0]) by {
        if m.start == 1 { assert !IsStructural(t[0]); }
      }
      assert Markers(st.out) == "" + Markers([]);
      assert s[m.start..m.start] == "";
    }
  }

  // ---------------------------------------------------------------------------
  // parse
  // ---------------------------------------------------------------------------

  /** A token `parse` reads as text: flagged, or not one of `<`, `:`, `>`. */
  predicate IsText(t: Token) { t.escaped || !Old.IsMarkupToken(t.text) }

  /**
   * The parse loop from token `i` on. Structure is recognised only in
   * unflagged tokens; `:` at an even state, top level included, is text;
   * the spec after `<` is taken whatever its flag.
   */
  function ParseFrom(tokens: seq<Token>, i: nat, st: Old.ParseState): Old.Outcome
    requires i <= |tokens| && Old.StackOk(st)
    decreases |tokens| - i
  {
    if i == |tokens| then
      if st.state != 0 then Old.Outcome(st.segments, Old.Raised(Old.InvalidFormat))
      else Old.Outcome(Old.Flush(st), Old.Finished)
    else
      var token := tokens[i];
      if token.text == "<" && !token.escaped then
        var segments := Old.Flush(st);
        if i + 1 == |tokens| then Old.Outcome(segments, Old.Stopped)
        else match Old.ExtractSpec(tokens[i + 1].text)
          case Err(message) => Old.Outcome(segments, Old.Raised(message))
          case Ok(colors) =>
            ParseFrom(tokens, i + 2,
              Old.ParseState(segments, "", st.state + 1, st.stack + [Old.Merge(Old.Top(st), colors)]))
      else if token.text == ":" && !token.escaped then
        if st.state % 2 != 0 then ParseFrom(tokens, i + 1, st.(state := st.state + 1))
        else ParseFrom(tokens, i + 1, st.(txt := st.txt + token.text))
      else if token.text == ">" && !token.escaped then
        if st.state < 2 then Old.Outcome(st.segments, Old.Raised(Old.MissingStop))
        else ParseFrom(tokens, i + 1,
          Old.ParseState(Old.Flush(st), "", st.state - 2, st.stack[..|st.stack| - 1]))
      else ParseFrom(tokens, i + 1, st.(txt := st.txt + token.text))
  }

  function ParseTokens(tokens: seq<Token>): Old.Outcome
  {
    ParseFrom(tokens, 0, Old.Start)
  }

  method Parse(tokens: seq<Token>) returns (outcome: Old.Outcome)
    ensures outcome == ParseTokens(tokens)
  {
    var segments: seq<Old.Segment> := [];
    var txt, state := "", 0;
    var stack := [Old.Plain];
    var i := 0;
    while i < |tokens|
      invariant 0 <= i <= |tokens|
      invariant Old.StackOk(Old.ParseState(segments, txt, state, stack))
      invariant ParseFrom(tokens, i, Old.ParseState(segments, txt, state, stack)) == ParseTokens(tokens)
      decreases |tokens| - i
    {
      var token := tokens[i].text;
      var escaped := tokens[i].escaped;
      if token == "<" && !escaped {
        if txt != "" {
          segments := segments + [Old.Segment(txt, stack[|stack| - 1])];
          txt := "";
        }
        state := state + 1;
        if i + 1 == |tokens| {
          return Old.Outcome(segments, Old.Stopped);
        }
        var colors := Old.ExtractSyntax(tokens[i + 1].text);
        if colors.Err? {
          return Old.Outcome(segments, Old.Raised(colors.error));
        }
        stack := stack + [Old.Merge(stack[|stack| - 1], colors.value)];
        i := i + 2;
      } else if token == ":" && !escaped {
        if state % 2 != 0 {
          state := state + 1;
        } else {
          txt := txt + token;
        }
        i := i + 1;
      } else if token == ">" && !escaped {
        if state < 2 {
          return Old.Outcome(segments, Old.Raised(Old.MissingStop));
        }
        if txt != "" {
          segments := segments + [Old.Segment(txt, stack[|stack| - 1])];
          txt := "";
        }
        state := state - 2;
        stack := stack[..|stack| - 1];
        i := i + 1;
      } else {
        txt := txt + token;
        i := i + 1;
      }
    }
    if state != 0 {
      return Old.Outcome(segments, Old.Raised(Old.InvalidFormat));
    }
    if txt != "" {
      segments := segments + [Old.Segment(txt, stack[|stack| - 1])];
    }
    return Old.Outcome(segments, Old.Finished);
  }

  /** `parse` on a whole string: tokenize, then parse the tokens. */
  method ParseString(s: string) returns (outcome: Old.Outcome)
    ensures outcome == ParseTokens(Tokens(s))
  {
    var tokens := Tokenize(s);
    outcome := Parse(tokens);
  }

  /** Tokens read as text accumulate in `txt` and change nothing else. */
  lemma {:induction false} TextRun(tokens: seq<Token>, i: nat, j: nat, st: Old.ParseState)
    requires i <= j <= |tokens| && Old.StackOk(st)
    requires forall k :: i <= k < j ==> IsText(tokens[k])
    ensures ParseFrom(tokens, i, st) == ParseFrom(tokens, j, st.(txt := st.txt + Concat(Texts(tokens[i..j]))))
    decreases j - i
  {
    var texts := Texts(tokens[i..j]);
    if i == j {
      assert st.(txt := st.txt + Concat(texts)) == st;
    } else {
      TextRun(tokens, i + 1, j, st.(txt := st.txt + tokens[i].text));
      assert texts[0] == tokens[i].text && texts[1..] == Texts(tokens[i + 1..j]);
      assert Concat(texts) == tokens[i].text + Concat(texts[1..]);
      assert st.txt + tokens[i].text + Concat(texts[1..]) == st.txt + Concat(texts);
    }
  }

  /** A `:` outside a spec, at top level included, is text: it never raises. */
  lemma ColonIsText(tokens: seq<Token>, i: nat, st: Old.ParseState)
    requires i < |tokens| && Old.StackOk(st) && st.state % 2 == 0
    requires tokens[i] == Token(":", false)
    ensures ParseFrom(tokens, i, st) == ParseFrom(tokens, i + 1, st.(txt := st.txt + ":"))
  {
    assert ":" != "<";
  }

  lemma UnexpectedNotMissingStart(piece: string)
    ensures Old.UnexpectedSyntax(piece) != Old.MissingStart
  {
    assert Old.UnexpectedSyntax(piece)[0] == 'U';
  }

  /**
   * `parse` never raises "Missing '<'": the only errors are a `>` with no
   * open scope, an unterminated scope, and a rejected spec.
   */
  lemma {:induction false} NeverMissingStart(tokens: seq<Token>, i: nat, st: Old.ParseState)
    requires i <= |tokens| && Old.StackOk(st)
    ensures var end := ParseFrom(tokens, i, st).end;
      end.Raised? ==>
        end.message == Old.MissingStop || end.message == Old.InvalidFormat ||
        exists piece :: end.message == Old.UnexpectedSyntax(piece)
    ensures ParseFrom(tokens, i, st).end != Old.Raised(Old.MissingStart)
    decreases |tokens| - i
  {
    if i < |tokens| {
      var token := tokens[i];
      if token.text == "<" && !token.escaped {
        if i + 1 < |tokens| {
          match Old.ExtractSpec(tokens[i + 1].text)
          case Err(message) =>
            var piece := Split(tokens[i + 1].text, ',')[0];
            assert message == Old.UnexpectedSyntax(piece);
            UnexpectedNotMissingStart(piece);
          case Ok(colors) =>
            NeverMissingStart(tokens, i + 2,
              Old.ParseState(Old.Flush(st), "", st.state + 1, st.stack + [Old.Merge(Old.Top(st), colors)]));
        }
      } else if token.text == ":" && !token.escaped {
        if st.state % 2 != 0 {
          NeverMissingStart(tokens, i + 1, st.(state := st.state + 1));
        } else {
          NeverMissingStart(tokens, i + 1, st.(txt := st.txt + token.text));
        }
      } else if token.text == ">" && !token.escaped {
        if st.state >= 2 {
          NeverMissingStart(tokens, i + 1,
            Old.ParseState(Old.Flush(st), "", st.state - 2, st.stack[..|st.stack| - 1]));
        }
      } else {
        NeverMissingStart(tokens, i + 1, st.(txt := st.txt + token.text));
      }
    } else {
      assert Old.InvalidFormat != Old.MissingStart by { assert Old.InvalidFormat[0] != Old.MissingStart[0]; }
    }
  }

  /**
   * Input whose structural characters are all escaped comes out as one
   * plain segment holding the text it denotes (nothing when that is empty):
   * escaping works wherever the escaped character lands.
   */
  lemma AllEscaped(s: string)
    requires UnescapedSymbols(Matches(s)) == ""
    ensures ParseTokens(Tokens(s)) ==
      Old.Outcome(if Visible(s) == "" then [] else [Old.Segment(Visible(s), Old.Plain)], Old.Finished)
  {
    var tokens := Tokens(s);
    TokensTagged(s);
    forall k | 0 <= k < |tokens| ensures IsText(tokens[k]) {
      MarkerAt(tokens, k);
      assert !IsMarker(tokens[k]);
    }
    TextRun(tokens, 0, |tokens|, Old.Start);
    TokensRoundTrip(s);
    assert tokens[0..|tokens|] == tokens;
    assert "" + Visible(s) == Visible(s);
  }

  /** A marker among the tokens shows up among their markers. */
  lemma {:induction false} MarkerAt(ts: seq<Token>, k: nat)
    requires k < |ts|
    ensures IsMarker(ts[k]) ==> Markers(ts) != ""
    decreases k
  {
    if k > 0 {
      MarkerAt(ts[1..], k - 1);
      assert ts[1..][k - 1] == ts[k];
    }
  }

  /** Markup-free input, empty or not, is one plain segment (nothing when empty). */
  lemma MarkupFree(s: string)
    requires NoStructural(s)
    ensures ParseTokens(Tokens(s)) ==
      Old.Outcome(if s == "" then [] else [Old.Segment(s, Old.Plain)], Old.Finished)
  {
    NoMatches(s);
    VisiblePlain(s);
    AllEscaped(s);
  }

  /** `a\<b`: the escaped `<` stays text, so the input is one plain segment `a<b`. */
  lemma EscapedStartKept()
    ensures ParseTokens(Tokens("a\\<b")) == Old.Outcome([Old.Segment("a<b", Old.Plain)], Old.Finished)
  {
    var s := "a\\<b";
    Old.EscapedStartMatches();
    Old.EscapedStartVisible();
    assert UnescapedSymbols([Match(1, 2, '<')]) == "";
    AllEscaped(s);
  }

  // ---------------------------------------------------------------------------
  // to_rgb
  // ---------------------------------------------------------------------------

  function UnsupportedSpace(space: string): string { "Unsupported color space '" + space + "'" }

  /**
   * `to_rgb`: the components unchanged for "rgb", an error for a space with
   * no conversion, and None for "hls" and "hsv", whose converted value is
   * computed and dropped.
   */
  function ToRgb<T>(space: string, a: T, b: T, c: T): (r: Result<Option<(T, T, T)>, string>)
    ensures space == "rgb" ==> r == Ok(Some((a, b, c)))
    ensures space != "rgb" && space != "hls" && space != "hsv" ==> r == Err(UnsupportedSpace(space))
    ensures space == "hls" || space == "hsv" ==> r == Ok(None)
  {
    if space == "rgb" then Ok(Some((a, b, c)))
    else if space != "hls" && space != "hsv" then Err(UnsupportedSpace(space))
    else Ok(None)
  }
}
