/**
 * The older bracket-markup parser: `<fg=red,bg=blue:text>` with `\` escapes
 * and nesting, tokenized by one scan over the input and parsed with a state
 * counter and a stack of (fg, bg) scopes.
 */
module ColorFormatParser {
  import opened Wrappers
  import opened Text
  import opened Markup

  // ---------------------------------------------------------------------------
  // tokenize
  // ---------------------------------------------------------------------------

  /** The scanning loop's variables: the tokens yielded so far, `pos`, `buf` and `lm`. */
  datatype TokState = TokState(out: seq<string>, pos: int, buf: string, lm: int)

  /** Before the loop: text before the first match is yielded, otherwise `pos` stays -1. */
  function Init(s: string, first: Match): TokState
  {
    if first.start > 0 then TokState([PySlice(s, 0, first.start)], first.start, "", -1)
    else TokState([], -1, "", -1)
  }

  /** One loop iteration over match `m`. */
  function Step(s: string, st: TokState, m: Match): TokState
  {
    var c := [m.symbol];
    if m.Escaped() then
      TokState(st.out, m.End(), st.buf + PySlice(s, st.pos, m.mark - 1) + c, st.lm)
    else
      var buf := st.buf + PySlice(s, st.pos, m.mark);
      var out := st.out + (if buf != "" then [buf] else [])
                        + (if st.lm == m.start then [""] else []) + [c];
      TokState(out, m.End(), "", m.End())
  }

  /** The loop over the matches `ms`, from state `st`. */
  function Steps(s: string, st: TokState, ms: seq<Match>): TokState
    decreases |ms|
  {
    if ms == [] then st else Steps(s, Step(s, st, ms[0]), ms[1..])
  }

  /** After the loop: pending text, then whatever follows the last match. */
  function Finish(s: string, st: TokState): seq<string>
  {
    st.out + (if st.buf != "" then [st.buf] else [])
           + (if st.pos < |s| then [PySlice(s, st.pos, |s|)] else [])
  }

  /**
   * The tokens `tokenize` yields. With no match at all, `next` raises
   * StopIteration inside the generator, which ends it with nothing yielded.
   */
  function Tokens(s: string): seq<string>
  {
    var ms := Matches(s);
    if ms == [] then [] else Finish(s, Steps(s, Init(s, ms[0]), ms))
  }

  method Tokenize(s: string) returns (tokens: seq<string>)
    ensures tokens == Tokens(s)
  {
    var ms := Matches(s);
    if |ms| == 0 {
      return [];
    }
    tokens := [];
    var pos: int, buf: string, lm: int := -1, "", -1;
    var t := ms[0];
    if t.start > 0 {
      tokens := tokens + [PySlice(s, 0, t.start)];
      pos := t.start;
    }
    assert TokState(tokens, pos, buf, lm) == Init(s, t);
    var i := 0;
    while i < |ms|
      invariant 0 <= i <= |ms|
      invariant Steps(s, TokState(tokens, pos, buf, lm), ms[i..]) == Steps(s, Init(s, t), ms)
    {
      assert ms[i..][0] == ms[i] && ms[i..][1..] == ms[i + 1..];
      tokens, pos, buf, lm := TokenizeStep(s, ms[i], tokens, pos, buf, lm);
      i := i + 1;
    }
    if buf != "" {
      tokens := tokens + [buf];
    }
    if pos < |s| {
      tokens := tokens + [PySlice(s, pos, |s|)];
    }
  }

  /** One pass of the loop of `tokenize`: an escaped match joins the buffer; any other flushes the buffer and yields the symbol. */
  method TokenizeStep(s: string, m: Match, tokens: seq<string>, pos: int, buf: string, lm: int)
    returns (tokens': seq<string>, pos': int, buf': string, lm': int)
    ensures TokState(tokens', pos', buf', lm') == Step(s, TokState(tokens, pos, buf, lm), m)
  {
    tokens', pos', buf', lm' := tokens, pos, buf, lm;
    var c := [m.symbol];
    if (m.mark - m.start) % 2 == 1 {
      buf' := buf' + PySlice(s, pos', m.mark - 1) + c;
    } else {
      buf' := buf' + PySlice(s, pos', m.mark);
      if buf' != "" {
        tokens' := tokens' + [buf'];
        buf' := "";
      }
      if lm' == m.start {
        tokens' := tokens' + [""];
      }
      tokens' := tokens' + [c];
      lm' := m.End();
    }
    pos' := m.End();
  }

  /** One iteration adds to the yielded text and the buffer exactly what the match stands for. */
  lemma StepVisible(s: string, st: TokState, m: Match)
    requires IsMatchIn(s, m)
    requires (st.pos == -1 && m.start == 0) || 0 <= st.pos <= m.start
    ensures Step(s, st, m).pos == m.End()
    ensures Concat(Step(s, st, m).out) + Step(s, st, m).buf ==
      Concat(st.out) + st.buf +
      (if st.pos == -1 then [m.symbol] else s[st.pos..m.start] + VisibleMatch(s, m))
  {
    var hi := if m.Escaped() then m.mark - 1 else m.mark;
    var piece, c := PySlice(s, st.pos, hi), [m.symbol];
    PieceBeforeMark(s, st.pos, m, hi);
    var tail := if st.pos == -1 then c else s[st.pos..m.start] + VisibleMatch(s, m);
    assert piece + c == tail by {
      if st.pos == -1 {
        assert "" + c == c;
      } else {
        AppendAssoc(s[st.pos..m.start], s[m.start..hi], c);
      }
    }
    var x := Concat(st.out);
    var next := Step(s, st, m);
    if m.Escaped() {
      assert next.out == st.out && next.buf == (st.buf + piece) + c;
      AppendAssoc(st.buf, piece, c);
      AppendAssoc(x, st.buf, piece + c);
    } else {
      UnescapedStep(st.out, st.buf + piece, st.lm == m.start, c);
      assert Concat(next.out) == x + (st.buf + piece) + c && next.buf == "";
      AppendAssoc(x, st.buf, piece);
      AppendAssoc(x + st.buf, piece, c);
      assert Concat(next.out) + "" == Concat(next.out);
    }
  }

  /** The text the loop takes up to `hi`: nothing from the -1 start, else the gap before the match, then the match's escapes. */
  lemma PieceBeforeMark(s: string, pos: int, m: Match, hi: int)
    requires IsMatchIn(s, m) && m.start <= hi <= m.mark
    requires (pos == -1 && m.start == 0) || 0 <= pos <= m.start
    ensures PySlice(s, pos, hi) == if pos == -1 then "" else s[pos..m.start] + s[m.start..hi]
  {
    if pos == -1 {
      SliceFromLast(s, hi);
    } else {
      assert s[pos..hi] == s[pos..m.start] + s[m.start..hi];
    }
  }

  /** The output of an unescaped match: the pending buffer, maybe an empty token, the character. */
  lemma UnescapedStep(out: seq<string>, buf: string, adjacent: bool, c: string)
    ensures Concat(out + (if buf != "" then [buf] else []) + (if adjacent then [""] else []) + [c]) ==
      Concat(out) + buf + c
  {
    var b := if buf != "" then [buf] else [];
    var e := if adjacent then [""] else [];
    ConcatAppend(out + b + e, [c]);
    ConcatAppend(out + b, e);
    ConcatAppend(out, b);
    ConcatOne(c);
    if buf != "" {
      ConcatOne(buf);
    }
    if adjacent {
      ConcatOne("");
    }
    assert Concat(out + b + e) == Concat(out) + buf by {
      assert (Concat(out) + Concat(b)) + "" == Concat(out) + Concat(b);
    }
  }

  lemma FinishVisible(s: string, st: TokState)
    requires 0 <= st.pos <= |s|
    ensures Concat(Finish(s, st)) == Concat(st.out) + st.buf + s[st.pos..]
  {
    var b := if st.buf != "" then [st.buf] else [];
    var r := if st.pos < |s| then [PySlice(s, st.pos, |s|)] else [];
    ConcatAppend(st.out + b, r);
    ConcatAppend(st.out, b);
  }

  /**
   * From any state whose `pos` is where the scan resumes, the rest of the
   * loop and the flush after it yield exactly the text the rest denotes.
   */
  lemma {:induction false} RunVisible(s: string, st: TokState)
    requires 0 <= st.pos <= |s|
    ensures Concat(Finish(s, Steps(s, st, MatchesFrom(s, st.pos)))) ==
      Concat(st.out) + st.buf + VisibleFrom(s, st.pos, false)
    decreases |s| - st.pos, 1
  {
    if MatchesFrom(s, st.pos) == [] {
      NoMatchVisible(s, st.pos, false);
      FinishVisible(s, st);
    } else {
      RunVisibleStep(s, st);
    }
  }

  lemma {:induction false} RunVisibleStep(s: string, st: TokState)
    requires 0 <= st.pos <= |s| && MatchesFrom(s, st.pos) != []
    ensures Concat(Finish(s, Steps(s, st, MatchesFrom(s, st.pos)))) ==
      Concat(st.out) + st.buf + VisibleFrom(s, st.pos, false)
    decreases |s| - st.pos, 0
  {
    var m := MatchesFrom(s, st.pos)[0];
    StepsFirst(s, st, st.pos);
    StepThenRest(s, st);
    RunVisible(s, Step(s, st, m));
  }

  /** The loop from `st` over the matches from `p` is its first iteration, then the loop over the rest. */
  lemma StepsFirst(s: string, st: TokState, p: nat)
    requires p <= |s| && MatchesFrom(s, p) != []
    ensures var m := MatchesFrom(s, p)[0];
      IsMatchIn(s, m) &&
      Steps(s, st, MatchesFrom(s, p)) == Steps(s, Step(s, st, m), MatchesFrom(s, m.End()))
  {
    FirstMatchFrom(s, p);
  }

  /** What the first iteration adds, followed by what the rest denotes, is what everything from `pos` denotes. */
  lemma StepThenRest(s: string, st: TokState)
    requires 0 <= st.pos <= |s| && MatchesFrom(s, st.pos) != []
    ensures var m := MatchesFrom(s, st.pos)[0];
      var next := Step(s, st, m);
      next.pos == m.End() && next.pos <= |s| &&
      Concat(next.out) + next.buf + VisibleFrom(s, m.End(), false) ==
        Concat(st.out) + st.buf + VisibleFrom(s, st.pos, false)
  {
    var m := MatchesFrom(s, st.pos)[0];
    FirstMatchVisible(s, st.pos, false);
    StepVisible(s, st, m);
    FirstMatchFrom(s, st.pos);
    AppendAssoc(Concat(st.out) + st.buf, s[st.pos..m.start] + VisibleMatch(s, m), VisibleFrom(s, m.End(), false));
  }

  /**
   * Concatenating the tokens gives back the input as it reads once escapes
   * are resolved: one escape dropped before a structural character after an
   * odd run, an even run kept, an escape run at offset 0 dropped whole.
   * This holds whenever the input has a structural character at all.
   */
  lemma TokensVisible(s: string)
    requires !NoStructural(s)
    ensures Concat(Tokens(s)) == Visible(s)
  {
    NoMatches(s);
    var m := Matches(s)[0];
    StepsFirst(s, Init(s, m), 0);
    InitThenRest(s);
    RunVisible(s, Step(s, Init(s, m), m));
  }

  /** The text before the first match, then the first iteration, then what the rest denotes, is the whole text. */
  lemma InitThenRest(s: string)
    requires Matches(s) != []
    ensures var m := Matches(s)[0];
      var next := Step(s, Init(s, m), m);
      next.pos == m.End() && next.pos <= |s| &&
      Concat(next.out) + next.buf + VisibleFrom(s, m.End(), false) == Visible(s)
  {
    if Matches(s)[0].start > 0 {
      InitThenRestAfter(s);
    } else {
      InitThenRestAt0(s);
    }
  }

  /** `InitThenRest` when the first match is at offset 0: only its character is kept. */
  lemma InitThenRestAt0(s: string)
    requires Matches(s) != [] && Matches(s)[0].start == 0
    ensures var m := Matches(s)[0];
      var next := Step(s, Init(s, m), m);
      next.pos == m.End() && next.pos <= |s| &&
      Concat(next.out) + next.buf + VisibleFrom(s, m.End(), false) == Visible(s)
  {
    var m := Matches(s)[0];
    FirstMatchVisible(s, 0, true);
    StepVisible(s, Init(s, m), m);
    assert s[0..0] + [m.symbol] == [m.symbol];
  }

  /** `InitThenRest` when text precedes the first match: that text is yielded first. */
  lemma InitThenRestAfter(s: string)
    requires Matches(s) != [] && Matches(s)[0].start > 0
    ensures var m := Matches(s)[0];
      var next := Step(s, Init(s, m), m);
      next.pos == m.End() && next.pos <= |s| &&
      Concat(next.out) + next.buf + VisibleFrom(s, m.End(), false) == Visible(s)
  {
    var m := Matches(s)[0];
    FirstMatchVisible(s, 0, true);
    InitStep(s, m);
  }

  /** Text before a first match at `m`, then the first iteration, yield that text and what `m` stands for. */
  lemma InitStep(s: string, m: Match)
    requires IsMatchIn(s, m) && m.start > 0
    ensures var next := Step(s, Init(s, m), m);
      next.pos == m.End() && Concat(next.out) + next.buf == s[0..m.start] + VisibleMatch(s, m)
  {
    var a, v := s[0..m.start], VisibleMatch(s, m);
    var st := Init(s, m);
    assert st == TokState([a], m.start, "", -1);
    ConcatOne(a);
    StepVisible(s, st, m);
    assert Concat(st.out) + st.buf + (s[m.start..m.start] + v) == a + v by {
      assert s[m.start..m.start] + v == v && a + "" == a;
    }
  }

  /** Input without structural characters yields no token at all. */
  lemma TokensMarkupFree(s: string)
    requires NoStructural(s)
    ensures Tokens(s) == []
  {
    NoMatches(s);
  }

  /**
   * The tokenizer as evidently intended: input without structural characters
   * is one text token (the newer parser's `tokenize` does this).
   */
  function TokensIntended(s: string): (r: seq<string>)
  {
    if Matches(s) == [] then [s] else Tokens(s)
  }

  /** The intended tokenizer reproduces every input as it reads. */
  lemma TokensIntendedVisible(s: string)
    ensures Concat(TokensIntended(s)) == Visible(s)
  {
    NoMatches(s);
    if NoStructural(s) {
      VisiblePlain(s);
      assert Concat([s]) == s + Concat([]);
    } else {
      TokensVisible(s);
    }
  }

  lemma {:induction false} StepsAppend(s: string, st: TokState, a: seq<Match>, b: seq<Match>)
    ensures Steps(s, st, a + b) == Steps(s, Steps(s, st, a), b)
    decreases |a|
  {
    if a == [] {
      assert a + b == b;
    } else {
      assert (a + b)[0] == a[0] && (a + b)[1..] == a[1..] + b;
      StepsAppend(s, Step(s, st, a[0]), a[1..], b);
    }
  }

  /** The loop only ever appends to the tokens already yielded. */
  lemma {:induction false} StepsExtend(s: string, st: TokState, ms: seq<Match>)
    ensures st.out <= Steps(s, st, ms).out
    decreases |ms|
  {
    if ms != [] {
      StepsExtend(s, Step(s, st, ms[0]), ms[1..]);
    }
  }

  /**
   * Two structural characters next to each other, the first with no escape
   * before it, come out as the first, an empty token, then the second.
   */
  lemma AdjacentSeparated(s: string, i: nat)
    requires i + 1 < |s| && IsStructural(s[i]) && IsStructural(s[i + 1])
    requires i == 0 || s[i - 1] != Escape
    ensures exists k :: 0 <= k <= |Tokens(s)| && [[s[i]], "", [s[i + 1]]] <= Tokens(s)[k..]
  {
    MatchesReach(s, 0, i);
    var before :| Matches(s) == before + [Match(i, i, s[i])] + MatchesFrom(s, i + 1);
    var m1, m2 := Match(i, i, s[i]), Match(i + 1, i + 1, s[i + 1]);
    var rest := MatchesFrom(s, i + 2);
    assert MatchesFrom(s, i + 1) == [m2] + rest;
    var ms := Matches(s);
    assert ms == before + ([m1, m2] + rest);
    assert Tokens(s) == Finish(s, Steps(s, Init(s, ms[0]), ms));
    AdjacentInRun(s, Init(s, ms[0]), before, i, rest);
  }

  /** The loop over matches that include two adjacent unescaped ones yields their characters with an empty token between. */
  lemma AdjacentInRun(s: string, st0: TokState, before: seq<Match>, i: nat, rest: seq<Match>)
    requires i + 1 < |s|
    ensures var out := Finish(s, Steps(s, st0, before + ([Match(i, i, s[i]), Match(i + 1, i + 1, s[i + 1])] + rest)));
      exists k :: 0 <= k <= |out| && [[s[i]], "", [s[i + 1]]] <= out[k..]
  {
    var m1, m2 := Match(i, i, s[i]), Match(i + 1, i + 1, s[i + 1]);
    var out := Finish(s, Steps(s, st0, before + ([m1, m2] + rest)));
    var x := Steps(s, st0, before);
    var st2 := Step(s, Step(s, x, m1), m2);
    StepsAppend(s, st0, before, [m1, m2] + rest);
    StepsTwo(s, x, m1, m2, rest);
    PairStep(s, x, i);
    FinishExtends(s, st2, rest);
    var k := |st2.out| - 3;
    assert st2.out[k..] <= out[k..];
  }

  /** Two unescaped adjacent matches: the first character, an empty token, the second. */
  lemma PairStep(s: string, x: TokState, i: nat)
    requires i + 1 < |s|
    ensures var st2 := Step(s, Step(s, x, Match(i, i, s[i])), Match(i + 1, i + 1, s[i + 1]));
      |st2.out| >= 3 && st2.out[|st2.out| - 3..] == [[s[i]], "", [s[i + 1]]]
  {
    var st1 := Step(s, x, Match(i, i, s[i]));
    assert st1.buf == "" && st1.lm == i + 1 && st1.pos == i + 1;
    assert st1.out[|st1.out| - 1] == [s[i]];
    assert PySlice(s, i + 1, i + 1) == "";
  }

  lemma StepsTwo(s: string, x: TokState, a: Match, b: Match, rest: seq<Match>)
    ensures Steps(s, x, [a, b] + rest) == Steps(s, Step(s, Step(s, x, a), b), rest)
  {
    assert ([a, b] + rest)[1..] == [b] + rest;
    assert ([b] + rest)[1..] == rest;
  }

  /** The tokens a state has already yielded stay at the front of everything yielded after it. */
  lemma FinishExtends(s: string, st: TokState, ms: seq<Match>)
    ensures st.out <= Finish(s, Steps(s, st, ms))
  {
    StepsExtend(s, st, ms);
  }

  // ---------------------------------------------------------------------------
  // extract_syntax
  // ---------------------------------------------------------------------------

  /** A scope's colours: fg then bg, each absent or a (possibly empty) string. */
  datatype Scope = Scope(fg: Option<string>, bg: Option<string>)

  const FgKey: string := "fg="
  const BgKey: string := "bg="

  /** What the last piece that starts with `key` carries after it, if any piece does. */
  function LastKeyed(pieces: seq<string>, key: string): (r: Option<string>)
    requires |key| == 3
    ensures r.Some? <==> exists j :: 0 <= j < |pieces| && StartsWith(pieces[j], key)
    decreases |pieces|
  {
    if pieces == [] then None
    else
      var last := pieces[|pieces| - 1];
      var rest := LastKeyed(pieces[..|pieces| - 1], key);
      if StartsWith(last, key) then Some(last[3..])
      else
        assert forall j :: 0 <= j < |pieces| - 1 ==> pieces[..|pieces| - 1][j] == pieces[j];
        rest
  }

  predicate IsKeyed(piece: string) { StartsWith(piece, FgKey) || StartsWith(piece, BgKey) }

  function UnexpectedSyntax(piece: string): string { "Unexpected color syntax '" + piece + "'" }

  /**
   * `extract_syntax`, stated whole: the first comma-separated piece must be
   * an `fg=` or `bg=` piece, otherwise the call fails quoting it; each slot
   * then holds what its last piece carries; other pieces are ignored.
   */
  function ExtractSpec(syntax: string): Result<Scope, string>
  {
    var pieces := Split(syntax, ',');
    if !IsKeyed(pieces[0]) then Err(UnexpectedSyntax(pieces[0]))
    else Ok(Scope(LastKeyed(pieces, FgKey), LastKeyed(pieces, BgKey)))
  }

  lemma LastKeyedSnoc(pieces: seq<string>, piece: string, key: string)
    requires |key| == 3
    ensures LastKeyed(pieces + [piece], key) ==
      if StartsWith(piece, key) then Some(piece[3..]) else LastKeyed(pieces, key)
  {
    assert (pieces + [piece])[..|pieces|] == pieces;
  }

  /** The source's loop: every piece overwrites the slot its key names. */
  method ExtractSyntax(syntax: string) returns (r: Result<Scope, string>)
    ensures r == ExtractSpec(syntax)
  {
    var pieces := Split(syntax, ',');
    var fg: Option<string> := None;
    var bg: Option<string> := None;
    var i := 0;
    while i < |pieces|
      invariant 0 <= i <= |pieces|
      invariant fg == LastKeyed(pieces[..i], FgKey) && bg == LastKeyed(pieces[..i], BgKey)
      invariant i > 0 ==> IsKeyed(pieces[0])
    {
      fg, bg := ExtractPiece(pieces, i, fg, bg);
      if fg == None && bg == None {
        return Err(UnexpectedSyntax(pieces[i]));
      }
      i := i + 1;
    }
    assert pieces[..|pieces|] == pieces;
    return Ok(Scope(fg, bg));
  }

  /**
   * One pass of the loop of `extract_syntax`: the piece overwrites the slot its key
   * names; both slots can still be empty only after an unkeyed first piece.
   */
  method ExtractPiece(pieces: seq<string>, i: nat, fg: Option<string>, bg: Option<string>)
    returns (fg': Option<string>, bg': Option<string>)
    requires i < |pieces|
    requires fg == LastKeyed(pieces[..i], FgKey) && bg == LastKeyed(pieces[..i], BgKey)
    requires i > 0 ==> IsKeyed(pieces[0])
    ensures fg' == LastKeyed(pieces[..i + 1], FgKey) && bg' == LastKeyed(pieces[..i + 1], BgKey)
    ensures fg' == None && bg' == None <==> i == 0 && !IsKeyed(pieces[0])
  {
    var piece := pieces[i];
    assert pieces[..i + 1] == pieces[..i] + [piece];
    LastKeyedSnoc(pieces[..i], piece, FgKey);
    LastKeyedSnoc(pieces[..i], piece, BgKey);
    if i > 0 {
      assert pieces[..i][0] == pieces[0];
    }
    fg', bg' := fg, bg;
    if StartsWith(piece, FgKey) {
      fg' := Some(piece[3..]);
    }
    if StartsWith(piece, BgKey) {
      bg' := Some(piece[3..]);
    }
  }

  /** A later piece for the same slot wins over an earlier one. */
  lemma ExtractLaterWins(first: string, second: string)
    requires StartsWith(first, FgKey) && StartsWith(second, FgKey)
    requires ',' !in first && ',' !in second
    ensures ExtractSpec(first + "," + second) == Ok(Scope(Some(second[3..]), None))
  {
    var pieces := [first, second];
    assert Join(pieces, ',') == first + "," + second by {
      assert Join(pieces[1..], ',') == second;
    }
    SplitJoin(pieces, ',');
    assert first[..3] == "fg=" && second[..3] == "fg=";
    assert !StartsWith(first, BgKey) by { assert first[0] != 'b'; }
    assert !StartsWith(second, BgKey) by { assert second[0] != 'b'; }
    assert pieces[..1] == [first];
    assert pieces[..0] == [];
  }

  /** A spec that opens with a slot never fails, whatever pieces follow. */
  lemma ExtractKeyedFirst(syntax: string)
    ensures ExtractSpec(syntax).Err? <==> !IsKeyed(Split(syntax, ',')[0])
    ensures ExtractSpec(syntax).Err? ==>
      ExtractSpec(syntax).error == UnexpectedSyntax(Split(syntax, ',')[0])
    ensures ExtractSpec(syntax).Ok? ==>
      ExtractSpec(syntax).value.fg.Some? || ExtractSpec(syntax).value.bg.Some?
  {
    var pieces := Split(syntax, ',');
    if IsKeyed(pieces[0]) {
      if StartsWith(pieces[0], FgKey) {
        assert LastKeyed(pieces, FgKey).Some?;
      } else {
        assert LastKeyed(pieces, BgKey).Some?;
      }
    }
  }

  // ---------------------------------------------------------------------------
  // parse
  // ---------------------------------------------------------------------------

  const Plain: Scope := Scope(None, None)

  /** A piece of text and the colours in force around it. */
  datatype Segment = Segment(text: string, scope: Scope)

  /**
   * How the generator ends: normally, by raising ColorSyntaxError, or
   * silently because `next` ran out of tokens right after a `<` (the
   * StopIteration ends the generator).
   */
  datatype End = Finished | Raised(message: string) | Stopped

  /** The segments the generator yields before it ends, and how it ends. */
  datatype Outcome = Outcome(segments: seq<Segment>, end: End)

  const MissingStart: string := "Missing '<'"
  const MissingStop: string := "Missing '>' or ':'"
  const InvalidFormat: string := "Invalid color format"

  predicate Truthy(o: Option<string>) { o.Some? && o.value != "" }

  /** `b or a` for one channel: the child's colour when it is set and non-empty, else the parent's. */
  function Channel(parent: Option<string>, child: Option<string>): (r: Option<string>)
    ensures Truthy(child) ==> r == child
    ensures !Truthy(child) ==> r == parent
  {
    if Truthy(child) then child else parent
  }

  function Merge(parent: Scope, child: Scope): Scope
  {
    Scope(Channel(parent.fg, child.fg), Channel(parent.bg, child.bg))
  }

  /** The parse loop's variables: the yielded segments, `txt`, `state` and the colour stack. */
  datatype ParseState = ParseState(segments: seq<Segment>, txt: string, state: int, stack: seq<Scope>)

  /**
   * The stack is never empty and `state` never exceeds twice the number of
   * pushed scopes: `:` only counts at an odd state, `>` takes two.
   */
  predicate StackOk(st: ParseState)
  {
    1 <= |st.stack| && 0 <= st.state <= 2 * (|st.stack| - 1)
  }

  function Top(st: ParseState): Scope
    requires StackOk(st)
  {
    st.stack[|st.stack| - 1]
  }

  /** Yield the pending text, if any, under the top scope. */
  function Flush(st: ParseState): seq<Segment>
    requires StackOk(st)
  {
    if st.txt != "" then st.segments + [Segment(st.txt, Top(st))] else st.segments
  }

  /** The parse loop from token `i` on. */
  function ParseFrom(tokens: seq<string>, i: nat, st: ParseState): Outcome
    requires i <= |tokens| && StackOk(st)
    decreases |tokens| - i
  {
    if i == |tokens| then
      if st.state != 0 then Outcome(st.segments, Raised(InvalidFormat))
      else Outcome(Flush(st), Finished)
    else
      var token := tokens[i];
      if token == "<" then
        var segments := Flush(st);
        if i + 1 == |tokens| then Outcome(segments, Stopped)
        else match ExtractSpec(tokens[i + 1])
          case Err(message) => Outcome(segments, Raised(message))
          case Ok(colors) =>
            ParseFrom(tokens, i + 2,
              ParseState(segments, "", st.state + 1, st.stack + [Merge(Top(st), colors)]))
      else if token == ":" then
        if st.state == 0 then Outcome(st.segments, Raised(MissingStart))
        else if st.state % 2 != 0 then ParseFrom(tokens, i + 1, st.(state := st.state + 1))
        else ParseFrom(tokens, i + 1, st.(txt := st.txt + token))
      else if token == ">" then
        if st.state < 2 then Outcome(st.segments, Raised(MissingStop))
        else ParseFrom(tokens, i + 1,
          ParseState(Flush(st), "", st.state - 2, st.stack[..|st.stack| - 1]))
      else ParseFrom(tokens, i + 1, st.(txt := st.txt + token))
  }

  const Start: ParseState := ParseState([], "", 0, [Plain])

  function ParseTokens(tokens: seq<string>): Outcome
  {
    ParseFrom(tokens, 0, Start)
  }

  method Parse(tokens: seq<string>) returns (outcome: Outcome)
    ensures outcome == ParseTokens(tokens)
  {
    var segments: seq<Segment> := [];
    var txt, state := "", 0;
    var stack := [Plain];
    var i := 0;
    while i < |tokens|
      invariant 0 <= i <= |tokens|
      invariant StackOk(ParseState(segments, txt, state, stack))
      invariant ParseFrom(tokens, i, ParseState(segments, txt, state, stack)) == ParseTokens(tokens)
      decreases |tokens| - i
    {
      var token := tokens[i];
      if token == "<" {
        if txt != "" {
          segments := segments + [Segment(txt, stack[|stack| - 1])];
          txt := "";
        }
        state := state + 1;
        if i + 1 == |tokens| {
          return Outcome(segments, Stopped);
        }
        var colors := ExtractSyntax(tokens[i + 1]);
        if colors.Err? {
          return Outcome(segments, Raised(colors.error));
        }
        stack := stack + [Merge(stack[|stack| - 1], colors.value)];
        i := i + 2;
      } else if token == ":" {
        if state == 0 {
          return Outcome(segments, Raised(MissingStart));
        }
        if state % 2 != 0 {
          state := state + 1;
        } else {
          txt := txt + token;
        }
        i := i + 1;
      } else if token == ">" {
        if state < 2 {
          return Outcome(segments, Raised(MissingStop));
        }
        if txt != "" {
          segments := segments + [Segment(txt, stack[|stack| - 1])];
          txt := "";
        }
        state := state - 2;
        stack := stack[..|stack| - 1];
        i := i + 1;
      } else {
        txt := txt + token;
        i := i + 1;
      }
    }
    if state != 0 {
      return Outcome(segments, Raised(InvalidFormat));
    }
    if txt != "" {
      segments := segments + [Segment(txt, stack[|stack| - 1])];
    }
    return Outcome(segments, Finished);
  }

  /** `parse` on a whole string: tokenize, then parse the tokens. */
  method ParseString(s: string) returns (outcome: Outcome)
    ensures outcome == ParseTokens(Tokens(s))
  {
    var tokens := Tokenize(s);
    outcome := Parse(tokens);
  }

  predicate NonEmptyTexts(segments: seq<Segment>)
  {
    forall j :: 0 <= j < |segments| ==> segments[j].text != ""
  }

  /** No segment with empty text is ever yielded. */
  lemma {:induction false} NoEmptySegments(tokens: seq<string>, i: nat, st: ParseState)
    requires i <= |tokens| && StackOk(st) && NonEmptyTexts(st.segments)
    ensures NonEmptyTexts(ParseFrom(tokens, i, st).segments)
    decreases |tokens| - i
  {
    if i < |tokens| {
      var token := tokens[i];
      if token == "<" {
        if i + 1 < |tokens| && ExtractSpec(tokens[i + 1]).Ok? {
          var colors := ExtractSpec(tokens[i + 1]).value;
          NoEmptySegments(tokens, i + 2,
            ParseState(Flush(st), "", st.state + 1, st.stack + [Merge(Top(st), colors)]));
        }
      } else if token == ":" {
        if st.state != 0 {
          if st.state % 2 != 0 {
            NoEmptySegments(tokens, i + 1, st.(state := st.state + 1));
          } else {
            NoEmptySegments(tokens, i + 1, st.(txt := st.txt + token));
          }
        }
      } else if token == ">" {
        if st.state >= 2 {
          NoEmptySegments(tokens, i + 1,
            ParseState(Flush(st), "", st.state - 2, st.stack[..|st.stack| - 1]));
        }
      } else {
        NoEmptySegments(tokens, i + 1, st.(txt := st.txt + token));
      }
    }
  }

  predicate IsMarkupToken(token: string) { token == "<" || token == ":" || token == ">" }

  /** Tokens that are plain text accumulate in `txt` and change nothing else. */
  lemma {:induction false} PlainRun(tokens: seq<string>, i: nat, j: nat, st: ParseState)
    requires i <= j <= |tokens| && StackOk(st)
    requires forall k :: i <= k < j ==> !IsMarkupToken(tokens[k])
    ensures ParseFrom(tokens, i, st) == ParseFrom(tokens, j, st.(txt := st.txt + Concat(tokens[i..j])))
    decreases j - i
  {
    if i == j {
      assert st.(txt := st.txt + Concat(tokens[i..j])) == st;
    } else {
      PlainRun(tokens, i + 1, j, st.(txt := st.txt + tokens[i]));
      assert tokens[i..j][0] == tokens[i] && tokens[i..j][1..] == tokens[i + 1..j];
      assert Concat(tokens[i..j]) == tokens[i] + Concat(tokens[i + 1..j]);
      assert st.txt + tokens[i] + Concat(tokens[i + 1..j]) == st.txt + Concat(tokens[i..j]);
    }
  }

  /** A `:` before any `<` raises "Missing '<'", with nothing yielded. */
  lemma ColonBeforeStart(tokens: seq<string>, k: nat)
    requires k < |tokens| && tokens[k] == ":"
    requires forall j :: 0 <= j < k ==> !IsMarkupToken(tokens[j])
    ensures ParseTokens(tokens) == Outcome([], Raised(MissingStart))
  {
    PlainRun(tokens, 0, k, Start);
  }

  /** A `>` before any `<` raises "Missing '>' or ':'", with nothing yielded. */
  lemma StopBeforeStart(tokens: seq<string>, k: nat)
    requires k < |tokens| && tokens[k] == ">"
    requires forall j :: 0 <= j < k ==> !IsMarkupToken(tokens[j])
    ensures ParseTokens(tokens) == Outcome([], Raised(MissingStop))
  {
    PlainRun(tokens, 0, k, Start);
  }

  /**
   * One well-formed region `<spec:body>` with plain `body`: the pending text
   * is flushed under the current scope, the body comes out under the
   * merged scope (nothing when it is empty), and the stack and state are as
   * before.
   */
  lemma {:induction false} Region(tokens: seq<string>, i: nat, st: ParseState, colors: Scope)
    requires i + 5 <= |tokens| && StackOk(st) && st.state % 2 == 0
    requires tokens[i] == "<" && tokens[i + 2] == ":" && tokens[i + 4] == ">"
    requires ExtractSpec(tokens[i + 1]) == Ok(colors) && !IsMarkupToken(tokens[i + 3])
    ensures ParseFrom(tokens, i, st) ==
      ParseFrom(tokens, i + 5, ParseState(
        Flush(st) + (if tokens[i + 3] == "" then [] else [Segment(tokens[i + 3], Merge(Top(st), colors))]),
        "", st.state, st.stack))
  {
    var inner := ParseState(Flush(st), "", st.state + 1, st.stack + [Merge(Top(st), colors)]);
    var body := inner.(state := st.state + 2, txt := tokens[i + 3]);
    assert ":" != "<";
    assert ParseFrom(tokens, i, st) == ParseFrom(tokens, i + 2, inner);
    assert ParseFrom(tokens, i + 2, inner) == ParseFrom(tokens, i + 3, inner.(state := st.state + 2));
    assert inner.(state := st.state + 2).(txt := "" + tokens[i + 3]) == body;
    assert ParseFrom(tokens, i + 3, inner.(state := st.state + 2)) == ParseFrom(tokens, i + 4, body);
    assert body.stack[..|body.stack| - 1] == st.stack;
    assert ">" != "<" && ">" != ":";
    assert Top(body) == Merge(Top(st), colors);
    assert Flush(st) + [] == Flush(st);
    assert ParseFrom(tokens, i + 4, body) ==
      ParseFrom(tokens, i + 5, ParseState(Flush(body), "", st.state, st.stack));
  }

  /** A region left open raises "Invalid color format" after yielding the text before it. */
  lemma Unclosed(tokens: seq<string>, colors: Scope)
    requires 3 <= |tokens| && tokens[0] == "<" && tokens[2] == ":"
    requires ExtractSpec(tokens[1]) == Ok(colors)
    requires forall j :: 3 <= j < |tokens| ==> !IsMarkupToken(tokens[j])
    ensures ParseTokens(tokens) == Outcome([], Raised(InvalidFormat))
  {
    var entered := ParseState([], "", 1, [Plain, Merge(Plain, colors)]);
    assert Flush(Start) == [] && Top(Start) == Plain;
    assert Start.stack + [Merge(Plain, colors)] == entered.stack;
    assert ParseFrom(tokens, 0, Start) == ParseFrom(tokens, 2, entered);
    assert ":" != "<";
    assert ParseFrom(tokens, 2, entered) == ParseFrom(tokens, 3, entered.(state := 2));
    PlainRun(tokens, 3, |tokens|, entered.(state := 2));
  }

  /** A nested scope that sets only bg keeps the enclosing fg. */
  lemma NestedInherits(outer: Scope, bg: string)
    requires bg != ""
    ensures Merge(outer, Scope(None, Some(bg))) == Scope(outer.fg, Some(bg))
  {
  }

  /** `"<fg=darkblue:>"`: an empty body yields nothing and the parse ends normally. */
  lemma EmptyBody(spec: string, colors: Scope)
    requires ExtractSpec(spec) == Ok(colors)
    ensures ParseTokens(["<", spec, ":", "", ">"]) == Outcome([], Finished)
  {
    Region(["<", spec, ":", "", ">"], 0, Start, colors);
  }

  /**
   * `"<fg=red:Searching for <bg=blue:'{item}'> in database...>"`: the inner
   * region inherits the outer fg, and the text after it returns to the outer
   * scope.
   */
  lemma NestedExample(fg: string, bg: string, a: string, b: string, c: string)
    requires ExtractSpec(fg) == Ok(Scope(Some("red"), None))
    requires ExtractSpec(bg) == Ok(Scope(None, Some("blue")))
    requires a != "" && b != "" && c != ""
    requires !IsMarkupToken(a) && !IsMarkupToken(b) && !IsMarkupToken(c)
    ensures ParseTokens(["<", fg, ":", a, "<", bg, ":", b, ">", c, ">"]) ==
      Outcome([Segment(a, Scope(Some("red"), None)),
               Segment(b, Scope(Some("red"), Some("blue"))),
               Segment(c, Scope(Some("red"), None))], Finished)
  {
    var tokens := ["<", fg, ":", a, "<", bg, ":", b, ">", c, ">"];
    var red, blue := Scope(Some("red"), None), Scope(None, Some("blue"));
    var purple := Scope(Some("red"), Some("blue"));
    var entered := ParseState([], "", 1, [Plain, red]);
    assert Merge(Plain, red) == red && Merge(red, blue) == purple;
    assert Flush(Start) == [] && Top(Start) == Plain;
    assert Start.stack + [red] == entered.stack;
    assert ":" != "<";
    assert ParseFrom(tokens, 0, Start) == ParseFrom(tokens, 2, entered);
    assert ParseFrom(tokens, 2, entered) == ParseFrom(tokens, 3, entered.(state := 2));
    var inner := entered.(state := 2, txt := a);
    assert entered.(state := 2).(txt := "" + a) == inner;
    assert ParseFrom(tokens, 3, entered.(state := 2)) == ParseFrom(tokens, 4, inner);
    Region(tokens, 4, inner, blue);
    var afterInner := ParseState([Segment(a, red), Segment(b, purple)], "", 2, [Plain, red]);
    assert Flush(inner) + [Segment(b, purple)] == afterInner.segments;
    assert "" + c == c;
    assert ParseFrom(tokens, 9, afterInner) == ParseFrom(tokens, 10, afterInner.(txt := c));
    assert ">" != "<" && ">" != ":";
    var done := ParseState(afterInner.segments + [Segment(c, red)], "", 0, [Plain]);
    assert [Plain, red][..1] == [Plain];
    assert Flush(afterInner.(txt := c)) == done.segments;
    assert ParseFrom(tokens, 10, afterInner.(txt := c)) == ParseFrom(tokens, 11, done);
  }

  /**
   * Markup-free input is lost: it has no structural character, so the
   * tokenizer yields nothing and `parse` yields no segment, although the
   * text is not empty.
   */
  lemma MarkupFreeLost(s: string)
    requires s != "" && NoStructural(s)
    ensures ParseTokens(Tokens(s)) == Outcome([], Finished)
    ensures Concat(TokensIntended(s)) == s
  {
    TokensMarkupFree(s);
    TokensIntendedVisible(s);
    VisiblePlain(s);
  }

  /** With the intended tokenizer, markup-free input is one segment in the plain scope. */
  lemma MarkupFreeIntended(s: string)
    requires s != "" && NoStructural(s)
    ensures ParseTokens(TokensIntended(s)) == Outcome([Segment(s, Plain)], Finished)
  {
    NoMatches(s);
    assert TokensIntended(s) == [s];
    assert s != "<" && s != ":" && s != ">" by {
      assert !IsStructural(s[0]);
    }
    assert "" + s == s;
    assert ParseFrom([s], 0, Start) == ParseFrom([s], 1, Start.(txt := s));
  }

  /**
   * An escaped `<` that ends up alone in the buffer is yielded as the token
   * `"<"`, which `parse` cannot tell from a real one: `a\<b` denotes `a<b`,
   * but its `<` opens a scope whose spec `b` is rejected.
   */
  lemma EscapedStartMisread()
    ensures Visible("a\\<b") == "a<b"
    ensures Tokens("a\\<b") == ["a", "<", "b"]
    ensures ParseTokens(Tokens("a\\<b")) == Outcome([Segment("a", Plain)], Raised(UnexpectedSyntax("b")))
  {
    EscapedStartScan();
    EscapedStartParse();
  }

  /** `a\<b` holds one match, the escaped `<`. */
  lemma EscapedStartMatches()
    ensures Matches("a\\<b") == [Match(1, 2, '<')]
  {
    var s := "a\\<b";
    assert |s| == 4 && s[0] == 'a' && s[1] == Escape && s[2] == '<' && s[3] == 'b';
    assert MatchesFrom(s, 4) == [];
    assert MatchesFrom(s, 3) == [];
    assert RunEnd(s, 1) == 2;
    assert MatchesFrom(s, 1) == [Match(1, 2, '<')];
    assert RunEnd(s, 0) == 0;
  }

  /** `a\<b` denotes `a<b`. */
  lemma EscapedStartVisible()
    ensures Visible("a\\<b") == "a<b"
  {
    var s := "a\\<b";
    assert |s| == 4 && s[0] == 'a' && s[1] == Escape && s[2] == '<' && s[3] == 'b';
    assert RunEnd(s, 0) == 0 && RunEnd(s, 1) == 2 && RunEnd(s, 3) == 3 && RunEnd(s, 4) == 4;
    assert VisibleChunk(s, 0, 0, true) == "a" && VisibleChunk(s, 1, 2, false) == "<" && VisibleChunk(s, 3, 3, false) == "b";
    assert VisibleFrom(s, 4, false) == "";
    assert VisibleFrom(s, 3, false) == "b" + "";
    assert VisibleFrom(s, 1, false) == "<" + "b";
    assert VisibleFrom(s, 0, true) == "a" + "<b";
  }

  lemma EscapedStartScan()
    ensures Visible("a\\<b") == "a<b"
    ensures Tokens("a\\<b") == ["a", "<", "b"]
  {
    var s := "a\\<b";
    EscapedStartMatches();
    EscapedStartVisible();
    var m := Match(1, 2, '<');
    assert PySlice(s, 0, 1) == "a" && PySlice(s, 1, 1) == "" && PySlice(s, 3, 4) == "b";
    var st := Step(s, Init(s, m), m);
    assert st == TokState(["a"], 3, "<", -1);
    assert Steps(s, Init(s, m), [m]) == st;
  }

  lemma EscapedStartParse()
    ensures ParseTokens(["a", "<", "b"]) == Outcome([Segment("a", Plain)], Raised(UnexpectedSyntax("b")))
  {
    assert "b"[1..] == "" && ['b'] + "" == "b";
    assert Split("b", ',') == ["b"];
    assert ExtractSpec("b") == Err(UnexpectedSyntax("b"));
    var tokens := ["a", "<", "b"];
    assert "a" != "<" && "a" != ":" && "a" != ">";
    assert Start.txt + "a" == "a";
    assert ParseFrom(tokens, 0, Start) == ParseFrom(tokens, 1, Start.(txt := "a"));
  }
}
