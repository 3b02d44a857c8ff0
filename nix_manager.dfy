/**
 * The colour manager colorise/__init__.py creates on non-Windows systems
 * (colorise/nix/ColorManager.py): a table of colour names built once by the
 * constructor, and the escape sequences `set_color` and `set_defaults` write
 * to standard output. The text a call writes is its result; an exception it
 * raises is an `Err`.
 */
module NixManager {
  import opened Wrappers
  import opened Text
  import CFP = ColorFormatParser
  import ColorFunctions
  import NixCluts

  /**
   * A value of the colour table: `black`, `white` and `grey` hold ints, the
   * other colours the digit string `str(n)`, recorded here by its `n`.
   */
  datatype Code = Num(n: nat) | Digits(n: nat)

  /** `ValueError("Unknown color '<name>'")`, or the TypeError of adding an int to a str. */
  datatype Error = UnknownColor(name: string) | StrPlusInt

  const ColorNames: seq<string> := ["black", "red", "green", "yellow", "blue", "magenta", "cyan", "white"]

  /** `str` of a table value. */
  function Str(c: Code): string
  {
    match c
    case Num(n) => NatToString(n)
    case Digits(n) => NatToString(n)
  }

  /** `repr` of a table value, as `str` of a list shows its elements. */
  function Repr(c: Code): string
  {
    match c
    case Num(n) => NatToString(n)
    case Digits(n) => "'" + NatToString(n) + "'"
  }

  // ---------------------------------------------------------------------------
  // The colour table
  // ---------------------------------------------------------------------------

  /** The loop of the constructor: `name` and `'dark' + name` get `str(i)`, `i` counting up. */
  function AddCodes(t: map<string, Code>, names: seq<string>, i: nat): (r: map<string, Code>)
    ensures forall k :: 0 <= k < |names| ==> names[k] in r && "dark" + names[k] in r
    ensures t.Keys <= r.Keys
    decreases |names|
  {
    if names == [] then t
    else
      var code := Digits(i);
      AddCodes(t[names[0] := code]["dark" + names[0] := code], names[1..], i + 1)
  }

  /** The entries the constructor sets before its loop. */
  function Initial(): map<string, Code>
  {
    map["grey" := Num(7)]["black" := Num(30)]["white" := Num(37)]
  }

  /** `colornames[1:7]`, the names the constructor's loop walks. */
  const LoopNames: seq<string> := ["red", "green", "yellow", "blue", "magenta", "cyan"]

  /** `self.colors` after the constructor: the fixed entries, the loop over red..cyan, then the aliases. */
  function Table(): (t: map<string, Code>)
    ensures "grey" in t && "black" in t && "white" in t
  {
    var t1 := AddCodes(Initial(), LoopNames, 31);
    var magenta := LoopNames[4];  // "magenta"
    t1["gray" := t1["grey"]]["purple" := t1[magenta]]["darkpurple" := t1["dark" + magenta]]
  }

  /** The names are pairwise different, and none is `'dark'` followed by one of them. */
  predicate Apart(names: seq<string>)
  {
    && (forall a, b :: 0 <= a < b < |names| ==> names[a] != names[b])
    && (forall a, b :: 0 <= a < |names| && 0 <= b < |names| ==> names[a] != "dark" + names[b])
  }

  lemma DarkInjective(x: string, y: string)
    requires "dark" + x == "dark" + y
    ensures x == y
  {
    assert x == ("dark" + x)[4..];
  }

  /** An entry the loop does not write keeps its value. */
  lemma {:induction false} AddCodesKeeps(t: map<string, Code>, names: seq<string>, i: nat, key: string)
    requires key in t && key !in names
    requires forall n :: n in names ==> key != "dark" + n
    ensures AddCodes(t, names, i)[key] == t[key]
    decreases |names|
  {
    if names != [] {
      var code := Digits(i);
      var t' := t[names[0] := code]["dark" + names[0] := code];
      assert key != "dark" + names[0];
      AddCodesKeeps(t', names[1..], i + 1, key);
    }
  }

  /** The `k`th name and its dark variant both hold `str(i + k)`. */
  lemma {:induction false} AddCodesSets(t: map<string, Code>, names: seq<string>, i: nat, k: nat)
    requires Apart(names) && k < |names|
    ensures AddCodes(t, names, i)[names[k]] == Digits(i + k)
    ensures AddCodes(t, names, i)["dark" + names[k]] == Digits(i + k)
    decreases |names|
  {
    var code := Digits(i);
    var t' := t[names[0] := code]["dark" + names[0] := code];
    var rest := names[1..];
    assert Apart(rest) by {
      forall a, b | 0 <= a < |rest| && 0 <= b < |rest| ensures rest[a] != "dark" + rest[b] {
        assert rest[a] == names[a + 1] && rest[b] == names[b + 1];
      }
    }
    if k == 0 {
      forall n | n in rest ensures names[0] != n && names[0] != "dark" + n && "dark" + names[0] != n {
        var b :| 0 <= b < |rest| && rest[b] == n;
        assert names[b + 1] == n;
      }
      AddCodesKeeps(t', rest, i + 1, names[0]);
      forall n | n in rest ensures "dark" + names[0] != "dark" + n {
        if "dark" + names[0] == "dark" + n {
          DarkInjective(names[0], n);
        }
      }
      AddCodesKeeps(t', rest, i + 1, "dark" + names[0]);
    } else {
      assert rest[k - 1] == names[k];
      AddCodesSets(t', rest, i + 1, k - 1);
    }
  }

  /** The loop only adds digit strings: an int in its result was there before. */
  lemma {:induction false} AddCodesNum(t: map<string, Code>, names: seq<string>, i: nat, key: string)
    requires key in AddCodes(t, names, i) && AddCodes(t, names, i)[key].Num?
    ensures key in t && AddCodes(t, names, i)[key] == t[key]
    decreases |names|
  {
    if names != [] {
      var code := Digits(i);
      AddCodesNum(t[names[0] := code]["dark" + names[0] := code], names[1..], i + 1, key);
    }
  }

  /** Every key of the loop's result was there before, is one of the names, or is `'dark'` and a name. */
  lemma {:induction false} AddCodesKeysFrom(t: map<string, Code>, names: seq<string>, i: nat, key: string)
    requires key in AddCodes(t, names, i)
    ensures key in t || key in names || exists n :: n in names && key == "dark" + n
    decreases |names|
  {
    if names != [] {
      var code := Digits(i);
      AddCodesKeysFrom(t[names[0] := code]["dark" + names[0] := code], names[1..], i + 1, key);
    }
  }

  lemma LoopNamesApart()
    ensures ColorNames[1..7] == LoopNames
    ensures Apart(LoopNames)
  {
    assert ColorNames[1..7] == LoopNames;
    forall a, b | 0 <= a < |LoopNames| && 0 <= b < |LoopNames| ensures LoopNames[a] != "dark" + LoopNames[b] {
      assert ("dark" + LoopNames[b])[0] == 'd' != LoopNames[a][0];
    }
  }

  /** `grey`, `black` and `white` are not written by the loop. */
  lemma InitialKept(key: string)
    requires key in Initial()
    ensures AddCodes(Initial(), LoopNames, 31)[key] == Initial()[key]
  {
    forall n | n in LoopNames ensures key != n && key != "dark" + n {
      assert |n| != |key| || n[0] != key[0];
      assert ("dark" + n)[0] == 'd' != key[0];
    }
    AddCodesKeeps(Initial(), LoopNames, 31, key);
  }

  /** The fixed entries survive the loop, and red..cyan and their dark variants hold 31..36. */
  lemma LoopEntries()
    ensures var t1 := AddCodes(Initial(), LoopNames, 31);
      && t1["grey"] == Num(7) && t1["black"] == Num(30) && t1["white"] == Num(37)
      && forall k :: 0 <= k < 6 ==> t1[LoopNames[k]] == Digits(31 + k) && t1["dark" + LoopNames[k]] == Digits(31 + k)
  {
    InitialKept("grey");
    InitialKept("black");
    InitialKept("white");
    LoopNamesApart();
    forall k | 0 <= k < 6
      ensures AddCodes(Initial(), LoopNames, 31)[LoopNames[k]] == Digits(31 + k)
      ensures AddCodes(Initial(), LoopNames, 31)["dark" + LoopNames[k]] == Digits(31 + k)
    {
      AddCodesSets(Initial(), LoopNames, 31, k);
    }
  }

  /** The aliases the constructor adds after its loop. */
  const Aliases: set<string> := {"gray", "purple", "darkpurple"}

  /** No name of the loop, nor its dark variant, is an alias. */
  lemma LoopNameNotAlias(k: nat)
    requires k < 6
    ensures LoopNames[k] !in Aliases && "dark" + LoopNames[k] !in Aliases
  {
    var n := LoopNames[k];
    assert |n| == 4 ==> n[0] != 'g';
    assert |n| < 10 && n[0] != 'p';
    assert ("dark" + n)[4] == n[0] && |"dark" + n| == 4 + |n|;
  }

  /** The entries set before the loop keep their ints, and `gray` copies `grey`. */
  lemma FixedEntries()
    ensures Table()["black"] == Num(30) && Table()["white"] == Num(37)
    ensures Table()["grey"] == Num(7) && Table()["gray"] == Num(7)
  {
    InitialKept("grey");
    InitialKept("black");
    InitialKept("white");
  }

  /**
   * What the constructor leaves in `self.colors`: `black`, `white`, `grey` and
   * `gray` hold ints; red..cyan and their dark variants hold `'31'`..`'36'`,
   * and both purples `'35'`.
   */
  lemma TableEntries()
    ensures Table()["black"] == Num(30) && Table()["white"] == Num(37)
    ensures Table()["grey"] == Num(7) && Table()["gray"] == Num(7)
    ensures forall k :: 0 <= k < 6 ==>
      && LoopNames[k] in Table() && "dark" + LoopNames[k] in Table()
      && Table()[LoopNames[k]] == Digits(31 + k) && Table()["dark" + LoopNames[k]] == Digits(31 + k)
    ensures Table()["purple"] == Digits(35) && Table()["darkpurple"] == Digits(35)
  {
    LoopEntries();
    forall k | 0 <= k < 6
      ensures Table()[LoopNames[k]] == Digits(31 + k)
      ensures Table()["dark" + LoopNames[k]] == Digits(31 + k)
    {
      LoopNameNotAlias(k);
    }
  }

  /** Only `black`, `white`, `grey` and `gray` hold ints; every other entry is a digit string. */
  lemma TableNums(key: string)
    requires key in Table()
    ensures Table()[key].Num? <==> key in {"black", "white", "grey", "gray"}
  {
    LoopEntries();
    LoopEntries();
    if key !in {"gray", "purple", "darkpurple"} && Table()[key].Num? {
      AddCodesNum(Initial(), LoopNames, 31, key);
    }
    assert LoopNames[4] == "magenta";
  }

  /** The names the constructor knows, and one it does not. */
  lemma TableKnows()
    ensures forall k :: 0 <= k < |ColorNames| ==> ColorNames[k] in Table()
    ensures forall k :: 0 <= k < 6 ==> "dark" + LoopNames[k] in Table()
    ensures "gray" in Table() && "purple" in Table() && "darkpurple" in Table()
    ensures "lightred" !in Table()
  {
    LoopNamesApart();
    assert forall k :: 1 <= k < 7 ==> ColorNames[k] == LoopNames[k - 1];
    if "lightred" in AddCodes(Initial(), LoopNames, 31) {
      AddCodesKeysFrom(Initial(), LoopNames, 31, "lightred");
      assert forall n :: n in LoopNames ==> ("dark" + n)[0] == 'd';
    }
  }

  /** `self.attrs`: `gray`, `grey` and `'dark'` before every key of the table. */
  function Attrs(): set<string>
  {
    {"gray", "grey"} + set e | e in Table() :: "dark" + e
  }

  /** `fgc in self.attrs` for a table value or the default 39: an int is never in a set of strings. */
  predicate InAttrs(c: Code)
  {
    c.Digits? && NatToString(c.n) in Attrs()
  }

  /** `colors.get(c, 39)`. */
  function Get(c: Option<string>): (r: Code)
    ensures c.None? ==> r == Num(39)
  {
    if c.Some? && c.value in Table() then Table()[c.value] else Num(39)
  }

  // ---------------------------------------------------------------------------
  // set_defaults and set_color
  // ---------------------------------------------------------------------------

  /** `_to_ansi(*codes)`: the escape, `str` of each argument joined by `;`, and `m`. */
  function ToAnsi(args: seq<string>): (r: string)
    ensures StartsWith(r, NixCluts.EscapeCode) && r[|r| - 1] == 'm'
  {
    NixCluts.EscapeCode + Join(args, ';') + "m"
  }

  /** `set_defaults`: the text written to standard output. */
  function SetDefaults(): string
  {
    ToAnsi([Str(Num(22)), Str(Num(39)), Str(Num(49))])
  }

  /** `str([fgc, bgc, 1 if bold else []])`: the Python text of the three-element list. */
  function ListText(fgc: Code, bgc: Code, bold: bool): (r: string)
    ensures |r| > 0 && r[0] == '[' && r[|r| - 1] == ']'
  {
    "[" + Repr(fgc) + ", " + Repr(bgc) + ", " + (if bold then "1" else "[]") + "]"
  }

  /** The constructor has no entry for `c`, which is not None. */
  predicate Unknown(c: Option<string>) { c.Some? && c.value !in Table() }

  /**
   * `set_color`: with a truthy colour, an unknown fg or bg raises (fg checked
   * first), a bg stored as a digit string raises on `+ 10`, and otherwise the
   * one list `[fgc, bgc + 10, 1 if fgc in attrs else []]` is passed to
   * `_to_ansi`, which writes `str` of that list. With no truthy colour it is
   * `set_defaults`.
   */
  function SetColor(fg: Option<string>, bg: Option<string>): (r: Result<string, Error>)
    ensures r.Err? ==> CFP.Truthy(fg) || CFP.Truthy(bg)
    ensures r.Ok? ==> StartsWith(r.value, NixCluts.EscapeCode)
  {
    if CFP.Truthy(fg) || CFP.Truthy(bg) then
      if Unknown(fg) then Err(UnknownColor(fg.value))
      else if Unknown(bg) then Err(UnknownColor(bg.value))
      else
        var fgc := Get(fg);
        var bgc := Get(bg);
        if bgc.Digits? then Err(StrPlusInt)
        else
          Ok(ToAnsi([ListText(fgc, Num(bgc.n + 10), InAttrs(fgc))]))
    else Ok(SetDefaults())
  }

  /** `set_defaults` writes the SGR sequence 22;39;49, as the newer back end's `to_ansi` would. */
  lemma SetDefaultsIsSgr()
    ensures SetDefaults() == "\U{001B}[22;39;49m"
    ensures SetDefaults() == ColorFunctions.ToAnsi([ColorFunctions.IntArg(22), ColorFunctions.IntArg(39), ColorFunctions.IntArg(49)])
  {
    assert NatToString(22) == NatToString(2) + [DigitChar(2)] == "22";
    assert NatToString(39) == NatToString(3) + [DigitChar(9)] == "39";
    assert NatToString(49) == NatToString(4) + [DigitChar(9)] == "49";
    assert ColorFunctions.ArgTexts([ColorFunctions.IntArg(22), ColorFunctions.IntArg(39), ColorFunctions.IntArg(49)]) == ["22", "39", "49"];
    assert Join(["22", "39", "49"], ';') == "22;39;49";
  }

  /** No value the table can yield, nor the default 39, is in `self.attrs`: every attr starts with a letter. */
  lemma NeverInAttrs(c: Code)
    ensures !InAttrs(c)
  {
    if c.Digits? {
      var s := NatToString(c.n);
      assert IsDigit(s[0]);
      forall e | e in Table() ensures s != "dark" + e {
        assert ("dark" + e)[0] == 'd';
      }
    }
  }

  /** With a truthy colour, `set_color` raises ValueError iff fg or bg is a name the table lacks, quoting fg first. */
  lemma SetColorUnknown(fg: Option<string>, bg: Option<string>)
    requires CFP.Truthy(fg) || CFP.Truthy(bg)
    ensures (SetColor(fg, bg).Err? && SetColor(fg, bg).error.UnknownColor?) <==> Unknown(fg) || Unknown(bg)
    ensures Unknown(fg) ==> SetColor(fg, bg) == Err(UnknownColor(fg.value))
    ensures !Unknown(fg) && Unknown(bg) ==> SetColor(fg, bg) == Err(UnknownColor(bg.value))
  {
  }

  /**
   * For known names, `set_color` raises the TypeError of `'31' + 10` iff bg is
   * given and is not `black`, `white`, `grey` or `gray`.
   */
  lemma SetColorStringBackground(fg: Option<string>, bg: Option<string>)
    requires CFP.Truthy(fg) || CFP.Truthy(bg)
    requires !Unknown(fg) && !Unknown(bg)
    ensures SetColor(fg, bg) == Err(StrPlusInt) <==> bg.Some? && bg.value !in {"black", "white", "grey", "gray"}
  {
    if bg.Some? {
      TableNums(bg.value);
    }
  }

  /**
   * When `set_color` succeeds with a truthy colour, it writes `str` of the
   * list `[fgc, bgc + 10, []]` between the escape and `m`: the escape is
   * followed by `[`, not by an SGR parameter.
   */
  lemma SetColorWritesList(fg: Option<string>, bg: Option<string>)
    requires CFP.Truthy(fg) || CFP.Truthy(bg)
    requires SetColor(fg, bg).Ok?
    ensures Get(bg).Num?
    ensures SetColor(fg, bg).value == NixCluts.EscapeCode + ListText(Get(fg), Num(Get(bg).n + 10), false) + "m"
    ensures SetColor(fg, bg).value[|NixCluts.EscapeCode|] == '['
  {
    NeverInAttrs(Get(fg));
    var list := ListText(Get(fg), Num(Get(bg).n + 10), false);
    assert SetColor(fg, bg).value == ToAnsi([list]);
    assert (NixCluts.EscapeCode + list + "m")[|NixCluts.EscapeCode|] == list[0];
  }

  /** `set_color('lightred')` raises ValueError: the table has no light colours. */
  lemma SetColorLightRed()
    ensures SetColor(Some("lightred"), None) == Err(UnknownColor("lightred"))
  {
    TableKnows();
  }

  /** `set_color(bg='red')` raises the TypeError of `'31' + 10`. */
  lemma SetColorRedBackground()
    ensures SetColor(None, Some("red")) == Err(StrPlusInt)
  {
    TableEntries();
    assert LoopNames[0] == "red";
  }

  /** `set_color('black')` writes `ESC[[30, 49, []]m`. */
  lemma SetColorBlack()
    ensures SetColor(Some("black"), None) == Ok("\U{001B}[[30, 49, []]m")
  {
    var r := SetColor(Some("black"), None);
    assert r.Ok? && Get(Some("black")) == Num(30) by {
      FixedEntries();
    }
    SetColorWritesList(Some("black"), None);
    BlackText(r.value, Get(Some("black")), Num(Get(None).n + 10));
  }

  lemma BlackText(r: string, fgc: Code, bgc: Code)
    requires r == NixCluts.EscapeCode + ListText(fgc, bgc, false) + "m"
    requires fgc == Num(30) && bgc == Num(49)
    ensures r == "\U{001B}[[30, 49, []]m"
  {
    assert ListText(Num(30), Num(49), false) == "[30, 49, []]" by {
      assert NatToString(30) == NatToString(3) + [DigitChar(0)] == "30";
      assert NatToString(49) == NatToString(4) + [DigitChar(9)] == "49";
    }
  }

  // ---------------------------------------------------------------------------
  // The evidently intended set_color
  // ---------------------------------------------------------------------------

  /** `int` of a table value: `int(str(n))` is `n`. */
  function IntOf(c: Code): (n: nat)
    ensures c.Digits? ==> ParseDigits(Str(c)) == n
  {
    ParseNatToString(c.n);
    c.n
  }

  function IntendedCodes(fg: Option<string>, bg: Option<string>): seq<nat>
  {
    [IntOf(Get(fg)), IntOf(Get(bg)) + 10] + (if fg.Some? && fg.value in Attrs() then [1] else [])
  }

  function AsArgs(codes: seq<nat>): seq<ColorFunctions.Arg>
  {
    seq(|codes|, k requires 0 <= k < |codes| => ColorFunctions.IntArg(codes[k]))
  }

  /**
   * `set_color` as evidently intended: the same checks for unknown names,
   * then `fgc`, `bgc + 10` (and 1 when fg names an entry of `attrs`) as
   * separate integers, so that one SGR sequence is written.
   */
  function SetColorIntended(fg: Option<string>, bg: Option<string>): (r: Result<string, Error>)
    ensures r.Err? <==> (CFP.Truthy(fg) || CFP.Truthy(bg)) && (Unknown(fg) || Unknown(bg))
  {
    if CFP.Truthy(fg) || CFP.Truthy(bg) then
      if Unknown(fg) then Err(UnknownColor(fg.value))
      else if Unknown(bg) then Err(UnknownColor(bg.value))
      else Ok(ColorFunctions.ToAnsi(AsArgs(IntendedCodes(fg, bg))))
    else Ok(SetDefaults())
  }

  /**
   * The intended `set_color` raises only for unknown names, and for known
   * ones what it writes splits back on `;` into the fg code, the bg code
   * plus 10, and the optional 1.
   */
  lemma SetColorIntendedSgr(fg: Option<string>, bg: Option<string>)
    requires CFP.Truthy(fg) || CFP.Truthy(bg)
    requires !Unknown(fg) && !Unknown(bg)
    ensures SetColorIntended(fg, bg).Ok?
    ensures var r := SetColorIntended(fg, bg).value;
      var parts := Split(r[|NixCluts.EscapeCode|..|r| - 1], ';');
      && |parts| == |IntendedCodes(fg, bg)|
      && forall k :: 0 <= k < |parts| ==> IsDigits(parts[k]) && ParseDigits(parts[k]) == IntendedCodes(fg, bg)[k]
  {
    ColorFunctions.ToAnsiRoundTrip(IntendedCodes(fg, bg));
  }

  /** The first character of `sep.join(parts)` is that of the first part. */
  lemma JoinFirst(parts: seq<string>, sep: char)
    requires |parts| > 0 && |parts[0]| > 0
    ensures |Join(parts, sep)| > 0 && Join(parts, sep)[0] == parts[0][0]
  {
  }

  /**
   * For every known name and truthy colour, `set_color` as written does not do
   * what was intended: it raises where the intended call writes, or writes `[`
   * where the intended call writes the first digit of the fg code.
   */
  lemma SetColorMissesIntended(fg: Option<string>, bg: Option<string>)
    requires CFP.Truthy(fg) || CFP.Truthy(bg)
    requires !Unknown(fg) && !Unknown(bg)
    ensures SetColorIntended(fg, bg).Ok?
    ensures IsDigit(SetColorIntended(fg, bg).value[|NixCluts.EscapeCode|])
    ensures SetColor(fg, bg) != SetColorIntended(fg, bg)
  {
    var codes := IntendedCodes(fg, bg);
    var texts := ColorFunctions.ArgTexts(AsArgs(codes));
    assert texts[0] == NatToString(codes[0]);
    JoinFirst(texts, ';');
    var r := SetColorIntended(fg, bg).value;
    assert r == NixCluts.EscapeCode + Join(texts, ';') + "m";
    assert r[|NixCluts.EscapeCode|] == Join(texts, ';')[0];
    if SetColor(fg, bg).Ok? {
      SetColorWritesList(fg, bg);
    }
  }
}
