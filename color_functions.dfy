/**
 * ANSI escape assembly of colorise/nix/color_functions.py: SGR sequences
 * (ECMA-48 section 8.3.117) built from attribute and colour codes and written
 * to an output stream. The terminal's colour count and name are parameters.
 */
module ColorFunctions {
  import opened Wrappers
  import opened Text
  import opened Attributes
  import Cluts
  import NixCluts

  /** An output stream as the list of texts written to it. */
  class Stream {
    var written: seq<string>

    constructor()
      ensures written == []
    {
      written := [];
    }

    /** `file.write(s)`. */
    method Write(s: string)
      modifies this
      ensures written == old(written) + [s]
    {
      written := written + [s];
    }
  }

  /** An argument of `to_ansi`: the callers pass integers and strings, and `str` is applied to each. */
  datatype Arg = IntArg(i: int) | TextArg(s: string)

  function ArgText(a: Arg): string
  {
    match a
    case IntArg(i) => IntToString(i)
    case TextArg(s) => s
  }

  function ArgTexts(codes: seq<Arg>): (r: seq<string>)
    ensures |r| == |codes| && forall k :: 0 <= k < |codes| ==> r[k] == ArgText(codes[k])
  {
    if codes == [] then [] else [ArgText(codes[0])] + ArgTexts(codes[1..])
  }

  /** `to_ansi(*codes)`: nothing for no codes, else the escape, the codes joined by `;`, and `m`. */
  function ToAnsi(codes: seq<Arg>): (r: string)
    ensures codes == [] <==> r == ""
    ensures codes != [] ==> StartsWith(r, NixCluts.EscapeCode) && r[|r| - 1] == 'm'
  {
    if codes == [] then ""
    else NixCluts.EscapeCode + Join(ArgTexts(codes), ';') + "m"
  }

  /** The examples the test suite pins. */
  lemma ToAnsiExamples()
    ensures ToAnsi([IntArg(34), TextArg("95")]) == "\U{001B}[34;95m"
    ensures ToAnsi([IntArg(0)]) == "\U{001B}[0m"
    ensures ToAnsi([]) == ""
  {
    assert NatToString(34) == NatToString(3) + [DigitChar(4)] == "34";
    assert ArgTexts([IntArg(34), TextArg("95")]) == ["34", "95"];
    assert ArgTexts([IntArg(0)]) == ["0"];
  }

  /** Between the escape and the final `m`, splitting on `;` gives back each non-negative code as text. */
  lemma ToAnsiRoundTrip(codes: seq<nat>)
    requires codes != []
    ensures var r := ToAnsi(seq(|codes|, k requires 0 <= k < |codes| => IntArg(codes[k])));
      var parts := Split(r[|NixCluts.EscapeCode|..|r| - 1], ';');
      && |parts| == |codes|
      && forall k :: 0 <= k < |codes| ==> IsDigits(parts[k]) && ParseDigits(parts[k]) == codes[k]
  {
    var args := seq(|codes|, k requires 0 <= k < |codes| => IntArg(codes[k]));
    var texts := ArgTexts(args);
    forall k | 0 <= k < |texts| ensures ';' !in texts[k] && IsDigits(texts[k]) && ParseDigits(texts[k]) == codes[k] {
      assert texts[k] == NatToString(codes[k]);
      ParseNatToString(codes[k]);
    }
    SplitJoin(texts, ';');
    var r := ToAnsi(args);
    assert r[|NixCluts.EscapeCode|..|r| - 1] == Join(texts, ';');
  }

  /** `attributes_to_codes`: each attribute's value, in order. */
  function AttributesToCodes(attrs: seq<Attr>): (codes: seq<Arg>)
    ensures |codes| == |attrs|
    ensures forall k :: 0 <= k < |attrs| ==> codes[k] == IntArg(Value(attrs[k]))
  {
    if attrs == [] then [] else [IntArg(Value(attrs[0]))] + AttributesToCodes(attrs[1..])
  }

  /** The codes agree with the non-Windows `to_codes`. */
  lemma AttributesToCodesAgree(attrs: seq<Attr>)
    ensures forall k :: 0 <= k < |attrs| ==> AttributesToCodes(attrs)[k].i == ToCodes(attrs)[k]
  {
  }

  /** The SGR reset sequence. */
  const ResetSequence: string := "\U{001B}[0m"

  /** `reset_color`: writes the reset sequence. */
  method ResetColor(file: Stream)
    modifies file
    ensures file.written == old(file.written) + [ResetSequence]
  {
    ToAnsiExamples();
    file.Write(ToAnsi([IntArg(Value(Reset))]));
  }

  /** `if colorspec:`: `None`, the empty string and the integer 0 are false. */
  predicate Truthy(spec: Option<Cluts.ColorValue>)
  {
    match spec
    case None => false
    case Some(Str(s)) => s != ""
    case Some(Int(i)) => i != 0
  }

  /** The code one colour contributes: nothing for a false spec, else its prefix filled with its code. */
  function SpecCode(spec: Option<Cluts.ColorValue>, isbg: bool, count: int, terminal: string,
                    fromFloats: (Cluts.Format, string) -> Result<(NixCluts.Template, NixCluts.Code), NixCluts.Error>)
    : (r: Result<seq<string>, NixCluts.Error>)
    ensures r.Ok? ==> |r.value| == (if Truthy(spec) then 1 else 0)
  {
    if !Truthy(spec) then Ok([])
    else
      match Cluts.GetColor(spec.value, count, terminal, isbg, fromFloats)
      case Err(e) => Err(e)
      case Ok((prefix, color)) => Ok([NixCluts.Fill(prefix, NixCluts.CodeText(color))])
  }

  /** The codes of a list of `(colorspec, isbg)` pairs, in order; the first error stops the loop. */
  function ColorCodes(specs: seq<(Option<Cluts.ColorValue>, bool)>, count: int, terminal: string,
                      fromFloats: (Cluts.Format, string) -> Result<(NixCluts.Template, NixCluts.Code), NixCluts.Error>)
    : Result<seq<string>, NixCluts.Error>
  {
    if specs == [] then Ok([])
    else
      var last := specs[|specs| - 1];
      match ColorCodes(specs[..|specs| - 1], count, terminal, fromFloats)
      case Err(e) => Err(e)
      case Ok(codes) =>
        match SpecCode(last.0, last.1, count, terminal, fromFloats)
        case Err(e) => Err(e)
        case Ok(code) => Ok(codes + code)
  }

  /** An error for a prefix of the pairs is the error for all of them. */
  lemma {:induction false} ColorCodesErrorSticks(specs: seq<(Option<Cluts.ColorValue>, bool)>, j: nat, count: int, terminal: string,
                                                 fromFloats: (Cluts.Format, string) -> Result<(NixCluts.Template, NixCluts.Code), NixCluts.Error>)
    requires j <= |specs| && ColorCodes(specs[..j], count, terminal, fromFloats).Err?
    ensures ColorCodes(specs, count, terminal, fromFloats) == ColorCodes(specs[..j], count, terminal, fromFloats)
  {
    if j < |specs| {
      assert specs[..|specs| - 1][..j] == specs[..j];
      ColorCodesErrorSticks(specs[..|specs| - 1], j, count, terminal, fromFloats);
    } else {
      assert specs[..j] == specs;
    }
  }

  /** The attribute sequence `set_color` starts with: none for no attributes. */
  function AttributeCodes(attrs: seq<Attr>): (r: seq<string>)
    ensures |r| == (if attrs == [] then 0 else 1)
  {
    if attrs == [] then [] else [ToAnsi(AttributesToCodes(attrs))]
  }

  /** The list `codes` of `set_color`: the attribute sequence, then (unless Reset is among the attributes) the fg and bg codes. */
  function SetColorCodes(fg: Option<Cluts.ColorValue>, bg: Option<Cluts.ColorValue>, attrs: seq<Attr>, count: int, terminal: string,
                         fromFloats: (Cluts.Format, string) -> Result<(NixCluts.Template, NixCluts.Code), NixCluts.Error>)
    : Result<seq<string>, NixCluts.Error>
  {
    if Reset in attrs then Ok(AttributeCodes(attrs))
    else
      match ColorCodes([(fg, false), (bg, true)], count, terminal, fromFloats)
      case Err(e) => Err(e)
      case Ok(codes) => Ok(AttributeCodes(attrs) + codes)
  }

  /** What `set_color` writes for a list of codes: their concatenation, once, and nothing for no codes. */
  function Output(codes: seq<string>): seq<string>
  {
    if codes == [] then [] else [Concat(codes)]
  }

  /** `set_color`: collects the codes and writes them in one piece; an error from a colour look-up is returned before anything is written. */
  method SetColor(fg: Option<Cluts.ColorValue>, bg: Option<Cluts.ColorValue>, attrs: seq<Attr>, count: int, terminal: string,
                  fromFloats: (Cluts.Format, string) -> Result<(NixCluts.Template, NixCluts.Code), NixCluts.Error>, file: Stream)
    returns (err: Option<NixCluts.Error>)
    modifies file
    ensures var r := SetColorCodes(fg, bg, attrs, count, terminal, fromFloats);
      && (r.Err? ==> err == Some(r.error) && file.written == old(file.written))
      && (r.Ok? ==> err == None && file.written == old(file.written) + Output(r.value))
  {
    var r := CollectCodes(fg, bg, attrs, count, terminal, fromFloats);
    if r.Err? {
      return Some(r.error);
    }
    if r.value != [] {
      file.Write(Concat(r.value));
    }
    return None;
  }

  /** The list `codes` as `set_color` builds it: the attribute sequence, then each true colour's code, stopping at the first look-up error. */
  method CollectCodes(fg: Option<Cluts.ColorValue>, bg: Option<Cluts.ColorValue>, attrs: seq<Attr>, count: int, terminal: string,
                      fromFloats: (Cluts.Format, string) -> Result<(NixCluts.Template, NixCluts.Code), NixCluts.Error>)
    returns (r: Result<seq<string>, NixCluts.Error>)
    ensures r == SetColorCodes(fg, bg, attrs, count, terminal, fromFloats)
  {
    var codes: seq<string> := [];
    if attrs != [] {
      codes := codes + [ToAnsi(AttributesToCodes(attrs))];
    }
    assert codes == AttributeCodes(attrs);
    if Reset !in attrs {
      var colors := CollectColorCodes([(fg, false), (bg, true)], count, terminal, fromFloats);
      if colors.Err? {
        return Err(colors.error);
      }
      codes := codes + colors.value;
    }
    return Ok(codes);
  }

  /** The loop of `set_color` over the foreground and the background: each colour's code in turn, stopping at the first look-up error. */
  method CollectColorCodes(specs: seq<(Option<Cluts.ColorValue>, bool)>, count: int, terminal: string,
                           fromFloats: (Cluts.Format, string) -> Result<(NixCluts.Template, NixCluts.Code), NixCluts.Error>)
    returns (r: Result<seq<string>, NixCluts.Error>)
    ensures r == ColorCodes(specs, count, terminal, fromFloats)
  {
    var codes: seq<string> := [];
    var i := 0;
    assert specs[..0] == [];
    while i < |specs|
      invariant 0 <= i <= |specs|
      invariant ColorCodes(specs[..i], count, terminal, fromFloats) == Ok(codes)
    {
      var (spec, isbg) := specs[i];
      var code := ColorCode(spec, isbg, count, terminal, fromFloats);
      ColorCodesStep(specs, i, count, terminal, fromFloats);
      if code.Err? {
        ColorCodesErrorSticks(specs, i + 1, count, terminal, fromFloats);
        return Err(code.error);
      }
      codes := codes + code.value;
      i := i + 1;
    }
    assert specs[..i] == specs;
    return Ok(codes);
  }

  /** The body of the loop for one pair: the colour's code if the spec is true, an error from its look-up, or nothing. */
  method ColorCode(spec: Option<Cluts.ColorValue>, isbg: bool, count: int, terminal: string,
                   fromFloats: (Cluts.Format, string) -> Result<(NixCluts.Template, NixCluts.Code), NixCluts.Error>)
    returns (r: Result<seq<string>, NixCluts.Error>)
    ensures r == SpecCode(spec, isbg, count, terminal, fromFloats)
  {
    if !Truthy(spec) {
      return Ok([]);
    }
    var c := Cluts.GetColor(spec.value, count, terminal, isbg, fromFloats);
    if c.Err? {
      return Err(c.error);
    }
    return Ok([NixCluts.Fill(c.value.0, NixCluts.CodeText(c.value.1))]);
  }

  /** One more pair: its code is appended, or its error is the result. */
  lemma ColorCodesStep(specs: seq<(Option<Cluts.ColorValue>, bool)>, i: nat, count: int, terminal: string,
                       fromFloats: (Cluts.Format, string) -> Result<(NixCluts.Template, NixCluts.Code), NixCluts.Error>)
    requires i < |specs| && ColorCodes(specs[..i], count, terminal, fromFloats).Ok?
    ensures var code := SpecCode(specs[i].0, specs[i].1, count, terminal, fromFloats);
      && (code.Err? ==> ColorCodes(specs[..i + 1], count, terminal, fromFloats) == Err(code.error))
      && (code.Ok? ==> ColorCodes(specs[..i + 1], count, terminal, fromFloats)
                         == Ok(ColorCodes(specs[..i], count, terminal, fromFloats).value + code.value))
  {
    assert specs[..i + 1][..i] == specs[..i];
  }

  /** A Reset among the attributes suppresses every colour: only the attribute sequence is written. */
  lemma ResetSuppressesColors(fg: Option<Cluts.ColorValue>, bg: Option<Cluts.ColorValue>, attrs: seq<Attr>, count: int, terminal: string,
                              fromFloats: (Cluts.Format, string) -> Result<(NixCluts.Template, NixCluts.Code), NixCluts.Error>)
    requires Reset in attrs
    ensures SetColorCodes(fg, bg, attrs, count, terminal, fromFloats) == Ok([ToAnsi(AttributesToCodes(attrs))])
  {
  }

  /** The two-colour loop: the foreground code, then the background code, the first error winning. */
  lemma TwoColorCodes(fg: Option<Cluts.ColorValue>, bg: Option<Cluts.ColorValue>, count: int, terminal: string,
                      fromFloats: (Cluts.Format, string) -> Result<(NixCluts.Template, NixCluts.Code), NixCluts.Error>)
    ensures var r := ColorCodes([(fg, false), (bg, true)], count, terminal, fromFloats);
      var f := SpecCode(fg, false, count, terminal, fromFloats);
      var b := SpecCode(bg, true, count, terminal, fromFloats);
      && (f.Err? ==> r == Err(f.error))
      && (f.Ok? && b.Err? ==> r == Err(b.error))
      && (f.Ok? && b.Ok? ==> r == Ok(f.value + b.value))
  {
    var specs := [(fg, false), (bg, true)];
    assert specs[..1][..0] == [];
    assert specs[..1] == [(fg, false)];
    assert specs[..|specs| - 1] == specs[..1];
    var f := SpecCode(fg, false, count, terminal, fromFloats);
    if f.Err? {
      assert ColorCodes(specs[..1], count, terminal, fromFloats) == Err(f.error);
    } else {
      assert ColorCodes(specs[..1], count, terminal, fromFloats) == Ok([] + f.value);
      assert [] + f.value == f.value;
    }
  }

  /** The attribute sequence comes before any colour code, and the foreground code before the background one. */
  lemma SetColorOrder(fg: Option<Cluts.ColorValue>, bg: Option<Cluts.ColorValue>, attrs: seq<Attr>, count: int, terminal: string,
                      fromFloats: (Cluts.Format, string) -> Result<(NixCluts.Template, NixCluts.Code), NixCluts.Error>)
    requires Reset !in attrs
    requires SpecCode(fg, false, count, terminal, fromFloats).Ok? && SpecCode(bg, true, count, terminal, fromFloats).Ok?
    ensures SetColorCodes(fg, bg, attrs, count, terminal, fromFloats)
      == Ok(AttributeCodes(attrs) + SpecCode(fg, false, count, terminal, fromFloats).value + SpecCode(bg, true, count, terminal, fromFloats).value)
  {
    TwoColorCodes(fg, bg, count, terminal, fromFloats);
    var a, f, b := AttributeCodes(attrs), SpecCode(fg, false, count, terminal, fromFloats).value, SpecCode(bg, true, count, terminal, fromFloats).value;
    AppendAssoc(a, f, b);
  }

  /** A look-up error for either colour is the error of the whole call, the foreground's first. */
  lemma SetColorErrors(fg: Option<Cluts.ColorValue>, bg: Option<Cluts.ColorValue>, attrs: seq<Attr>, count: int, terminal: string,
                       fromFloats: (Cluts.Format, string) -> Result<(NixCluts.Template, NixCluts.Code), NixCluts.Error>)
    requires Reset !in attrs
    ensures SetColorCodes(fg, bg, attrs, count, terminal, fromFloats).Err? <==>
      SpecCode(fg, false, count, terminal, fromFloats).Err? || SpecCode(bg, true, count, terminal, fromFloats).Err?
    ensures SpecCode(fg, false, count, terminal, fromFloats).Err? ==>
      SetColorCodes(fg, bg, attrs, count, terminal, fromFloats) == Err(SpecCode(fg, false, count, terminal, fromFloats).error)
  {
    TwoColorCodes(fg, bg, count, terminal, fromFloats);
  }

  /** Nothing is written exactly when there are no attributes and neither colour is given (a false spec such as 0 counts as not given). */
  lemma SetColorWritesNothing(fg: Option<Cluts.ColorValue>, bg: Option<Cluts.ColorValue>, attrs: seq<Attr>, count: int, terminal: string,
                              fromFloats: (Cluts.Format, string) -> Result<(NixCluts.Template, NixCluts.Code), NixCluts.Error>)
    requires SetColorCodes(fg, bg, attrs, count, terminal, fromFloats).Ok?
    ensures Output(SetColorCodes(fg, bg, attrs, count, terminal, fromFloats).value) == [] <==>
      attrs == [] && !Truthy(fg) && !Truthy(bg)
  {
    if Reset !in attrs {
      SetColorErrors(fg, bg, attrs, count, terminal, fromFloats);
      SetColorOrder(fg, bg, attrs, count, terminal, fromFloats);
    }
  }
}
