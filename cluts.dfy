/**
 * Colour-value classification and dispatch of colorise/cluts.py: a colour value is
 * matched against the formats rgb, index, name, hex, hls and hsv, in that order, and
 * the first format that matches decides which look-up of the colour tables runs.
 *
 * The regular expressions are written out as predicates on ASCII text. Python's `$`
 * also matches just before a final newline, so each pattern is tried on the value and,
 * when the value ends in a newline, on the value without it.
 */
module Cluts {
  import opened Wrappers
  import opened Text
  import opened ColorTools
  import NixCluts

  /** The formats of `_FORMATS`. */
  datatype Format = RgbFormat | IndexFormat | NameFormat | HexFormat | HlsFormat | HsvFormat

  /** `_FORMATS`: the order in which the formats are tried. */
  const Formats: seq<Format> := [RgbFormat, IndexFormat, NameFormat, HexFormat, HlsFormat, HsvFormat]

  /** What a matcher returns: `True` from `str.isdigit`/`str.isalpha`, a match object (its group 2) from a pattern. */
  datatype Match = Flag | Group(text: string)

  /** `\d{1,3}`. */
  predicate IsShortDigits(p: string) { 1 <= |p| <= 3 && IsDigits(p) }

  /** `\d+(\.\d+)?`. */
  predicate IsDecimal(p: string)
  {
    var parts := Split(p, '.');
    (|parts| == 1 && IsDigits(p)) || (|parts| == 2 && IsDigits(parts[0]) && IsDigits(parts[1]))
  }

  /** `N;\s*N;\s*N` for a number pattern `N`, given as a predicate on a component. */
  predicate IsTripleOf(g: string, number: string -> bool)
  {
    var parts := Split(g, ';');
    && |parts| == 3
    && number(parts[0])
    && number(StripLeft(parts[1]))
    && number(StripLeft(parts[2]))
  }

  /** The body of a pattern `^head\((group)\)$`: group 2 when `s` is `head(group)` with a valid group. */
  function Parenthesised(s: string, head: string, group: string -> bool): (r: Option<string>)
    ensures r.Some? ==> s == head + "(" + r.value + ")" && group(r.value)
  {
    if |s| >= |head| + 2 && s[..|head|] == head && s[|head|] == '(' && s[|s| - 1] == ')'
      && group(s[|head| + 1..|s| - 1])
    then
      assert s == s[..|head|] + "(" + s[|head| + 1..|s| - 1] + ")";
      Some(s[|head| + 1..|s| - 1])
    else None
  }

  /** `^(rgb)?\((\d{1,3};\s*\d{1,3};\s*\d{1,3})\)$` without the end anchor's newline rule. */
  function RgbBody(s: string): Option<string>
  {
    Parenthesised(s, if StartsWith(s, "rgb") then "rgb" else "", g => IsTripleOf(g, IsShortDigits))
  }

  predicate IsHexText(g: string) { |g| == 6 && forall i :: 0 <= i < 6 ==> IsHexDigit(g[i]) }

  /** `^(0x|#)?(([0-9a-fA-F]{2}){3})$` without the newline rule: group 2 is the six hex digits. */
  function HexBody(s: string): (r: Option<string>)
    ensures r.Some? ==> IsHexText(r.value)
  {
    if IsHexText(s) then Some(s)
    else if |s| == 8 && s[..2] == "0x" && IsHexText(s[2..]) then Some(s[2..])
    else if |s| == 7 && s[0] == '#' && IsHexText(s[1..]) then Some(s[1..])
    else None
  }

  /** `^(hsv)\((\d+;\s*\d+;\s*\d+)\)$` without the newline rule. */
  function HsvBody(s: string): Option<string>
  {
    Parenthesised(s, "hsv", g => IsTripleOf(g, IsDigits))
  }

  /** `^(hls)\((\d+(\.\d+)?;\s*\d+(\.\d+)?;\s*\d+(\.\d+)?)\)$` without the newline rule. */
  function HlsBody(s: string): Option<string>
  {
    Parenthesised(s, "hls", g => IsTripleOf(g, IsDecimal))
  }

  /** `re.match` with a final `$`: the pattern on the whole text, else on the text less a final newline. */
  function AnchoredMatch(body: string -> Option<string>, s: string): Option<Match>
  {
    if body(s).Some? then Some(Group(body(s).value))
    else if |s| > 0 && s[|s| - 1] == '\n' && body(s[..|s| - 1]).Some? then Some(Group(body(s[..|s| - 1]).value))
    else None
  }

  /** The matcher of one format applied to `str(value)`; `None` where it returns a falsy value. */
  function Matcher(f: Format, s: string): Option<Match>
  {
    match f
    case RgbFormat => AnchoredMatch(RgbBody, s)
    case IndexFormat => if IsDigits(s) then Some(Flag) else None
    case NameFormat => if IsAlpha(s) then Some(Flag) else None
    case HexFormat => AnchoredMatch(HexBody, s)
    case HlsFormat => AnchoredMatch(HlsBody, s)
    case HsvFormat => AnchoredMatch(HsvBody, s)
  }

  /** Position `i` holds the first format of `fs` whose matcher succeeds on `s`. */
  ghost predicate IsFirstMatch(fs: seq<Format>, s: string, i: int)
  {
    && 0 <= i < |fs|
    && Matcher(fs[i], s).Some?
    && forall j :: 0 <= j < i ==> Matcher(fs[j], s).None?
  }

  /** The search loop over a list of formats: the first whose matcher succeeds. */
  function FirstMatch(fs: seq<Format>, s: string): (r: Option<(Match, Format)>)
    ensures r.None? <==> forall i :: 0 <= i < |fs| ==> Matcher(fs[i], s).None?
    ensures r.Some? ==> exists i :: IsFirstMatch(fs, s, i) && fs[i] == r.value.1 && Matcher(fs[i], s) == Some(r.value.0)
  {
    if fs == [] then None
    else if Matcher(fs[0], s).Some? then Some((Matcher(fs[0], s).value, fs[0]))
    else
      var r := FirstMatch(fs[1..], s);
      if r.Some? then
        assert exists i :: IsFirstMatch(fs, s, i) && fs[i] == r.value.1 && Matcher(fs[i], s) == Some(r.value.0) by {
          var i :| IsFirstMatch(fs[1..], s, i) && fs[1..][i] == r.value.1 && Matcher(fs[1..][i], s) == Some(r.value.0);
          assert fs[i + 1] == r.value.1;
          forall j | 0 <= j < i + 1 ensures Matcher(fs[j], s).None? {
            if j > 0 {
              assert fs[j] == fs[1..][j - 1];
            }
          }
          assert IsFirstMatch(fs, s, i + 1);
        }
        r
      else
        assert forall i :: 0 <= i < |fs| ==> Matcher(fs[i], s).None? by {
          forall i | 0 <= i < |fs| ensures Matcher(fs[i], s).None? {
            if i > 0 {
              assert fs[i] == fs[1..][i - 1];
            }
          }
        }
        None
  }

  /** `match_color_formats` on an already stringified value: `(match, name)`, or `None` for `(None, None)`. */
  function MatchColorFormats(s: string): Option<(Match, Format)>
  {
    FirstMatch(Formats, s)
  }

  /** The position of a format in the search order. */
  function Rank(f: Format): (i: nat)
    ensures i < |Formats| && Formats[i] == f
  {
    match f
    case RgbFormat => 0
    case IndexFormat => 1
    case NameFormat => 2
    case HexFormat => 3
    case HlsFormat => 4
    case HsvFormat => 5
  }

  /** The result is the format of least rank whose matcher succeeds, with that matcher's result. */
  lemma MatchColorFormatsFirst(s: string, f: Format)
    ensures MatchColorFormats(s).None? <==> forall g: Format :: Matcher(g, s).None?
    ensures MatchColorFormats(s).Some? && MatchColorFormats(s).value.1 == f <==>
      Matcher(f, s).Some? && forall g: Format :: Rank(g) < Rank(f) ==> Matcher(g, s).None?
    ensures MatchColorFormats(s).Some? && MatchColorFormats(s).value.1 == f ==> Matcher(f, s) == Some(MatchColorFormats(s).value.0)
  {
    MatchColorFormatsNone(s);
    MatchColorFormatsSome(s, f);
  }

  lemma MatchColorFormatsNone(s: string)
    ensures MatchColorFormats(s).None? <==> forall g: Format :: Matcher(g, s).None?
  {
    if MatchColorFormats(s).None? {
      forall g: Format ensures Matcher(g, s).None? {
        assert Matcher(Formats[Rank(g)], s).None?;
      }
    }
  }

  /** The position of the format the search returns. */
  lemma FirstMatchIndex(fs: seq<Format>, s: string) returns (i: nat)
    requires FirstMatch(fs, s).Some?
    ensures IsFirstMatch(fs, s, i) && fs[i] == FirstMatch(fs, s).value.1 && Matcher(fs[i], s) == Some(FirstMatch(fs, s).value.0)
  {
    i :| IsFirstMatch(fs, s, i) && fs[i] == FirstMatch(fs, s).value.1 && Matcher(fs[i], s) == Some(FirstMatch(fs, s).value.0);
  }

  lemma MatchColorFormatsSome(s: string, f: Format)
    ensures MatchColorFormats(s).Some? && MatchColorFormats(s).value.1 == f <==>
      Matcher(f, s).Some? && forall g: Format :: Rank(g) < Rank(f) ==> Matcher(g, s).None?
    ensures MatchColorFormats(s).Some? && MatchColorFormats(s).value.1 == f ==> Matcher(f, s) == Some(MatchColorFormats(s).value.0)
  {
    var r := MatchColorFormats(s);
    if r.Some? {
      var i := FirstMatchIndex(Formats, s);
      assert Rank(r.value.1) == i;
      forall g: Format | Rank(g) < i ensures Matcher(g, s).None? {
        assert Matcher(Formats[Rank(g)], s).None?;
      }
      if Matcher(f, s).Some? && r.value.1 != f {
        assert Matcher(Formats[Rank(f)], s).Some?;
        assert Rank(f) < i || Rank(r.value.1) < Rank(f);
      }
    } else {
      MatchColorFormatsNone(s);
    }
  }

  /** A text of digits is an index and a text of letters a name, so a six-digit or six-letter text is never read as hex. */
  lemma DigitsAndLettersNotHex(s: string)
    requires IsDigits(s) || IsAlpha(s)
    ensures MatchColorFormats(s).Some?
    ensures MatchColorFormats(s).value.1 == (if IsDigits(s) then IndexFormat else NameFormat)
  {
    assert s[|s| - 1] != ')' && s[|s| - 1] != '\n';
    if IsDigits(s) {
      MatchColorFormatsFirst(s, IndexFormat);
    } else {
      assert !IsDigit(s[0]);
      MatchColorFormatsFirst(s, NameFormat);
    }
  }

  /** A colour value before `str()`: the tests pass both strings and integers. */
  datatype ColorValue = Str(s: string) | Int(i: int)

  /** `str(value)`. */
  function Stringify(v: ColorValue): string
  {
    match v
    case Str(s) => s
    case Int(i) => IntToString(i)
  }

  /** `int(value[i:i+2], 16)` for the three pairs of the six hex digits. */
  function DecodeHex(g: string): (rgb: Rgb)
    requires IsHexText(g)
    ensures 0 <= rgb.0 < 256 && 0 <= rgb.1 < 256 && 0 <= rgb.2 < 256
  {
    (HexValue(g[0]) * 16 + HexValue(g[1]), HexValue(g[2]) * 16 + HexValue(g[3]), HexValue(g[4]) * 16 + HexValue(g[5]))
  }

  /** `int(c.strip())` for the three `;`-separated components of an rgb group. */
  function DecodeRgb(g: string): Rgb
    requires IsTripleOf(g, IsShortDigits)
  {
    var parts := Split(g, ';');
    (ParseDigits(parts[0]), ParseDigits(StripLeft(parts[1])), ParseDigits(StripLeft(parts[2])))
  }

  /** The error for a value no format accepts. */
  function UnknownFormat(s: string): NixCluts.Error
  {
    NixCluts.ValueError("Unknown color format '" + s + "'")
  }

  /**
   * `get_color` with the non-Windows tables: names, indices, hex and rgb values go to the
   * matching look-up; `fromFloats` stands for the hsv/hls conversion to floating-point RGB
   * followed by `get_rgb_color`, given the format and group 2 of its match.
   */
  function GetColor(value: ColorValue, count: int, terminal: string, bg: bool,
                    fromFloats: (Format, string) -> Result<(NixCluts.Template, NixCluts.Code), NixCluts.Error>)
    : (r: Result<(NixCluts.Template, NixCluts.Code), NixCluts.Error>)
  {
    var s := Stringify(value);
    match MatchColorFormats(s)
    case None => Err(UnknownFormat(s))
    case Some((m, f)) =>
      match f
      case NameFormat => NixCluts.ColorFromName(s, bg)
      case IndexFormat => NixCluts.ColorFromIndex(ParseDigits(s), count, terminal, bg)
      case HexFormat => NixCluts.GetRgbColor(count, terminal, bg, DecodeHex(m.text))
      case RgbFormat => NixCluts.GetRgbColor(count, terminal, bg, DecodeRgb(m.text))
      case HlsFormat => fromFloats(f, m.text)
      case HsvFormat => fromFloats(f, m.text)
  }

  /** The lower-case hex digit of a value below 16. */
  function HexDigitChar(d: nat): (c: char)
    requires d < 16
    ensures IsHexDigit(c) && HexValue(c) == d
  {
    "0123456789abcdef"[d]
  }

  /** A colour with components in 0..255 as six hex digits, two per component. */
  function EncodeHex(rgb: Rgb): (g: string)
    requires 0 <= rgb.0 < 256 && 0 <= rgb.1 < 256 && 0 <= rgb.2 < 256
    ensures IsHexText(g)
  {
    [HexDigitChar(rgb.0 / 16), HexDigitChar(rgb.0 % 16), HexDigitChar(rgb.1 / 16), HexDigitChar(rgb.1 % 16),
     HexDigitChar(rgb.2 / 16), HexDigitChar(rgb.2 % 16)]
  }

  /** Decoding the six hex digits of a colour gives the colour back. */
  lemma DecodeEncodeHex(rgb: Rgb)
    requires 0 <= rgb.0 < 256 && 0 <= rgb.1 < 256 && 0 <= rgb.2 < 256
    ensures DecodeHex(EncodeHex(rgb)) == rgb
  {
  }

  /** A text that starts with `#` or with `0x` is neither a number nor a word, nor parenthesised. */
  lemma PrefixedNotEarlier(s: string)
    requires |s| >= 2 && (s[0] == '#' || s[..2] == "0x")
    ensures Matcher(RgbFormat, s).None? && Matcher(IndexFormat, s).None? && Matcher(NameFormat, s).None?
  {
    assert !IsDigit(s[0]) || !IsLetter(s[1]) || s[1] == 'x';
    assert |s| < 3 || s[..3] != "rgb";
    assert s[|s| - 1] != ')' || s[0] != '(';
  }

  /** `#rrggbb` and `0xrrggbb` are read as hex colours, with the six digits as the group. */
  lemma HexMatched(rgb: Rgb, prefix: string)
    requires 0 <= rgb.0 < 256 && 0 <= rgb.1 < 256 && 0 <= rgb.2 < 256
    requires prefix == "#" || prefix == "0x"
    ensures MatchColorFormats(prefix + EncodeHex(rgb)) == Some((Group(EncodeHex(rgb)), HexFormat))
  {
    var s := prefix + EncodeHex(rgb);
    assert s[..|prefix|] == prefix;
    PrefixedNotEarlier(s);
    if prefix == "#" {
      assert s[1..] == EncodeHex(rgb);
    } else {
      assert s[..2] == "0x" && s[2..] == EncodeHex(rgb);
      assert !IsHexDigit(s[1]);
    }
    assert HexBody(s) == Some(EncodeHex(rgb));
    MatchColorFormatsFirst(s, HexFormat);
  }

  /** A hex colour decodes to the colour the digits encode, and goes to `get_rgb_color`. */
  lemma GetColorHex(rgb: Rgb, prefix: string, count: int, terminal: string, bg: bool,
                    fromFloats: (Format, string) -> Result<(NixCluts.Template, NixCluts.Code), NixCluts.Error>)
    requires 0 <= rgb.0 < 256 && 0 <= rgb.1 < 256 && 0 <= rgb.2 < 256
    requires prefix == "#" || prefix == "0x"
    ensures GetColor(Str(prefix + EncodeHex(rgb)), count, terminal, bg, fromFloats) == NixCluts.GetRgbColor(count, terminal, bg, rgb)
  {
    HexMatched(rgb, prefix);
    DecodeEncodeHex(rgb);
  }

  /** `str(n)` has at most as many digits as the power of ten above `n` has zeros. */
  lemma {:induction false} ShortNumber(n: nat)
    ensures n < 1000 ==> IsShortDigits(NatToString(n))
    ensures n < 100 ==> |NatToString(n)| <= 2
    ensures n < 10 ==> |NatToString(n)| == 1
  {
    if n >= 10 {
      ShortNumber(n / 10);
    }
  }

  /** A component below 1000 as text: one to three digits, no separator, nothing to strip, parsing back to itself. */
  lemma ShortPart(n: nat)
    requires n < 1000
    ensures IsShortDigits(NatToString(n)) && ';' !in NatToString(n)
    ensures StripLeft(NatToString(n)) == NatToString(n) && ParseDigits(NatToString(n)) == n
  {
    ShortNumber(n);
    var t := NatToString(n);
    assert !IsSpace(t[0]);
    ParseNatToString(n);
  }

  /** Three short numbers joined by `;` form an rgb group whose decoding parses each of them. */
  lemma RgbGroupOf(a: string, b: string, c: string)
    requires IsShortDigits(a) && IsShortDigits(b) && IsShortDigits(c)
    requires ';' !in a && ';' !in b && ';' !in c
    requires StripLeft(b) == b && StripLeft(c) == c
    ensures IsTripleOf(Join([a, b, c], ';'), IsShortDigits)
    ensures DecodeRgb(Join([a, b, c], ';')) == (ParseDigits(a), ParseDigits(b), ParseDigits(c))
  {
    var parts := [a, b, c];
    SplitJoin(parts, ';');
  }

  /** The components of a colour below 1000, joined by `;`, form an rgb group that decodes to the colour. */
  lemma RgbGroup(rgb: Rgb)
    requires 0 <= rgb.0 < 1000 && 0 <= rgb.1 < 1000 && 0 <= rgb.2 < 1000
    ensures var g := Join([NatToString(rgb.0), NatToString(rgb.1), NatToString(rgb.2)], ';');
      IsTripleOf(g, IsShortDigits) && DecodeRgb(g) == rgb
  {
    ShortPart(rgb.0);
    ShortPart(rgb.1);
    ShortPart(rgb.2);
    RgbGroupOf(NatToString(rgb.0), NatToString(rgb.1), NatToString(rgb.2));
  }

  /** `rgb(group)` with a valid group is matched by the rgb pattern and nothing earlier. */
  lemma RgbMatched(g: string)
    requires IsTripleOf(g, IsShortDigits)
    ensures MatchColorFormats("rgb(" + g + ")") == Some((Group(g), RgbFormat))
  {
    var s := "rgb(" + g + ")";
    assert s[..3] == "rgb" && s[3] == '(' && s[|s| - 1] == ')' && s[4..|s| - 1] == g;
    assert RgbBody(s) == Some(g);
    MatchColorFormatsFirst(s, RgbFormat);
  }

  /** The text `rgb(r;g;b)` of a colour with components below 1000 is an rgb colour that parses back to it. */
  lemma GetColorRgb(rgb: Rgb, count: int, terminal: string, bg: bool,
                    fromFloats: (Format, string) -> Result<(NixCluts.Template, NixCluts.Code), NixCluts.Error>)
    requires 0 <= rgb.0 < 1000 && 0 <= rgb.1 < 1000 && 0 <= rgb.2 < 1000
    ensures var g := Join([NatToString(rgb.0), NatToString(rgb.1), NatToString(rgb.2)], ';');
      && MatchColorFormats("rgb(" + g + ")") == Some((Group(g), RgbFormat))
      && GetColor(Str("rgb(" + g + ")"), count, terminal, bg, fromFloats) == NixCluts.GetRgbColor(count, terminal, bg, rgb)
  {
    RgbGroup(rgb);
    RgbMatched(Join([NatToString(rgb.0), NatToString(rgb.1), NatToString(rgb.2)], ';'));
  }

  /** An integer is stringified first, so a non-negative one is an index and goes to `color_from_index` unchanged. */
  lemma GetColorInt(i: int, count: int, terminal: string, bg: bool,
                    fromFloats: (Format, string) -> Result<(NixCluts.Template, NixCluts.Code), NixCluts.Error>)
    requires i >= 0
    ensures MatchColorFormats(Stringify(Int(i))) == Some((Flag, IndexFormat))
    ensures GetColor(Int(i), count, terminal, bg, fromFloats) == NixCluts.ColorFromIndex(i, count, terminal, bg)
  {
    DigitsAndLettersNotHex(NatToString(i));
    MatchColorFormatsFirst(NatToString(i), IndexFormat);
    ParseNatToString(i);
  }

  /** A word is a name and goes to `color_from_name` as it is. */
  lemma GetColorName(name: string, count: int, terminal: string, bg: bool,
                     fromFloats: (Format, string) -> Result<(NixCluts.Template, NixCluts.Code), NixCluts.Error>)
    requires IsAlpha(name)
    ensures GetColor(Str(name), count, terminal, bg, fromFloats) == NixCluts.ColorFromName(name, bg)
  {
    DigitsAndLettersNotHex(name);
  }

  /** A value no format accepts is a ValueError quoting the value. */
  lemma GetColorUnknown(value: ColorValue, count: int, terminal: string, bg: bool,
                        fromFloats: (Format, string) -> Result<(NixCluts.Template, NixCluts.Code), NixCluts.Error>)
    ensures (forall f: Format :: Matcher(f, Stringify(value)).None?) ==>
      GetColor(value, count, terminal, bg, fromFloats) == Err(UnknownFormat(Stringify(value)))
  {
    MatchColorFormatsFirst(Stringify(value), HexFormat);
  }

  /** A name, index, hex or rgb value never gets the unknown-format error, whatever its look-up does. */
  lemma GetColorKnown(value: ColorValue, count: int, terminal: string, bg: bool,
                      fromFloats: (Format, string) -> Result<(NixCluts.Template, NixCluts.Code), NixCluts.Error>)
    requires MatchColorFormats(Stringify(value)).Some? && MatchColorFormats(Stringify(value)).value.1 !in {HlsFormat, HsvFormat}
    ensures GetColor(value, count, terminal, bg, fromFloats) != Err(UnknownFormat(Stringify(value)))
  {
    var s := Stringify(value);
    var f := MatchColorFormats(s).value.1;
    var m := MatchColorFormats(s).value.0;
    MatchColorFormatsFirst(s, f);
    if f == NameFormat {
      NameNotUnknown(s, bg);
    } else if f == IndexFormat {
      IndexNotUnknown(s, ParseDigits(s), count, terminal, bg);
    } else if f == HexFormat {
      RgbNotUnknown(s, count, terminal, bg, DecodeHex(m.text));
    } else {
      RgbNotUnknown(s, count, terminal, bg, DecodeRgb(m.text));
    }
  }

  /** `color_from_name` fails with its own message, never the unknown-format one. */
  lemma NameNotUnknown(s: string, bg: bool)
    ensures NixCluts.ColorFromName(s, bg) != Err(UnknownFormat(s))
  {
    NixCluts.ColorFromNameCodes(s, bg);
    var r := NixCluts.ColorFromName(s, bg);
    if r.Err? {
      assert r.error.message[14] == 'n' && UnknownFormat(s).message[14] == 'f';
    }
  }

  /** `color_from_index` fails only with its range message. */
  lemma IndexNotUnknown(s: string, idx: int, count: int, terminal: string, bg: bool)
    ensures NixCluts.ColorFromIndex(idx, count, terminal, bg) != Err(UnknownFormat(s))
  {
    NixCluts.ColorFromIndexErrors(idx, count, terminal, bg);
    var r := NixCluts.ColorFromIndex(idx, count, terminal, bg);
    if r.Err? {
      assert r.error.message[0] == 'C' && UnknownFormat(s).message[0] == 'U';
    }
  }

  /** `get_rgb_color` fails only with a KeyError. */
  lemma RgbNotUnknown(s: string, count: int, terminal: string, bg: bool, rgb: Rgb)
    ensures NixCluts.GetRgbColor(count, terminal, bg, rgb) != Err(UnknownFormat(s))
  {
    NixCluts.GetRgbColorErrors(count, terminal, bg, rgb);
  }

  /** A text that splits into three pieces is the pieces joined by the separator. */
  lemma ThreePieces(g: string, sep: char)
    requires |Split(g, sep)| == 3
    ensures var parts := Split(g, sep); g == parts[0] + [sep] + parts[1] + [sep] + parts[2]
  {
    var parts := Split(g, sep);
    JoinSplit(g, sep);
    var tail := parts[1..];
    assert tail[1..] == [parts[2]];
    assert Join(tail, sep) == parts[1] + [sep] + parts[2];
  }

  /** A character that no number of a group contains, and that is neither white space nor `;`, is not in the group. */
  lemma CharNotInTriple(g: string, number: string -> bool, c: char)
    requires IsTripleOf(g, number)
    requires !IsSpace(c) && c != ';'
    requires forall p :: number(p) ==> c !in p
    ensures c !in g
  {
    var parts := Split(g, ';');
    ThreePieces(g, ';');
    StripLeftKeeps(parts[1], c);
    StripLeftKeeps(parts[2], c);
    assert c !in parts[0] && c !in parts[1] && c !in parts[2];
  }

  /** A hex colour with five digits matches no format, with either prefix. */
  lemma ShortHexMatchesNothing(s: string)
    requires s == "#a69ff" || s == "0xa69ff"
    ensures MatchColorFormats(s).None?
  {
    MatchColorFormatsFirst(s, HexFormat);
  }

  /** No format matches a text that every matcher rejects. */
  lemma NoMatcher(s: string)
    requires AnchoredMatch(RgbBody, s).None? && !IsDigits(s) && !IsAlpha(s) && AnchoredMatch(HexBody, s).None?
    requires AnchoredMatch(HlsBody, s).None? && AnchoredMatch(HsvBody, s).None?
    ensures MatchColorFormats(s).None?
  {
    MatchColorFormatsFirst(s, HexFormat);
  }

  /** A digit string holds no character other than digits. */
  lemma DigitsExclude(c: char)
    requires !IsDigit(c)
    ensures forall p :: IsDigits(p) ==> c !in p
    ensures forall p :: IsShortDigits(p) ==> c !in p
  {
  }

  /** A pattern `head(group)` rejects a text whose would-be group holds a character no group can hold. */
  lemma ParenthesisedRejects(s: string, head: string, group: string -> bool, k: int)
    requires |head| + 1 <= k < |s| - 1
    requires forall g :: group(g) ==> s[k] !in g
    ensures Parenthesised(s, head, group).None?
  {
  }

  /** The hsv pattern takes unsigned numbers only, so a negative component matches no format. */
  lemma NegativeHsvMatchesNothing()
    ensures MatchColorFormats("hsv(249;41;-100)").None?
  {
    var s := "hsv(249;41;-100)";
    assert |s| == 16 && s[..3] == "hsv" && s[3] == '(' && s[15] == ')' && s[11] == '-';
    StrayCharMatchesNothing(s, "hsv", 11);
  }

  /** The rgb pattern takes digits only, so a component `xxx` matches no format. */
  lemma LetteredRgbMatchesNothing()
    ensures MatchColorFormats("rgb(167;xxx;255)").None?
  {
    var s := "rgb(167;xxx;255)";
    assert |s| == 16 && s[..3] == "rgb" && s[3] == '(' && s[15] == ')' && s[8] == 'x';
    StrayCharMatchesNothing(s, "rgb", 8);
  }

  /**
   * An `hsv(...)` or `rgb(...)` text whose group holds a character that is neither a
   * digit, white space nor `;` matches no format.
   */
  lemma StrayCharMatchesNothing(s: string, head: string, k: nat)
    requires head == "hsv" || head == "rgb"
    requires |s| > 8 && s[..3] == head && s[3] == '(' && s[|s| - 1] == ')'
    requires 4 <= k < |s| - 1 && !IsDigit(s[k]) && !IsSpace(s[k]) && s[k] != ';'
    ensures MatchColorFormats(s).None?
  {
    var c := s[k];
    DigitsExclude(c);
    forall g | IsTripleOf(g, IsDigits) ensures c !in g {
      CharNotInTriple(g, IsDigits, c);
    }
    forall g | IsTripleOf(g, IsShortDigits) ensures c !in g {
      CharNotInTriple(g, IsShortDigits, c);
    }
    assert s[0] == head[0] && s[1] == head[1] && s[2] == head[2];
    if head == "hsv" {
      ParenthesisedRejects(s, "hsv", g => IsTripleOf(g, IsDigits), k);
      assert !StartsWith(s, "rgb") && s[..3] != "hls";
    } else {
      ParenthesisedRejects(s, "rgb", g => IsTripleOf(g, IsShortDigits), k);
      assert StartsWith(s, "rgb") && s[..3] != "hls" && s[..3] != "hsv";
    }
    assert HsvBody(s).None? && HlsBody(s).None? && RgbBody(s).None?;
    assert !IsDigit(s[0]) && !IsLetter(s[3]);
    NoMatcher(s);
  }

  /** An hls text with a comma for a separator and no closing parenthesis matches no format. */
  lemma BrokenHlsMatchesNothing()
    ensures MatchColorFormats("hls(0.6923,0.7960;1.0=").None?
  {
    var s := "hls(0.6923,0.7960;1.0=";
    assert |s| == 22 && s[21] == '=' && s[0] == 'h' && s[3] == '(';
    UnclosedMatchesNothing(s);
  }

  /**
   * A text that is not closed by a parenthesis, is not a number, a name or six hex
   * digits with an optional prefix, matches no format.
   */
  lemma UnclosedMatchesNothing(s: string)
    requires |s| > 8 && s[|s| - 1] != ')' && s[|s| - 1] != '\n'
    requires !IsDigit(s[0]) && !IsLetter(s[3])
    ensures MatchColorFormats(s).None?
  {
    assert !IsAlpha(s) && !IsDigits(s);
    NoMatcher(s);
  }

  /** Three digit strings joined by `;` form an hsv group. */
  lemma HsvGroupOf(a: string, b: string, c: string)
    requires IsDigits(a) && IsDigits(b) && IsDigits(c)
    ensures IsTripleOf(Join([a, b, c], ';'), IsDigits)
  {
    assert ';' !in a && ';' !in b && ';' !in c && !IsSpace(b[0]) && !IsSpace(c[0]);
    SplitJoin([a, b, c], ';');
  }

  /** `hsv(group)` with a valid group is matched by the hsv pattern and by nothing earlier. */
  lemma HsvMatched(g: string)
    requires IsTripleOf(g, IsDigits)
    ensures MatchColorFormats("hsv(" + g + ")") == Some((Group(g), HsvFormat))
  {
    var s := "hsv(" + g + ")";
    assert s[..3] == "hsv" && s[3] == '(' && s[|s| - 1] == ')' && s[4..|s| - 1] == g;
    assert HsvBody(s) == Some(g);
    assert s[..3][1] == 's' && s[..3][0] == 'h' && !IsDigit(s[0]) && !IsLetter(s[3]) && !IsHexDigit(s[3]);
    assert HlsBody(s).None? && RgbBody(s).None? && HexBody(s).None?;
    MatchColorFormatsFirst(s, HsvFormat);
  }

  /** `hsv(a;b;c)` with unsigned numbers is an hsv colour, handed to the floating-point conversion with its group. */
  lemma GetColorHsv(a: string, b: string, c: string, count: int, terminal: string, bg: bool,
                    fromFloats: (Format, string) -> Result<(NixCluts.Template, NixCluts.Code), NixCluts.Error>)
    requires IsDigits(a) && IsDigits(b) && IsDigits(c)
    ensures var g := Join([a, b, c], ';');
      GetColor(Str("hsv(" + g + ")"), count, terminal, bg, fromFloats) == fromFloats(HsvFormat, g)
  {
    HsvGroupOf(a, b, c);
    HsvMatched(Join([a, b, c], ';'));
  }

  /** A word the name table lacks (the test suite uses `unknown`) is a ValueError naming it, not an unknown format. */
  lemma GetColorUnknownName(name: string, count: int, terminal: string, bg: bool,
                            fromFloats: (Format, string) -> Result<(NixCluts.Template, NixCluts.Code), NixCluts.Error>)
    requires IsAlpha(name) && name !in NixCluts.SystemColorNames
    ensures GetColor(Str(name), count, terminal, bg, fromFloats) == Err(NixCluts.ValueError("Unknown color name '" + name + "'"))
  {
    GetColorName(name, count, terminal, bg, fromFloats);
  }

  /** An index out of range, such as 300, is a ValueError. */
  lemma GetColorIndexOutOfRange(count: int, terminal: string, bg: bool,
                                fromFloats: (Format, string) -> Result<(NixCluts.Template, NixCluts.Code), NixCluts.Error>)
    ensures GetColor(Int(300), count, terminal, bg, fromFloats) == Err(NixCluts.ValueError(NixCluts.IndexRangeMessage))
  {
    GetColorInt(300, count, terminal, bg, fromFloats);
  }
}
