/**
 * The `ColorFormatter` of colorise/formatter.py: a `string.Formatter` that
 * reads colour and attribute tokens out of the `;`-separated parts of a
 * replacement field's name and format specification and, instead of building
 * a string, writes each piece to its file as soon as it is formatted.
 *
 * The standard library's `parse`, `get_field`, `convert_field` and
 * `format_field` are the function values of an `Engine`; the file and the two
 * colour callbacks are one trace of `Event`s.
 */
module Formatter {
  import opened Wrappers
  import opened Text
  import opened Attributes
  import SrcAttributes

  /** What the formatter does to its file and its colour back end, in order. */
  datatype Event =
    | WriteText(text: string)                                        // file.write(text)
    | FlushFile                                                      // file.flush()
    | ResetColors                                                    // reset_func(file)
    | SetColors(fg: Option<string>, bg: Option<string>, attrs: seq<Attr>)  // set_color_func(fg, bg, attrs, file)

  /** The four slots `[fg, fg_attrs, bg, bg_attrs]` threaded through the extraction. */
  datatype Colors = Colors(fg: Option<string>, fgAttrs: seq<Attr>, bg: Option<string>, bgAttrs: seq<Attr>)

  const NoColors: Colors := Colors(None, [], None, [])

  /** Python truthiness of a colour slot: `None` and `''` are both false. */
  predicate Filled(slot: Option<string>)
  {
    slot.Some? && slot.value != ""
  }

  // ---------------------------------------------------------------------------
  // _extract_color_spec
  // ---------------------------------------------------------------------------

  /** `re.match('[fb]g=', s)`. */
  predicate IsColorToken(s: string)
  {
    |s| >= 3 && (s[0] == 'f' || s[0] == 'b') && s[1] == 'g' && s[2] == '='
  }

  /** One `;`-separated part of a specification, as the extraction reads it. */
  datatype Piece =
    | ColorPiece(foreground: bool, value: string)
    | AttrPiece(attr: Attr)
    | OtherPiece(text: string)

  /**
   * The formatter's `_attribute_names` (`Attr.names_with_aliases()`) together
   * with what `Attr.from_name` returns for each of them.
   */
  const AttributeByName: map<string, Attr> := map[
    "reset" := Reset, "bold" := Bold, "faint" := Faint, "italic" := Italic,
    "underline" := Underline, "blink" := Blink, "reverse" := Reverse, "intense" := Bold]

  /** The table's names are `names_with_aliases()`, and each maps to what `from_name` gives. */
  lemma AttributeByNameAgrees()
    ensures AttributeByName.Keys == SrcAttributes.NamesWithAliases()
    ensures forall s :: s in AttributeByName ==> SrcAttributes.FromName(s) == Some(AttributeByName[s])
  {
    SrcAttributes.NamesWithAliasesAddsIntense();
    CanonicalNamesListed();
    forall s | s in AttributeByName ensures SrcAttributes.FromName(s) == Some(AttributeByName[s]) {
      if s == "intense" {
        SrcAttributes.FromNameLower(Bold);
      } else {
        var a := NamedBy(s);
        SrcAttributes.FromNameLower(a);
        LowerNameListed(a);
      }
    }
  }

  lemma CanonicalNamesListed()
    ensures SrcAttributes.Names() == AttributeByName.Keys - {"intense"}
  {
    forall x | x in SrcAttributes.Names() ensures x in AttributeByName.Keys - {"intense"} {
      var a :| a in Members && x == LowerStr(Name(a));
      LowerNameIsLower(a);
      LowerNameListed(a);
    }
    forall x | x in AttributeByName.Keys - {"intense"} ensures x in SrcAttributes.Names() {
      var a := NamedBy(x);
      LowerNameIsLower(a);
      AllMembers(a);
    }
  }

  /** Each member's lower-case name is a key of the table other than the alias. */
  lemma LowerNameListed(a: Attr)
    ensures LowerName(a) in AttributeByName && LowerName(a) != "intense"
    ensures AttributeByName[LowerName(a)] == a
  {
  }

  /** The member a canonical key of the table names. */
  function NamedBy(x: string): (a: Attr)
    requires x in AttributeByName.Keys - {"intense"}
    ensures LowerName(a) == x
  {
    if x == "reset" then Reset
    else if x == "bold" then Bold
    else if x == "faint" then Faint
    else if x == "italic" then Italic
    else if x == "underline" then Underline
    else if x == "blink" then Blink
    else Reverse
  }

  /** How the loop body reads one part: colour tokens and attribute names are stripped first, other parts are kept verbatim. */
  function Classify(part: string): (p: Piece)
    ensures p.OtherPiece? ==> p.text == part
  {
    var s := Strip(part);
    if IsColorToken(s) then ColorPiece(s[0] == 'f', s[3..])
    else if s in AttributeByName then AttrPiece(AttributeByName[s])
    else OtherPiece(part)
  }

  /** The parts of `spec.split(';')`, classified. */
  function Pieces(spec: string): (ps: seq<Piece>)
    ensures |ps| == |Split(spec, ';')|
  {
    var parts := Split(spec, ';');
    seq(|parts|, k requires 0 <= k < |parts| => Classify(parts[k]))
  }

  /** The value of a colour slot after the pieces `ps`: the last colour token for it, else what it held. */
  function Slot(init: Option<string>, ps: seq<Piece>, foreground: bool): Option<string>
  {
    if ps == [] then init
    else
      var last := ps[|ps| - 1];
      if last.ColorPiece? && last.foreground == foreground then Some(last.value)
      else Slot(init, ps[..|ps| - 1], foreground)
  }

  /** `is_fg` after the pieces `ps`: whether the last colour token was `fg=`; false before any. */
  function LastIsFg(ps: seq<Piece>): bool
  {
    if ps == [] then false
    else if ps[|ps| - 1].ColorPiece? then ps[|ps| - 1].foreground
    else LastIsFg(ps[..|ps| - 1])
  }

  /** The attributes of `ps` that land in the fg list (`foreground`) or the bg list, in order. */
  function Routed(ps: seq<Piece>, foreground: bool): seq<Attr>
  {
    if ps == [] then []
    else
      var init := ps[..|ps| - 1];
      var last := ps[|ps| - 1];
      Routed(init, foreground) + (if last.AttrPiece? && LastIsFg(init) == foreground then [last.attr] else [])
  }

  /** Every attribute of `ps`, in order. */
  function AllAttrs(ps: seq<Piece>): seq<Attr>
  {
    if ps == [] then []
    else AllAttrs(ps[..|ps| - 1]) + (if ps[|ps| - 1].AttrPiece? then [ps[|ps| - 1].attr] else [])
  }

  /** The parts that are neither colour tokens nor attributes, unstripped and in order. */
  function Others(ps: seq<Piece>): seq<string>
  {
    if ps == [] then []
    else Others(ps[..|ps| - 1]) + (if ps[|ps| - 1].OtherPiece? then [ps[|ps| - 1].text] else [])
  }

  /** A colour token for the given ground. */
  predicate IsColorFor(p: Piece, foreground: bool)
  {
    p.ColorPiece? && p.foreground == foreground
  }

  /** The colour slot a colour piece addresses. */
  function SlotOf(c: Colors, foreground: bool): Option<string>
  {
    if foreground then c.fg else c.bg
  }

  /** Piece `k` is a colour token whose slot is already filled when it is reached. */
  predicate DuplicateAt(c: Colors, ps: seq<Piece>, k: nat)
    requires k < |ps|
  {
    ps[k].ColorPiece? && Filled(Slot(SlotOf(c, ps[k].foreground), ps[..k], ps[k].foreground))
  }

  /** The first piece at which the extraction raises, if any. */
  function FirstDuplicate(c: Colors, ps: seq<Piece>): (r: Option<nat>)
    ensures r.Some? ==> r.value < |ps| && DuplicateAt(c, ps, r.value)
  {
    if ps == [] then None
    else
      var init := ps[..|ps| - 1];
      match FirstDuplicate(c, init)
      case Some(k) =>
        assert init[..k] == ps[..k];
        Some(k)
      case None => if DuplicateAt(c, ps, |ps| - 1) then Some(|ps| - 1) else None
  }

  function DuplicateMessage(foreground: bool): string
  {
    "Duplicate " + (if foreground then "fore" else "back") + "ground color format"
  }

  /**
   * What `_extract_color_spec(spec, colors, default)` returns, stated piece by
   * piece: an error at the first refilled slot, else the updated slots and the
   * remaining parts rejoined with `;`, or the default when none remain.
   */
  function ExtractedColorSpec(spec: Option<string>, colors: Colors, default: Option<string>): (r: Result<(Colors, Option<string>), string>)
    ensures spec.None? ==> r == Ok((colors, default))
    ensures r.Ok? && default.Some? ==> r.value.1.Some?
  {
    if spec.None? then Ok((colors, default))
    else ExtractedPieces(Pieces(spec.value), colors, default)
  }

  /** The extraction over the classified parts of a specification. */
  function ExtractedPieces(ps: seq<Piece>, colors: Colors, default: Option<string>): (r: Result<(Colors, Option<string>), string>)
    ensures r.Ok? && default.Some? ==> r.value.1.Some?
  {
    match FirstDuplicate(colors, ps)
    case Some(k) => Err(DuplicateMessage(ps[k].foreground))
    case None =>
      var others := Others(ps);
      Ok((Colors(Slot(colors.fg, ps, true), colors.fgAttrs + Routed(ps, true),
                 Slot(colors.bg, ps, false), colors.bgAttrs + Routed(ps, false)),
          if others == [] then default else Some(Join(others, ';'))))
  }

  lemma {:induction false} FirstDuplicatePrefix(c: Colors, ps: seq<Piece>, i: nat, k: nat)
    requires i <= |ps| && FirstDuplicate(c, ps[..i]) == Some(k)
    ensures FirstDuplicate(c, ps) == Some(k)
    decreases |ps| - i
  {
    if i < |ps| {
      var next := ps[..i + 1];
      assert next[..i] == ps[..i];
      assert FirstDuplicate(c, next) == Some(k);
      FirstDuplicatePrefix(c, ps, i + 1, k);
    } else {
      assert ps[..i] == ps;
    }
  }

  /** The piece functions on a prefix one piece longer. */
  lemma PiecesStep(c: Colors, ps: seq<Piece>, i: nat)
    requires i < |ps|
    ensures var pre, next := ps[..i], ps[..i + 1];
      (FirstDuplicate(c, pre) == None ==>
        FirstDuplicate(c, next) == if DuplicateAt(c, next, i) then Some(i) else None) &&
      (DuplicateAt(c, next, i) <==> ps[i].ColorPiece? && Filled(Slot(SlotOf(c, ps[i].foreground), pre, ps[i].foreground))) &&
      Slot(c.fg, next, true) == (if IsColorFor(ps[i], true) then Some(ps[i].value) else Slot(c.fg, pre, true)) &&
      Slot(c.bg, next, false) == (if IsColorFor(ps[i], false) then Some(ps[i].value) else Slot(c.bg, pre, false)) &&
      LastIsFg(next) == (if ps[i].ColorPiece? then ps[i].foreground else LastIsFg(pre)) &&
      Routed(next, true) == Routed(pre, true) + (if ps[i].AttrPiece? && LastIsFg(pre) then [ps[i].attr] else []) &&
      Routed(next, false) == Routed(pre, false) + (if ps[i].AttrPiece? && !LastIsFg(pre) then [ps[i].attr] else []) &&
      Others(next) == Others(pre) + (if ps[i].OtherPiece? then [ps[i].text] else [])
  {
    var next := ps[..i + 1];
    assert next[..i] == ps[..i] && next[i] == ps[i];
  }

  /**
   * The loop state of `_extract_color_spec` (`result`, `is_fg`, `real_spec`)
   * after the first `i` pieces, or None once one of them has raised.
   */
  ghost function ScanOf(colors: Colors, ps: seq<Piece>, i: nat): Option<(Colors, bool, seq<string>)>
    requires i <= |ps|
  {
    if FirstDuplicate(colors, ps[..i]).Some? then None
    else
      Some((Colors(Slot(colors.fg, ps[..i], true), colors.fgAttrs + Routed(ps[..i], true),
                   Slot(colors.bg, ps[..i], false), colors.bgAttrs + Routed(ps[..i], false)),
            LastIsFg(ps[..i]), Others(ps[..i])))
  }

  /** A colour token for an empty slot fills it and sets `is_fg`; for a filled slot it raises. */
  lemma ScanColor(colors: Colors, ps: seq<Piece>, i: nat, result: Colors, isFg: bool, realSpec: seq<string>, foreground: bool, value: string)
    requires i < |ps| && ps[i] == ColorPiece(foreground, value)
    requires ScanOf(colors, ps, i) == Some((result, isFg, realSpec))
    ensures Filled(if foreground then result.fg else result.bg) ==> FirstDuplicate(colors, ps) == Some(i) && ps[i].foreground == foreground
    ensures !Filled(if foreground then result.fg else result.bg) ==>
      ScanOf(colors, ps, i + 1)
        == Some((if foreground then result.(fg := Some(value)) else result.(bg := Some(value)), foreground, realSpec))
  {
    PiecesStep(colors, ps, i);
    NoRoutedChange(ps, i);
    if Filled(if foreground then result.fg else result.bg) {
      assert DuplicateAt(colors, ps[..i + 1], i);
      FirstDuplicatePrefix(colors, ps, i + 1, i);
    }
  }

  /** An attribute joins the fg list after an `fg=` token and the bg list otherwise. */
  lemma ScanAttr(colors: Colors, ps: seq<Piece>, i: nat, result: Colors, isFg: bool, realSpec: seq<string>, attr: Attr)
    requires i < |ps| && ps[i] == AttrPiece(attr)
    requires ScanOf(colors, ps, i) == Some((result, isFg, realSpec))
    ensures ScanOf(colors, ps, i + 1)
      == Some((if isFg then result.(fgAttrs := result.fgAttrs + [attr]) else result.(bgAttrs := result.bgAttrs + [attr]), isFg, realSpec))
  {
    PiecesStep(colors, ps, i);
    NoRoutedChange(ps, i);
    assert result.fgAttrs + [attr] == colors.fgAttrs + (Routed(ps[..i], true) + [attr]);
    assert result.bgAttrs + [attr] == colors.bgAttrs + (Routed(ps[..i], false) + [attr]);
  }

  /** Any other part is kept as it was written. */
  lemma ScanOther(colors: Colors, ps: seq<Piece>, i: nat, result: Colors, isFg: bool, realSpec: seq<string>, part: string)
    requires i < |ps| && ps[i] == OtherPiece(part)
    requires ScanOf(colors, ps, i) == Some((result, isFg, realSpec))
    ensures ScanOf(colors, ps, i + 1) == Some((result, isFg, realSpec + [part]))
  {
    PiecesStep(colors, ps, i);
    NoRoutedChange(ps, i);
  }

  /** The extraction raises the message of the first duplicate piece. */
  lemma ExtractRaised(ps: seq<Piece>, colors: Colors, default: Option<string>, i: nat, foreground: bool)
    requires i < |ps| && FirstDuplicate(colors, ps) == Some(i) && ps[i].foreground == foreground
    ensures ExtractedPieces(ps, colors, default) == Err(DuplicateMessage(foreground))
  {
  }

  /** After the last piece without a duplicate, the loop state is the extraction's result. */
  lemma ExtractFinished(ps: seq<Piece>, colors: Colors, default: Option<string>, result: Colors, isFg: bool, realSpec: seq<string>)
    requires ScanOf(colors, ps, |ps|) == Some((result, isFg, realSpec))
    ensures ExtractedPieces(ps, colors, default)
      == Ok((result, if realSpec != [] then Some(Join(realSpec, ';')) else default))
  {
    assert ps[..|ps|] == ps;
  }

  /** Padding with an empty routing keeps both attribute lists as they were. */
  lemma NoRoutedChange(ps: seq<Piece>, i: nat)
    requires i <= |ps|
    ensures Routed(ps[..i], true) + [] == Routed(ps[..i], true)
    ensures Routed(ps[..i], false) + [] == Routed(ps[..i], false)
    ensures Others(ps[..i]) + [] == Others(ps[..i])
  {
  }

  /** One part of the loop: strip it, then test for a colour token and for an attribute name. */
  method ClassifyPart(part: string) returns (p: Piece)
    ensures p == Classify(part)
  {
    var stripped := Strip(part);
    if IsColorToken(stripped) {
      p := ColorPiece(stripped[0] == 'f', stripped[3..]);
    } else if stripped in AttributeByName {
      p := AttrPiece(AttributeByName[stripped]);
    } else {
      p := OtherPiece(part);
    }
  }

  /** The extraction as the source runs it: split, then one pass over the parts. */
  method ExtractColorSpec(spec: Option<string>, colors: Colors, default: Option<string>) returns (r: Result<(Colors, Option<string>), string>)
    ensures r == ExtractedColorSpec(spec, colors, default)
  {
    if spec.None? {
      return Ok((colors, default));
    }
    var parts := Split(spec.value, ';');
    forall k | 0 <= k < |parts| ensures Pieces(spec.value)[k] == Classify(parts[k]) {
    }
    r := ScanParts(parts, Pieces(spec.value), colors, default);
  }

  /** The loop of `_extract_color_spec`, updating the slots as it goes and raising at a refilled slot. */
  method ScanParts(parts: seq<string>, ghost ps: seq<Piece>, colors: Colors, default: Option<string>) returns (r: Result<(Colors, Option<string>), string>)
    requires |ps| == |parts| && forall k :: 0 <= k < |parts| ==> ps[k] == Classify(parts[k])
    ensures r == ExtractedPieces(ps, colors, default)
  {
    var isFg := false;
    var realSpec: seq<string> := [];
    var result := colors;
    assert ps[..0] == [] && colors.fgAttrs + [] == colors.fgAttrs && colors.bgAttrs + [] == colors.bgAttrs;
    var i := 0;
    while i < |parts|
      invariant 0 <= i <= |parts|
      invariant ScanOf(colors, ps, i) == Some((result, isFg, realSpec))
    {
      var raised;
      raised, result, isFg, realSpec := ScanPart(parts[i], ps, i, colors, default, result, isFg, realSpec);
      if raised.Some? {
        return Err(raised.value);
      }
      i := i + 1;
    }
    ExtractFinished(ps, colors, default, result, isFg, realSpec);
    r := Ok((result, if realSpec != [] then Some(Join(realSpec, ';')) else default));
  }

  /** One pass of the loop: a colour token fills its slot (raising if it was filled), an attribute joins a list, anything else is kept. */
  method ScanPart(part: string, ghost ps: seq<Piece>, ghost i: nat, ghost colors: Colors, ghost default: Option<string>,
                  result: Colors, isFg: bool, realSpec: seq<string>)
    returns (raised: Option<string>, result': Colors, isFg': bool, realSpec': seq<string>)
    requires i < |ps| && ps[i] == Classify(part)
    requires ScanOf(colors, ps, i) == Some((result, isFg, realSpec))
    ensures raised.Some? ==> ExtractedPieces(ps, colors, default) == Err(raised.value)
    ensures raised.None? ==> ScanOf(colors, ps, i + 1) == Some((result', isFg', realSpec'))
  {
    raised, result', isFg', realSpec' := None, result, isFg, realSpec;
    var piece := ClassifyPart(part);
    match piece {
    case ColorPiece(foreground, value) =>
      ScanColor(colors, ps, i, result, isFg, realSpec, foreground, value);
      if Filled(if foreground then result.fg else result.bg) {
        ExtractRaised(ps, colors, default, i, foreground);
        raised := Some(DuplicateMessage(foreground));
      } else {
        if foreground {
          result' := result.(fg := Some(value));
        } else {
          result' := result.(bg := Some(value));
        }
        isFg' := foreground;
      }
    case AttrPiece(attr) =>
      ScanAttr(colors, ps, i, result, isFg, realSpec, attr);
      if isFg {
        result' := result.(fgAttrs := result.fgAttrs + [attr]);
      } else {
        result' := result.(bgAttrs := result.bgAttrs + [attr]);
      }
    case OtherPiece(text) =>
      ScanOther(colors, ps, i, result, isFg, realSpec, text);
      realSpec' := realSpec + [text];
    }
  }

  /** A specification without colour or attribute parts comes back unchanged, with the slots untouched. */
  lemma ExtractPlain(spec: string, colors: Colors, default: Option<string>)
    requires forall k :: 0 <= k < |Split(spec, ';')| ==> Classify(Split(spec, ';')[k]).OtherPiece?
    ensures ExtractedColorSpec(Some(spec), colors, default) == Ok((colors, Some(spec)))
  {
    var ps := Pieces(spec);
    var parts := Split(spec, ';');
    forall k | 0 <= k < |ps| ensures ps[k] == OtherPiece(parts[k]) {
    }
    PlainExtraction(ps, colors, default);
    assert Others(ps) == parts;
    JoinSplit(spec, ';');
  }

  /** Pieces that are all plain text leave the slots alone and come back rejoined. */
  lemma PlainExtraction(ps: seq<Piece>, colors: Colors, default: Option<string>)
    requires ps != [] && forall k :: 0 <= k < |ps| ==> ps[k].OtherPiece?
    ensures ExtractedPieces(ps, colors, default) == Ok((colors, Some(Join(Others(ps), ';'))))
    ensures |Others(ps)| == |ps| && forall k :: 0 <= k < |ps| ==> Others(ps)[k] == ps[k].text
  {
    PlainPieces(colors, ps, |ps|);
    assert ps[..|ps|] == ps;
    assert colors.fgAttrs + [] == colors.fgAttrs && colors.bgAttrs + [] == colors.bgAttrs;
  }

  lemma {:induction false} PlainPieces(c: Colors, ps: seq<Piece>, i: nat)
    requires i <= |ps| && forall k :: 0 <= k < |ps| ==> ps[k].OtherPiece?
    ensures FirstDuplicate(c, ps[..i]) == None
    ensures Slot(c.fg, ps[..i], true) == c.fg && Slot(c.bg, ps[..i], false) == c.bg
    ensures Routed(ps[..i], true) == [] && Routed(ps[..i], false) == []
    ensures |Others(ps[..i])| == i
    ensures forall k :: 0 <= k < i ==> Others(ps[..i])[k] == ps[k].text
  {
    if i > 0 {
      PlainPieces(c, ps, i - 1);
      var pre := ps[..i];
      assert pre[..i - 1] == ps[..i - 1];
    }
  }

  /** A colour token for a slot that is already filled raises, whatever else the specification holds. */
  lemma ExtractRaisesOnRefill(spec: string, colors: Colors, default: Option<string>, foreground: bool)
    requires Filled(SlotOf(colors, foreground))
    requires exists k :: 0 <= k < |Pieces(spec)| && IsColorFor(Pieces(spec)[k], foreground)
    ensures ExtractedColorSpec(Some(spec), colors, default).Err?
  {
    PiecesRaiseOnRefill(Pieces(spec), colors, default, foreground);
  }

  lemma PiecesRaiseOnRefill(ps: seq<Piece>, colors: Colors, default: Option<string>, foreground: bool)
    requires Filled(SlotOf(colors, foreground))
    requires exists k :: 0 <= k < |ps| && IsColorFor(ps[k], foreground)
    ensures ExtractedPieces(ps, colors, default).Err?
  {
    var k :| 0 <= k < |ps| && IsColorFor(ps[k], foreground);
    FirstColorPiece(colors, ps, foreground, k + 1);
  }

  /** A slot filled on entry makes the first colour token for it a duplicate. */
  lemma {:induction false} FirstColorPiece(c: Colors, ps: seq<Piece>, foreground: bool, i: nat)
    requires i <= |ps| && Filled(SlotOf(c, foreground))
    requires exists k :: 0 <= k < i && IsColorFor(ps[k], foreground)
    ensures FirstDuplicate(c, ps).Some?
  {
    var pre := ps[..i];
    var init := pre[..i - 1];
    assert init == ps[..i - 1];
    if FirstDuplicate(c, pre).Some? {
      FirstDuplicatePrefix(c, ps, i, FirstDuplicate(c, pre).value);
    } else if exists k :: 0 <= k < i - 1 && IsColorFor(ps[k], foreground) {
      FirstColorPiece(c, ps, foreground, i - 1);
    } else {
      SlotUntouched(SlotOf(c, foreground), init, foreground);
      assert DuplicateAt(c, pre, i - 1);
      assert false;
    }
  }

  lemma {:induction false} SlotUntouched(init: Option<string>, ps: seq<Piece>, foreground: bool)
    requires forall k :: 0 <= k < |ps| ==> !IsColorFor(ps[k], foreground)
    ensures Slot(init, ps, foreground) == init
  {
    if ps != [] {
      SlotUntouched(init, ps[..|ps| - 1], foreground);
    }
  }

  /** The extraction raises exactly when some colour token meets an already filled slot. */
  lemma ExtractRaisesIffDuplicate(spec: string, colors: Colors, default: Option<string>)
    ensures ExtractedColorSpec(Some(spec), colors, default).Err?
      <==> exists k :: 0 <= k < |Pieces(spec)| && DuplicateAt(colors, Pieces(spec), k)
  {
    PiecesRaiseIffDuplicate(Pieces(spec), colors, default);
  }

  lemma PiecesRaiseIffDuplicate(ps: seq<Piece>, colors: Colors, default: Option<string>)
    ensures ExtractedPieces(ps, colors, default).Err? <==> exists k :: 0 <= k < |ps| && DuplicateAt(colors, ps, k)
  {
    if FirstDuplicate(colors, ps).None? {
      forall k | 0 <= k < |ps| ensures !DuplicateAt(colors, ps, k) {
        NoDuplicateBefore(colors, ps, k);
      }
    }
  }

  lemma {:induction false} NoDuplicateBefore(c: Colors, ps: seq<Piece>, k: nat)
    requires k < |ps| && FirstDuplicate(c, ps) == None
    ensures !DuplicateAt(c, ps, k)
  {
    var init := ps[..|ps| - 1];
    if k < |ps| - 1 {
      assert init[..k] == ps[..k];
      NoDuplicateBefore(c, init, k);
    }
  }

  /** Attributes are split between the two lists without loss. */
  lemma {:induction false} RoutedPartition(ps: seq<Piece>)
    ensures multiset(Routed(ps, true)) + multiset(Routed(ps, false)) == multiset(AllAttrs(ps))
  {
    if ps != [] {
      var init, last := ps[..|ps| - 1], ps[|ps| - 1];
      RoutedPartition(init);
      var toFg := if last.AttrPiece? && LastIsFg(init) then [last.attr] else [];
      var toBg := if last.AttrPiece? && !LastIsFg(init) then [last.attr] else [];
      var added := if last.AttrPiece? then [last.attr] else [];
      assert Routed(ps, true) == Routed(init, true) + toFg;
      assert Routed(ps, false) == Routed(init, false) + toBg;
      assert AllAttrs(ps) == AllAttrs(init) + added;
      assert multiset(toFg) + multiset(toBg) == multiset(added);
      PartitionAppend(Routed(init, true), Routed(init, false), AllAttrs(init), toFg, toBg, added);
    }
  }

  /** All attributes go to the bg list until an `fg=` token appears. */
  lemma {:induction false} RoutedBeforeFg(ps: seq<Piece>)
    requires forall k :: 0 <= k < |ps| ==> !IsColorFor(ps[k], true)
    ensures Routed(ps, true) == []
  {
    if ps != [] {
      var init := ps[..|ps| - 1];
      assert forall k :: 0 <= k < |init| ==> init[k] == ps[k];
      RoutedBeforeFg(init);
      NeverFg(init);
    }
  }

  lemma PartitionAppend<T>(a: seq<T>, b: seq<T>, c: seq<T>, x: seq<T>, y: seq<T>, z: seq<T>)
    requires multiset(a) + multiset(b) == multiset(c) && multiset(x) + multiset(y) == multiset(z)
    ensures multiset(a + x) + multiset(b + y) == multiset(c + z)
  {
    calc {
      multiset(a + x) + multiset(b + y);
      (multiset(a) + multiset(b)) + (multiset(x) + multiset(y));
      multiset(c + z);
    }
  }

  lemma {:induction false} NeverFg(ps: seq<Piece>)
    requires forall k :: 0 <= k < |ps| ==> !IsColorFor(ps[k], true)
    ensures !LastIsFg(ps)
  {
    if ps != [] {
      NeverFg(ps[..|ps| - 1]);
    }
  }

  /** `_is_valid_color_spec`: some slot is truthy. */
  function IsValidColorSpec(c: Colors): (valid: bool)
    ensures !valid <==> c.fg in {None, Some("")} && c.bg in {None, Some("")} && c.fgAttrs == [] && c.bgAttrs == []
  {
    Filled(c.fg) || c.fgAttrs != [] || Filled(c.bg) || c.bgAttrs != []
  }

  /** `_extract_color_format`: the field name's parts first, then the specification's, into one set of slots. */
  function ExtractColorFormat(fieldName: Option<string>, formatSpec: Option<string>): (r: Result<(Colors, Option<string>, Option<string>), string>)
    ensures fieldName.None? && formatSpec.None? ==> r == Ok((NoColors, None, Some("")))
  {
    match ExtractedColorSpec(fieldName, NoColors, None)
    case Err(e) => Err(e)
    case Ok((named, realName)) =>
      match ExtractedColorSpec(formatSpec, named, Some(""))
      case Err(e) => Err(e)
      case Ok((colors, realSpec)) => Ok((colors, realName, realSpec))
  }

  /** A colour given in the field name and again in the specification raises: the same slots are threaded through both. */
  lemma DuplicateAcrossNameAndSpec(fieldName: string, formatSpec: string, foreground: bool)
    requires ExtractedColorSpec(Some(fieldName), NoColors, None).Ok?
    requires Filled(SlotOf(ExtractedColorSpec(Some(fieldName), NoColors, None).value.0, foreground))
    requires exists k :: 0 <= k < |Pieces(formatSpec)| && IsColorFor(Pieces(formatSpec)[k], foreground)
    ensures ExtractColorFormat(Some(fieldName), Some(formatSpec)).Err?
  {
    var named := ExtractedColorSpec(Some(fieldName), NoColors, None).value.0;
    ExtractRaisesOnRefill(formatSpec, named, Some(""), foreground);
  }

  // ---------------------------------------------------------------------------
  // _set_color
  // ---------------------------------------------------------------------------

  /** The formatter's `enabled` and `autoreset` properties, which stay fixed while a string is formatted. */
  datatype Config = Config(enabled: bool, autoreset: bool)

  /** What formatting changes: the trace, `first_color_spec`, and the `used_args` set. */
  datatype State = State(trace: seq<Event>, first: bool, used: set<ArgKey>)

  /** The argument `get_field` reports as used: a position or a keyword. */
  datatype ArgKey = Position(index: nat) | Keyword(name: string)

  /** `_set_color(*colors)`. */
  function SetColorState(cfg: Config, st: State, c: Colors): (r: State)
  {
    if cfg.enabled && IsValidColorSpec(c) then
      var attrs := c.fgAttrs + c.bgAttrs;
      var reset := if cfg.autoreset && !st.first && attrs != [Reset] then [ResetColors] else [];
      st.(trace := st.trace + reset + [SetColors(c.fg, c.bg, attrs)], first := false)
    else st
  }

  /** `_set_color` called once for each of `cs`, in order. */
  function SetColorsState(cfg: Config, st: State, cs: seq<Colors>): State
    decreases |cs|
  {
    if cs == [] then st else SetColorState(cfg, SetColorsState(cfg, st, cs[..|cs| - 1]), cs[|cs| - 1])
  }

  /** How many calls of `reset_func` the trace holds. */
  function CountResets(trace: seq<Event>): nat
    decreases |trace|
  {
    if trace == [] then 0
    else CountResets(trace[..|trace| - 1]) + (if trace[|trace| - 1] == ResetColors then 1 else 0)
  }

  lemma {:induction false} CountResetsAppend(a: seq<Event>, b: seq<Event>)
    ensures CountResets(a + b) == CountResets(a) + CountResets(b)
    decreases |b|
  {
    if b == [] {
      assert a + b == a;
    } else {
      var front := b[..|b| - 1];
      CountResetsAppend(a, front);
      assert (a + b)[..|a + b| - 1] == a + front;
    }
  }

  /**
   * Under autoreset, `n` calls of `_set_color` from the first colour of a
   * `vformat`, each with a valid specification that is not a lone reset,
   * write `n` colour settings and `n - 1` resets, one before each setting
   * but the first, and leave the used arguments alone.
   */
  lemma {:induction false} AutoresetResets(st: State, cs: seq<Colors>)
    requires st.first && cs != []
    requires forall k :: 0 <= k < |cs| ==> IsValidColorSpec(cs[k]) && cs[k].fgAttrs + cs[k].bgAttrs != [Reset]
    ensures var r := SetColorsState(Config(true, true), st, cs);
      !r.first && r.used == st.used &&
      |r.trace| == |st.trace| + 2 * |cs| - 1 && CountResets(r.trace) == CountResets(st.trace) + |cs| - 1
    decreases |cs|
  {
    var front, c := cs[..|cs| - 1], cs[|cs| - 1];
    if front == [] {
      AutoresetStep(st, c);
    } else {
      AutoresetResets(st, front);
      AutoresetStep(SetColorsState(Config(true, true), st, front), c);
    }
  }

  /** One call of `AutoresetResets`: a setting, preceded by a reset unless it is the first. */
  lemma AutoresetStep(st: State, c: Colors)
    requires IsValidColorSpec(c) && c.fgAttrs + c.bgAttrs != [Reset]
    ensures var r := SetColorState(Config(true, true), st, c);
      var resets := if st.first then 0 else 1;
      !r.first && r.used == st.used &&
      |r.trace| == |st.trace| + 1 + resets && CountResets(r.trace) == CountResets(st.trace) + resets
  {
    var setting := SetColors(c.fg, c.bg, c.fgAttrs + c.bgAttrs);
    assert [setting][..0] == [] && CountResets([setting]) == 0;
    if st.first {
      assert SetColorState(Config(true, true), st, c).trace == st.trace + [] + [setting];
      assert st.trace + [] + [setting] == st.trace + [setting];
      CountResetsAppend(st.trace, [setting]);
    } else {
      assert SetColorState(Config(true, true), st, c).trace == st.trace + [ResetColors] + [setting];
      assert st.trace + [ResetColors] + [setting] == st.trace + [ResetColors, setting];
      CountResetsAppend(st.trace, [ResetColors, setting]);
      assert [ResetColors, setting][..1] == [ResetColors] && [ResetColors][..0] == [];
      assert CountResets([ResetColors, setting]) == 1;
    }
  }

  /** Under autoreset, the first colour after `vformat` sets without a reset and every later one resets first. */
  lemma SetColorTwice(st: State, c1: Colors, c2: Colors)
    requires st.first && IsValidColorSpec(c1) && IsValidColorSpec(c2) && c2.fgAttrs + c2.bgAttrs != [Reset]
    ensures var cfg := Config(true, true);
      SetColorState(cfg, SetColorState(cfg, st, c1), c2).trace
        == st.trace + [SetColors(c1.fg, c1.bg, c1.fgAttrs + c1.bgAttrs), ResetColors,
                       SetColors(c2.fg, c2.bg, c2.fgAttrs + c2.bgAttrs)]
  {
  }

  // ---------------------------------------------------------------------------
  // vformat / _vformat
  // ---------------------------------------------------------------------------

  /** One item of `string.Formatter.parse`: literal text, then an optional field with its spec and conversion. */
  datatype FieldToken = FieldToken(literal: string, fieldName: Option<string>, formatSpec: string, conversion: Option<char>)

  /** The items `parse` yields before it stops, and the error it raises there, if any. */
  datatype Parsed = Parsed(tokens: seq<FieldToken>, error: Option<string>)

  /** The inherited `string.Formatter` behaviour, with the call's `args` and `kwargs` captured in `getField`. */
  datatype Engine<!O> = Engine(
    parse: string -> Parsed,
    getField: string -> Result<(O, ArgKey), string>,
    convertField: (O, Option<char>) -> Result<O, string>,
    formatField: (O, string) -> Result<string, string>)

  /**
   * How `_vformat` reads the colours out of a field name or a format
   * specification. The formatting functions take it as a parameter, so that
   * what they promise about writes and numbering holds whatever it extracts;
   * all they need is that a default, when one is given, comes back as a string.
   */
  type Extraction = x: (Option<string>, Colors, Option<string>) -> Result<(Colors, Option<string>), string>
    | forall spec, c, d :: x(spec, c, d).Ok? && d.Some? ==> x(spec, c, d).value.1.Some?
    witness (spec: Option<string>, c: Colors, d: Option<string>) => Ok((c, d))

  /** The extraction `ColorFormatter` performs: `_extract_color_spec`. */
  const Extract: Extraction := ExtractedColorSpec

  /** `auto_arg_index`: a count, or `False` once a field has been numbered by hand. */
  datatype AutoIndex = Auto(next: nat) | Manual

  /** Python truthiness of `auto_arg_index`: `0` and `False` are false. */
  predicate AutoTruthy(a: AutoIndex)
  {
    a.Auto? && a.next != 0
  }

  const SwitchError: string := "cannot switch from manual field specification to automatic field numbering"
  const RecursionError: string := "Max string recursion exceeded"

  /** The field numbering of `_vformat`: an empty name takes the next automatic index, a digit name turns numbering off. */
  function NumberField(name: string, auto: AutoIndex): (r: Result<(string, AutoIndex), string>)
    ensures r.Err? ==> r.error == SwitchError
    ensures r.Ok? && name != "" ==> r.value.0 == name
  {
    if name == "" then
      if auto == Manual then Err(SwitchError) else Ok((NatToString(auto.next), Auto(auto.next + 1)))
    else if IsDigits(name) then
      if AutoTruthy(auto) then Err(SwitchError) else Ok((name, Manual))
    else Ok((name, auto))
  }

  /** `NumberField` over the field names of a format string, in order; the names it looks up. */
  function NumberFields(names: seq<string>, auto: AutoIndex): Result<seq<string>, string>
  {
    if names == [] then Ok([])
    else match NumberField(names[0], auto)
      case Err(e) => Err(e)
      case Ok((looked, next)) =>
        match NumberFields(names[1..], next)
        case Err(e) => Err(e)
        case Ok(rest) => Ok([looked] + rest)
  }

  predicate HasAuto(names: seq<string>)
  {
    exists k :: 0 <= k < |names| && names[k] == ""
  }

  predicate HasManual(names: seq<string>)
  {
    exists k :: 0 <= k < |names| && IsDigits(names[k])
  }

  /** How many automatic (empty) names `names` holds. */
  function AutoCount(names: seq<string>): nat
  {
    if names == [] then 0 else (if names[0] == "" then 1 else 0) + AutoCount(names[1..])
  }

  /**
   * Numbering fails exactly when automatic and manual fields are mixed, in
   * either order (or, from an index already past 0, when any field is manual).
   */
  lemma {:induction false} NumberingNeverMixes(names: seq<string>, n: nat)
    ensures NumberFields(names, Auto(n)).Err? <==> (HasAuto(names) && HasManual(names)) || (n > 0 && HasManual(names))
  {
    if names != [] {
      var rest := names[1..];
      HasAutoCons(names);
      HasManualCons(names);
      if names[0] == "" {
        NumberingNeverMixes(rest, n + 1);
      } else if IsDigits(names[0]) {
        if n == 0 {
          ManualStays(rest);
        }
      } else {
        NumberingNeverMixes(rest, n);
      }
    }
  }

  /** When numbering succeeds the automatic fields look up positions n, n + 1, ... in turn. */
  lemma {:induction false} AutoNumberedInOrder(names: seq<string>, n: nat)
    ensures NumberFields(names, Auto(n)).Ok? ==>
      |NumberFields(names, Auto(n)).value| == |names| &&
      forall k :: 0 <= k < |names| && names[k] == "" ==>
        NumberFields(names, Auto(n)).value[k] == NatToString(n + AutoCount(names[..k]))
  {
    if names != [] {
      var rest := names[1..];
      if names[0] == "" {
        AutoNumberedInOrder(rest, n + 1);
        AutoPositionsCons(names, n);
      } else if IsDigits(names[0]) {
        if NumberFields(names, Auto(n)).Ok? {
          ManualStays(rest);
          HasAutoCons(names);
          assert NumberFields(names, Auto(n)).value == [names[0]] + NumberFields(rest, Manual).value;
        }
      } else {
        AutoNumberedInOrder(rest, n);
        AutoPositionsCons(names, n);
      }
    }
  }

  /** The positions of the automatic names carry over from the tail, shifted by the head. */
  lemma AutoPositionsCons(names: seq<string>, n: nat)
    requires names != [] && !IsDigits(names[0])
    requires var next := if names[0] == "" then n + 1 else n;
      NumberFields(names[1..], Auto(next)).Ok? ==>
        |NumberFields(names[1..], Auto(next)).value| == |names| - 1 &&
        forall k :: 0 <= k < |names| - 1 && names[1..][k] == "" ==>
          NumberFields(names[1..], Auto(next)).value[k] == NatToString(next + AutoCount(names[1..][..k]))
    ensures NumberFields(names, Auto(n)).Ok? ==>
      |NumberFields(names, Auto(n)).value| == |names| &&
      forall k :: 0 <= k < |names| && names[k] == "" ==>
        NumberFields(names, Auto(n)).value[k] == NatToString(n + AutoCount(names[..k]))
  {
    var rest := names[1..];
    var next := if names[0] == "" then n + 1 else n;
    if NumberFields(names, Auto(n)).Ok? {
      var head := if names[0] == "" then NatToString(n) else names[0];
      var tail := NumberFields(rest, Auto(next)).value;
      assert NumberFields(names, Auto(n)).value == [head] + tail;
      forall k | 0 <= k < |names| && names[k] == ""
        ensures ([head] + tail)[k] == NatToString(n + AutoCount(names[..k]))
      {
        if k == 0 {
          assert names[..0] == [];
        } else {
          assert names[k] == rest[k - 1];
          assert names[..k][1..] == rest[..k - 1];
        }
      }
    }
  }

  lemma HasAutoCons(names: seq<string>)
    requires names != []
    ensures HasAuto(names) <==> names[0] == "" || HasAuto(names[1..])
  {
    var rest := names[1..];
    if HasAuto(rest) {
      var k :| 0 <= k < |rest| && rest[k] == "";
      assert names[k + 1] == "";
    }
    if HasAuto(names) && names[0] != "" {
      var k :| 0 <= k < |names| && names[k] == "";
      assert rest[k - 1] == "";
    }
  }

  lemma HasManualCons(names: seq<string>)
    requires names != []
    ensures HasManual(names) <==> IsDigits(names[0]) || HasManual(names[1..])
  {
    var rest := names[1..];
    if HasManual(rest) {
      var k :| 0 <= k < |rest| && IsDigits(rest[k]);
      assert IsDigits(names[k + 1]);
    }
    if HasManual(names) && !IsDigits(names[0]) {
      var k :| 0 <= k < |names| && IsDigits(names[k]);
      assert IsDigits(rest[k - 1]);
    }
  }

  /** Once numbering is manual, only an empty name fails. */
  lemma {:induction false} ManualStays(names: seq<string>)
    ensures NumberFields(names, Manual).Err? <==> HasAuto(names)
    ensures NumberFields(names, Manual).Ok? ==> |NumberFields(names, Manual).value| == |names|
  {
    if names != [] {
      HasAutoCons(names);
      ManualStays(names[1..]);
    }
  }

  /** `_vformat(format_string, ..., recursion_depth, auto_arg_index)`: the joined result and the final index, and the new state. */
  function Format<O>(e: Engine<O>, cfg: Config, x: Extraction, fmt: string, depth: int, auto: AutoIndex, st: State): (r: (Result<(string, AutoIndex), string>, State))
    ensures depth < 0 ==> r == (Err(RecursionError), st)
    decreases depth + 1, 1
  {
    if depth < 0 then (Err(RecursionError), st)
    else
      var parsed := e.parse(fmt);
      FormatTokens(e, cfg, x, parsed.tokens, parsed.error, depth, auto, "", st)
  }

  /** The loop of `_vformat` from some item on, with the text joined so far in `acc`. */
  function FormatTokens<O>(e: Engine<O>, cfg: Config, x: Extraction, tokens: seq<FieldToken>, parseError: Option<string>,
                           depth: nat, auto: AutoIndex, acc: string, st: State): (r: (Result<(string, AutoIndex), string>, State))
    decreases depth + 1, 0, |tokens| + 3
  {
    if tokens == [] then
      if parseError.Some? then (Err(parseError.value), st) else (Ok((acc, auto)), st)
    else
      var (o, st1) := FormatField(e, cfg, x, tokens[0], depth, auto, st);
      match o
      case Err(m) => (Err(m), st1)
      case Ok((text, next)) => FormatTokens(e, cfg, x, tokens[1..], parseError, depth, next, acc + text, st1)
  }

  /**
   * One pass of the loop of `_vformat`: the literal, then the colours of the
   * field name; the text it appends to `result`, the next index, and the new state.
   */
  function FormatField<O>(e: Engine<O>, cfg: Config, x: Extraction, token: FieldToken, depth: nat, auto: AutoIndex, st: State): (r: (Result<(string, AutoIndex), string>, State))
    decreases depth + 1, 0, 3
  {
    var st1 := if token.literal != "" && depth == 2 then st.(trace := st.trace + [WriteText(token.literal), FlushFile]) else st;
    FieldAfterName(e, cfg, x, token, x(token.fieldName, NoColors, None), depth, auto, st1)
  }

  /** The rest of the pass once the field name's colours are extracted: set them, then format the field if there is one. */
  function FieldAfterName<O>(e: Engine<O>, cfg: Config, x: Extraction, token: FieldToken, extracted: Result<(Colors, Option<string>), string>,
                             depth: nat, auto: AutoIndex, st: State): (r: (Result<(string, AutoIndex), string>, State))
    decreases depth + 1, 0, 2
  {
    match extracted
    case Err(m) => (Err(m), st)
    case Ok((named, realName)) =>
      var st1 := SetColorState(cfg, st, named);
      if realName.None? then (Ok((token.literal, auto)), st1)
      else
        var (o, st2) := FormatNamed(e, cfg, x, token, depth, named, realName.value, auto, st1);
        (if o.Ok? then Ok((token.literal + o.value.0, o.value.1)) else o, st2)
  }

  /** A field with a name: number it, look it up, convert it, and expand its specification one level down. */
  function FormatNamed<O>(e: Engine<O>, cfg: Config, x: Extraction, token: FieldToken, depth: nat, named: Colors, fieldName: string,
                          auto: AutoIndex, st: State): (r: (Result<(string, AutoIndex), string>, State))
    decreases depth + 1, 0, 1
  {
    match NumberField(fieldName, auto)
    case Err(m) => (Err(m), st)
    case Ok((name, auto1)) =>
      match e.getField(name)
      case Err(m) => (Err(m), st)
      case Ok((found, key)) =>
        var st1 := st.(used := st.used + {key});
        match e.convertField(found, token.conversion)
        case Err(m) => (Err(m), st1)
        case Ok(obj) =>
          var (nested, st2) := Format(e, cfg, x, token.formatSpec, depth - 1, auto1, st1);
          match nested
          case Err(m) => (Err(m), st2)
          case Ok((spec, auto2)) =>
            var (o, st3) := FormatOutput(e, cfg, obj, x(Some(spec), named, Some("")), depth, st2);
            (if o.Ok? then Ok((o.value, auto2)) else Err(o.error), st3)
  }

  /**
   * Once the expanded specification's colours are extracted: set them, format
   * the value, and at the top level write it, with a reset after it under autoreset.
   */
  function FormatOutput<O>(e: Engine<O>, cfg: Config, obj: O, extracted: Result<(Colors, Option<string>), string>,
                           depth: nat, st: State): (r: (Result<string, string>, State))
    requires extracted.Ok? ==> extracted.value.1.Some?
  {
    match extracted
    case Err(m) => (Err(m), st)
    case Ok((colors, realSpec)) =>
      var valid := IsValidColorSpec(colors);
      var st1 := SetColorState(cfg, st, colors);
      match e.formatField(obj, realSpec.value)
      case Err(m) => (Err(m), st1)
      case Ok(formatted) =>
        (Ok(formatted),
         if depth == 2 then st1.(trace := st1.trace + [WriteText(formatted)] + (if valid && cfg.autoreset then [ResetColors] else []))
         else st1)
  }

  /** The text a trace writes to the file. */
  function Written(trace: seq<Event>): string
  {
    if trace == [] then ""
    else (if trace[0].WriteText? then trace[0].text else "") + Written(trace[1..])
  }

  lemma {:induction false} WrittenAppend(a: seq<Event>, b: seq<Event>)
    ensures Written(a + b) == Written(a) + Written(b)
  {
    if a != [] {
      assert (a + b)[0] == a[0];
      assert (a + b)[1..] == a[1..] + b;
      WrittenAppend(a[1..], b);
    } else {
      assert a + b == b;
    }
  }

  /** Appending colour events writes nothing. */
  lemma WrittenColorEvents(trace: seq<Event>, events: seq<Event>)
    requires forall k :: 0 <= k < |events| ==> !events[k].WriteText?
    ensures Written(trace + events) == Written(trace)
  {
    WrittenAppend(trace, events);
    NoWrites(events);
  }

  lemma {:induction false} NoWrites(events: seq<Event>)
    requires forall k :: 0 <= k < |events| ==> !events[k].WriteText?
    ensures Written(events) == ""
  {
    if events != [] {
      NoWrites(events[1..]);
    }
  }

  lemma SetColorWritesNothing(cfg: Config, st: State, c: Colors)
    ensures Written(SetColorState(cfg, st, c).trace) == Written(st.trace)
  {
    if cfg.enabled && IsValidColorSpec(c) {
      var attrs := c.fgAttrs + c.bgAttrs;
      var reset := if cfg.autoreset && !st.first && attrs != [Reset] then [ResetColors] else [];
      var events := reset + [SetColors(c.fg, c.bg, attrs)];
      assert st.trace + reset + [SetColors(c.fg, c.bg, attrs)] == st.trace + events;
      assert forall k :: 0 <= k < |events| ==> !events[k].WriteText?;
      WrittenColorEvents(st.trace, events);
    }
  }

  /** Below the top level nothing is written: a nested format specification is only formatted, never output. */
  lemma {:induction false} NestedWritesNothing<O>(e: Engine<O>, cfg: Config, x: Extraction, fmt: string, depth: int, auto: AutoIndex, st: State)
    requires depth < 2
    ensures Written(Format(e, cfg, x, fmt, depth, auto, st).1.trace) == Written(st.trace)
    decreases depth + 1, 1
  {
    if depth >= 0 {
      var parsed := e.parse(fmt);
      NestedTokensWriteNothing(e, cfg, x, parsed.tokens, parsed.error, depth, auto, "", st);
    }
  }

  lemma {:induction false} NestedTokensWriteNothing<O>(e: Engine<O>, cfg: Config, x: Extraction, tokens: seq<FieldToken>, parseError: Option<string>,
                                                      depth: nat, auto: AutoIndex, acc: string, st: State)
    requires depth < 2
    ensures Written(FormatTokens(e, cfg, x, tokens, parseError, depth, auto, acc, st).1.trace) == Written(st.trace)
    decreases depth + 1, 0, |tokens| + 3
  {
    if tokens != [] {
      var (o, st1) := FormatField(e, cfg, x, tokens[0], depth, auto, st);
      NestedFieldWritesNothing(e, cfg, x, tokens[0], depth, auto, st);
      if o.Ok? {
        NestedTokensWriteNothing(e, cfg, x, tokens[1..], parseError, depth, o.value.1, acc + o.value.0, st1);
      }
    }
  }

  lemma {:induction false} NestedFieldWritesNothing<O>(e: Engine<O>, cfg: Config, x: Extraction, token: FieldToken, depth: nat, auto: AutoIndex, st: State)
    requires depth < 2
    ensures Written(FormatField(e, cfg, x, token, depth, auto, st).1.trace) == Written(st.trace)
    decreases depth + 1, 0, 3
  {
    NestedRestWritesNothing(e, cfg, x, token, x(token.fieldName, NoColors, None), depth, auto, st);
  }

  lemma {:induction false} NestedRestWritesNothing<O>(e: Engine<O>, cfg: Config, x: Extraction, token: FieldToken, extracted: Result<(Colors, Option<string>), string>,
                                                     depth: nat, auto: AutoIndex, st: State)
    requires depth < 2
    ensures Written(FieldAfterName(e, cfg, x, token, extracted, depth, auto, st).1.trace) == Written(st.trace)
    decreases depth + 1, 0, 2
  {
    if extracted.Ok? {
      var (named, realName) := extracted.value;
      SetColorWritesNothing(cfg, st, named);
      if realName.Some? {
        NestedNamedWritesNothing(e, cfg, x, token, depth, named, realName.value, auto, SetColorState(cfg, st, named));
      }
    }
  }

  lemma {:induction false} NestedNamedWritesNothing<O>(e: Engine<O>, cfg: Config, x: Extraction, token: FieldToken, depth: nat, named: Colors,
                                                      fieldName: string, auto: AutoIndex, st: State)
    requires depth < 2
    ensures Written(FormatNamed(e, cfg, x, token, depth, named, fieldName, auto, st).1.trace) == Written(st.trace)
    decreases depth + 1, 0, 1
  {
    var numbered := NumberField(fieldName, auto);
    if numbered.Ok? && e.getField(numbered.value.0).Ok? {
      var (found, key) := e.getField(numbered.value.0).value;
      var st1 := st.(used := st.used + {key});
      var converted := e.convertField(found, token.conversion);
      if converted.Ok? {
        NestedWritesNothing(e, cfg, x, token.formatSpec, depth - 1, numbered.value.1, st1);
        var (nested, st2) := Format(e, cfg, x, token.formatSpec, depth - 1, numbered.value.1, st1);
        if nested.Ok? {
          OutputWritesAtTop(e, cfg, converted.value, x(Some(nested.value.0), named, Some("")), depth, st2);
        }
      }
    }
  }

  /** The last stage writes the formatted value at the top level and nothing below it. */
  lemma OutputWritesAtTop<O>(e: Engine<O>, cfg: Config, obj: O, extracted: Result<(Colors, Option<string>), string>, depth: nat, st: State)
    requires extracted.Ok? ==> extracted.value.1.Some?
    ensures var (o, st') := FormatOutput(e, cfg, obj, extracted, depth, st);
      Written(st'.trace) == Written(st.trace) + (if o.Ok? && depth == 2 then o.value else "")
  {
    if extracted.Ok? {
      var (colors, realSpec) := extracted.value;
      SetColorWritesNothing(cfg, st, colors);
      var st1 := SetColorState(cfg, st, colors);
      var formatted := e.formatField(obj, realSpec.value);
      if formatted.Ok? && depth == 2 {
        var tail := if IsValidColorSpec(colors) && cfg.autoreset then [ResetColors] else [];
        WrittenColorEvents(st1.trace + [WriteText(formatted.value)], tail);
        WrittenAppend(st1.trace, [WriteText(formatted.value)]);
        assert Written([WriteText(formatted.value)]) == formatted.value + Written([]);
      }
    }
  }

  /**
   * At the top level the file receives exactly the string `str.format` would
   * have returned: every literal and every formatted field, in order.
   */
  lemma TopLevelWritesResult<O>(e: Engine<O>, cfg: Config, x: Extraction, fmt: string, auto: AutoIndex, st: State)
    ensures var (o, st') := Format(e, cfg, x, fmt, 2, auto, st);
      o.Ok? ==> Written(st'.trace) == Written(st.trace) + o.value.0
  {
    var parsed := e.parse(fmt);
    TopTokensWriteResult(e, cfg, x, parsed.tokens, parsed.error, auto, "", st);
  }

  lemma {:induction false} TopTokensWriteResult<O>(e: Engine<O>, cfg: Config, x: Extraction, tokens: seq<FieldToken>, parseError: Option<string>,
                                                  auto: AutoIndex, acc: string, st: State)
    ensures var (o, st') := FormatTokens(e, cfg, x, tokens, parseError, 2, auto, acc, st);
      o.Ok? ==> |acc| <= |o.value.0| && o.value.0[..|acc|] == acc && Written(st'.trace) == Written(st.trace) + o.value.0[|acc|..]
    decreases |tokens|
  {
    if tokens != [] {
      var (o1, st1) := FormatField(e, cfg, x, tokens[0], 2, auto, st);
      TopFieldWritesText(e, cfg, x, tokens[0], auto, st);
      if o1.Ok? {
        var text, next := o1.value.0, o1.value.1;
        assert FormatTokens(e, cfg, x, tokens, parseError, 2, auto, acc, st)
            == FormatTokens(e, cfg, x, tokens[1..], parseError, 2, next, acc + text, st1);
        TopTokensWriteResult(e, cfg, x, tokens[1..], parseError, next, acc + text, st1);
        var (o, st') := FormatTokens(e, cfg, x, tokens[1..], parseError, 2, next, acc + text, st1);
        if o.Ok? {
          var out := o.value.0;
          PrefixSlices(out, acc, text);
          assert Written(st'.trace) == (Written(st.trace) + text) + out[|acc + text|..];
          assert (Written(st.trace) + text) + out[|acc + text|..] == Written(st.trace) + (text + out[|acc + text|..]);
        }
      }
    } else {
      var (o, st') := FormatTokens(e, cfg, x, tokens, parseError, 2, auto, acc, st);
      if o.Ok? {
        assert o.value.0[|acc|..] == "";
      }
    }
  }

  /** A sequence that starts with `a + b` starts with `a`, and after `a` comes `b` and the rest. */
  lemma PrefixSlices<T>(out: seq<T>, a: seq<T>, b: seq<T>)
    requires |a + b| <= |out| && out[..|a + b|] == a + b
    ensures out[..|a|] == a && out[|a|..] == b + out[|a + b|..]
  {
    assert out[..|a|] == (a + b)[..|a|];
    assert out[|a|..] == out[|a|..|a + b|] + out[|a + b|..];
    assert out[|a|..|a + b|] == (a + b)[|a|..];
  }

  lemma TopFieldWritesText<O>(e: Engine<O>, cfg: Config, x: Extraction, token: FieldToken, auto: AutoIndex, st: State)
    ensures var (o, st') := FormatField(e, cfg, x, token, 2, auto, st);
      o.Ok? ==> Written(st'.trace) == Written(st.trace) + o.value.0
  {
    var st1 := if token.literal != "" then st.(trace := st.trace + [WriteText(token.literal), FlushFile]) else st;
    assert Written(st1.trace) == Written(st.trace) + token.literal by {
      if token.literal != "" {
        WrittenAppend(st.trace, [WriteText(token.literal), FlushFile]);
        assert Written([WriteText(token.literal), FlushFile]) == token.literal + Written([FlushFile]);
        assert Written([FlushFile]) == Written([]);
      }
    }
    TopRestWritesText(e, cfg, x, token, x(token.fieldName, NoColors, None), auto, st1);
    var (o, st') := FormatField(e, cfg, x, token, 2, auto, st);
    if o.Ok? {
      assert o.value.0 == token.literal + o.value.0[|token.literal|..];
    }
  }

  lemma TopRestWritesText<O>(e: Engine<O>, cfg: Config, x: Extraction, token: FieldToken, extracted: Result<(Colors, Option<string>), string>, auto: AutoIndex, st: State)
    ensures var (o, st') := FieldAfterName(e, cfg, x, token, extracted, 2, auto, st);
      o.Ok? ==> |token.literal| <= |o.value.0| && o.value.0[..|token.literal|] == token.literal &&
                Written(st'.trace) == Written(st.trace) + o.value.0[|token.literal|..]
  {
    if extracted.Ok? {
      var (named, realName) := extracted.value;
      SetColorWritesNothing(cfg, st, named);
      if realName.Some? {
        TopNamedWritesText(e, cfg, x, token, named, realName.value, auto, SetColorState(cfg, st, named));
      }
    }
  }

  lemma TopNamedWritesText<O>(e: Engine<O>, cfg: Config, x: Extraction, token: FieldToken, named: Colors, fieldName: string, auto: AutoIndex, st: State)
    ensures var (o, st') := FormatNamed(e, cfg, x, token, 2, named, fieldName, auto, st);
      o.Ok? ==> Written(st'.trace) == Written(st.trace) + o.value.0
  {
    var numbered := NumberField(fieldName, auto);
    if numbered.Ok? && e.getField(numbered.value.0).Ok? {
      var (found, key) := e.getField(numbered.value.0).value;
      var st1 := st.(used := st.used + {key});
      var converted := e.convertField(found, token.conversion);
      if converted.Ok? {
        NestedWritesNothing(e, cfg, x, token.formatSpec, 1, numbered.value.1, st1);
        var (nested, st2) := Format(e, cfg, x, token.formatSpec, 1, numbered.value.1, st1);
        if nested.Ok? {
          OutputWritesAtTop(e, cfg, converted.value, x(Some(nested.value.0), named, Some("")), 2, st2);
        }
      }
    }
  }

  /** A field at the innermost level whose lookup succeeds is past the recursion limit. */
  lemma InnermostFieldRaises<O>(e: Engine<O>, cfg: Config, x: Extraction, token: FieldToken, named: Colors, fieldName: string, auto: AutoIndex, st: State)
    requires NumberField(fieldName, auto).Ok?
    requires e.getField(NumberField(fieldName, auto).value.0).Ok?
    requires e.convertField(e.getField(NumberField(fieldName, auto).value.0).value.0, token.conversion).Ok?
    ensures FormatNamed(e, cfg, x, token, 0, named, fieldName, auto, st).0 == Err(RecursionError)
  {
  }

  // ---------------------------------------------------------------------------
  // The formatter object
  // ---------------------------------------------------------------------------

  class ColorFormatter<O> {
    /** The inherited `string.Formatter` behaviour. */
    const engine: Engine<O>
    var autoreset: bool
    var firstColorSpec: bool
    var enabled: bool
    /** What has been sent to the file and the colour callbacks so far. */
    var trace: seq<Event>

    constructor(engine: Engine<O>)
      ensures this.engine == engine
      ensures !autoreset && !firstColorSpec && enabled && trace == []
    {
      this.engine := engine;
      autoreset := false;
      firstColorSpec := false;
      enabled := true;
      trace := [];
    }

    function Cfg(): Config
      reads this
    {
      Config(enabled, autoreset)
    }

    /** `_set_color(fg, fg_attrs, bg, bg_attrs)`. */
    method SetColor(colors: Colors, ghost used: set<ArgKey>)
      modifies this
      ensures enabled == old(enabled) && autoreset == old(autoreset)
      ensures State(trace, firstColorSpec, used) == SetColorState(old(Cfg()), State(old(trace), old(firstColorSpec), used), colors)
    {
      if enabled && IsValidColorSpec(colors) {
        var attrs := colors.fgAttrs + colors.bgAttrs;
        if autoreset && !firstColorSpec && attrs != [Reset] {
          trace := trace + [ResetColors];
        }
        trace := trace + [SetColors(colors.fg, colors.bg, attrs)];
        firstColorSpec := false;
      }
    }

    /** `vformat(format_string, args, kwargs)`: flush, reset, then format at the top level. */
    method VFormat(fmt: string) returns (r: Result<(), string>)
      modifies this
      ensures enabled == old(enabled) && autoreset == old(autoreset)
      ensures var (o, st) := Format(engine, old(Cfg()), Extract, fmt, 2, Auto(0), State(old(trace) + [FlushFile, ResetColors], true, {}));
        trace == st.trace && firstColorSpec == st.first && (r.Ok? <==> o.Ok?) && (o.Err? ==> r == Err(o.error))
    {
      trace := trace + [FlushFile];
      trace := trace + [ResetColors];
      assert trace == old(trace) + [FlushFile, ResetColors];
      firstColorSpec := true;
      var o, used := FormatDepth(fmt, 2, Auto(0), {});
      if o.Err? {
        return Err(o.error);
      }
      r := Ok(());
    }

    /** `_vformat(format_string, args, kwargs, used_args, recursion_depth, auto_arg_index)`. */
    method FormatDepth(fmt: string, depth: int, auto: AutoIndex, used: set<ArgKey>) returns (r: Result<(string, AutoIndex), string>, usedOut: set<ArgKey>)
      modifies this
      decreases depth + 1, 1
      ensures enabled == old(enabled) && autoreset == old(autoreset)
      ensures (r, State(trace, firstColorSpec, usedOut))
        == Format(engine, old(Cfg()), Extract, fmt, depth, auto, State(old(trace), old(firstColorSpec), used))
    {
      if depth < 0 {
        return Err(RecursionError), used;
      }
      var parsed := engine.parse(fmt);
      var tokens := parsed.tokens;
      var result := "";
      var index := auto;
      usedOut := used;
      var i := 0;
      while i < |tokens|
        invariant 0 <= i <= |tokens|
        invariant enabled == old(enabled) && autoreset == old(autoreset)
        invariant Format(engine, old(Cfg()), Extract, fmt, depth, auto, State(old(trace), old(firstColorSpec), used))
          == FormatTokens(engine, Cfg(), Extract, tokens[i..], parsed.error, depth, index, result, State(trace, firstColorSpec, usedOut))
      {
        assert tokens[i..][1..] == tokens[i + 1..];
        var o, u := FormatToken(tokens[i], depth, index, usedOut);
        usedOut := u;
        if o.Err? {
          return Err(o.error), usedOut;
        }
        result := result + o.value.0;
        index := o.value.1;
        i := i + 1;
      }
      if parsed.error.Some? {
        return Err(parsed.error.value), usedOut;
      }
      r := Ok((result, index));
    }

    /** One pass of the loop of `_vformat`: the literal, then the colours of the field name. */
    method FormatToken(token: FieldToken, depth: nat, auto: AutoIndex, used: set<ArgKey>) returns (r: Result<(string, AutoIndex), string>, usedOut: set<ArgKey>)
      modifies this
      decreases depth + 1, 0, 3
      ensures enabled == old(enabled) && autoreset == old(autoreset)
      ensures (r, State(trace, firstColorSpec, usedOut))
        == FormatField(engine, old(Cfg()), Extract, token, depth, auto, State(old(trace), old(firstColorSpec), used))
    {
      if token.literal != "" && depth == 2 {
        trace := trace + [WriteText(token.literal), FlushFile];
      }
      var extracted := ExtractColorSpec(token.fieldName, NoColors, None);
      r, usedOut := AfterName(token, extracted, depth, auto, used);
    }

    /** The rest of the pass: set the field name's colours, then format the field if there is one. */
    method AfterName(token: FieldToken, extracted: Result<(Colors, Option<string>), string>, depth: nat, auto: AutoIndex, used: set<ArgKey>)
      returns (r: Result<(string, AutoIndex), string>, usedOut: set<ArgKey>)
      modifies this
      decreases depth + 1, 0, 2
      ensures enabled == old(enabled) && autoreset == old(autoreset)
      ensures (r, State(trace, firstColorSpec, usedOut))
        == FieldAfterName(engine, old(Cfg()), Extract, token, extracted, depth, auto, State(old(trace), old(firstColorSpec), used))
    {
      if extracted.Err? {
        return Err(extracted.error), used;
      }
      var named := extracted.value.0;
      var realName := extracted.value.1;
      SetColor(named, used);
      if realName.None? {
        return Ok((token.literal, auto)), used;
      }
      var o;
      o, usedOut := FormatNamedField(token, depth, named, realName.value, auto, used);
      if o.Err? {
        return o, usedOut;
      }
      r := Ok((token.literal + o.value.0, o.value.1));
    }

    /** A field with a name: number it, look it up, convert it, and expand its specification one level down. */
    method FormatNamedField(token: FieldToken, depth: nat, named: Colors, fieldName: string, auto: AutoIndex, used: set<ArgKey>)
      returns (r: Result<(string, AutoIndex), string>, usedOut: set<ArgKey>)
      modifies this
      decreases depth + 1, 0, 1
      ensures enabled == old(enabled) && autoreset == old(autoreset)
      ensures (r, State(trace, firstColorSpec, usedOut))
        == FormatNamed(engine, old(Cfg()), Extract, token, depth, named, fieldName, auto, State(old(trace), old(firstColorSpec), used))
    {
      var numbered := NumberField(fieldName, auto);
      if numbered.Err? {
        return Err(numbered.error), used;
      }
      var name := numbered.value.0;
      var index := numbered.value.1;
      var got := engine.getField(name);
      if got.Err? {
        return Err(got.error), used;
      }
      usedOut := used + {got.value.1};
      var converted := engine.convertField(got.value.0, token.conversion);
      if converted.Err? {
        return Err(converted.error), usedOut;
      }
      var nested;
      nested, usedOut := FormatDepth(token.formatSpec, depth - 1, index, usedOut);
      if nested.Err? {
        return Err(nested.error), usedOut;
      }
      var extracted := ExtractColorSpec(Some(nested.value.0), named, Some(""));
      var formatted := OutputField(converted.value, extracted, depth, usedOut);
      if formatted.Err? {
        return Err(formatted.error), usedOut;
      }
      r := Ok((formatted.value, nested.value.1));
    }

    /** The expanded specification's colours, then the formatted value, written at the top level. */
    method OutputField(obj: O, extracted: Result<(Colors, Option<string>), string>, depth: nat, ghost used: set<ArgKey>) returns (r: Result<string, string>)
      requires extracted.Ok? ==> extracted.value.1.Some?
      modifies this
      ensures enabled == old(enabled) && autoreset == old(autoreset)
      ensures (r, State(trace, firstColorSpec, used))
        == FormatOutput(engine, old(Cfg()), obj, extracted, depth, State(old(trace), old(firstColorSpec), used))
    {
      if extracted.Err? {
        return Err(extracted.error);
      }
      var colors := extracted.value.0;
      var realSpec := extracted.value.1.value;
      var valid := IsValidColorSpec(colors);
      SetColor(colors, used);
      var formatted := engine.formatField(obj, realSpec);
      if formatted.Err? {
        return Err(formatted.error);
      }
      if depth == 2 {
        ghost var before := trace;
        trace := trace + [WriteText(formatted.value)];
        if valid && autoreset {
          trace := trace + [ResetColors];
        }
        assert trace == before + [WriteText(formatted.value)] + (if valid && autoreset then [ResetColors] else []);
      }
      r := Ok(formatted.value);
    }
  }
}
