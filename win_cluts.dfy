/**
 * The Windows console colour tables and colour functions of colorise/win/cluts.py:
 * console character attributes, the 16-colour logical table, the logical colour
 * names, and the look-ups for names and RGB triples.
 */
module WinCluts {
  import opened Wrappers
  import opened ColorTools
  import opened OrderedDicts
  import Attributes

  /** The exceptions the look-ups raise. */
  datatype Error = ValueError(message: string) | TypeError

  /** Bitwise or of two console attribute words, bit by bit from the lowest: a bit is set when it is set in either word. */
  function Or(a: nat, b: nat): (r: nat)
    ensures r >= a && r >= b
  {
    if a == 0 then b
    else if b == 0 then a
    else 2 * Or(a / 2, b / 2) + (if a % 2 == 1 || b % 2 == 1 then 1 else 0)
  }

  /** `_WIN_ATTRIBUTES`: the wincon.h attribute bits. `Attr.Intense` is `Attr.Bold`, so its entry overwrites Bold's with the same value. */
  const WinAttributes: map<Attributes.Attr, nat> := map[
    Attributes.Reset := 0x0000,
    Attributes.Bold := 0x0008,
    Attributes.Faint := 0x0000,
    Attributes.Italic := 0x0000,
    Attributes.Underline := 0x8000,
    Attributes.Blink := 0x0000,
    Attributes.Reverse := 0x4000]

  /** Every attribute has an entry; Bold (and its alias Intense) is the intensity bit, Underline and Reverse their own bits, the others nothing. */
  lemma WinAttributesBits(a: Attributes.Attr)
    ensures a in WinAttributes
    ensures WinAttributes[a] == (if a == Attributes.Bold then 0x0008 else if a == Attributes.Underline then 0x8000
      else if a == Attributes.Reverse then 0x4000 else 0)
    ensures Attributes.Lookup("Intense") == Some(Attributes.Bold)
  {
  }

  const ForegroundRed: int := 0x0004
  const ForegroundGreen: int := 0x0002
  const ForegroundBlue: int := 0x0001

  /** `_FOREGROUND_INTENSITY`, taken from the Bold attribute. */
  function ForegroundIntensity(): nat { WinAttributes[Attributes.Bold] }

  /** `_WINDOWS_CLUT`: the 16 logical console colours. */
  const WindowsClut: Clut := [
    (0, (0x00, 0x00, 0x00)),
    (1, (0x00, 0x00, 0x80)),
    (2, (0x00, 0x80, 0x00)),
    (3, (0x00, 0x80, 0x80)),
    (4, (0x80, 0x00, 0x00)),
    (5, (0x80, 0x00, 0x80)),
    (6, (0x80, 0x80, 0x00)),
    (7, (0xff, 0xff, 0xff)),
    (8, (0x80, 0x80, 0x80)),
    (9, (0x00, 0x00, 0xff)),
    (10, (0x00, 0xff, 0x00)),
    (11, (0x00, 0xff, 0xff)),
    (12, (0xff, 0x00, 0x00)),
    (13, (0xff, 0x00, 0xff)),
    (14, (0xff, 0xff, 0x00)),
    (15, (0xff, 0xff, 0xff))]

  /** The table's keys are 0..15, each once. */
  lemma WindowsClutKeys(k: int)
    ensures Get(WindowsClut, k).Some? <==> 0 <= k < 16
    ensures DistinctKeys(WindowsClut)
  {
    WindowsClutKeyAt();
    if 0 <= k < 16 {
      assert WindowsClut[k].0 == k;
    }
  }

  /** Entry `i` of the table has key `i`. */
  lemma WindowsClutKeyAt()
    ensures |WindowsClut| == 16 && forall i :: 0 <= i < 16 ==> WindowsClut[i].0 == i
  {
  }

  /** `_WINDOWS_LOGICAL_NAMES` as written in the dictionary display. */
  function BaseLogicalNames(): map<string, nat>
  {
    map[
      "black" := 0,
      "red" := ForegroundRed,
      "green" := ForegroundGreen,
      "yellow" := Or(ForegroundRed, ForegroundGreen),
      "magenta" := Or(ForegroundRed, ForegroundBlue),
      "purple" := Or(ForegroundRed, ForegroundBlue),
      "blue" := ForegroundBlue,
      "cyan" := Or(ForegroundGreen, ForegroundBlue),
      "white" := Or(Or(ForegroundRed, ForegroundGreen), ForegroundBlue)]
  }

  /** The names the loop gives a `light` variant, in loop order. */
  const LightBases: seq<string> := ["red", "green", "blue", "yellow", "purple", "magenta", "cyan"]

  /** The import-time loop: each `light<name>` is the name's value with the intensity bit set. */
  function AddLight(names: map<string, nat>, bases: seq<string>): (r: map<string, nat>)
    requires forall b :: b in bases ==> b in names
    ensures forall n :: n in names ==> n in r
    ensures forall b :: b in bases ==> "light" + b in r
  {
    if bases == [] then names
    else
      var b := bases[|bases| - 1];
      var before := AddLight(names, bases[..|bases| - 1]);
      before["light" + b := Or(names[b], ForegroundIntensity())]
  }

  /** `_WINDOWS_LOGICAL_NAMES` once the module is loaded: the light variants, then gray and grey. */
  function LogicalNames(): map<string, nat>
  {
    var base := BaseLogicalNames();
    LightNamesFresh();
    assert "black" in base;
    var lit := AddLight(base, LightBases);
    lit["gray" := Or(lit["black"], ForegroundIntensity())]["grey" := Or(lit["black"], ForegroundIntensity())]
  }

  lemma IntensityIsBold()
    ensures ForegroundIntensity() == 0x0008
  {
  }

  lemma LightPrefix(x: string)
    ensures |"light" + x| >= 5 && ("light" + x)[0] == 'l' && ("light" + x)[5..] == x
  {
    assert |"light"| == 5;
  }

  /** A `light` variant is the base value with the intensity bit set, and the loop leaves the other names alone. */
  lemma {:induction false} AddLightValue(names: map<string, nat>, bases: seq<string>, n: string)
    requires forall x :: x in bases ==> x in names
    requires forall x :: x in bases ==> "light" + x !in names
    ensures n in names ==> AddLight(names, bases)[n] == names[n]
    ensures forall b :: b in bases && n == "light" + b ==> AddLight(names, bases)[n] == Or(names[b], ForegroundIntensity())
  {
    if bases != [] {
      var last := bases[|bases| - 1];
      var init := bases[..|bases| - 1];
      AddLightValue(names, init, n);
      LightPrefix(last);
      forall b | b in bases && n == "light" + b
        ensures AddLight(names, bases)[n] == Or(names[b], ForegroundIntensity())
      {
        LightPrefix(b);
      }
    }
  }

  /** A name the loop adds is `light` followed by one of the bases. */
  lemma {:induction false} AddLightNames(names: map<string, nat>, bases: seq<string>, n: string)
    requires forall b :: b in bases ==> b in names
    requires n in AddLight(names, bases) && n !in names
    ensures exists b :: b in bases && n == "light" + b
  {
    var last := bases[|bases| - 1];
    if n != "light" + last {
      AddLightNames(names, bases[..|bases| - 1], n);
      var b :| b in bases[..|bases| - 1] && n == "light" + b;
      assert b in bases;
    }
  }

  /** No name of the display starts with `light`. */
  lemma LightNamesFresh()
    ensures forall x :: x in LightBases ==> x in BaseLogicalNames() && "light" + x !in BaseLogicalNames()
  {
    forall x | x in LightBases ensures "light" + x !in BaseLogicalNames() {
      LightPrefix(x);
    }
  }

  /** Every `light<name>` is the base value with the intensity bit 0x8 set. */
  lemma LightValues(b: string)
    requires b in LightBases
    ensures "light" + b in LogicalNames() && b in LogicalNames()
    ensures LogicalNames()["light" + b] == Or(LogicalNames()[b], 0x0008)
  {
    var base := BaseLogicalNames();
    LightNamesFresh();
    LightPrefix(b);
    AddLightValue(base, LightBases, "light" + b);
    AddLightValue(base, LightBases, b);
    assert "light" + b != "gray" && "light" + b != "grey" by {
      assert ("light" + b)[0] == 'l';
    }
    LogicalNamesShape("light" + b);
    LogicalNamesShape(b);
    IntensityIsBold();
  }

  /** A name of the display keeps its value after the loop and the gray/grey additions. */
  lemma BaseValueKept(name: string)
    requires name in BaseLogicalNames() && name != "gray" && name != "grey"
    ensures name in LogicalNames() && LogicalNames()[name] == BaseLogicalNames()[name]
  {
    LightNamesFresh();
    AddLightValue(BaseLogicalNames(), LightBases, name);
  }

  /** gray and grey are black with the intensity bit set. */
  lemma GrayValues()
    ensures "gray" in LogicalNames() && "grey" in LogicalNames() && "black" in LogicalNames()
    ensures LogicalNames()["gray"] == LogicalNames()["grey"] == Or(LogicalNames()["black"], 0x0008) == 8
  {
    BaseValueKept("black");
    assert Or(0, 8) == 8;
  }

  /** purple and magenta are both red|blue. */
  lemma PurpleValues()
    ensures "purple" in LogicalNames() && "magenta" in LogicalNames()
    ensures LogicalNames()["purple"] == LogicalNames()["magenta"] == Or(ForegroundRed, ForegroundBlue) == 5
  {
    BaseValueKept("purple");
    BaseValueKept("magenta");
    assert Or(4, 1) == 5;
  }

  /** Setting the intensity bit of a 3-bit colour adds 8. */
  lemma OrIntensity(v: int)
    requires 0 <= v < 8
    ensures Or(v, 0x0008) == v + 8
  {
    OrAbove(v, 3);
  }

  function Pow2(k: nat): (p: nat)
    ensures p >= 1
  {
    if k == 0 then 1 else 2 * Pow2(k - 1)
  }

  /** Or-ing a bit above every bit of `v` adds it. */
  lemma {:induction false} OrAbove(v: nat, k: nat)
    requires v < Pow2(k)
    ensures Or(v, Pow2(k)) == v + Pow2(k)
  {
    if v > 0 {
      assert k > 0;
      OrAbove(v / 2, k - 1);
      assert Pow2(k) / 2 == Pow2(k - 1) && Pow2(k) % 2 == 0;
    }
  }

  /** The names of the display are 3-bit colours. */
  lemma BaseValuesSmall(name: string)
    requires name in BaseLogicalNames()
    ensures 0 <= BaseLogicalNames()[name] < 8
  {
    assert Or(4, 2) == 6 && Or(4, 1) == 5 && Or(2, 1) == 3 && Or(6, 1) == 7;
  }

  /** The logical names are the loop's names plus gray and grey. */
  lemma LogicalNamesShape(name: string)
    ensures name in LogicalNames() <==> name == "gray" || name == "grey" || name in AddLight(BaseLogicalNames(), LightBases)
    ensures name != "gray" && name != "grey" && name in LogicalNames() ==>
      LogicalNames()[name] == AddLight(BaseLogicalNames(), LightBases)[name]
  {
    LightNamesFresh();
  }

  /** A `light` variant is its base colour plus 8. */
  lemma LightNibble(b: string)
    requires b in LightBases
    ensures 8 <= LogicalNames()["light" + b] < 16
  {
    LightValues(b);
    BaseValueKept(b);
    BaseValuesSmall(b);
    OrIntensity(BaseLogicalNames()[b]);
  }

  /** Every logical value is a 4-bit colour. */
  lemma LogicalNibble(name: string)
    requires name in LogicalNames()
    ensures 0 <= LogicalNames()[name] < 16
  {
    var base := BaseLogicalNames();
    LogicalNamesShape(name);
    if name == "gray" || name == "grey" {
      GrayValues();
    } else if name in base {
      BaseValueKept(name);
      BaseValuesSmall(name);
    } else {
      AddLightNames(base, LightBases, name);
      var b :| b in LightBases && name == "light" + b;
      LightNibble(b);
    }
  }

  /** `get_prefix`: the console takes no escape prefix, whatever the colour count. */
  function GetPrefix(count: int, bg: bool): (r: string)
    ensures r == ""
  {
    ""
  }

  /** `get_clut`: the logical table, whatever the colour count. */
  function GetClut(count: int): (r: Clut)
    ensures r == WindowsClut
  {
    WindowsClut
  }

  /** `x << 4`: a foreground colour moved to the background nibble. */
  function ShiftToBackground(x: int): int { x * 16 }

  /** `color_from_name`: the logical value, shifted into the background bits for a background colour. */
  function ColorFromName(name: string, bg: bool): (r: Result<int, Error>)
  {
    if name !in LogicalNames() then Err(ValueError("Unknown color name '" + name + "'"))
    else
      var color := LogicalNames()[name];
      Ok(if bg then ShiftToBackground(color) else color)
  }

  /** A name gives a foreground nibble or, for background, the same nibble in bits 4..7; an unknown name is a ValueError quoting it. */
  lemma ColorFromNameNibbles(name: string, bg: bool)
    ensures ColorFromName(name, bg).Err? <==> name !in LogicalNames()
    ensures name !in LogicalNames() ==> ColorFromName(name, bg).error == ValueError("Unknown color name '" + name + "'")
    ensures name in LogicalNames() ==>
      var v := ColorFromName(name, false).value;
      && 0 <= v < 16
      && (bg ==> ColorFromName(name, bg).value % 16 == 0 && ColorFromName(name, bg).value / 16 == v)
  {
    if name in LogicalNames() {
      LogicalNibble(name);
    }
  }

  /**
   * `get_rgb_color`: below true colour the nearest logical colour, shifted for background.
   * At true colour it calls the non-Windows `get_rgb_color` with three arguments where that
   * function takes four, which raises TypeError.
   */
  function GetRgbColor(count: int, bg: bool, rgb: Rgb): (r: Result<int, Error>)
  {
    if count == 0x100_0000 then Err(TypeError)
    else
      match ClosestColor(rgb, GetClut(count))
      case None => Err(ValueError("min() arg is an empty sequence"))
      case Some(idx) => Ok(if bg then ShiftToBackground(idx) else idx)
  }

  /** Below true colour the result is a nearest key of the logical table (0..15), in the background nibble for a background colour. */
  lemma GetRgbColorApproximates(count: int, bg: bool, rgb: Rgb)
    requires count != 0x100_0000
    ensures GetRgbColor(count, bg, rgb).Ok?
    ensures var fg := ClosestColor(rgb, WindowsClut).value;
      && 0 <= fg < 16
      && IsNearestKey(rgb, WindowsClut, fg)
      && GetRgbColor(count, bg, rgb).value == (if bg then fg * 16 else fg)
  {
    WindowsClutKeys(0);
    ClosestIsNearest(rgb, WindowsClut);
    WindowsClutKeys(ClosestColor(rgb, WindowsClut).value);
  }

  /** White is both 7 and 15 in the table; the tie goes to the earlier key, 7. */
  lemma WhiteTie()
    ensures GetRgbColor(16, false, (0xff, 0xff, 0xff)) == Ok(7)
  {
    ExactEntryChosen((0xff, 0xff, 0xff), WindowsClut, 7);
  }
}
