/**
 * The colour tables and colour functions of colorise/nix/cluts.py: SGR prefixes
 * per colour count, the eight system colours, the colour names, the xterm 88- and
 * 256-colour tables, and the look-ups the colour parser dispatches to.
 * The terminal name (`terminal_name()`) is a parameter.
 */
module NixCluts {
  import opened Wrappers
  import opened Text
  import opened ColorTools
  import opened OrderedDicts

  /** A `str.format` template with a single `{0}` field, kept as the text before and after the field. */
  datatype Template = Template(head: string, tail: string)

  /** `template.format(arg)`. */
  function Fill(t: Template, arg: string): string
  {
    t.head + arg + t.tail
  }

  const EscapeCode: string := "\U{001B}["
  const Prefix16: Template := Template(EscapeCode, "m")
  const PrefixFg88: Template := Template(EscapeCode + "38;5;", "m")
  const PrefixBg88: Template := Template(EscapeCode + "48;5;", "m")
  const PrefixFg256: Template := PrefixFg88
  const PrefixBg256: Template := PrefixBg88
  const PrefixFgTrueColor: Template := Template(EscapeCode + "38;2;", "m")
  const PrefixBgTrueColor: Template := Template(EscapeCode + "48;2;", "m")

  /** `2**24`, the colour count of a true-colour terminal. */
  const TrueColor: int := 0x100_0000

  /** The exceptions the look-ups raise. */
  datatype Error = KeyError | ValueError(message: string)

  /** The second half of a returned `(prefix, color)`: an int, or at true colour the text `"r;g;b"`. */
  datatype Code = Num(n: int) | Components(text: string)

  /** `str(color)` as `prefix.format(color)` renders it. */
  function CodeText(c: Code): string
  {
    match c
    case Num(n) => IntToString(n)
    case Components(t) => t
  }

  /** `_prefix_map`: foreground and background templates per supported colour count. */
  const PrefixMap: map<int, (Template, Template)> := map[
    8 := (Prefix16, Prefix16),
    16 := (Prefix16, Prefix16),
    88 := (PrefixFg88, PrefixBg88),
    256 := (PrefixFg256, PrefixBg256),
    TrueColor := (PrefixFgTrueColor, PrefixBgTrueColor)]

  /** `get_prefix`: KeyError for an unsupported count. */
  function GetPrefix(count: int, bg: bool): (r: Result<Template, Error>)
    ensures r.Ok? <==> count == 8 || count == 16 || count == 88 || count == 256 || count == TrueColor
    ensures r.Ok? ==> StartsWith(r.value.head, EscapeCode) && r.value.tail == "m"
    ensures r.Ok? && count <= 16 ==> r.value == Prefix16
    ensures r.Ok? && count > 16 ==> |r.value.head| > 2 && r.value.head[2] == (if bg then '4' else '3')
  {
    if count == 8 || count == 16 then Ok(Prefix16)
    else if count == 88 then Ok(if bg then PrefixBg88 else PrefixFg88)
    else if count == 256 then Ok(if bg then PrefixBg256 else PrefixFg256)
    else if count == TrueColor then Ok(if bg then PrefixBgTrueColor else PrefixFgTrueColor)
    else Err(KeyError)
  }

  /** `get_prefix` is the look-up in `_prefix_map`, the background template second. */
  lemma GetPrefixIsLookup(count: int, bg: bool)
    ensures GetPrefix(count, bg) ==
      if count in PrefixMap then Ok(if bg then PrefixMap[count].1 else PrefixMap[count].0) else Err(KeyError)
  {
  }

  /** `_NIX_SYSTEM_COLORS`: SGR foreground codes 30..37 and their colours. */
  const SystemColors: Clut := [
    (30, (0x00, 0x00, 0x00)),
    (31, (0xff, 0x00, 0x00)),
    (32, (0x00, 0xff, 0x00)),
    (33, (0xff, 0xff, 0x00)),
    (34, (0x00, 0x00, 0xff)),
    (35, (0xff, 0x00, 0xff)),
    (36, (0x00, 0xff, 0xff)),
    (37, (0xff, 0xff, 0xff))]

  /** `_NIX_SYSTEM_COLOR_NAMES` as written in the dictionary display. */
  const BaseColorNames: map<string, int> := map[
    "black" := 30, "red" := 31, "green" := 32, "yellow" := 33,
    "blue" := 34, "purple" := 35, "cyan" := 36, "lightgray" := 37,
    "gray" := 90, "lightred" := 91, "lightgreen" := 92, "lightyellow" := 93,
    "lightblue" := 94, "lightpurple" := 95, "lightcyan" := 96, "white" := 97]

  /** `_NIX_SYSTEM_COLOR_NAMES` after the British-spelling and `magenta` aliases are added. */
  const SystemColorNames: map<string, int> := BaseColorNames["grey" := 90]["lightgrey" := 37]["magenta" := 35]

  /** Each alias has the code of the name it stands for. */
  lemma ColorNameAliases()
    ensures SystemColorNames["grey"] == SystemColorNames["gray"] == 90
    ensures SystemColorNames["lightgrey"] == SystemColorNames["lightgray"] == 37
    ensures SystemColorNames["magenta"] == SystemColorNames["purple"] == 35
  {
  }

  /** One row of a nested comprehension: `(r, g, b) for b in bs`. */
  function Row(r: int, g: int, bs: seq<int>): (row: seq<Rgb>)
    ensures |row| == |bs|
    ensures forall i :: 0 <= i < |bs| ==> row[i] == (r, g, bs[i])
  {
    seq(|bs|, i requires 0 <= i < |bs| => (r, g, bs[i]))
  }

  /** `(r, g, b) for g in gs for b in bs`. */
  function Plane(r: int, gs: seq<int>, bs: seq<int>): seq<Rgb>
  {
    if gs == [] then [] else Row(r, gs[0], bs) + Plane(r, gs[1..], bs)
  }

  /** `(r, g, b) for r in rs for g in steps for b in steps`. */
  function CubeOver(rs: seq<int>, steps: seq<int>): (r: seq<Rgb>)
    ensures |r| == |rs| * (|steps| * |steps|)
  {
    if rs == [] then []
    else
      PlaneLength(rs[0], steps, steps);
      assert |rs| * (|steps| * |steps|) == (|rs| - 1) * (|steps| * |steps|) + |steps| * |steps|;
      Plane(rs[0], steps, steps) + CubeOver(rs[1..], steps)
  }

  /** Position `i` of the cube over `steps`: red from `i / n²`, green from `(i / n) % n`, blue from `i % n`. */
  function CubeEntry(steps: seq<int>, i: int): Rgb
    requires 0 <= i < |steps| * (|steps| * |steps|)
  {
    var n := |steps|;
    CubeDigits(n, i);
    (steps[i / (n * n)], steps[(i / n) % n], steps[i % n])
  }

  /** The colour cube over the given steps, red varying slowest and blue fastest, entry by entry. */
  function Cube(steps: seq<int>): (r: seq<Rgb>)
    ensures |r| == |steps| * (|steps| * |steps|)
  {
    seq(|steps| * (|steps| * |steps|), i requires 0 <= i < |steps| * (|steps| * |steps|) => CubeEntry(steps, i))
  }

  /** A position in a cube of side `n` splits into its three base-`n` digits. */
  lemma CubeDigits(n: nat, i: int)
    requires 0 <= i < n * (n * n)
    ensures 0 <= i / (n * n) < n && 0 <= (i / n) % n < n && 0 <= i % n < n
    ensures i == (i / (n * n)) * (n * n) + ((i / n) % n) * n + i % n
  {
    var q2, r2, r := (i / n) / n, (i / n) % n, i % n;
    SplitTwice(n, i);
    LowDigits(n, r2, r);
    UniqueDiv(i, n * n, q2, r2 * n + r);
    if q2 >= n {
      MulLe(n, q2, n * n);
    }
  }

  lemma SplitTwice(n: nat, i: int)
    requires n > 0 && i >= 0
    ensures i == ((i / n) / n) * (n * n) + (((i / n) % n) * n + i % n)
  {
    var q := i / n;
    var q2, r2 := q / n, q % n;
    assert q * n == q2 * (n * n) + r2 * n by {
      assert q == q2 * n + r2;
    }
  }

  lemma LowDigits(n: nat, a: int, b: int)
    requires 0 <= a < n && 0 <= b < n
    ensures 0 <= a * n + b < n * n
  {
    MulLe(a, n - 1, n);
  }

  lemma MulLe(a: int, b: int, c: nat)
    requires a <= b
    ensures a * c <= b * c
  {
    assert b * c - a * c == (b - a) * c;
  }

  lemma MulPred(a: int, p: int)
    ensures a * p == (a - 1) * p + p
  {
  }

  /** Division by a positive `d` is determined by quotient and remainder. */
  lemma UniqueDiv(x: int, d: int, q: int, e: int)
    requires d > 0 && x == q * d + e && 0 <= e < d
    ensures x / d == q
  {
    var q' := x / d;
    if q' < q {
      MulLe(q' + 1, q, d);
    } else if q' > q {
      MulLe(q + 1, q', d);
    }
  }

  /** The comprehension as written, `(r, g, b) for r in steps for g in steps for b in steps`, is that cube. */
  lemma CubeNested(steps: seq<int>)
    ensures CubeOver(steps, steps) == Cube(steps)
  {
    var n := |steps|;
    forall i | 0 <= i < n * (n * n) ensures CubeOver(steps, steps)[i] == Cube(steps)[i] {
      CubeDigits(n, i);
      CubeOverAt(steps, steps, i / (n * n), (i / n) % n, i % n);
    }
  }

  lemma MulBound(q: nat, n: nat, m: nat, b: nat)
    requires q < n && b < m
    ensures q * m + b < n * m
  {
    var k := n - q - 1;
    assert n * m == (q + 1 + k) * m == q * m + m + k * m;
  }

  lemma {:induction false} PlaneLength(r: int, gs: seq<int>, bs: seq<int>)
    ensures |Plane(r, gs, bs)| == |gs| * |bs|
  {
    if gs != [] {
      PlaneLength(r, gs[1..], bs);
      assert |gs| * |bs| == (|gs| - 1) * |bs| + |bs|;
    }
  }

  lemma {:induction false} PlaneAt(r: int, gs: seq<int>, bs: seq<int>, g: nat, b: nat)
    requires g < |gs| && b < |bs|
    ensures |Plane(r, gs, bs)| == |gs| * |bs|
    ensures g * |bs| + b < |gs| * |bs|
    ensures Plane(r, gs, bs)[g * |bs| + b] == (r, gs[g], bs[b])
  {
    PlaneLength(r, gs, bs);
    MulBound(g, |gs|, |bs|, b);
    var m := |bs|;
    var row := Row(r, gs[0], bs);
    var rest := Plane(r, gs[1..], bs);
    assert Plane(r, gs, bs) == row + rest;
    if g > 0 {
      PlaneAt(r, gs[1..], bs, g - 1, b);
      assert gs[1..][g - 1] == gs[g];
      assert g * m + b == (g - 1) * m + b + m;
    }
  }

  lemma {:induction false} CubeOverAt(rs: seq<int>, steps: seq<int>, a: int, g: int, b: int)
    requires 0 <= a < |rs| && 0 <= g < |steps| && 0 <= b < |steps|
    ensures |CubeOver(rs, steps)| == |rs| * (|steps| * |steps|)
    ensures 0 <= a * (|steps| * |steps|) + g * |steps| + b < |rs| * (|steps| * |steps|)
    ensures CubeOver(rs, steps)[a * (|steps| * |steps|) + g * |steps| + b] == (rs[a], steps[g], steps[b])
  {
    PlaneAt(rs[a], steps, steps, g, b);
    CubeOverIndex(rs, steps, a, g * |steps| + b);
  }

  /** Entry `a p + off` of the cube, `p` the size of a plane, is entry `off` of the plane of `rs[a]`. */
  lemma {:induction false} CubeOverIndex(rs: seq<int>, steps: seq<int>, a: int, off: int)
    requires 0 <= a < |rs| && 0 <= off < |steps| * |steps|
    ensures 0 <= a * (|steps| * |steps|) + off < |rs| * (|steps| * |steps|)
    ensures off < |Plane(rs[a], steps, steps)| ==> CubeOver(rs, steps)[a * (|steps| * |steps|) + off] == Plane(rs[a], steps, steps)[off]
  {
    var p := |steps| * |steps|;
    PlaneLength(rs[0], steps, steps);
    var plane, rest := Plane(rs[0], steps, steps), CubeOver(rs[1..], steps);
    assert CubeOver(rs, steps) == plane + rest;
    if a > 0 {
      CubeOverIndex(rs[1..], steps, a - 1, off);
      assert rs[1..][a - 1] == rs[a];
      MulPred(a, p);
      MulPred(|rs|, p);
    } else {
      MulLe(1, |rs|, p);
    }
  }

  /** A grey ramp: `(g, g, g) for g in levels`. */
  function Greys(levels: seq<int>): (r: seq<Rgb>)
    ensures |r| == |levels|
    ensures forall i :: 0 <= i < |levels| ==> r[i] == (levels[i], levels[i], levels[i])
  {
    seq(|levels|, i requires 0 <= i < |levels| => (levels[i], levels[i], levels[i]))
  }

  /**
   * An xterm table as colorise builds it: an OrderedDict of the system colours,
   * updated with the colour cube zipped with `range(cubeLo, cubeHi)`, then with the
   * greys zipped with `range(greyLo, greyHi)`.
   */
  function XtermClut(steps: seq<int>, cubeLo: int, cubeHi: int, levels: seq<int>, greyLo: int, greyHi: int): Clut
  {
    Update(Update(SystemColors, Zip(Range(cubeLo, cubeHi), Cube(steps))), Zip(Range(greyLo, greyHi), Greys(levels)))
  }

  /** A key of an xterm table maps to its grey if the grey zip reaches it, else to its cube colour if the cube zip does, else to its system colour. */
  lemma XtermClutLookup(steps: seq<int>, cubeLo: int, cubeHi: int, levels: seq<int>, greyLo: int, greyHi: int, k: int)
    ensures var nc := |Zip(Range(cubeLo, cubeHi), Cube(steps))|;
      var ng := |Zip(Range(greyLo, greyHi), Greys(levels))|;
      Get(XtermClut(steps, cubeLo, cubeHi, levels, greyLo, greyHi), k) ==
        if greyLo <= k < greyLo + ng then Some((levels[k - greyLo], levels[k - greyLo], levels[k - greyLo]))
        else if cubeLo <= k < cubeLo + nc then Some(Cube(steps)[k - cubeLo])
        else Get(SystemColors, k)
  {
    var cube := Zip(Range(cubeLo, cubeHi), Cube(steps));
    var greys := Zip(Range(greyLo, greyHi), Greys(levels));
    GetUpdate(Update(SystemColors, cube), greys, k);
    LastValueZipRange(greyLo, greyHi, Greys(levels), k);
    GetUpdate(SystemColors, cube, k);
    LastValueZipRange(cubeLo, cubeHi, Cube(steps), k);
  }

  /** Both tables keep the system keys 30..37 in front and repeat no key. */
  lemma XtermClutShape(steps: seq<int>, cubeLo: int, cubeHi: int, levels: seq<int>, greyLo: int, greyHi: int)
    ensures var t := XtermClut(steps, cubeLo, cubeHi, levels, greyLo, greyHi);
      |t| >= 8 && (forall i :: 0 <= i < 8 ==> t[i].0 == 30 + i) && DistinctKeys(t)
  {
    SystemColorsLookup(0);
    var cube := Zip(Range(cubeLo, cubeHi), Cube(steps));
    UpdateDistinct(SystemColors, cube);
    UpdateDistinct(Update(SystemColors, cube), Zip(Range(greyLo, greyHi), Greys(levels)));
  }

  const Steps88: seq<int> := [0x00, 0x8b, 0xcd, 0xff]
  function Grayscale88(): seq<int> { [46, 92, 113, 139, 162, 185, 208, 231] }

  /**
   * `_XTERM_CLUT_88`: the system colours, updated with the 4x4x4 cube zipped with
   * `range(16, 88)` (the zip stops after 64 entries, at key 79) and then with the
   * eight greys zipped with `range(80, 89)`.
   */
  function Clut88(): Clut { XtermClut(Steps88, 16, 88, Grayscale88(), 80, 89) }

  const Steps256: seq<int> := [0x00, 0x5f, 0x87, 0xaf, 0xd7, 0xff]

  /** `[8 + 10 * i for i in range(24)]`. */
  function Grayscale256(): seq<int> { seq(24, i => 8 + 10 * i) }

  /** `_XTERM_CLUT_256`: the system colours, updated with the 6x6x6 cube at keys 16..231 and the 24 greys at 232..255. */
  function Clut256(): Clut { XtermClut(Steps256, 16, 232, Grayscale256(), 232, 256) }

  /** Position `i` of a cube over four steps: red from `i / 16`, green from `(i / 4) % 4`, blue from `i % 4`. */
  function Cube4Color(steps: seq<int>, i: int): Rgb
    requires |steps| == 4 && 0 <= i < 64
  {
    (steps[i / 16], steps[(i / 4) % 4], steps[i % 4])
  }

  /** Position `i` of a cube over six steps: red from `i / 36`, green from `(i / 6) % 6`, blue from `i % 6`. */
  function Cube6Color(steps: seq<int>, i: int): Rgb
    requires |steps| == 6 && 0 <= i < 216
  {
    (steps[i / 36], steps[(i / 6) % 6], steps[i % 6])
  }

  lemma CubeAt4(steps: seq<int>, i: int)
    requires |steps| == 4 && 0 <= i < 64
    ensures |Cube(steps)| == 64
    ensures Cube(steps)[i] == Cube4Color(steps, i)
  {
    assert |steps| * |steps| == 16;
  }

  lemma CubeAt6(steps: seq<int>, i: int)
    requires |steps| == 6 && 0 <= i < 216
    ensures |Cube(steps)| == 216
    ensures Cube(steps)[i] == Cube6Color(steps, i)
  {
    assert |steps| * |steps| == 36;
  }

  /** Steps that strictly increase: no level repeats. */
  ghost predicate Increasing(steps: seq<int>)
  {
    forall x, y :: 0 <= x < y < |steps| ==> steps[x] < steps[y]
  }

  lemma IncreasingInjective(steps: seq<int>, x: int, y: int)
    requires Increasing(steps) && 0 <= x < |steps| && 0 <= y < |steps| && steps[x] == steps[y]
    ensures x == y
  {
  }

  /** Steps that strictly increase: no level repeats. */
  lemma StepsIncreasing()
    ensures Increasing(Steps88) && Increasing(Steps256)
  {
  }

  lemma SystemColorsLookup(k: int)
    ensures Get(SystemColors, k).Some? <==> 30 <= k <= 37
    ensures DistinctKeys(SystemColors)
  {
    if 30 <= k <= 37 {
      assert SystemColors[k - 30].0 == k;
    }
  }

  /**
   * The 88 table in closed form: key `16 + 16 r + 4 g + b` (r, g, b below 4) is the cube colour
   * `(steps[r], steps[g], steps[b])`, keys 80..87 are the eight greys, and nothing else is a key.
   * The system keys 30..37 lie inside the cube range and are overwritten by it.
   */
  function Xterm88Color(k: int): (c: Option<Rgb>)
    ensures c.Some? <==> 16 <= k < 88
  {
    if 16 <= k < 80 then Some(Cube4Color(Steps88, k - 16))
    else if 80 <= k < 88 then Some((Grayscale88()[k - 80], Grayscale88()[k - 80], Grayscale88()[k - 80]))
    else None
  }

  /** The 256 table in closed form: key `16 + 36 r + 6 g + b` is the cube colour, key `232 + i` the grey `8 + 10 i`. */
  function Xterm256Color(k: int): (c: Option<Rgb>)
    ensures c.Some? <==> 16 <= k < 256
  {
    if 16 <= k < 232 then Some(Cube6Color(Steps256, k - 16))
    else if 232 <= k < 256 then Some((8 + 10 * (k - 232), 8 + 10 * (k - 232), 8 + 10 * (k - 232)))
    else None
  }

  /** Building `_XTERM_CLUT_88` by the two updates gives the closed form. */
  lemma Clut88Lookup(k: int)
    ensures Get(Clut88(), k) == Xterm88Color(k)
  {
    XtermClutLookup(Steps88, 16, 88, Grayscale88(), 80, 89, k);
    SystemColorsLookup(k);
    if 16 <= k < 80 {
      CubeAt4(Steps88, k - 16);
    }
  }

  lemma Clut256CubeKeys(k: int)
    requires 16 <= k < 232
    ensures Get(Clut256(), k) == Some(Cube6Color(Steps256, k - 16))
  {
    XtermClutLookup(Steps256, 16, 232, Grayscale256(), 232, 256, k);
    SystemColorsLookup(k);
    CubeAt6(Steps256, k - 16);
  }

  lemma Clut256GreyKeys(k: int)
    requires 232 <= k < 256
    ensures Get(Clut256(), k) == Some((8 + 10 * (k - 232), 8 + 10 * (k - 232), 8 + 10 * (k - 232)))
  {
    var levels := Grayscale256();
    XtermClutLookup(Steps256, 16, 232, levels, 232, 256, k);
    var v := levels[k - 232];
    assert v == 8 + 10 * (k - 232);
    assert Get(XtermClut(Steps256, 16, 232, levels, 232, 256), k) == Some((v, v, v));
  }

  lemma Clut256OtherKeys(k: int)
    requires k < 16 || k >= 256
    ensures Get(Clut256(), k) == None
  {
    XtermClutLookup(Steps256, 16, 232, Grayscale256(), 232, 256, k);
    SystemColorsLookup(k);
  }

  /** Building `_XTERM_CLUT_256` by the two updates gives the closed form. */
  lemma Clut256Lookup(k: int)
    ensures Get(Clut256(), k) == Xterm256Color(k)
  {
    if 16 <= k < 232 {
      Clut256CubeKeys(k);
    } else if 232 <= k < 256 {
      Clut256GreyKeys(k);
    } else {
      Clut256OtherKeys(k);
    }
  }

  lemma Clut88Distinct()
    ensures DistinctKeys(Clut88()) && |Clut88()| >= 8
  {
    XtermClutShape(Steps88, 16, 88, Grayscale88(), 80, 89);
  }

  lemma Clut256Distinct()
    ensures DistinctKeys(Clut256()) && |Clut256()| >= 8
  {
    XtermClutShape(Steps256, 16, 232, Grayscale256(), 232, 256);
  }

  /** `OrderedDict.update` keeps the system keys where they were: both tables start with keys 30..37, and no key repeats. */
  lemma ClutTablesShape()
    ensures |Clut88()| >= 8 && |Clut256()| >= 8
    ensures forall i :: 0 <= i < 8 ==> Clut88()[i].0 == 30 + i && Clut256()[i].0 == 30 + i
    ensures DistinctKeys(Clut88()) && DistinctKeys(Clut256())
  {
    XtermClutShape(Steps88, 16, 88, Grayscale88(), 80, 89);
    XtermClutShape(Steps256, 16, 232, Grayscale256(), 232, 256);
  }

  /** A table with distinct keys whose look-ups agree with a closed form. */
  ghost predicate Tabulates(t: Clut, color: int -> Option<Rgb>)
  {
    DistinctKeys(t) && forall k :: Get(t, k) == color(k)
  }

  lemma Clut88Tabulates()
    ensures Tabulates(Clut88(), Xterm88Color)
  {
    XtermClutShape(Steps88, 16, 88, Grayscale88(), 80, 89);
    forall k ensures Get(Clut88(), k) == Xterm88Color(k) {
      Clut88Lookup(k);
    }
  }

  lemma Clut256Tabulates()
    ensures Tabulates(Clut256(), Xterm256Color)
  {
    XtermClutShape(Steps256, 16, 232, Grayscale256(), 232, 256);
    forall k ensures Get(Clut256(), k) == Xterm256Color(k) {
      Clut256Lookup(k);
    }
  }


  /** In a cube over four increasing steps, `(steps[r], steps[g], steps[b])` is at position `16 r + 4 g + b` and nowhere else. */
  lemma Cube4Position(steps: seq<int>, r: int, g: int, b: int, i: int)
    requires |steps| == 4 && Increasing(steps) && 0 <= r < 4 && 0 <= g < 4 && 0 <= b < 4
    ensures Cube4Color(steps, 16 * r + 4 * g + b) == (steps[r], steps[g], steps[b])
    ensures 0 <= i < 64 && Cube4Color(steps, i) == (steps[r], steps[g], steps[b]) ==> i == 16 * r + 4 * g + b
  {
    Digits4(r, g, b);
    if 0 <= i < 64 && Cube4Color(steps, i) == (steps[r], steps[g], steps[b]) {
      IncreasingInjective(steps, i / 16, r);
      IncreasingInjective(steps, (i / 4) % 4, g);
      IncreasingInjective(steps, i % 4, b);
      Decompose4(i);
    }
  }

  lemma Digits4(r: int, g: int, b: int)
    requires 0 <= r < 4 && 0 <= g < 4 && 0 <= b < 4
    ensures (16 * r + 4 * g + b) / 16 == r && ((16 * r + 4 * g + b) / 4) % 4 == g && (16 * r + 4 * g + b) % 4 == b
  {
  }

  lemma Decompose4(i: int)
    requires 0 <= i < 64
    ensures i == (i / 16) * 16 + ((i / 4) % 4) * 4 + i % 4
  {
  }

  lemma Digits6(r: int, g: int, b: int)
    requires 0 <= r < 6 && 0 <= g < 6 && 0 <= b < 6
    ensures (36 * r + 6 * g + b) / 36 == r && ((36 * r + 6 * g + b) / 6) % 6 == g && (36 * r + 6 * g + b) % 6 == b
  {
  }

  lemma Decompose6(i: int)
    requires 0 <= i < 216
    ensures i == (i / 36) * 36 + ((i / 6) % 6) * 6 + i % 6
  {
  }

  /** In a cube over six increasing steps, `(steps[r], steps[g], steps[b])` is at position `36 r + 6 g + b` and nowhere else. */
  lemma Cube6Position(steps: seq<int>, r: int, g: int, b: int, i: int)
    requires |steps| == 6 && Increasing(steps) && 0 <= r < 6 && 0 <= g < 6 && 0 <= b < 6
    ensures Cube6Color(steps, 36 * r + 6 * g + b) == (steps[r], steps[g], steps[b])
    ensures 0 <= i < 216 && Cube6Color(steps, i) == (steps[r], steps[g], steps[b]) ==> i == 36 * r + 6 * g + b
  {
    Digits6(r, g, b);
    if 0 <= i < 216 && Cube6Color(steps, i) == (steps[r], steps[g], steps[b]) {
      IncreasingInjective(steps, i / 36, r);
      IncreasingInjective(steps, (i / 6) % 6, g);
      IncreasingInjective(steps, i % 6, b);
      Decompose6(i);
    }
  }

  /** The non-grey colour `(steps[r], steps[g], steps[b])` of the 88 cube is at key `16 + 16 r + 4 g + b` and nowhere else. */
  lemma Xterm88CubeKey(r: int, g: int, b: int, k: int)
    requires 0 <= r < 4 && 0 <= g < 4 && 0 <= b < 4 && !(r == g == b)
    ensures Xterm88Color(16 + 16 * r + 4 * g + b) == Some((Steps88[r], Steps88[g], Steps88[b]))
    ensures Xterm88Color(k) == Some((Steps88[r], Steps88[g], Steps88[b])) ==> k == 16 + 16 * r + 4 * g + b
  {
    StepsIncreasing();
    Cube4Position(Steps88, r, g, b, 0);
    if 16 <= k < 80 {
      Cube4Position(Steps88, r, g, b, k - 16);
    } else if 80 <= k < 88 {
      Xterm88GreyNotCube(r, g, b, k);
    }
  }

  /** A grey of the 88 table is never a colour of the cube whose three steps differ. */
  lemma Xterm88GreyNotCube(r: int, g: int, b: int, k: int)
    requires 0 <= r < 4 && 0 <= g < 4 && 0 <= b < 4 && !(r == g == b)
    requires 80 <= k < 88
    ensures Xterm88Color(k) != Some((Steps88[r], Steps88[g], Steps88[b]))
  {
    var v := Grayscale88()[k - 80];
    assert Xterm88Color(k) == Some((v, v, v));
    if (v, v, v) == (Steps88[r], Steps88[g], Steps88[b]) {
      StepsIncreasing();
      IncreasingInjective(Steps88, r, g);
      IncreasingInjective(Steps88, g, b);
    }
  }

  /** The non-grey colour `(steps[r], steps[g], steps[b])` of the 256 cube is at key `16 + 36 r + 6 g + b` and nowhere else. */
  lemma Xterm256CubeKey(r: int, g: int, b: int, k: int)
    requires 0 <= r < 6 && 0 <= g < 6 && 0 <= b < 6 && !(r == g == b)
    ensures Xterm256Color(16 + 36 * r + 6 * g + b) == Some((Steps256[r], Steps256[g], Steps256[b]))
    ensures Xterm256Color(k) == Some((Steps256[r], Steps256[g], Steps256[b])) ==> k == 16 + 36 * r + 6 * g + b
  {
    StepsIncreasing();
    Cube6Position(Steps256, r, g, b, 0);
    if 16 <= k < 232 {
      Cube6Position(Steps256, r, g, b, k - 16);
    } else if 232 <= k < 256 {
      Xterm256GreyNotCube(r, g, b, k);
    }
  }

  /** A grey of the 256 table is never a colour of the cube whose three steps differ. */
  lemma Xterm256GreyNotCube(r: int, g: int, b: int, k: int)
    requires 0 <= r < 6 && 0 <= g < 6 && 0 <= b < 6 && !(r == g == b)
    requires 232 <= k < 256
    ensures Xterm256Color(k) != Some((Steps256[r], Steps256[g], Steps256[b]))
  {
    var v := 8 + 10 * (k - 232);
    if (v, v, v) == (Steps256[r], Steps256[g], Steps256[b]) {
      StepsIncreasing();
      IncreasingInjective(Steps256, r, g);
      IncreasingInjective(Steps256, g, b);
    }
  }

  /** A colour of the 4x4x4 cube that is not grey is its own closest colour in any table of the 88 layout. */
  lemma Closest88Cube(t: Clut, rgb: Rgb, r: int, g: int, b: int)
    requires Tabulates(t, Xterm88Color)
    requires 0 <= r < 4 && 0 <= g < 4 && 0 <= b < 4 && !(r == g == b)
    requires rgb == (Steps88[r], Steps88[g], Steps88[b])
    ensures ClosestColor(rgb, t) == Some(16 + 16 * r + 4 * g + b)
  {
    var key := 16 + 16 * r + 4 * g + b;
    forall k | Get(t, k) == Some(rgb) ensures k == key {
      Xterm88CubeKey(r, g, b, k);
    }
    Xterm88CubeKey(r, g, b, key);
    ClosestExact(rgb, t, key);
  }

  /** A colour of the 6x6x6 cube that is not grey is its own closest colour in any table of the 256 layout. */
  lemma Closest256Cube(t: Clut, rgb: Rgb, r: int, g: int, b: int)
    requires Tabulates(t, Xterm256Color)
    requires 0 <= r < 6 && 0 <= g < 6 && 0 <= b < 6 && !(r == g == b)
    requires rgb == (Steps256[r], Steps256[g], Steps256[b])
    ensures ClosestColor(rgb, t) == Some(16 + 36 * r + 6 * g + b)
  {
    var key := 16 + 36 * r + 6 * g + b;
    forall k | Get(t, k) == Some(rgb) ensures k == key {
      Xterm256CubeKey(r, g, b, k);
    }
    Xterm256CubeKey(r, g, b, key);
    ClosestExact(rgb, t, key);
  }

  /** Pure red, green and blue with the keys the test suite expects for them in a table. */
  predicate IsPinnedPrimary(rgb: Rgb, key: int, red: int, green: int, blue: int)
  {
    (rgb == (255, 0, 0) && key == red) || (rgb == (0, 255, 0) && key == green) || (rgb == (0, 0, 255) && key == blue)
  }

  /** Pure red, green and blue are found exactly among the system colours, at 31, 32 and 34. */
  lemma ClosestPrimariesSystem(rgb: Rgb, key: int)
    requires IsPinnedPrimary(rgb, key, 31, 32, 34)
    ensures ClosestColor(rgb, SystemColors) == Some(key)
  {
    if rgb == (255, 0, 0) {
      ExactEntryChosen(rgb, SystemColors, 1);
    } else if rgb == (0, 255, 0) {
      ExactEntryChosen(rgb, SystemColors, 2);
    } else {
      ExactEntryChosen(rgb, SystemColors, 4);
    }
  }

  /** Pure red, green and blue are corners of the 88-colour cube, at 64, 28 and 19 of `_XTERM_CLUT_88` (see `Clut88Tabulates`). */
  lemma ClosestPrimaries88(t: Clut, rgb: Rgb, key: int)
    requires Tabulates(t, Xterm88Color)
    requires IsPinnedPrimary(rgb, key, 64, 28, 19)
    ensures ClosestColor(rgb, t) == Some(key)
  {
    if rgb == (255, 0, 0) {
      Closest88Cube(t, rgb, 3, 0, 0);
    } else if rgb == (0, 255, 0) {
      Closest88Cube(t, rgb, 0, 3, 0);
    } else {
      Closest88Cube(t, rgb, 0, 0, 3);
    }
  }

  /** Pure red, green and blue are corners of the 256-colour cube, at 196, 46 and 21 of `_XTERM_CLUT_256` (see `Clut256Tabulates`). */
  lemma ClosestPrimaries256(t: Clut, rgb: Rgb, key: int)
    requires Tabulates(t, Xterm256Color)
    requires IsPinnedPrimary(rgb, key, 196, 46, 21)
    ensures ClosestColor(rgb, t) == Some(key)
  {
    if rgb == (255, 0, 0) {
      Closest256Cube(t, rgb, 5, 0, 0);
    } else if rgb == (0, 255, 0) {
      Closest256Cube(t, rgb, 0, 5, 0);
    } else {
      Closest256Cube(t, rgb, 0, 0, 5);
    }
  }


  /** The eight system colours one by one. */
  lemma SystemColorCases(j: int)
    requires 0 <= j < |SystemColors|
    ensures j == 0 ==> SystemColors[j].1 == (0x00, 0x00, 0x00)
    ensures j == 1 ==> SystemColors[j].1 == (0xff, 0x00, 0x00)
    ensures j == 2 ==> SystemColors[j].1 == (0x00, 0xff, 0x00)
    ensures j == 3 ==> SystemColors[j].1 == (0xff, 0xff, 0x00)
    ensures j == 4 ==> SystemColors[j].1 == (0x00, 0x00, 0xff)
    ensures j == 5 ==> SystemColors[j].1 == (0xff, 0x00, 0xff)
    ensures j == 6 ==> SystemColors[j].1 == (0x00, 0xff, 0xff)
    ensures j == 7 ==> SystemColors[j].1 == (0xff, 0xff, 0xff)
  {
  }

  /** Forest green (50, 138, 45) is nearer to the system green than to any other system colour. */
  lemma ForestNearest(j: int)
    requires 0 <= j < |SystemColors|
    ensures ColorDifference((50, 138, 45), SystemColors[2].1) <= ColorDifference((50, 138, 45), SystemColors[j].1)
    ensures j < 2 ==> ColorDifference((50, 138, 45), SystemColors[j].1) > ColorDifference((50, 138, 45), SystemColors[2].1)
  {
    SystemColorCases(j);
    SystemColorCases(2);
  }

  /** Forest green (50, 138, 45) goes to the system green, 32. */
  lemma ClosestForestSystem()
    ensures ClosestColor((50, 138, 45), SystemColors) == Some(32)
  {
    forall j | 0 <= j < |SystemColors| ensures ColorDifference((50, 138, 45), SystemColors[2].1) <= ColorDifference((50, 138, 45), SystemColors[j].1) {
      ForestNearest(j);
    }
    ForestNearest(0);
    ForestNearest(1);
    ClosestAt((50, 138, 45), SystemColors, 2);
  }

  /** Orangish (226, 140, 66) is nearer to the system yellow than to any other system colour. */
  lemma OrangishNearest(j: int)
    requires 0 <= j < |SystemColors|
    ensures ColorDifference((226, 140, 66), SystemColors[3].1) <= ColorDifference((226, 140, 66), SystemColors[j].1)
    ensures j < 3 ==> ColorDifference((226, 140, 66), SystemColors[j].1) > ColorDifference((226, 140, 66), SystemColors[3].1)
  {
    SystemColorCases(j);
    SystemColorCases(3);
  }

  /** Orangish (226, 140, 66) goes to the system yellow, 33. */
  lemma ClosestOrangishSystem()
    ensures ClosestColor((226, 140, 66), SystemColors) == Some(33)
  {
    forall j | 0 <= j < |SystemColors| ensures ColorDifference((226, 140, 66), SystemColors[3].1) <= ColorDifference((226, 140, 66), SystemColors[j].1) {
      OrangishNearest(j);
    }
    OrangishNearest(0);
    OrangishNearest(1);
    OrangishNearest(2);
    ClosestAt((226, 140, 66), SystemColors, 3);
  }

  /** The terminal name reported by iTerm2, which gets the 256 table for 88 colours. */
  const ITerm: string := "iTerm.app"

  /** `get_clut`: the table for a colour count; KeyError for counts other than 8, 16, 88 and 256. */
  function GetClut(count: int, terminal: string): (r: Result<Clut, Error>)
    ensures r.Ok? <==> count == 8 || count == 16 || count == 88 || count == 256
    ensures count <= 16 && r.Ok? ==> r.value == SystemColors
    ensures count == 88 && terminal != ITerm ==> r == Ok(Clut88())
    ensures (count == 88 && terminal == ITerm) || count == 256 ==> r == Ok(Clut256())
  {
    if terminal == ITerm && count == 88 then Ok(Clut256())
    else if count == 8 || count == 16 then Ok(SystemColors)
    else if count == 88 then Ok(Clut88())
    else if count == 256 then Ok(Clut256())
    else Err(KeyError)
  }

  /** Every table `get_clut` returns is non-empty with distinct keys. */
  lemma GetClutShape(count: int, terminal: string)
    requires count == 8 || count == 16 || count == 88 || count == 256
    ensures DistinctKeys(GetClut(count, terminal).value) && GetClut(count, terminal).value != []
  {
    if count <= 16 {
      SystemColorsLookup(30);
    } else if count == 88 && terminal != ITerm {
      Clut88Distinct();
    } else {
      Clut256Distinct();
    }
  }

  /** `int(bg)` times ten: background SGR codes are the foreground ones plus ten. */
  function BgOffset(bg: bool): int { if bg then 10 else 0 }

  /** `color_from_name`: the 16-colour prefix and the name's code, plus ten for background. */
  function ColorFromName(name: string, bg: bool): (r: Result<(Template, Code), Error>)
  {
    if name !in SystemColorNames then Err(ValueError("Unknown color name '" + name + "'"))
    else Ok((Prefix16, Num(SystemColorNames[name] + BgOffset(bg))))
  }

  /** SGR foreground colours: 30..37 and the bright 90..97. */
  predicate IsSgrForeground(n: int) { 30 <= n <= 37 || 90 <= n <= 97 }

  /** A known name gives an SGR colour code with the 16-colour prefix: a foreground code, or that code plus ten for background; an unknown name is a ValueError quoting it. */
  lemma ColorFromNameCodes(name: string, bg: bool)
    ensures ColorFromName(name, bg).Err? <==> name !in SystemColorNames
    ensures name !in SystemColorNames ==> ColorFromName(name, bg).error == ValueError("Unknown color name '" + name + "'")
    ensures name in SystemColorNames ==>
      var r := ColorFromName(name, bg).value;
      && r.0 == Prefix16 && r.1.Num?
      && IsSgrForeground(r.1.n - BgOffset(bg))
      && r.1.n == ColorFromName(name, false).value.1.n + BgOffset(bg)
  {
    if name in SystemColorNames {
      assert name in BaseColorNames || name in {"grey", "lightgrey", "magenta"};
    }
  }

  /** The error `color_from_index` raises outside 0..255. */
  const IndexRangeMessage: string := "Color index must be in range 0-255 inclusive"

  /** The error `min` raises on an empty sequence. */
  const EmptyMinMessage: string := "min() arg is an empty sequence"

  /** `closest_color(_XTERM_CLUT_256[idx], clut)`: KeyError for an index the 256 table lacks. */
  function ClosestTo256Entry(idx: int, clut: Clut): (r: Result<int, Error>)
  {
    match Get(Clut256(), idx)
    case None => Err(KeyError)
    case Some(rgb) =>
      match ClosestColor(rgb, clut)
      case None => Err(ValueError(EmptyMinMessage))
      case Some(key) => Ok(key)
  }

  /** `color_from_index`: a palette index as a prefix and code for the terminal's colour count. */
  function ColorFromIndex(idx: int, count: int, terminal: string, bg: bool): (r: Result<(Template, Code), Error>)
  {
    if idx < 0 || idx > 255 then Err(ValueError(IndexRangeMessage))
    else if count > 88 then Ok((if bg then PrefixBg256 else PrefixFg256, Num(idx)))
    else if count == 88 then
      var prefix := if bg then PrefixBg88 else PrefixFg88;
      if terminal == ITerm || idx <= 88 then Ok((prefix, Num(idx)))
      else
        match ClosestTo256Entry(idx, Clut88())
        case Err(e) => Err(e)
        case Ok(key) => Ok((prefix, Num(key)))
    else if idx <= 16 then Ok((Prefix16, Num(idx + BgOffset(bg))))
    else
      match ClosestTo256Entry(idx, SystemColors)
      case Err(e) => Err(e)
      case Ok(key) => Ok((Prefix16, Num(key + BgOffset(bg))))
  }



  /** Every index 16..255 is in the 256 table, so the approximation of such an index never raises. */
  lemma ClosestTo256EntryOk(idx: int, clut: Clut)
    requires 16 <= idx <= 255 && DistinctKeys(clut) && clut != []
    ensures ClosestTo256Entry(idx, clut).Ok?
    ensures IsNearestKey(Xterm256Color(idx).value, clut, ClosestTo256Entry(idx, clut).value)
  {
    Clut256Lookup(idx);
    ClosestIsNearest(Xterm256Color(idx).value, clut);
  }

  /** `color_from_index` raises exactly for an index outside 0..255, with the range message. */
  lemma ColorFromIndexErrors(idx: int, count: int, terminal: string, bg: bool)
    ensures ColorFromIndex(idx, count, terminal, bg).Err? <==> idx < 0 || idx > 255
    ensures ColorFromIndex(idx, count, terminal, bg).Err? ==> ColorFromIndex(idx, count, terminal, bg).error == ValueError(IndexRangeMessage)
  {
    if 0 <= idx <= 255 {
      if count > 88 || (count == 88 && (terminal == ITerm || idx <= 88)) {
        ColorFromIndexPassThrough(idx, count, terminal, bg);
      } else if count == 88 {
        ColorFromIndexApproximates88(idx, terminal, bg);
      } else {
        ColorFromIndexLowColor(idx, count, terminal, bg);
      }
    }
  }

  /** Above 88 colours, and at 88 colours for an index up to 88 or on iTerm, the index itself is the code, with the 256/88-colour prefix. */
  lemma ColorFromIndexPassThrough(idx: int, count: int, terminal: string, bg: bool)
    requires 0 <= idx <= 255
    requires count > 88 || (count == 88 && (terminal == ITerm || idx <= 88))
    ensures ColorFromIndex(idx, count, terminal, bg) == Ok((if bg then PrefixBg256 else PrefixFg256, Num(idx)))
  {
  }

  /** At 88 colours elsewhere, an index above 88 becomes the 88-table key nearest to its colour in the 256 table. */
  lemma ColorFromIndexApproximates88(idx: int, terminal: string, bg: bool)
    requires 88 < idx <= 255 && terminal != ITerm
    ensures ColorFromIndex(idx, 88, terminal, bg).Ok?
    ensures var r := ColorFromIndex(idx, 88, terminal, bg).value;
      && r.0 == (if bg then PrefixBg88 else PrefixFg88) && r.1.Num?
      && IsNearestKey(Xterm256Color(idx).value, Clut88(), r.1.n)
  {
    Clut88Distinct();
    ClosestTo256EntryOk(idx, Clut88());
  }

  /** Below 88 colours an index up to 16 is the code itself (plus ten for background); a larger one becomes the nearest system colour's code. */
  lemma ColorFromIndexLowColor(idx: int, count: int, terminal: string, bg: bool)
    requires 0 <= idx <= 255 && count < 88
    ensures ColorFromIndex(idx, count, terminal, bg).Ok?
    ensures var r := ColorFromIndex(idx, count, terminal, bg).value;
      && r.0 == Prefix16 && r.1.Num?
      && (idx <= 16 ==> r.1.n == idx + BgOffset(bg))
      && (idx > 16 ==> 30 <= r.1.n - BgOffset(bg) <= 37 && IsNearestKey(Xterm256Color(idx).value, SystemColors, r.1.n - BgOffset(bg)))
  {
    if idx > 16 {
      SystemColorsLookup(30);
      ClosestTo256EntryOk(idx, SystemColors);
      var key := ClosestTo256Entry(idx, SystemColors).value;
      SystemColorsLookup(key);
    }
  }

  /** `get_rgb_color`: the nearest table key below true colour (plus ten for background up to 16 colours), else the text `"r;g;b"`. */
  function GetRgbColor(count: int, terminal: string, bg: bool, rgb: Rgb): (r: Result<(Template, Code), Error>)
  {
    match GetPrefix(count, bg)
    case Err(e) => Err(e)
    case Ok(prefix) =>
      if count < TrueColor then
        match GetClut(count, terminal)
        case Err(e) => Err(e)
        case Ok(clut) => NearestCode(prefix, count, bg, rgb, clut)
      else Ok((prefix, Components(Join([IntToString(rgb.0), IntToString(rgb.1), IntToString(rgb.2)], ';'))))
  }

  /** The code of the entry of `clut` nearest to `rgb`, plus ten for a background up to 16 colours; `min` raises on an empty table. */
  function NearestCode(prefix: Template, count: int, bg: bool, rgb: Rgb, clut: Clut): (r: Result<(Template, Code), Error>)
  {
    match ClosestColor(rgb, clut)
    case None => Err(ValueError(EmptyMinMessage))
    case Some(idx) => Ok((prefix, Num(if count <= 16 then idx + BgOffset(bg) else idx)))
  }

  /** `get_rgb_color` raises KeyError exactly for an unsupported colour count. */
  lemma GetRgbColorErrors(count: int, terminal: string, bg: bool, rgb: Rgb)
    ensures GetRgbColor(count, terminal, bg, rgb).Err? <==> !(count == 8 || count == 16 || count == 88 || count == 256 || count == TrueColor)
    ensures GetRgbColor(count, terminal, bg, rgb).Err? ==> GetRgbColor(count, terminal, bg, rgb).error == KeyError
  {
    if count == 8 || count == 16 || count == 88 || count == 256 {
      GetClutShape(count, terminal);
    }
  }

  /** Below true colour the code is a nearest key of the terminal's table, plus ten for a background up to 16 colours. */
  lemma GetRgbColorApproximates(count: int, terminal: string, bg: bool, rgb: Rgb)
    requires count == 8 || count == 16 || count == 88 || count == 256
    ensures GetRgbColor(count, terminal, bg, rgb).Ok?
    ensures var r := GetRgbColor(count, terminal, bg, rgb).value;
      && r.0 == GetPrefix(count, bg).value && r.1.Num?
      && IsNearestKey(rgb, GetClut(count, terminal).value, r.1.n - (if count <= 16 then BgOffset(bg) else 0))
  {
    GetClutShape(count, terminal);
    var clut := GetClut(count, terminal).value;
    assert GetRgbColor(count, terminal, bg, rgb) == NearestCode(GetPrefix(count, bg).value, count, bg, rgb, clut);
    NearestCodeIsNearest(GetPrefix(count, bg).value, count, bg, rgb, clut);
  }

  /** On a non-empty table with distinct keys the code is a nearest key, offset for a background up to 16 colours. */
  lemma NearestCodeIsNearest(prefix: Template, count: int, bg: bool, rgb: Rgb, clut: Clut)
    requires clut != [] && DistinctKeys(clut)
    ensures NearestCode(prefix, count, bg, rgb, clut).Ok?
    ensures var r := NearestCode(prefix, count, bg, rgb, clut).value;
      r.0 == prefix && r.1.Num? && IsNearestKey(rgb, clut, r.1.n - (if count <= 16 then BgOffset(bg) else 0))
  {
    ClosestIsNearest(rgb, clut);
  }

  /** At true colour the code is `"r;g;b"`: splitting it on `;` and parsing gives the components back. */
  lemma GetRgbColorTrueColor(bg: bool, terminal: string, rgb: Rgb)
    requires rgb.0 >= 0 && rgb.1 >= 0 && rgb.2 >= 0
    ensures GetRgbColor(TrueColor, terminal, bg, rgb).Ok?
    ensures var r := GetRgbColor(TrueColor, terminal, bg, rgb).value;
      && r.0 == (if bg then PrefixBgTrueColor else PrefixFgTrueColor) && r.1.Components?
      && var parts := Split(r.1.text, ';');
      && |parts| == 3
      && (forall i :: 0 <= i < 3 ==> IsDigits(parts[i]))
      && ParseDigits(parts[0]) == rgb.0 && ParseDigits(parts[1]) == rgb.1 && ParseDigits(parts[2]) == rgb.2
  {
    var parts := [NatToString(rgb.0), NatToString(rgb.1), NatToString(rgb.2)];
    forall k | 0 <= k < 3 ensures ';' !in parts[k] {
      assert IsDigits(parts[k]);
    }
    SplitJoin(parts, ';');
    ParseNatToString(rgb.0);
    ParseNatToString(rgb.1);
    ParseNatToString(rgb.2);
  }

  /** The approximation the test suite pins for pure red: 31 at 8 and 16 colours, 64 at 88, 196 at 256. */
  lemma GetRgbColorRed(count: int, terminal: string, rgb: Rgb)
    requires rgb == (255, 0, 0) && terminal != ITerm
    requires count == 8 || count == 16 || count == 88 || count == 256
    ensures GetRgbColor(count, terminal, false, rgb).Ok?
    ensures GetRgbColor(count, terminal, false, rgb).value.1 == Num(if count <= 16 then 31 else if count == 88 then 64 else 196)
  {
    if count <= 16 {
      ClosestPrimariesSystem(rgb, 31);
    } else if count == 88 {
      Clut88Tabulates();
      ClosestPrimaries88(Clut88(), rgb, 64);
    } else {
      Clut256Tabulates();
      ClosestPrimaries256(Clut256(), rgb, 196);
    }
  }
}
