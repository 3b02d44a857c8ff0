# colorise in Dafny

colorise prints coloured text to terminals. Colours come from bracket markup such as `<fg=red,bg=blue:text>`, with `\` escapes and nesting, or from `str.format` fields whose specification carries `fg=`/`bg=` tokens and attribute names. A colour is a name, an index, a hex or rgb value, or an hsv/hls triple. It is resolved against xterm 8/16/88/256-colour look-up tables (CLUTs), true colour, or the Windows console's 16 logical colours, and written as ANSI SGR escape sequences (section 8.3.117 of ECMA-48).

This project models that core in Dafny, one module per source file:

| module | source file | form |
|---|---|---|
| `Markup` | the scan `finditer` performs for both bracket parsers | functions and lemmas |
| `ColorFormatParser` | colorise/ColorFormatParser.py | tokenizer and parser as methods with loops, each proved equal to a specification function |
| `Parser` | colorise/parser.py | the same, with escape flags |
| `Formatter` | colorise/formatter.py | a `ColorFormatter` class with the fields `_set_color`/`vformat` update, and functions for the extraction |
| `Cluts` | colorise/cluts.py | functions (format classification and dispatch) |
| `NixCluts` | colorise/nix/cluts.py | constant tables and functions |
| `ColorTools`, `SrcColorTools` | colorise/color_tools.py, src/colorise/color_tools.py | functions |
| `WinCluts` | colorise/win/cluts.py | constant tables and functions |
| `ColorFunctions` | colorise/nix/color_functions.py | a `Stream` class, `set_color`/`reset_color` as methods writing to it |
| `Attributes`, `SrcAttributes` | colorise/attributes.py, src/colorise/attributes.py | the enum as a datatype |
| `NixManager` | colorise/nix/ColorManager.py | the colour table as the constructor builds it; `set_color`/`set_defaults` as functions returning the text written to standard output or the exception raised |
| `Colorise` | colorise/__init__.py | `formatbyindex` as a method with loops; `set_color`/`cprint`/`fprint`/`highlight` as methods of a `Console` whose colour manager and target stream are one event log |
| `OrderedDicts`, `Text`, `Wrappers` | Python's `OrderedDict`, `str` operations, `Option`/`Result` | helpers |

Python semantics are those of CPython 3.6. Dicts keep insertion order, so the nix CLUTs list the system keys 30..37 first. A `StopIteration` escaping a generator ends it silently. Both `closest_color` tie-breaks and the older tokenizer's behaviour on markup-free input depend on these choices.

The files come from different versions of the library, and each is modelled as written. `formatter.py` uses the `Attr.names_with_aliases` of `src/colorise/attributes.py`. `cluts.py` calls the nix back end's four-argument functions. `fprint` uses the older `ColorFormatParser`.

## Model

| member | source | states |
|---|---|---|
| Markup.RunEnd | colorise/ColorFormatParser.py:32 | the escape run `\\+` starting at `p` ends at the first non-escape or at the end of the input |
| Markup.MatchesFrom | colorise/ColorFormatParser.py:32-38 | `finditer` of `((\\+)?([<:>]))` from `p`: every match starts at or after `p` |
| Markup.VisibleMatch | colorise/ColorFormatParser.py:53-54 | what a match denotes always ends in its structural character |
| Markup.FirstMatchFrom | colorise/ColorFormatParser.py:32-38 | the first match is leftmost: only plain text precedes it, its escape run is all escapes, and the later matches are those of the scan resumed after it |
| Markup.FirstMatchVisible | colorise/ColorFormatParser.py:40-68 | the denoted text splits at the first match into the plain text before it, what the match denotes, and the denoted rest |
| Markup.MatchesInside | colorise/ColorFormatParser.py:32-38 | every match lies inside the input and ends on a structural character |
| Markup.NoMatches | colorise/ColorFormatParser.py:38-39 | the scan finds nothing exactly when the input has no structural character |
| Markup.NoMatchFrom | colorise/ColorFormatParser.py:38 | where the scan from `p` finds nothing, nothing from `p` on is structural |
| Markup.VisiblePlain | colorise/ColorFormatParser.py:38-39 | input without structural characters denotes itself |
| Markup.MatchesReach | colorise/ColorFormatParser.py:32-38 | a structural character with no escape right before it is a match of its own, followed by the matches after it |
| Markup.NextMatchAfterPlain | colorise/ColorFormatParser.py:32-38 | a structural character after plain text, with no escape before it, is the next match |
| Markup.SliceFromLast | colorise/ColorFormatParser.py:70-71 | Python's `s[-1:hi]` with `hi` before the last character is empty |
| ColorFormatParser.Tokenize | colorise/ColorFormatParser.py:35-74 | the generator's loop, written as a method over `pos`, `buf` and `lm`, yields exactly the tokens `Tokens(s)` |
| ColorFormatParser.TokenizeStep | colorise/ColorFormatParser.py:48-68 | one iteration: an escaped match adds the text before its last escape and its character to the buffer; any other match flushes the buffer, yields `''` when it follows the previous match directly, then yields its character |
| ColorFormatParser.StepVisible | colorise/ColorFormatParser.py:48-68 | one iteration adds to the yielded text plus the buffer exactly what the match stands for once escapes are resolved, and moves `pos` to the match's end |
| ColorFormatParser.FinishVisible | colorise/ColorFormatParser.py:70-74 | the flush after the loop yields the buffer and then the rest of the string |
| ColorFormatParser.RunVisible | colorise/ColorFormatParser.py:48-74 | from any state, the rest of the loop and the flush yield exactly the text the rest of the string denotes |
| ColorFormatParser.TokensVisible | colorise/ColorFormatParser.py:35-74 | when the string holds a structural character, the tokens concatenate to the string with escapes resolved: one escape removed before a structural character after an odd run, an even run kept, and a run at offset 0 dropped because `pos` starts at -1 |
| ColorFormatParser.InitThenRest | colorise/ColorFormatParser.py:37-46 | the text before the first match, then the first iteration, then the rest, denote the whole string |
| ColorFormatParser.InitThenRestAt0 | colorise/ColorFormatParser.py:37-46 | a first match at offset 0 keeps only its character, since `pos` is still -1 |
| ColorFormatParser.InitThenRestAfter | colorise/ColorFormatParser.py:42-44 | text before the first match is yielded first and `pos` moves to the match |
| ColorFormatParser.TokensMarkupFree | colorise/ColorFormatParser.py:38-39 | a string with no structural character yields no token at all, because the first `next` ends the generator |
| ColorFormatParser.TokensIntendedVisible | colorise/parser.py:69-75 | the tokenizer with the markup-free case handled reproduces every string as it reads |
| ColorFormatParser.StepsExtend | colorise/ColorFormatParser.py:48-68 | the loop only ever appends to the tokens already yielded |
| ColorFormatParser.AdjacentSeparated | colorise/ColorFormatParser.py:62-66 | two adjacent structural characters with no escape before them come out as the first, an empty token, and the second |
| ColorFormatParser.PairStep | colorise/ColorFormatParser.py:62-66 | two unescaped matches next to each other yield the first character, `''`, then the second |
| ColorFormatParser.LastKeyed | colorise/ColorFormatParser.py:128-131 | the value after the last piece that starts with the key exists exactly when some piece starts with it |
| ColorFormatParser.ExtractSyntax | colorise/ColorFormatParser.py:123-137 | the loop over the pieces returns exactly `ExtractSpec(syntax)` |
| ColorFormatParser.ExtractPiece | colorise/ColorFormatParser.py:128-135 | one piece overwrites the slot its key names, and both slots can be empty afterwards only after an unkeyed first piece |
| ColorFormatParser.ExtractLaterWins | colorise/ColorFormatParser.py:129-131 | of two `fg=` pieces the later one wins |
| ColorFormatParser.ExtractKeyedFirst | colorise/ColorFormatParser.py:133-135 | the extraction fails exactly when the first piece is unkeyed, with that piece in the message; on success some slot is set |
| ColorFormatParser.Channel | colorise/ColorFormatParser.py:90-92 | `b or a` for one channel: the child's value when it is truthy, else the parent's |
| ColorFormatParser.Parse | colorise/ColorFormatParser.py:76-121 | the loop over `txt`, `state` and the colour stack returns exactly `ParseTokens(tokens)` |
| ColorFormatParser.ParseString | colorise/ColorFormatParser.py:76-82 | parsing a string is parsing its tokens |
| ColorFormatParser.NoEmptySegments | colorise/ColorFormatParser.py:84-120 | no segment with empty text is ever yielded |
| ColorFormatParser.PlainRun | colorise/ColorFormatParser.py:114-115 | plain tokens only accumulate in `txt` |
| ColorFormatParser.ColonBeforeStart | colorise/ColorFormatParser.py:93-96 | a `:` before any `<` raises "Missing '<'" with nothing yielded |
| ColorFormatParser.StopBeforeStart | colorise/ColorFormatParser.py:102-106 | a `>` before any `<` raises "Missing '>' or ':'" with nothing yielded |
| ColorFormatParser.Region | colorise/ColorFormatParser.py:83-113 | a region `<spec:body>` flushes the pending text under the current scope, yields the body under the merged scope unless it is empty, and leaves state and stack as they were |
| ColorFormatParser.Unclosed | colorise/ColorFormatParser.py:117-118 | a region left open raises "Invalid color format" |
| ColorFormatParser.NestedInherits | colorise/ColorFormatParser.py:90-92 | a nested scope that sets only `bg` keeps the enclosing `fg` |
| ColorFormatParser.EmptyBody | colorise/ColorFormatParser.py:108-113 | `<fg=darkblue:>` yields nothing and ends normally |
| ColorFormatParser.NestedExample | colorise/ColorFormatParser.py:83-121 | in `<fg=red:a<bg=blue:b>c>` the inner body is red on blue and the text after it is red again |
| ColorFormatParser.MarkupFreeLost | colorise/ColorFormatParser.py:38-39 | as written, non-empty markup-free input parses to no segment at all |
| ColorFormatParser.MarkupFreeIntended | colorise/parser.py:69-75 | with the markup-free case handled, such input is one segment in the plain scope |
| ColorFormatParser.EscapedStartMisread | colorise/ColorFormatParser.py:53-71 | `a\<b` denotes `a<b`, but it is tokenized to `a`, `<`, `b`, and `parse` then raises "Unexpected color syntax 'b'" |
| ColorFormatParser.EscapedStartMatches | colorise/ColorFormatParser.py:32-33 | the only match in `a\<b` is the escaped `<` |
| Parser.Tokenize | colorise/parser.py:67-115 | the generator, written as a method over `pos`, `buf`, `lm` and `escapeflag`, yields exactly `Tokens(s)` |
| Parser.TokenizeStep | colorise/parser.py:86-108 | one iteration: an escaped match joins the buffer and sets the flag; any other match flushes the buffer with its flag, clears the flag, yields `('', False)` after an adjacent match, then yields its character unflagged |
| Parser.StepErase | colorise/parser.py:86-108 | apart from the flags, one iteration does what the older tokenizer's iteration does |
| Parser.FinishErase | colorise/parser.py:110-115 | apart from the flags, the final flush is the older one |
| Parser.TextsAgree | colorise/parser.py:67-115 | the token texts are exactly those of the older tokenizer with markup-free input kept as one token |
| Parser.TokensRoundTrip | colorise/parser.py:67-115 | for every string the token texts concatenate to the string with escapes resolved |
| Parser.StepTagged | colorise/parser.py:91-106 | one iteration keeps every flag truthful (a flagged token holds an escaped character, an unflagged one is structural or has none) and adds a structural token exactly for an unescaped match |
| Parser.StepTaggedUnescaped | colorise/parser.py:94-106 | an unescaped match turns the pending text and its character into truthfully flagged tokens |
| Parser.FinishTagged | colorise/parser.py:110-115 | the final flush keeps the flags truthful and adds no structural token |
| Parser.RunTagged | colorise/parser.py:86-115 | the rest of the loop and the flush yield truthful tokens whose structural ones are the unescaped matches still to come |
| Parser.TokensTagged | colorise/parser.py:67-115 | every token is truthfully flagged, and the structural tokens are exactly the unescaped structural characters of the input, in order |
| Parser.MarkupFreeTagged | colorise/parser.py:71-75 | with no match the single token is unflagged and not structural |
| Parser.InitTagged | colorise/parser.py:77-84 | the state before the loop is truthful and holds no structural token |
| Parser.Parse | colorise/parser.py:117-162 | the loop over `txt`, `state` and the colour stack returns exactly `ParseTokens(tokens)` |
| Parser.ParseString | colorise/parser.py:117-123 | parsing a string is parsing its tokens |
| Parser.TextRun | colorise/parser.py:155-156 | tokens read as text, escaped structure included, only accumulate in `txt` |
| Parser.ColonIsText | colorise/parser.py:134-142 | an unflagged `:` at an even state, top level included, is appended to the text and never raises |
| Parser.NeverMissingStart | colorise/parser.py:117-162 | `parse` never raises "Missing '<'"; its only errors are a `>` with no open scope, an unterminated scope and a rejected spec |
| Parser.AllEscaped | colorise/parser.py:123-162 | input whose structural characters are all escaped is one plain segment holding the text it denotes, or nothing when that is empty |
| Parser.MarkupFree | colorise/parser.py:69-75 | markup-free input is one plain segment, or nothing when empty |
| Parser.EscapedStartKept | colorise/parser.py:91-124 | `a\<b` is the single plain segment `a<b` |
| Parser.ToRgb | colorise/parser.py:32-41 | "rgb" gives the components unchanged; a space other than rgb, hls and hsv raises "Unsupported color space"; hls and hsv return nothing, since the converted value is dropped |
| Formatter.AttributeByNameAgrees | colorise/formatter.py:42-159 | the attribute table the formatter consults is `Attr.names_with_aliases()`, and each name maps to what `Attr.from_name` returns |
| Formatter.CanonicalNamesListed | colorise/formatter.py:42 | apart from the alias `intense`, the table's keys are exactly `Attr.names()` |
| Formatter.LowerNameListed | colorise/formatter.py:42 | every attribute is found in the table under its lower-case name |
| Formatter.Classify | colorise/formatter.py:145-163 | a part that is neither a colour token nor an attribute name is kept verbatim, unstripped |
| Formatter.ExtractedColorSpec | colorise/formatter.py:135-167 | with no specification the slots and the default come back unchanged; with a default, a successful extraction always returns a specification |
| Formatter.ExtractColorSpec | colorise/formatter.py:135-167 | the split-and-loop method returns exactly `ExtractedColorSpec` |
| Formatter.ScanParts | colorise/formatter.py:145-167 | the loop over the parts, updating slots and raising at a refilled one, returns exactly `ExtractedPieces` |
| Formatter.ScanPart | colorise/formatter.py:146-163 | one pass either raises the extraction's error or moves the loop state one part on |
| Formatter.ScanColor | colorise/formatter.py:148-156 | a colour token fills an empty slot and sets `is_fg`; a filled slot makes it the first duplicate |
| Formatter.ScanAttr | colorise/formatter.py:157-160 | an attribute joins the fg list after an `fg=` token and the bg list otherwise |
| Formatter.ScanOther | colorise/formatter.py:161-163 | any other part is kept in the real specification as written |
| Formatter.ExtractRaised | colorise/formatter.py:151-153 | the extraction raises "Duplicate foreground/background color format" for the first duplicate token |
| Formatter.ExtractFinished | colorise/formatter.py:167 | without a duplicate the result is the slots and the remaining parts joined by `;`, or the default when none remain |
| Formatter.ExtractPlain | colorise/formatter.py:145-167 | a specification without colour or attribute parts comes back unchanged with the slots untouched |
| Formatter.PlainExtraction | colorise/formatter.py:161-167 | plain pieces leave the slots alone and come back rejoined, each as written |
| Formatter.ExtractRaisesOnRefill | colorise/formatter.py:151-153 | a colour token for a slot that is already filled raises, whatever else the specification holds |
| Formatter.ExtractRaisesIffDuplicate | colorise/formatter.py:145-156 | the extraction raises exactly when some colour token meets a filled slot |
| Formatter.RoutedPartition | colorise/formatter.py:157-160 | attributes are divided between the fg and bg lists without loss or duplication |
| Formatter.RoutedBeforeFg | colorise/formatter.py:137-160 | every attribute goes to the bg list until an `fg=` token appears |
| Formatter.IsValidColorSpec | colorise/formatter.py:169-171 | the specification is invalid exactly when both colours are absent or empty and both attribute lists are empty |
| Formatter.ExtractColorFormat | colorise/formatter.py:173-191 | with neither field name nor format specification the result is empty slots, no field name and an empty specification |
| Formatter.DuplicateAcrossNameAndSpec | colorise/formatter.py:183-187 | a colour given in the field name and again in the specification raises, since one set of slots is threaded through both |
| Formatter.AutoresetResets | colorise/formatter.py:118-133 | under autoreset, `n` valid non-reset colour settings from the start of a `vformat` write `n` settings and `n - 1` resets, and clear the first-colour flag |
| Formatter.AutoresetStep | colorise/formatter.py:120-133 | one setting writes a reset first unless it is the first colour |
| Formatter.SetColorTwice | colorise/formatter.py:118-133 | under autoreset the first colour sets without a reset and the next resets first |
| Formatter.SetColorWritesNothing | colorise/formatter.py:118-133 | setting a colour writes no text to the file |
| Formatter.NumberField | colorise/formatter.py:255-270 | numbering fails only with the manual/automatic switch error, and a non-empty name is kept |
| Formatter.NumberingNeverMixes | colorise/formatter.py:255-270 | numbering fails exactly when automatic and manual fields are mixed, in either order |
| Formatter.AutoNumberedInOrder | colorise/formatter.py:255-261 | when numbering succeeds, the automatic fields look up positions n, n + 1, ... in turn |
| Formatter.ManualStays | colorise/formatter.py:256-270 | once numbering is manual, only an empty field name fails |
| Formatter.Format | colorise/formatter.py:223-224 | below depth 0 `_vformat` raises "Max string recursion exceeded" and changes nothing |
| Formatter.NestedWritesNothing | colorise/formatter.py:238-312 | below the top level nothing is written: nested format specifications are only formatted |
| Formatter.OutputWritesAtTop | colorise/formatter.py:291-318 | the last stage writes the formatted field at the top level and nothing below it |
| Formatter.TopLevelWritesResult | colorise/formatter.py:232-320 | at the top level the file receives exactly the string `_vformat` returns: every literal and every formatted field, in order |
| Formatter.TopTokensWriteResult | colorise/formatter.py:232-320 | over the remaining fields the text written is the text appended to the result |
| Formatter.TopFieldWritesText | colorise/formatter.py:235-318 | one field writes exactly the text it contributes |
| Formatter.InnermostFieldRaises | colorise/formatter.py:223-286 | a field at depth 0 whose lookup succeeds raises the recursion error when its specification is expanded |
| Formatter.ColorFormatter.constructor | colorise/formatter.py:27-42 | a new formatter has autoreset off, no first colour pending, colours enabled and an empty output |
| Formatter.ColorFormatter.SetColor | colorise/formatter.py:118-133 | `_set_color` appends exactly the events of `SetColorState` and updates the first-colour flag |
| Formatter.ColorFormatter.VFormat | colorise/formatter.py:193-207 | `vformat` flushes, resets, sets the first-colour flag, and then does what `Format` at depth 2 does |
| Formatter.ColorFormatter.FormatDepth | colorise/formatter.py:209-320 | the loop of `_vformat` returns and writes exactly what `Format` states |
| Formatter.ColorFormatter.FormatToken | colorise/formatter.py:235-248 | one pass of the loop is `FormatField` |
| Formatter.ColorFormatter.AfterName | colorise/formatter.py:248-252 | the rest of the pass is `FieldAfterName` |
| Formatter.ColorFormatter.FormatNamedField | colorise/formatter.py:255-292 | numbering, look-up, conversion and the nested expansion are `FormatNamed` |
| Formatter.ColorFormatter.OutputField | colorise/formatter.py:294-318 | the specification's colours, the written field and the reset after it are `FormatOutput` |
| Cluts.Parenthesised | colorise/cluts.py:19-34 | a match of `^head\((group)\)$` returns a valid group and the text is exactly `head(group)` |
| Cluts.HexBody | colorise/cluts.py:24 | the group `_HEX_RE` captures is six hex digits |
| Cluts.FirstMatch | colorise/cluts.py:49-55 | the loop returns nothing exactly when every matcher fails, and otherwise the first matching format with its match |
| Cluts.MatchColorFormatsFirst | colorise/cluts.py:37-55 | the result is the format of least rank in `_FORMATS` whose matcher succeeds, with that matcher's result; nothing exactly when none does |
| Cluts.DigitsAndLettersNotHex | colorise/cluts.py:37-44 | a text of digits is an index and a text of letters a name, so `123456` or `abcdef` is never read as hex |
| Cluts.DecodeEncodeHex | colorise/cluts.py:69-70 | decoding the six hex digits of a colour gives the colour back |
| Cluts.PrefixedNotEarlier | colorise/cluts.py:37-41 | a text starting with `#` or `0x` is neither rgb, index nor name |
| Cluts.HexMatched | colorise/cluts.py:24-41 | `#rrggbb` and `0xrrggbb` match the hex format, with the six digits as the group |
| Cluts.GetColorHex | colorise/cluts.py:68-80 | a hex colour is decoded to the colour its digits encode and passed to `get_rgb_color` |
| Cluts.RgbGroup | colorise/cluts.py:19-76 | the components of a colour below 1000 joined by `;` form an rgb group that decodes back to the colour |
| Cluts.RgbMatched | colorise/cluts.py:19-38 | `rgb(group)` with a valid group matches the rgb format and nothing earlier |
| Cluts.GetColorRgb | colorise/cluts.py:75-80 | `rgb(r;g;b)` with components below 1000 parses back to the colour and goes to `get_rgb_color` |
| Cluts.GetColorInt | colorise/cluts.py:50-67 | an integer is stringified, so a non-negative one is an index and goes to `color_from_index` unchanged |
| Cluts.GetColorName | colorise/cluts.py:62-64 | a word is a name and goes to `color_from_name` as it is |
| Cluts.GetColorUnknown | colorise/cluts.py:77-78 | a value no format accepts raises "Unknown color format" quoting the value |
| Cluts.GetColorKnown | colorise/cluts.py:60-80 | a name, index, hex or rgb value never gets the unknown-format error |
| Cluts.ShortHexMatchesNothing | colorise/cluts.py:24 | a five-digit hex colour matches no format, with either prefix |
| Cluts.NegativeHsvMatchesNothing | colorise/cluts.py:25-29 | `hsv(249;41;-100)` matches no format |
| Cluts.LetteredRgbMatchesNothing | colorise/cluts.py:19-23 | `rgb(167;xxx;255)` matches no format |
| Cluts.StrayCharMatchesNothing | colorise/cluts.py:19-29 | an `hsv(...)` or `rgb(...)` text whose group holds a character other than a digit, white space or `;` matches no format |
| Cluts.BrokenHlsMatchesNothing | colorise/cluts.py:30-34 | `hls(0.6923,0.7960;1.0=` matches no format |
| Cluts.UnclosedMatchesNothing | colorise/cluts.py:19-44 | an unclosed text that is not a number, a word or a hex colour matches no format |
| Cluts.HsvMatched | colorise/cluts.py:25-43 | `hsv(group)` with a valid group matches the hsv format and nothing earlier |
| Cluts.GetColorHsv | colorise/cluts.py:71-72 | `hsv(a;b;c)` with unsigned numbers is handed to the floating-point conversion with its group |
| Cluts.GetColorUnknownName | colorise/cluts.py:62-64 | a word the name table lacks raises "Unknown color name", not the unknown-format error |
| Cluts.GetColorIndexOutOfRange | colorise/cluts.py:65-67 | index 300 raises the range error |
| NixCluts.GetPrefix | colorise/nix/cluts.py:105-107 | `get_prefix` raises KeyError exactly for a count other than 8, 16, 88, 256 and 2**24; it returns an escape-code template ending in `m`, with 3 or 4 in third place for foreground or background above 16 colours |
| NixCluts.GetPrefixIsLookup | colorise/nix/cluts.py:107 | `get_prefix` is the look-up in `_prefix_map`, with the background template second |
| NixCluts.ColorNameAliases | colorise/nix/cluts.py:63-66 | `grey`, `lightgrey` and `magenta` have the codes of `gray`, `lightgray` and `purple` |
| NixCluts.CubeNested | colorise/nix/cluts.py:75-96 | the nested comprehension over the steps is the colour cube, red slowest and blue fastest |
| NixCluts.XtermClutLookup | colorise/nix/cluts.py:71-102 | a key of a table built by the two `update`s maps to its grey if the grey zip reaches it, else to its cube colour if the cube zip does, else to its system colour |
| NixCluts.XtermClutShape | colorise/nix/cluts.py:71-102 | both tables keep the system keys 30..37 in front and repeat no key |
| NixCluts.StepsIncreasing | colorise/nix/cluts.py:69-87 | the step levels strictly increase |
| NixCluts.Clut88Lookup | colorise/nix/cluts.py:68-84 | `_XTERM_CLUT_88` in closed form: keys 16..79 are the 4x4x4 cube (overwriting the system keys 30..37), keys 80..87 the eight greys, and nothing else is a key |
| NixCluts.Clut256Lookup | colorise/nix/cluts.py:86-102 | `_XTERM_CLUT_256` in closed form: keys 16..231 are the 6x6x6 cube and keys 232..255 the greys `8 + 10 i` |
| NixCluts.ClutTablesShape | colorise/nix/cluts.py:71-89 | `OrderedDict.update` keeps the system keys where they were: both tables start with keys 30..37 and no key repeats |
| NixCluts.Clut88Tabulates | colorise/nix/cluts.py:68-84 | every key of `_XTERM_CLUT_88` maps to its closed-form colour, and every closed-form key is present |
| NixCluts.Clut256Tabulates | colorise/nix/cluts.py:86-102 | every key of `_XTERM_CLUT_256` maps to its closed-form colour, and every closed-form key is present |
| NixCluts.Cube6Position | colorise/nix/cluts.py:93-96 | in a cube over six increasing steps, `(steps[r], steps[g], steps[b])` is at position `36 r + 6 g + b` and nowhere else |
| NixCluts.Cube4Position | colorise/nix/cluts.py:75-78 | in a cube over four increasing steps, `(steps[r], steps[g], steps[b])` is at position `16 r + 4 g + b` and nowhere else |
| NixCluts.Xterm88CubeKey | colorise/nix/cluts.py:73-84 | a non-grey cube colour of the 88 table is at key `16 + 16 r + 4 g + b` and nowhere else |
| NixCluts.Xterm256CubeKey | colorise/nix/cluts.py:91-102 | a non-grey cube colour of the 256 table is at key `16 + 36 r + 6 g + b` and nowhere else |
| NixCluts.Closest88Cube | colorise/nix/cluts.py:73-84 | a non-grey colour of the 88 cube is its own closest colour in that table |
| NixCluts.Closest256Cube | colorise/nix/cluts.py:91-102 | a non-grey colour of the 256 cube is its own closest colour in that table |
| NixCluts.ClosestPrimariesSystem | colorise/nix/cluts.py:32-41 | pure red, green and blue are found among the system colours at 31, 32 and 34 |
| NixCluts.ClosestPrimaries88 | colorise/nix/cluts.py:73-84 | pure red, green and blue are at 64, 28 and 19 of the 88 table |
| NixCluts.ClosestPrimaries256 | colorise/nix/cluts.py:91-102 | pure red, green and blue are at 196, 46 and 21 of the 256 table |
| NixCluts.ClosestForestSystem | colorise/nix/cluts.py:32-41 | forest green (50, 138, 45) goes to the system green, 32 |
| NixCluts.ClosestOrangishSystem | colorise/nix/cluts.py:32-41 | orangish (226, 140, 66) goes to the system yellow, 33 |
| NixCluts.GetClut | colorise/nix/cluts.py:110-121 | `get_clut` raises KeyError exactly for counts other than 8, 16, 88 and 256; the system table for 8 and 16, the 88 table for 88 except on iTerm, which gets the 256 table |
| NixCluts.GetClutShape | colorise/nix/cluts.py:110-121 | every table `get_clut` returns is non-empty with distinct keys |
| NixCluts.ColorFromNameCodes | colorise/nix/cluts.py:129-136 | an unknown name raises "Unknown color name" quoting it; a known name gives the 16-colour prefix and an SGR foreground code, plus ten for background |
| NixCluts.ColorFromIndexErrors | colorise/nix/cluts.py:141-142 | `color_from_index` raises exactly for an index outside 0..255, with the range message |
| NixCluts.ColorFromIndexPassThrough | colorise/nix/cluts.py:144-154 | above 88 colours, and at 88 for an index up to 88 or on iTerm, the index itself is the code, with the 256 or 88 prefix |
| NixCluts.ColorFromIndexApproximates88 | colorise/nix/cluts.py:155-158 | at 88 colours elsewhere, an index above 88 becomes the 88-table key nearest to its colour in the 256 table |
| NixCluts.ColorFromIndexLowColor | colorise/nix/cluts.py:159-166 | below 88 colours an index up to 16 is the code itself (plus ten for background); a larger one becomes the nearest system colour's code |
| NixCluts.ClosestTo256EntryOk | colorise/nix/cluts.py:158-164 | every index 16..255 is in the 256 table, so approximating it never raises |
| NixCluts.GetRgbColorErrors | colorise/nix/cluts.py:171 | `get_rgb_color` raises KeyError exactly for an unsupported colour count |
| NixCluts.GetRgbColorApproximates | colorise/nix/cluts.py:173-181 | below true colour the code is a nearest key of the terminal's table, plus ten for a background up to 16 colours |
| NixCluts.NearestCodeIsNearest | colorise/nix/cluts.py:176-181 | on a non-empty table with distinct keys the code is a nearest key, offset for a background up to 16 colours |
| NixCluts.GetRgbColorTrueColor | colorise/nix/cluts.py:183 | at true colour the code is `r;g;b`: split on `;` and parsed it gives the components back |
| NixCluts.GetRgbColorRed | colorise/nix/cluts.py:169-181 | pure red approximates to 31 at 8 and 16 colours, 64 at 88 and 196 at 256 |
| ColorTools.ColorDifference | colorise/color_tools.py:23-25 | the L1 difference is non-negative, zero exactly for equal colours, and at least each component's difference |
| ColorTools.ColorDifferenceSymmetric | colorise/color_tools.py:23-25 | the difference does not depend on the order of the colours |
| ColorTools.ColorDifferenceExamples | colorise/color_tools.py:23-25 | red and green differ by 510; forest green and orangish by 199 |
| ColorTools.ColorDifferenceTriangle | colorise/color_tools.py:23-25 | the difference obeys the triangle inequality |
| ColorTools.MinFrom | colorise/color_tools.py:41 | `min` with a key, resumed at `i` with the best so far, ends at the earliest entry of least difference |
| ColorTools.ClosestColor | colorise/color_tools.py:36-41 | `closest_color` fails exactly on an empty table, and otherwise returns the key of the earliest entry of least difference |
| ColorTools.EarliestMinimumUnique | colorise/color_tools.py:41 | the earliest minimum is unique, so the result is fully determined |
| ColorTools.ExactEntryChosen | colorise/color_tools.py:36-41 | an entry equal to the colour is chosen when no earlier entry equals it |
| ColorTools.ClosestExact | colorise/color_tools.py:36-41 | a colour stored under exactly one key is its own closest colour, whatever the table's order |
| ColorTools.ClosestIsNearest | colorise/color_tools.py:36-41 | the key returned is a nearest key of the table |
| SrcColorTools.ColorDifference | src/colorise/color_tools.py:34-36 | the difference over zipped components is non-negative |
| SrcColorTools.ColorDifferenceSymmetric | src/colorise/color_tools.py:34-36 | the difference does not depend on the order of the colours |
| SrcColorTools.ColorDifferenceSelf | src/colorise/color_tools.py:34-36 | a colour is at difference zero from itself |
| SrcColorTools.ColorDifferenceZero | src/colorise/color_tools.py:34-36 | colours of equal length are at difference zero exactly when equal |
| SrcColorTools.ColorDifferenceOnTriples | src/colorise/color_tools.py:34-36 | on RGB triples the difference is that of colorise/color_tools.py:23-25 |
| SrcColorTools.MinFrom | src/colorise/color_tools.py:44 | `min` with a key ends at the earliest entry of least difference |
| SrcColorTools.ClosestColor | src/colorise/color_tools.py:39-44 | `closest_color` fails exactly on an empty table, else returns the key of the earliest entry of least difference |
| SrcColorTools.EarliestMinimumUnique | src/colorise/color_tools.py:44 | the earliest minimum is unique |
| SrcColorTools.ClosestColorAgrees | src/colorise/color_tools.py:39-44 | on a table of RGB triples the typed `closest_color` picks the same key as colorise/color_tools.py:36-41 |
| WinCluts.WinAttributesBits | colorise/win/cluts.py:16-25 | every attribute has an entry; Bold and its alias Intense are 0x0008, Underline 0x8000, Reverse 0x4000, the others 0 |
| WinCluts.WindowsClutKeys | colorise/win/cluts.py:28-46 | `_WINDOWS_CLUT`'s keys are 0..15, each once, in order |
| WinCluts.AddLightValue | colorise/win/cluts.py:66-68 | the loop sets each `light<name>` to the name's value with the intensity bit and leaves the other names alone |
| WinCluts.AddLightNames | colorise/win/cluts.py:66-68 | every name the loop adds is `light` followed by one of the listed bases |
| WinCluts.LightValues | colorise/win/cluts.py:54-68 | every `light<name>` is the base value with the intensity bit 0x8 set |
| WinCluts.BaseValueKept | colorise/win/cluts.py:54-73 | the names of the display keep their values |
| WinCluts.GrayValues | colorise/win/cluts.py:70-73 | gray and grey are black with the intensity bit, 8 |
| WinCluts.PurpleValues | colorise/win/cluts.py:59-60 | purple and magenta are both red or blue, 5 |
| WinCluts.LogicalNamesShape | colorise/win/cluts.py:54-73 | the logical names are the loop's names plus gray and grey |
| WinCluts.LogicalNibble | colorise/win/cluts.py:54-73 | every logical value is a 4-bit colour |
| WinCluts.GetPrefix | colorise/win/cluts.py:81-83 | the console takes no escape prefix, whatever the colour count |
| WinCluts.GetClut | colorise/win/cluts.py:86-88 | the table is `_WINDOWS_CLUT`, whatever the colour count |
| WinCluts.ColorFromNameNibbles | colorise/win/cluts.py:117-124 | an unknown name raises "Unknown color name" quoting it; a known one gives a foreground nibble, or the same nibble shifted into bits 4..7 for background |
| WinCluts.GetRgbColorApproximates | colorise/win/cluts.py:164-167 | below true colour the result is a nearest key of `_WINDOWS_CLUT` (0..15), shifted into the background nibble for a background colour |
| WinCluts.WhiteTie | colorise/win/cluts.py:36-165 | white is both 7 and 15 in the table, and the tie goes to the earlier key, 7 |
| ColorFunctions.Stream.Write | colorise/nix/color_functions.py:63-89 | `file.write(s)` appends `s` to what the stream has received |
| ColorFunctions.ToAnsi | colorise/nix/color_functions.py:47-53 | `to_ansi` is empty exactly for no codes, and otherwise starts with the escape code and ends with `m` |
| ColorFunctions.ToAnsiExamples | colorise/nix/color_functions.py:47-53 | `to_ansi(34, '95')` is `ESC[34;95m`, `to_ansi(0)` is `ESC[0m`, `to_ansi()` is empty |
| ColorFunctions.ToAnsiRoundTrip | colorise/nix/color_functions.py:47-53 | between the escape and the `m`, splitting on `;` gives back each non-negative code |
| ColorFunctions.AttributesToCodes | colorise/nix/color_functions.py:56-58 | each attribute's value, in order |
| ColorFunctions.AttributesToCodesAgree | colorise/nix/color_functions.py:56-58 | the codes agree with the non-Windows `to_codes` of colorise/attributes.py:49-51 |
| ColorFunctions.ResetColor | colorise/nix/color_functions.py:61-63 | `reset_color` writes exactly the reset sequence |
| ColorFunctions.SetColor | colorise/nix/color_functions.py:66-89 | `set_color` writes the collected codes in one piece, or nothing when there are none; a look-up error is raised before anything is written |
| ColorFunctions.CollectCodes | colorise/nix/color_functions.py:74-86 | the list `codes` as built is `SetColorCodes` |
| ColorFunctions.CollectColorCodes | colorise/nix/color_functions.py:82-86 | the loop over the two colours is `ColorCodes`, stopping at the first look-up error |
| ColorFunctions.ColorCode | colorise/nix/color_functions.py:83-86 | one pass of the loop is `SpecCode` |
| ColorFunctions.ColorCodesErrorSticks | colorise/nix/color_functions.py:82-86 | an error for the first pairs is the error of the whole loop |
| ColorFunctions.ResetSuppressesColors | colorise/nix/color_functions.py:79 | a Reset among the attributes suppresses every colour: only the attribute sequence is written |
| ColorFunctions.TwoColorCodes | colorise/nix/color_functions.py:82-86 | the foreground code comes first, then the background code; the first error wins |
| ColorFunctions.SetColorOrder | colorise/nix/color_functions.py:74-86 | the attribute sequence precedes any colour code, and the foreground code the background one |
| ColorFunctions.SetColorErrors | colorise/nix/color_functions.py:79-86 | without Reset, the call fails exactly when either colour's look-up fails, the foreground's error first |
| ColorFunctions.SetColorWritesNothing | colorise/nix/color_functions.py:76-89 | nothing is written exactly when there are no attributes and neither colour is truthy |
| Attributes.Value | colorise/attributes.py:29-36 | every value is at most 7 and none is 6 |
| Attributes.Lookup | colorise/attributes.py:21-36 | `Attr[name]` finds a member by its name, and `Intense` names `Bold` |
| Attributes.ValueInjective | colorise/attributes.py:29-36 | each value belongs to one member only: `Intense = 1` is an alias, not an eighth member |
| Attributes.IntenseIsBold | colorise/attributes.py:30-31 | `Attr['Intense']` is `Attr['Bold']`, with value 1 |
| Attributes.ToCodes | colorise/attributes.py:49-51 | each attribute's value, in order |
| Attributes.NameCapitalised | colorise/attributes.py:29-36 | each member's name is its lower-case name capitalised |
| Attributes.AttributeFromLowerName | colorise/attributes.py:54-60 | every member is found from its lower-case name |
| Attributes.AttributeFromNameIntense | colorise/attributes.py:54-60 | the alias is found from `intense` |
| Attributes.AttributeFromNameIgnoresCase | colorise/attributes.py:54-60 | `BOLD` and `bOlD` give `Bold` too |
| Attributes.AttributeFromNameUnknown | colorise/attributes.py:54-60 | an unknown name raises KeyError |
| Attributes.AttributeNamesLower | colorise/attributes.py:63-65 | the names are the members' lower-case names |
| Attributes.AttributeNamesExact | colorise/attributes.py:63-65 | the set is exactly the seven canonical lower-case names, without the alias |
| SrcAttributes.MemberKeysResolve | src/colorise/attributes.py:14-28 | every key of `__members__` resolves, and `Intense` to `Bold` |
| SrcAttributes.FromNameLower | src/colorise/attributes.py:30-37 | `from_name` finds each member from its lower-case name, and the alias from `intense` |
| SrcAttributes.FromNameUnknown | src/colorise/attributes.py:30-37 | an unknown or empty name raises KeyError |
| SrcAttributes.MemberKeysAreNames | src/colorise/attributes.py:14-28 | the keys of `__members__` are the members' names and the alias |
| SrcAttributes.NamesWithAliasesAddsIntense | src/colorise/attributes.py:39-47 | the aliases add exactly `intense` to the canonical names |
| OrderedDicts.GetPut | colorise/nix/cluts.py:71-84 | after `od[k] = v`, `k` maps to `v` and every other key to what it mapped to before |
| OrderedDicts.GetUpdate | colorise/nix/cluts.py:73-84 | after `update`, a key maps to its last value among the pairs, or to its old value if no pair has it |
| OrderedDicts.UpdateDistinct | colorise/nix/cluts.py:73-84 | an update keeps the keys distinct |
| OrderedDicts.LastValueZipRange | colorise/nix/cluts.py:73-84 | looking up `k` in `zip(range(lo, hi), values)` gives the value at offset `k - lo` when the zip reaches it |
| OrderedDicts.Zip | colorise/nix/cluts.py:81-84 | `zip` is as long as the shorter argument and pairs entries position by position |
| NixManager.AddCodes | colorise/nix/ColorManager.py:53-55 | after the constructor's loop every name and its `dark` variant are keys, and no key set before the loop is lost |
| NixManager.AddCodesKeeps | colorise/nix/ColorManager.py:53-55 | an entry the loop does not write keeps its value |
| NixManager.AddCodesSets | colorise/nix/ColorManager.py:53-55 | with pairwise different names, the `k`th name and its `dark` variant both hold `str(i + k)` after the loop |
| NixManager.AddCodesNum | colorise/nix/ColorManager.py:53-55 | the loop stores only digit strings: an int in the result was already there |
| NixManager.AddCodesKeysFrom | colorise/nix/ColorManager.py:53-55 | every key after the loop was there before, is a loop name, or is `dark` and a loop name |
| NixManager.LoopNamesApart | colorise/nix/ColorManager.py:42-53 | `colornames[1:7]` is red..cyan, pairwise different, and none is `dark` and another |
| NixManager.InitialKept | colorise/nix/ColorManager.py:47-55 | `grey`, `black` and `white` keep 7, 30 and 37 through the loop |
| NixManager.LoopEntries | colorise/nix/ColorManager.py:45-55 | after the loop, red..cyan and their dark variants hold `'31'`..`'36'`, and the fixed entries are unchanged |
| NixManager.LoopNameNotAlias | colorise/nix/ColorManager.py:57-60 | no loop name or dark variant is overwritten by the `gray`/`purple`/`darkpurple` aliases |
| NixManager.FixedEntries | colorise/nix/ColorManager.py:47-58 | `black` 30, `white` 37, `grey` 7 and its alias `gray` 7 |
| NixManager.TableEntries | colorise/nix/ColorManager.py:45-60 | the whole table: red..cyan and dark variants `'31'`..`'36'`, both purples `'35'`, and the fixed ints |
| NixManager.TableNums | colorise/nix/ColorManager.py:45-60 | an entry holds an int iff its key is `black`, `white`, `grey` or `gray` |
| NixManager.TableKnows | colorise/nix/ColorManager.py:42-60 | the eight colour names, their dark variants and the aliases are keys; `lightred` is not |
| NixManager.Get | colorise/nix/ColorManager.py:88-89 | `colors.get(None, 39)` is 39 |
| NixManager.ListText | colorise/nix/ColorManager.py:91-92 | `str` of a list starts with `[` and ends with `]` |
| NixManager.NeverInAttrs | colorise/nix/ColorManager.py:92 | `fgc in self.attrs` never holds: the codes are ints or digit strings, and every attr starts with a letter |
| NixManager.ToAnsi | colorise/nix/ColorManager.py:66-68 | `_to_ansi` writes the escape, the arguments joined by `;`, then `m` |
| NixManager.SetDefaultsIsSgr | colorise/nix/ColorManager.py:70-71 | `set_defaults` writes `ESC[22;39;49m`, the same text the newer `to_ansi(22, 39, 49)` gives |
| NixManager.SetColor | colorise/nix/ColorManager.py:82-94 | raises only when a colour is truthy; whatever it writes starts with the escape |
| NixManager.SetColorUnknown | colorise/nix/ColorManager.py:84-86 | with a truthy colour, ValueError iff fg or bg is a name outside the table, quoting fg when both are |
| NixManager.SetColorStringBackground | colorise/nix/ColorManager.py:88-89 | for known names, TypeError iff bg is given and is not `black`, `white`, `grey` or `gray` |
| NixManager.SetColorWritesList | colorise/nix/ColorManager.py:88-92 | on success with a truthy colour, the text is `ESC[` + `str([fgc, bgc + 10, []])` + `m`, so `[` follows the escape |
| NixManager.SetColorLightRed | colorise/nix/ColorManager.py:84-86 | `set_color('lightred')` raises `Unknown color 'lightred'` |
| NixManager.SetColorRedBackground | colorise/nix/ColorManager.py:89 | `set_color(bg='red')` raises the TypeError of `'31' + 10` |
| NixManager.SetColorBlack | colorise/nix/ColorManager.py:88-92 | `set_color('black')` writes `ESC[[30, 49, []]m` |
| NixManager.SetColorMissesIntended | colorise/nix/ColorManager.py:88-92 | for every known name and truthy colour, the call as written raises or writes `[` where the intended one writes a digit |
| NixManager.SetColorIntended | colorise/nix/ColorManager.py:82-94 | the corrected `set_color` raises iff a colour is truthy and a name is unknown |
| NixManager.SetColorIntendedSgr | colorise/nix/ColorManager.py:88-92 | the corrected `set_color` writes one SGR sequence that splits back into the fg code, the bg code plus 10 and the optional 1 |
| Colorise.FormatColor | colorise/__init__.py:129-144 | `formatcolor` returns the string unchanged when both colours are None |
| Colorise.SpecShape | colorise/__init__.py:138-140 | the spec built from truthy colours without markup is non-empty, markup-free and does not end in an escape |
| Colorise.SpecExtracts | colorise/__init__.py:138-140 | the spec `formatcolor` builds is read back by `extract_syntax` as the truthy colours |
| Colorise.WrappedTokens | colorise/__init__.py:142-144 | wrapped markup-free text tokenizes into the start token, the spec, the format token, the text and the stop token |
| Colorise.WrappedParse | colorise/__init__.py:142-144 | those five tokens parse to the text in the spec's colours |
| Colorise.FormatColorParses | colorise/__init__.py:129-144 | what `formatcolor` builds from markup-free text and a truthy colour is parsed back as that text in those colours |
| Colorise.FormatColorEmptySpec | colorise/__init__.py:135-144 | with colours that are set but all empty, the result is `<:s>`, whose empty spec the parser rejects |
| Colorise.Insert | colorise/__init__.py:159 | inserting a value adds exactly that value to the multiset |
| Colorise.InsertSorted | colorise/__init__.py:159 | inserting into a sorted list keeps it sorted |
| Colorise.SortInts | colorise/__init__.py:159-190 | `sorted(indices)` is a sorted permutation of the indices |
| Colorise.SortIntsSorted | colorise/__init__.py:159-190 | sorting a sorted list changes nothing |
| Colorise.RunsShape | colorise/__init__.py:159-162 | the groups of `groupby` are no more than the values, none without a value, and the last ends one past the last value |
| Colorise.GroupRuns | colorise/__init__.py:159-162 | the `groupby` loop, one element at a time comparing keys, builds exactly `Runs(xs)` |
| Colorise.GroupStep | colorise/__init__.py:159-160 | an element joins the open group exactly when its key equals the previous key |
| Colorise.RunsExpand | colorise/__init__.py:159-162 | expanding the groups gives the values back: they split the list and lose nothing |
| Colorise.RunsSeparated | colorise/__init__.py:159-160 | each group is as long as possible: the next never starts where it ends |
| Colorise.RunsOrdered | colorise/__init__.py:159-162 | strictly increasing values fall into ordered groups |
| Colorise.RunsBounds | colorise/__init__.py:159-162 | over strictly increasing values every group lies between the first value and one past the last |
| Colorise.RunsStartIn | colorise/__init__.py:161-162 | every group starts at one of the values |
| Colorise.CutsPaintAll | colorise/__init__.py:164-170 | over ordered groups inside the string, the cuts and the rest mark exactly the covered characters |
| Colorise.FormatByIndex | colorise/__init__.py:147-172 | the method returns exactly `ByIndex` |
| Colorise.RenderRuns | colorise/__init__.py:156-172 | the loop over the groups builds exactly `ByIndexRuns` |
| Colorise.RenderRun | colorise/__init__.py:164-167 | a group starting at or past the end is skipped; otherwise the gap and the wrapped group are appended and `p` moves to its end |
| Colorise.ByIndexWraps | colorise/__init__.py:147-172 | for distinct ascending indices inside the string, the result is the string cut at the maximal groups of consecutive indices with each group wrapped by `formatcolor`, and exactly the indexed characters are wrapped |
| Colorise.ByIndexPastEnd | colorise/__init__.py:164-170 | indices all at or past the end leave the string as it is |
| Colorise.ByIndexRepeated | colorise/__init__.py:159-167 | a repeated index starts a group of its own: `[i, i, i + 1]` wraps the character at `i`, then the two characters from `i` |
| Colorise.InForce | colorise/__init__.py:68-77 | the colours in force after `set_color` are the defaults exactly when neither colour is truthy |
| Colorise.Console.SetColor | colorise/__init__.py:68-77 | `set_color` records exactly `SetColorEvents` |
| Colorise.Console.Cprint | colorise/__init__.py:80-92 | `cprint` records exactly `CprintEvents` |
| Colorise.Console.Fprint | colorise/__init__.py:95-126 | `fprint` records exactly `FprintEvents` and returns the parser's error, if any |
| Colorise.Console.WriteOutcome | colorise/__init__.py:112-126 | once the parser's outcome is known, `fprint` records `OutcomeEvents` |
| Colorise.Console.WriteSegments | colorise/__init__.py:112-122 | the loop over the segments records `SegmentEvents` |
| Colorise.Console.WriteSegment | colorise/__init__.py:113-122 | one segment sets its colours or returns to the defaults after a coloured one, writes its text, and updates `hascolor` |
| Colorise.Console.Highlight | colorise/__init__.py:175-205 | `highlight` records exactly `HighlightEvents` |
| Colorise.Console.WriteRuns | colorise/__init__.py:187-205 | once the groups are known, `highlight` records `HighlightRuns` |
| Colorise.Console.TakeRun | colorise/__init__.py:192-200 | one group writes the text before it, then the group between `set_color` and `set_defaults`, and moves `p` to its end |
| Colorise.Console.WriteCuts | colorise/__init__.py:190-200 | the loop of `highlight` records the cuts' events and ends at the position after the last group |
| Colorise.SetColorInForce | colorise/__init__.py:68-77 | `set_color` writes nothing and leaves the given colours, or the defaults, in force |
| Colorise.CprintShows | colorise/__init__.py:80-92 | `cprint` shows the string and `end` in the given colours, then returns to the defaults |
| Colorise.BlockShows | colorise/__init__.py:113-122 | one segment is shown in its scope's colours, which stay in force after it |
| Colorise.SegmentsShow | colorise/__init__.py:112-122 | from the defaults, the loop shows every segment in its scope's colours and leaves the last one's in force |
| Colorise.ClosingShows | colorise/__init__.py:124-126 | the closing calls show `end` in the defaults and leave the defaults, whatever was in force |
| Colorise.FprintShows | colorise/__init__.py:95-126 | `fprint` shows each segment in its scope's colours and then, unless the parser raised, `end` in the defaults |
| Colorise.FprintRestores | colorise/__init__.py:99-126 | `fprint` returns to the defaults unless the parser raised |
| Colorise.FprintFormatColor | colorise/__init__.py:95-144 | printing what `formatcolor` builds shows the text in its colours, then `end` in the defaults |
| Colorise.FprintMarkupFreeLost | colorise/ColorFormatParser.py:38-39 | `fprint` of non-empty markup-free text shows only `end`; the text itself is lost |
| Colorise.CutEventsShow | colorise/__init__.py:192-200 | from the defaults, the cuts show each gap in the defaults and each group highlighted, and end in the defaults |
| Colorise.CutBlockShows | colorise/__init__.py:194-199 | one cut shows its gap in the defaults and its group highlighted, and returns to the defaults |
| Colorise.HighlightShows | colorise/__init__.py:175-205 | `highlight` shows each gap in the defaults and each group highlighted, then the rest and `end` in the defaults; nothing when there is nothing to do |
| Colorise.HighlightPaints | colorise/__init__.py:175-205 | for distinct ascending indices inside the string, every character is shown, each indexed one in the given colours and every other in the defaults, then `end` |
| Colorise.HighlightRunsPaint | colorise/__init__.py:187-205 | over ordered groups inside the string, `highlight` shows the string marked where the groups cover it, then `end` |

## Left out

- Python version: the model is CPython 3.6. Under Python 2.x and 3.2/3.3, plain dicts iterate `_NIX_SYSTEM_COLORS` in hash order (32..37, 30, 31), so `closest_color((0, 155, 135))` on the 256 table gives 36 instead of 30. Under 3.7 and later, a `StopIteration` escaping a generator is a `RuntimeError`. Neither variant is modelled.
- ColorFormatParser.ParseTokens, ColorFormatParser.Tokens: a `StopIteration` inside the generator ends it silently (pre-3.7 semantics). That happens on `next(tokens)` after a final `<`, which gives the outcome `Stopped`, and on `next(it)` for markup-free input, where nothing is yielded. The `RuntimeError` of 3.7 and later is not modelled.
- Text.IsDigits, Text.IsAlpha, Text.IsSpace, Text.Title, Text.LowerStr: ASCII only. Python 3's `str.isdigit`, `isalpha`, `isspace`, `title` and `lower` also accept Unicode characters (`'²'.isdigit()` is true), which these do not.
- Cluts.GetColor: the hls and hsv branches (colorise/cluts.py:71-74) go through floating point and `colorsys`, so they are a parameter `fromFloats` applied to the format and the matched group.
- Parser.ToRgb: the hls/hsv branch converts with `colorsys` and drops the result (colorise/parser.py:41), so the model returns nothing there and does not compute the conversion.
- Formatter.Engine: `string.Formatter`'s `parse`, `get_field`, `convert_field` and `format_field` are parameters. `check_unused_args` (colorise/formatter.py:207) is left out; the default one does nothing.
- Formatter: `ColorFormatter.parse` (colorise/formatter.py:80-116) is not modelled, because `_vformat` calls `super().parse` and never reaches the override.
- Formatter.ColorFormatter: the `file` property's writes and flushes, and the calls of the colour functions, are recorded as events in `trace`. Nothing is written to a real stream.
- ColorFunctions.Stream: `file.write` is recorded as a list of written strings. `flush`, buffering and encoding are not modelled.
- ColorFunctions.SetColor: `num_colors()` and `terminal_name()` are parameters (`count`, `terminal`). Terminal-capability detection through curses, environment variables and Windows version checks (colorise/nix/color_functions.py:16-44, colorise/win/cluts.py:91-114) is left out.
- Colorise.Console, Colorise.InForce: `__init__.py` creates the colour manager of colorise/nix/ColorManager.py, which `NixManager` models. The console records each `set_color`/`set_defaults` call on it as an event that puts the given colours in force, which is what the intended manager (`NixManager.SetColorIntended`) does. The event record leaves out three things the manager as written does. It raises ValueError for a name outside its table: `cprint('x', fg='lightred')` raises before anything is written (`NixManager.SetColorLightRed`). It raises TypeError for a background stored as a digit string, such as `bg='red'` (`NixManager.SetColorRedBackground`). It writes its escapes to `sys.stdout`, whatever `target` is. `target.flush()` is an event.
- Colorise.Console.Fprint: `fmt.format(*args, **kwargs)` is a parameter `formatArgs`.
- Colorise.FormatColor, Colorise.FormatColorParses: colours are strings. An integer colour such as `201` would make `'fg=' + fg` raise a TypeError in `formatcolor`; that case is not modelled.
- WinCluts: `color_from_index` (colorise/win/cluts.py:127-154) is not modelled. It calls `can_interpret_ansi()` through the ctypes FFI, and its index-below-16 branch passes a whole table as the colour.
- WinCluts: `attributes()` and `num_colors()` are not modelled. They depend on the win32 FFI and the environment.
- Attributes: the Windows `to_codes` (colorise/attributes.py:42-47) is not modelled; it belongs to the Windows back end.
- Parser: `extract_syntax` (colorise/parser.py:164-178) is the same text as colorise/ColorFormatParser.py:123-137, so `Parser.Parse` uses `ColorFormatParser.ExtractSyntax`. `extract_syntax1` (colorise/parser.py:180-208) is not modelled: its `enumerate('fg=', 'bg=')` raises a TypeError before its duplicate check runs.
- The Windows console back end (colorise/win/win32_functions.py, winhandle.py, ColorManager.py, color_functions.py, __init__.py) is not modelled: it is foreign-function calls into kernel32.
- NixManager: `get_defaults` and `get_supported` (colorise/nix/ColorManager.py:73-80) are not modelled, because `__init__.py` never calls them. colorise/BaseColorManager.py, which ColorManager.py imports, is not part of this model; the model takes the import to succeed. colorise/nix/manager.py is not modelled, because `__init__.py` does not import it.
- Floating-point colour maths (`hls_to_rgb`, `hsv_to_rgb`, `color_distance`) is not modelled.
- The decorators, the Python 2/3 compatibility shims, the abstract colour manager and the exception class are not modelled.
- The `atexit` hook is not modelled.

## Findings

| source | as written | input that shows it | evidently intended | confidence | as-written member | corrected member |
|---|---|---|---|---|---|---|
| colorise/ColorFormatParser.py:39 | `next(it)` raises `StopIteration` when the input has no `<`, `:` or `>`, so the generator ends without yielding and `parse` yields no segment | `"Just some text"`: `parse` yields nothing, and `fprint` shows only `end` | one plain segment holding the text, as tests/test_parser.py:30,54 expect and as colorise/parser.py:69-75 does | not executed | ColorFormatParser.MarkupFreeLost | ColorFormatParser.MarkupFreeIntended |
| colorise/ColorFormatParser.py:53-71 | an escaped structural character is added to the buffer (lines 53-54), and a buffer holding only that character is yielded as a token equal to it (lines 70-71), which `parse` treats as structure | `a\<b` denotes `a<b`, but `parse` yields `a` and then raises "Unexpected color syntax 'b'" | the escaped `<` stays text: one plain segment `a<b`, as colorise/parser.py:91-93,124 does with its escape flag | not executed | ColorFormatParser.EscapedStartMisread | Parser.EscapedStartKept |
| colorise/nix/ColorManager.py:91-92 | `set_color` passes the one list `[fgc, bgc, 1 if fgc in self.attrs else []]` to `_to_ansi`, which writes `str` of that list between `ESC[` and `m` | `set_color('black')` writes `ESC[[30, 49, []]m`, which no terminal reads as an SGR sequence | the codes as separate SGR parameters, `ESC[30;49m` | not executed | NixManager.SetColorMissesIntended | NixManager.SetColorIntendedSgr |
| colorise/nix/ColorManager.py:89 | `bgc = self.colors.get(bg, 39) + 10`, but the constructor stores red..cyan, their dark variants and purple as digit strings | `set_color(bg='red')` raises TypeError for `'31' + 10` | the background code plus 10, `41` | not executed | NixManager.SetColorRedBackground | NixManager.SetColorIntended |

`Colorise.Console` records each colour-manager call as putting its colours in force, which is what the corrected `NixManager.SetColorIntended` does; the last two rows show what the manager as written does instead.

`fprint` imports the older parser, so `Colorise` is modelled on the parser as written; `Colorise.FprintMarkupFreeLost` shows the first finding reaching `fprint`. The corrected tokenizer of the first row is `ColorFormatParser.TokensIntended`, which `ColorFormatParser.TokensIntendedVisible` proves reproduces every input; the newer `Parser` module implements it, together with the escape flag of the second row.
