/**
 * The `Attr` enum of colorise/attributes.py: text attributes whose values are
 * their SGR parameters (ECMA-48 section 8.3.117), with `Intense` an alias of `Bold`.
 */
module Attributes {
  import opened Wrappers
  import opened Text

  /** The members of the enum; the alias `Intense` is not a member of its own. */
  datatype Attr = Reset | Bold | Faint | Italic | Underline | Blink | Reverse

  /** `attr.value`. */
  function Value(a: Attr): (v: nat)
    ensures v <= 7 && v != 6
  {
    match a
    case Reset => 0
    case Bold => 1
    case Faint => 2
    case Italic => 3
    case Underline => 4
    case Blink => 5
    case Reverse => 7
  }

  /** `attr.name`. */
  function Name(a: Attr): string
  {
    match a
    case Reset => "Reset"
    case Bold => "Bold"
    case Faint => "Faint"
    case Italic => "Italic"
    case Underline => "Underline"
    case Blink => "Blink"
    case Reverse => "Reverse"
  }

  /** Iterating over the enum: definition order, aliases skipped. */
  const Members: seq<Attr> := [Reset, Bold, Faint, Italic, Underline, Blink, Reverse]

  /** `Attr[name]`: lookup in `__members__`, where `Intense` names the `Bold` member; `None` where Python raises KeyError. */
  function Lookup(name: string): (r: Option<Attr>)
    ensures r.Some? ==> name == Name(r.value) || (name == "Intense" && r.value == Bold)
  {
    if name == "Reset" then Some(Reset)
    else if name == "Bold" then Some(Bold)
    else if name == "Intense" then Some(Bold)
    else if name == "Faint" then Some(Faint)
    else if name == "Italic" then Some(Italic)
    else if name == "Underline" then Some(Underline)
    else if name == "Blink" then Some(Blink)
    else if name == "Reverse" then Some(Reverse)
    else None
  }

  /** Each value belongs to one member only: `Intense = 1` made an alias, not an eighth member. */
  lemma ValueInjective(a: Attr, b: Attr)
    requires Value(a) == Value(b)
    ensures a == b
  {
  }

  lemma IntenseIsBold()
    ensures Lookup("Intense") == Lookup("Bold") == Some(Bold)
    ensures Value(Lookup("Intense").value) == 1
  {
  }

  /** The non-Windows `to_codes`: each attribute's value, in order. */
  function ToCodes(attrs: seq<Attr>): (codes: seq<int>)
    ensures |codes| == |attrs|
    ensures forall k :: 0 <= k < |attrs| ==> codes[k] == Value(attrs[k])
  {
    if attrs == [] then [] else [Value(attrs[0]) as int] + ToCodes(attrs[1..])
  }

  /** `attribute_from_name`: title-case the name, then look it up. */
  function AttributeFromName(name: string): (r: Option<Attr>)
  {
    Lookup(Title(name))
  }

  /** Title-casing a lower-case word capitalises its first letter. */
  lemma TitleLowerWord(w: string)
    requires IsAlpha(w) && forall k :: 0 <= k < |w| ==> 'a' <= w[k] <= 'z'
    ensures Title(w) == [Upper(w[0])] + w[1..]
  {
    TitleWord(w);
    LowerStrNoUpper(w[1..]);
  }

  /** Lower-casing a capitalised lower-case word gives the word back. */
  lemma LowerCapitalised(w: string)
    requires IsAlpha(w) && forall k :: 0 <= k < |w| ==> 'a' <= w[k] <= 'z'
    ensures LowerStr([Upper(w[0])] + w[1..]) == w
  {
    var c := [Upper(w[0])] + w[1..];
    assert c[1..] == w[1..];
    LowerStrNoUpper(w[1..]);
  }

  /** Each member's name is its lower-case name capitalised. */
  lemma NameCapitalised(a: Attr)
    ensures Name(a) == [Upper(LowerName(a)[0])] + LowerName(a)[1..]
  {
  }

  lemma LookupName(a: Attr)
    ensures Lookup(Name(a)) == Some(a)
  {
  }

  /** Every member is found from its lower-case name. */
  lemma AttributeFromLowerName(a: Attr)
    ensures AttributeFromName(LowerStr(Name(a))) == Some(a)
  {
    LowerNameIsLower(a);
    TitleLowerWord(LowerName(a));
    NameCapitalised(a);
    LookupName(a);
  }

  /** The alias is found from its lower-case name too. */
  lemma AttributeFromNameIntense()
    ensures AttributeFromName("intense") == Some(Bold)
  {
    TitleLowerWord("intense");
    assert Title("intense") == "Intense";
  }

  /** Title-casing makes the lookup case-insensitive: `'BOLD'` and `'bOlD'` give `Bold` too. */
  lemma AttributeFromNameIgnoresCase()
    ensures AttributeFromName("BOLD") == Some(Bold)
    ensures AttributeFromName("bOlD") == Some(Bold)
  {
    TitleWord("BOLD");
    LowerStrAt("OLD");
    assert Title("BOLD") == "Bold";
    TitleWord("bOlD");
    LowerStrAt("OlD");
    assert Title("bOlD") == "Bold";
  }

  /** A name that is no member raises KeyError. */
  lemma AttributeFromNameUnknown()
    ensures AttributeFromName("overlined") == None
  {
    TitleAfterAt("overlined", false);
    NoMemberStartsWithO(Title("overlined"));
  }

  lemma NoMemberStartsWithO(name: string)
    requires |name| > 0 && name[0] == 'O'
    ensures Lookup(name) == None
  {
  }

  /** `attribute_names`: the lower-case names of the members. */
  function AttributeNames(): (names: set<string>)
  {
    set a | a in Members :: LowerStr(Name(a))
  }

  /** Iteration visits every member. */
  lemma AllMembers(a: Attr)
    ensures a in Members
  {
    match a
    case Reset => assert Members[0] == a;
    case Bold => assert Members[1] == a;
    case Faint => assert Members[2] == a;
    case Italic => assert Members[3] == a;
    case Underline => assert Members[4] == a;
    case Blink => assert Members[5] == a;
    case Reverse => assert Members[6] == a;
  }

  /** `attr.name.lower()`, written out. */
  function LowerName(a: Attr): (r: string)
    ensures IsAlpha(r) && forall k :: 0 <= k < |r| ==> 'a' <= r[k] <= 'z'
  {
    match a
    case Reset => "reset"
    case Bold => "bold"
    case Faint => "faint"
    case Italic => "italic"
    case Underline => "underline"
    case Blink => "blink"
    case Reverse => "reverse"
  }

  lemma LowerNameIsLower(a: Attr)
    ensures LowerStr(Name(a)) == LowerName(a)
  {
    NameCapitalised(a);
    LowerCapitalised(LowerName(a));
  }

  /** The names are the members' lower-case names. */
  lemma AttributeNamesLower()
    ensures AttributeNames() == set a | a in Members :: LowerName(a)
  {
    forall a | a in Members ensures LowerStr(Name(a)) == LowerName(a) {
      LowerNameIsLower(a);
    }
  }

  /** The set is exactly the seven canonical lower-case names, and the alias is not among them. */
  lemma AttributeNamesExact()
    ensures forall a: Attr :: LowerName(a) in AttributeNames()
    ensures forall x :: x in AttributeNames() ==> exists a: Attr :: x == LowerName(a)
    ensures "intense" !in AttributeNames()
  {
    AttributeNamesLower();
    forall a: Attr ensures LowerName(a) in AttributeNames() {
      AllMembers(a);
    }
    forall a: Attr ensures LowerName(a) != "intense" {
      assert |LowerName(a)| != 7 || LowerName(a)[0] != 'i';
    }
  }
}
