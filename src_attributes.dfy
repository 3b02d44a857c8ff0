/**
 * The `Attr` enum of src/colorise/attributes.py. Its members and values are those of
 * colorise/attributes.py, so the enum itself is shared; this file adds the
 * class methods `from_name`, `names` and `names_with_aliases`.
 */
module SrcAttributes {
  import opened Wrappers
  import opened Text
  import opened Attributes

  /** `Attr.__members__` in definition order: the alias keeps its own key. */
  const MemberKeys: seq<string> := ["Reset", "Bold", "Intense", "Faint", "Italic", "Underline", "Blink", "Reverse"]

  /** `Attr.from_name`: look up the title-cased name; `None` where `cls[...]` raises KeyError. */
  function FromName(attribute: string): (r: Option<Attr>)
  {
    Lookup(Title(attribute))
  }

  /** `Attr.names()`: the lower-cased names of the members, aliases skipped by iteration. */
  function Names(): (names: set<string>)
  {
    set a | a in Members :: LowerStr(Name(a))
  }

  /** `Attr.names_with_aliases()`: the lower-cased keys of `__members__`. */
  function NamesWithAliases(): (names: set<string>)
  {
    set k | k in MemberKeys :: LowerStr(k)
  }

  /** Every key of `__members__` resolves, and `Intense` to the `Bold` member. */
  lemma MemberKeysResolve()
    ensures forall k :: k in MemberKeys ==> Lookup(k).Some?
    ensures Lookup(MemberKeys[2]) == Some(Bold)
  {
  }

  /** `from_name` finds each member from its lower-case name and the alias from `'intense'`. */
  lemma FromNameLower(a: Attr)
    ensures FromName(LowerName(a)) == Some(a)
    ensures FromName("intense") == Some(Bold)
  {
    LowerNameIsLower(a);
    AttributeFromLowerName(a);
    AttributeFromNameIntense();
  }

  /** An unknown name raises KeyError, whatever its case. */
  lemma FromNameUnknown()
    ensures FromName("overlined") == None
    ensures FromName("") == None
  {
    AttributeFromNameUnknown();
  }

  /** The keys of `__members__` are the members' names and the alias. */
  lemma MemberKeysAreNames(k: string)
    ensures k in MemberKeys <==> k == "Intense" || exists a :: a in Members && Name(a) == k
  {
    if k in MemberKeys && k != "Intense" {
      var i :| 0 <= i < |MemberKeys| && MemberKeys[i] == k;
      var a := if i < 2 then Members[i] else Members[i - 1];
      assert Name(a) == k;
    }
    if exists a :: a in Members && Name(a) == k {
      var a :| a in Members && Name(a) == k;
      assert Name(a) in MemberKeys;
    }
  }

  lemma NamesWithAliasesSubset()
    ensures forall x | x in NamesWithAliases() :: x in Names() + {LowerStr("Intense")}
  {
    forall x | x in NamesWithAliases() ensures x in Names() + {LowerStr("Intense")} {
      var k :| k in MemberKeys && x == LowerStr(k);
      MemberKeysAreNames(k);
    }
  }

  lemma NamesWithAliasesSuperset()
    ensures forall x | x in Names() + {LowerStr("Intense")} :: x in NamesWithAliases()
  {
    forall x | x in Names() + {LowerStr("Intense")} ensures x in NamesWithAliases() {
      if x in Names() {
        var a :| a in Members && x == LowerStr(Name(a));
        MemberKeysAreNames(Name(a));
      } else {
        MemberKeysAreNames("Intense");
      }
    }
  }

  /** The aliases add exactly `'intense'` to the canonical names. */
  lemma NamesWithAliasesAddsIntense()
    ensures NamesWithAliases() == Names() + {"intense"}
    ensures "intense" !in Names()
  {
    AttributeNamesExact();
    LowerStrNoUpper("ntense");
    assert LowerStr("Intense") == "intense";
    NamesWithAliasesSubset();
    NamesWithAliasesSuperset();
    assert NamesWithAliases() == Names() + {LowerStr("Intense")};
  }
}
