/**
 * The per-element naming checks of RusWizardsRules: private instance fields must be
 * named `_camelCase`, and declarations must have names of at least two characters.
 */
module NamingRules {
  import opened Syntax

  /**
   * Private, protected and protected-internal members count as non-public; public,
   * internal and protected-and-internal ones do not.
   */
  predicate IsPrivateAccess(a: AccessModifier): (b: bool)
    ensures b <==> a !in {Public, Internal, ProtectedAndInternal}
  {
    a == Private || a == Protected || a == ProtectedInternal
  }

  /**
   * Whether the one-character string `[c]` changes under lower-casing. Only ASCII
   * capitals are taken to change.
   */
  predicate ChangesUnderLowerCase(c: char)
  {
    'A' <= c <= 'Z'
  }

  /** The condition of CheckInstanceVariablesUnderscorePrefix. */
  predicate UnderscorePrefixViolated(e: Element)
  {
    && !e.generated
    && e.kind == Field
    && IsPrivateAccess(e.access)
    && (!StartsWith(e.name, "_") || (|e.name| >= 2 && ChangesUnderLowerCase(e.name[1])))
  }

  function UnderscorePrefixViolations(e: Element): seq<Violation>
  {
    if UnderscorePrefixViolated(e) then [Violation(InstanceVariablesUnderscorePrefix, e.line, [e.name])] else []
  }

  /**
   * The ten element kinds whose names CheckMinimumFieldLength measures: every kind but
   * the directives, attributes, constructors, destructors, enum items, accessors and indexers.
   */
  predicate IsSupportedForMinLengthElementType(k: ElementType): (b: bool)
    ensures b <==> k !in {Root, ExternAliasDirective, UsingDirective, AssemblyAttribute,
                          Constructor, Destructor, EnumItem, Accessor, Indexer, EmptyElement}
  {
    k == Class || k == Delegate || k == Enum || k == Event || k == Field
    || k == Interface || k == Method || k == Namespace || k == Property || k == Struct
  }

  const MinAllowedLength: nat := 2

  /** The condition of CheckMinimumFieldLength. */
  predicate MinimumLengthViolated(e: Element)
  {
    !e.generated && IsSupportedForMinLengthElementType(e.kind) && |e.name| < MinAllowedLength
  }

  function MinimumLengthViolations(e: Element): seq<Violation>
  {
    if MinimumLengthViolated(e) then [Violation(MinimumFieldLength, e.line, [e.name])] else []
  }

  /** What ProcessElement reports for one element: the underscore check, then the length check. */
  function NamingViolations(e: Element): seq<Violation>
  {
    UnderscorePrefixViolations(e) + MinimumLengthViolations(e)
  }

  /** A name the rule accepts: an underscore, then nothing or a character lower-casing leaves alone. */
  ghost predicate WellPrefixed(name: string)
  {
    exists rest: string :: name == "_" + rest && (rest == [] || !ChangesUnderLowerCase(rest[0]))
  }

  /**
   * A field is flagged iff it is a non-generated private, protected or protected-internal
   * field whose name is not well prefixed; in particular public and internal fields never are.
   */
  lemma UnderscorePrefixViolatedIff(e: Element)
    ensures UnderscorePrefixViolated(e) <==>
              && !e.generated
              && e.kind == Field
              && e.access in {Private, Protected, ProtectedInternal}
              && !WellPrefixed(e.name)
    ensures e.access in {Public, Internal} ==> UnderscorePrefixViolations(e) == []
  {
    if StartsWith(e.name, "_") {
      assert e.name == "_" + e.name[1..];
    }
    if WellPrefixed(e.name) {
      var rest :| e.name == "_" + rest && (rest == [] || !ChangesUnderLowerCase(rest[0]));
      assert StartsWith(e.name, "_");
      assert |e.name| >= 2 ==> e.name[1] == rest[0];
    }
  }

  /**
   * The length check fires iff the element is not generated, its name is shorter than two
   * characters and its kind is none of the ten kinds the rule leaves alone.
   */
  lemma MinimumLengthViolatedIff(e: Element)
    ensures MinimumLengthViolated(e) <==>
              && !e.generated
              && |e.name| <= 1
              && e.kind !in {Root, ExternAliasDirective, UsingDirective, AssemblyAttribute,
                             Constructor, Destructor, EnumItem, Accessor, Indexer, EmptyElement}
  {
  }

  function AccountField(name: string): Element
  {
    Element(Field, name, Private, false, false, false, "", 3, [], [], [])
  }

  /** Fields of an `Account` type: `balance` and `_Balance` are flagged, `_balance` is not. */
  lemma AccountFieldsExample()
    ensures UnderscorePrefixViolations(AccountField("balance")) == [Violation(InstanceVariablesUnderscorePrefix, 3, ["balance"])]
    ensures UnderscorePrefixViolations(AccountField("_Balance")) == [Violation(InstanceVariablesUnderscorePrefix, 3, ["_Balance"])]
    ensures UnderscorePrefixViolations(AccountField("_balance")) == []
  {
    assert !StartsWith("balance", "_") by { assert "balance"[..1][0] == 'b'; }
    assert StartsWith("_Balance", "_") by { assert "_Balance"[..1] == "_"; }
    assert StartsWith("_balance", "_") by { assert "_balance"[..1] == "_"; }
  }
}
