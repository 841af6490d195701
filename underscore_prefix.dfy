/**
 * The standalone InstanceVariablesUnderscorePrefix analyzer: the same underscore rule as
 * RusWizardsRules with a stricter length guard (`> 2` instead of `>= 2`), run by its own
 * cancellable depth-first walk. Its access test is identical to RusWizardsRules' and is
 * shared with it (`NamingRules.IsPrivateAccess`).
 */
module UnderscorePrefix {
  import opened Syntax
  import opened ElementWalk
  import opened NamingRules

  /** The condition of ProcessElement: note `|name| > 2`, so a two-character name is never re-checked. */
  predicate Flagged(e: Element)
  {
    && e.kind == Field
    && !e.generated
    && IsPrivateAccess(e.access)
    && (!StartsWith(e.name, "_") || (|e.name| > 2 && ChangesUnderLowerCase(e.name[1])))
  }

  function Violations(e: Element): seq<Violation>
  {
    if Flagged(e) then [Violation(Rule.InstanceVariablesUnderscorePrefix, e.line, [])] else []
  }

  class InstanceVariablesUnderscorePrefix {
    /** The violations reported to the host so far. */
    var violations: seq<Violation>
    /** How many times the host's Cancel flag has been read. */
    var polls: nat
    /** The first read of Cancel that sees it set (see module ElementWalk). */
    const cancelAfter: nat

    constructor (cancelAfter: nat)
      ensures violations == [] && polls == 0 && this.cancelAfter == cancelAfter
    {
      violations := [];
      polls := 0;
      this.cancelAfter := cancelAfter;
    }

    /** Walks the document from its root unless there is none or it is generated code. */
    method AnalyzeDocument(root: Option<Element>)
      modifies this
      ensures root.None? || root.value.generated ==> violations == old(violations) && polls == old(polls)
      ensures root.Some? && !root.value.generated ==>
                var w := Walk(root.value, Violations, old(polls), cancelAfter);
                violations == old(violations) + w.out && polls == w.polls
    {
      if root.Some? && !root.value.generated {
        var _ := ProcessElement(root.value);
      }
    }

    /** Checks `e`, then its children depth-first; false iff Cancel was seen set. */
    method ProcessElement(e: Element) returns (ok: bool)
      modifies this
      ensures ok == Walk(e, Violations, old(polls), cancelAfter).ok
      ensures violations == old(violations) + Walk(e, Violations, old(polls), cancelAfter).out
      ensures polls == Walk(e, Violations, old(polls), cancelAfter).polls
      decreases e, 1
    {
      var cancel := polls >= cancelAfter;
      polls := polls + 1;
      if cancel {
        return false;
      }
      if Flagged(e) {
        violations := violations + [Violation(Rule.InstanceVariablesUnderscorePrefix, e.line, [])];
      }
      ok := ProcessChildren(e.children);
    }

    /** The children loop of ProcessElement: stops at the first child whose walk was cancelled. */
    method ProcessChildren(kids: seq<Element>) returns (ok: bool)
      modifies this
      ensures ok == WalkChildren(kids, Violations, old(polls), cancelAfter).ok
      ensures violations == old(violations) + WalkChildren(kids, Violations, old(polls), cancelAfter).out
      ensures polls == WalkChildren(kids, Violations, old(polls), cancelAfter).polls
      decreases kids, 0
    {
      ghost var done := Outcome(true, [], polls);
      assert kids[..0] == [];
      var i := 0;
      while i < |kids|
        invariant 0 <= i <= |kids|
        invariant done == WalkChildren(kids[..i], Violations, old(polls), cancelAfter)
        invariant done.ok && polls == done.polls
        invariant violations == old(violations) + done.out
      {
        WalkChildrenStep(kids, i, Violations, old(polls), cancelAfter);
        ghost var s := Walk(kids[i], Violations, polls, cancelAfter);
        var childOk := ProcessElement(kids[i]);
        AppendAssoc(old(violations), done.out, s.out);
        done := Outcome(s.ok, done.out + s.out, s.polls);
        if !childOk {
          CancelledAt(kids, i, Violations, old(polls), cancelAfter);
          return false;
        }
        i := i + 1;
      }
      assert kids[..i] == kids;
      return true;
    }
  }

  /**
   * A field is flagged iff it is a non-generated private, protected or protected-internal
   * field whose name is not `_` followed by at most one character or by a character
   * lower-casing leaves alone.
   */
  lemma FlaggedIff(e: Element)
    ensures Flagged(e) <==>
              && e.kind == Field
              && !e.generated
              && e.access in {Private, Protected, ProtectedInternal}
              && !(exists rest: string :: e.name == "_" + rest && (|rest| <= 1 || !ChangesUnderLowerCase(rest[0])))
  {
    if StartsWith(e.name, "_") {
      assert e.name == "_" + e.name[1..];
    }
    if exists rest: string :: e.name == "_" + rest && (|rest| <= 1 || !ChangesUnderLowerCase(rest[0])) {
      var rest :| e.name == "_" + rest && (|rest| <= 1 || !ChangesUnderLowerCase(rest[0]));
      assert StartsWith(e.name, "_");
      assert |e.name| > 2 ==> e.name[1] == rest[0];
    }
  }

  /**
   * The two variants of the underscore rule differ exactly on names of two characters,
   * `_` and a capital: RusWizardsRules flags them, this analyzer does not; everything
   * this analyzer flags, RusWizardsRules flags too.
   */
  lemma VariantsDifferOnlyAtLengthTwo(e: Element)
    ensures Flagged(e) ==> UnderscorePrefixViolated(e)
    ensures UnderscorePrefixViolated(e) && !Flagged(e) <==>
              && e.kind == Field && !e.generated && IsPrivateAccess(e.access)
              && |e.name| == 2 && e.name[0] == '_' && ChangesUnderLowerCase(e.name[1])
  {
    if |e.name| == 2 && e.name[0] == '_' {
      assert StartsWith(e.name, "_");
    }
    if StartsWith(e.name, "_") {
      assert e.name[0] == "_"[0];
    }
  }

  function PrivateField(name: string): Element
  {
    Element(Field, name, Private, false, false, false, "", 1, [], [], [])
  }

  /** The boundary: `_B` passes here but not in RusWizardsRules; `_Bc` is flagged by both. */
  lemma BoundaryExample()
    ensures !Flagged(PrivateField("_B")) && UnderscorePrefixViolated(PrivateField("_B"))
    ensures Flagged(PrivateField("_Bc")) && UnderscorePrefixViolated(PrivateField("_Bc"))
  {
    assert StartsWith("_B", "_") by { assert "_B"[..1] == "_"; }
    assert StartsWith("_Bc", "_") by { assert "_Bc"[..1] == "_"; }
  }

  /** The analyzer's own private field `temp` breaks its rule. */
  lemma TempFieldFlagged()
    ensures Violations(Element(Field, "temp", Private, false, false, false, "Int16", 16, [], [], []))
            == [Violation(Rule.InstanceVariablesUnderscorePrefix, 16, [])]
  {
    assert !StartsWith("temp", "_") by { assert "temp"[..1][0] == 't'; }
  }
}
