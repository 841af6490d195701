/**
 * The cancellable depth-first element walk shared by both `ProcessElement` variants:
 * read Cancel on entry, check the element, then walk its children in order and stop
 * at the first child walk that reports cancellation.
 *
 * Cancel is a flag of the host. The model assumes that once the host sets it, it stays
 * set for the rest of the run; then the only thing that matters about it is which read
 * is the first to see it set: `cancelAfter` is that read's number, and `polls` counts the
 * reads made so far. Read number p sees Cancel iff p >= cancelAfter.
 */
module ElementWalk {
  import opened Syntax

  /** Whether the walk ran to the end, the violations it added, and the reads of Cancel so far. */
  datatype Outcome = Outcome(ok: bool, out: seq<Violation>, polls: nat)

  function Walk(e: Element, check: Element -> seq<Violation>, polls: nat, cancelAfter: nat): Outcome
    decreases e, 1
  {
    if polls >= cancelAfter then Outcome(false, [], polls + 1)
    else
      var r := WalkChildren(e.children, check, polls + 1, cancelAfter);
      Outcome(r.ok, check(e) + r.out, r.polls)
  }

  /** The children loop: `kids[..|kids| - 1]` first, then the last child unless a walk was cancelled. */
  function WalkChildren(kids: seq<Element>, check: Element -> seq<Violation>, polls: nat, cancelAfter: nat): Outcome
    decreases kids, 0
  {
    if kids == [] then Outcome(true, [], polls)
    else
      var r := WalkChildren(kids[..|kids| - 1], check, polls, cancelAfter);
      if !r.ok then r
      else
        var s := Walk(kids[|kids| - 1], check, r.polls, cancelAfter);
        Outcome(s.ok, r.out + s.out, s.polls)
  }

  /** Number of elements in the subtree, i.e. reads of Cancel an uncancelled walk makes. */
  function Size(e: Element): nat
    decreases e, 1
  {
    1 + SizeOfAll(e.children)
  }

  function SizeOfAll(kids: seq<Element>): nat
    decreases kids, 0
  {
    if kids == [] then 0 else SizeOfAll(kids[..|kids| - 1]) + Size(kids[|kids| - 1])
  }

  /** The reference result: the check of every element of the subtree, in depth-first preorder. */
  function Flat(e: Element, check: Element -> seq<Violation>): seq<Violation>
    decreases e, 1
  {
    check(e) + FlatAll(e.children, check)
  }

  function FlatAll(kids: seq<Element>, check: Element -> seq<Violation>): seq<Violation>
    decreases kids, 0
  {
    if kids == [] then [] else FlatAll(kids[..|kids| - 1], check) + Flat(kids[|kids| - 1], check)
  }

  /**
   * The walk completes iff no read of Cancel among its Size(e) reads sees it set; a completed
   * walk reports exactly the preorder result, and a cancelled one a prefix of it.
   */
  lemma {:induction false} WalkMeetsFlat(e: Element, check: Element -> seq<Violation>, polls: nat, cancelAfter: nat)
    ensures Walk(e, check, polls, cancelAfter).ok <==> polls + Size(e) <= cancelAfter
    ensures Walk(e, check, polls, cancelAfter).ok ==>
              Walk(e, check, polls, cancelAfter).out == Flat(e, check) &&
              Walk(e, check, polls, cancelAfter).polls == polls + Size(e)
    ensures Walk(e, check, polls, cancelAfter).out <= Flat(e, check)
    decreases e, 1
  {
    if polls < cancelAfter {
      WalkChildrenMeetsFlat(e.children, check, polls + 1, cancelAfter);
    }
  }

  lemma {:induction false} WalkChildrenMeetsFlat(kids: seq<Element>, check: Element -> seq<Violation>, polls: nat, cancelAfter: nat)
    requires polls <= cancelAfter
    ensures WalkChildren(kids, check, polls, cancelAfter).ok <==> polls + SizeOfAll(kids) <= cancelAfter
    ensures WalkChildren(kids, check, polls, cancelAfter).ok ==>
              WalkChildren(kids, check, polls, cancelAfter).out == FlatAll(kids, check) &&
              WalkChildren(kids, check, polls, cancelAfter).polls == polls + SizeOfAll(kids)
    ensures WalkChildren(kids, check, polls, cancelAfter).out <= FlatAll(kids, check)
    decreases kids, 0
  {
    if kids != [] {
      var init, last := kids[..|kids| - 1], kids[|kids| - 1];
      WalkChildrenMeetsFlat(init, check, polls, cancelAfter);
      var r := WalkChildren(init, check, polls, cancelAfter);
      assert SizeOfAll(kids) == SizeOfAll(init) + Size(last);
      if r.ok {
        WalkMeetsFlat(last, check, r.polls, cancelAfter);
      } else {
        assert FlatAll(init, check) <= FlatAll(kids, check);
      }
    }
  }

  /** Once a child walk is cancelled, the later siblings are not visited and nothing more is added. */
  lemma {:induction false} CancelledChildStopsSiblings(done: seq<Element>, rest: seq<Element>, check: Element -> seq<Violation>, polls: nat, cancelAfter: nat)
    requires !WalkChildren(done, check, polls, cancelAfter).ok
    ensures WalkChildren(done + rest, check, polls, cancelAfter) == WalkChildren(done, check, polls, cancelAfter)
    decreases |rest|
  {
    if rest != [] {
      var kids := done + rest;
      assert kids[..|kids| - 1] == done + rest[..|rest| - 1];
      CancelledChildStopsSiblings(done, rest[..|rest| - 1], check, polls, cancelAfter);
    } else {
      assert done + rest == done;
    }
  }

  /** Depth-first preorder: the element, then each child's subtree in order. */
  function Preorder(e: Element): (r: seq<Element>)
    ensures |r| == Size(e) && r[0] == e
    decreases e, 1
  {
    [e] + PreorderAll(e.children)
  }

  function PreorderAll(kids: seq<Element>): (r: seq<Element>)
    ensures |r| == SizeOfAll(kids)
    decreases kids, 0
  {
    if kids == [] then [] else PreorderAll(kids[..|kids| - 1]) + Preorder(kids[|kids| - 1])
  }

  /** The checks of a list of elements, concatenated in list order. */
  function ChecksOf(es: seq<Element>, check: Element -> seq<Violation>): seq<Violation>
  {
    if es == [] then [] else ChecksOf(es[..|es| - 1], check) + check(es[|es| - 1])
  }

  lemma {:induction false} ChecksOfAppend(a: seq<Element>, b: seq<Element>, check: Element -> seq<Violation>)
    ensures ChecksOf(a + b, check) == ChecksOf(a, check) + ChecksOf(b, check)
    decreases |b|
  {
    if b == [] {
      assert a + b == a;
    } else {
      assert (a + b)[..|a + b| - 1] == a + b[..|b| - 1];
      ChecksOfAppend(a, b[..|b| - 1], check);
    }
  }

  /** The reference result is the check of each element of the subtree, taken in preorder. */
  lemma {:induction false} FlatIsChecksInPreorder(e: Element, check: Element -> seq<Violation>)
    ensures Flat(e, check) == ChecksOf(Preorder(e), check)
    decreases e, 1
  {
    FlatAllIsChecksInPreorder(e.children, check);
    ChecksOfAppend([e], PreorderAll(e.children), check);
    assert ChecksOf([e], check) == check(e) by {
      assert [e][..0] == [];
    }
  }

  lemma {:induction false} FlatAllIsChecksInPreorder(kids: seq<Element>, check: Element -> seq<Violation>)
    ensures FlatAll(kids, check) == ChecksOf(PreorderAll(kids), check)
    decreases kids, 0
  {
    if kids != [] {
      var init, last := kids[..|kids| - 1], kids[|kids| - 1];
      FlatAllIsChecksInPreorder(init, check);
      FlatIsChecksInPreorder(last, check);
      ChecksOfAppend(PreorderAll(init), Preorder(last), check);
    }
  }

  /** One more turn of the children loop. */
  lemma WalkChildrenStep(kids: seq<Element>, i: nat, check: Element -> seq<Violation>, polls: nat, cancelAfter: nat)
    requires i < |kids|
    requires WalkChildren(kids[..i], check, polls, cancelAfter).ok
    ensures WalkChildren(kids[..i + 1], check, polls, cancelAfter) ==
              var r := WalkChildren(kids[..i], check, polls, cancelAfter);
              var s := Walk(kids[i], check, r.polls, cancelAfter);
              Outcome(s.ok, r.out + s.out, s.polls)
  {
    assert kids[..i + 1][..i] == kids[..i];
  }

  /** A walk whose entry read does not see Cancel: the element's check, then the children loop. */
  lemma WalkEntered(e: Element, check: Element -> seq<Violation>, polls: nat, cancelAfter: nat)
    requires polls < cancelAfter
    ensures Walk(e, check, polls, cancelAfter) ==
              var r := WalkChildren(e.children, check, polls + 1, cancelAfter);
              Outcome(r.ok, check(e) + r.out, r.polls)
  {
  }

  /** A cancelled walk of child `i` ends the children loop with the outcome it had then. */
  lemma CancelledAt(kids: seq<Element>, i: nat, check: Element -> seq<Violation>, polls: nat, cancelAfter: nat)
    requires i < |kids|
    requires !WalkChildren(kids[..i + 1], check, polls, cancelAfter).ok
    ensures WalkChildren(kids, check, polls, cancelAfter) == WalkChildren(kids[..i + 1], check, polls, cancelAfter)
  {
    CancelledChildStopsSiblings(kids[..i + 1], kids[i + 1..], check, polls, cancelAfter);
    assert kids[..i + 1] + kids[i + 1..] == kids;
  }
}
