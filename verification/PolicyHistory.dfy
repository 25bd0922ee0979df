/** How finalizer policies evolve along a chain of blocks. */
module PolicyHistory {
  import opened Wrappers
  import opened Blocks
  import opened PolicyPromotion
  import opened HeaderStates

  /** The policies in force at a block, from the chain alone. */
  function PoliciesOf(b: Block): Policies {
    match b
    case Genesis(_, _, policy) => Policies(policy, None, [])
    case Child(prev, _, _, proposal, _) => Step(PoliciesOf(prev), Lib(b), Num(b), proposal)
  }

  function Active(b: Block): FinalizerPolicy { PoliciesOf(b).active }

  function Pending(b: Block): Option<Tracked> { PoliciesOf(b).pending }

  /** What the header state tracks is what the chain determines. */
  lemma {:induction false} StatePolicies(b: Block)
    requires WellFormed(b)
    ensures StateOf(b).policies == PoliciesOf(b)
  {
    if b.Child? { StatePolicies(b.previous); }
  }

  /** In every block's state, proposals are in block order with at most the first irreversible, a
      pending policy is still reversible, and generations increase from active to newest proposal. */
  lemma {:induction false} PoliciesOrdered(b: Block)
    requires WellFormed(b)
    ensures Ordered(PoliciesOf(b), Lib(b), Num(b), Generation(b))
  {
    if b.Child? {
      PoliciesOrdered(b.previous);
      LibIncreases(b.previous, b);
      LibFacts(b);
      ClaimsIncrease(b, b);
      StepKeepsOrder(PoliciesOf(b.previous), Lib(b.previous), Num(b.previous), Lib(b), Num(b), b.proposal,
                     Generation(b.previous), Generation(b));
    }
  }

  /** One block: the active policy changes only to the pending one, and only when the block that made
      it pending is final; a pending policy leaves its slot only then; a new one starts here. */
  lemma StepFacts(b: Block)
    requires b.Child?
    ensures Pending(b.previous).Some? && Pending(b.previous).value.num <= Lib(b) ==>
            Active(b) == Pending(b.previous).value.policy
    ensures Pending(b.previous).Some? && Lib(b) < Pending(b.previous).value.num ==>
              Active(b) == Active(b.previous) && Pending(b) == Pending(b.previous)
    ensures Pending(b.previous).None? ==> Active(b) == Active(b.previous)
    ensures Pending(b).Some? && Pending(b) != Pending(b.previous) ==> Pending(b).value.num == Num(b)
  {
  }

  ghost predicate StillAs(f: Block, y: Block) {
    && Active(y) == Active(f)
    && (if Pending(f).Some? then Pending(y) == Pending(f) else Pending(y).Some? ==> Num(f) < Pending(y).value.num)
  }

  ghost predicate Promoted(f: Block, y: Block) {
    && Pending(f).Some? && Active(y) == Pending(f).value.policy
    && (Pending(y).Some? ==> Num(f) < Pending(y).value.num)
  }

  /** While finality has not passed `f`, any block extending `f` has the policies of `f`, except that
      the policy pending at `f` may have become active. */
  lemma {:induction false} PolicyPersistence(f: Block, y: Block)
    requires WellFormed(y) && IsAncestor(f, y) && Lib(y) <= Num(f)
    ensures StillAs(f, y) || Promoted(f, y)
  {
    if f != y {
      TimeIncreases(f, y);
      AncestorFacts(f, y);
      LibIncreases(y.previous, y);
      PolicyPersistence(f, y.previous);
      StepFacts(y);
    }
  }

  ghost predicate SameAt(f: Block, e: Block, y: Block) {
    IsAncestor(f, e) && IsAncestor(e, y) ==> Active(e) == Active(f) && Pending(e) == Pending(f)
  }

  /** Every block from `f` to `y` carries `f`'s active and pending policies. */
  ghost predicate SameSince(f: Block, y: Block) { forall e :: SameAt(f, e, y) }

  /** `r` is the first block after `f` on its branch that does not carry `f`'s active policy, all blocks before it
      carrying `f`'s active and pending policies. */
  ghost predicate FirstChange(f: Block, r: Block) {
    r.Child? && IsAncestor(f, r.previous) && SameSince(f, r.previous) && Active(r) != Active(f)
  }

  lemma ProperAncestor(e: Block, y: Block)
    requires y.Child? && IsAncestor(e, y) && e != y
    ensures IsAncestor(e, y.previous)
  {
  }

  lemma SameOnce(f: Block, y: Block)
    requires y.Child? && IsAncestor(f, y.previous) && SameSince(f, y.previous) && Active(y) == Active(f)
             && Pending(y) == Pending(f)
    ensures SameSince(f, y)
  {
    forall e ensures SameAt(f, e, y) {
      assert SameAt(f, e, y.previous);
      if IsAncestor(e, y) && e != y { ProperAncestor(e, y); }
    }
  }

  lemma SameAtStart(f: Block)
    requires WellFormed(f)
    ensures SameSince(f, f)
  {
    forall e ensures SameAt(f, e, f) {
      if IsAncestor(f, e) && IsAncestor(e, f) { AncestorsBothWays(f, e); }
    }
  }

  lemma AncestorsBothWays(f: Block, e: Block)
    requires WellFormed(f) && IsAncestor(f, e) && IsAncestor(e, f)
    ensures e == f
  {
    AncestorFacts(e, f);
    if e != f {
      TimeIncreases(e, f);
      TimeIncreases(f, e);
    }
  }

  /** Fork agreement: from a block with a pending policy, on every branch the policies stay as they are until
      the active policy changes to that pending policy. */
  lemma {:induction false} ForkAgreement(f: Block, y: Block)
    requires WellFormed(y) && IsAncestor(f, y) && Pending(f).Some?
    ensures SameSince(f, y) ||
            exists r :: IsAncestor(f, r) && IsAncestor(r, y) && FirstChange(f, r)
              && Active(r) == Pending(f).value.policy
  {
    AncestorFacts(f, y);
    if f == y {
      SameAtStart(f);
    } else {
      TimeIncreases(f, y);
      ForkAgreement(f, y.previous);
      StepFacts(y);
      PoliciesOrdered(f);
      if SameSince(f, y.previous) {
        assert SameAt(f, y.previous, y.previous);
        if Pending(f).value.num <= Lib(y) {
          assert IsAncestor(y, y) && FirstChange(f, y);
        } else {
          SameOnce(f, y);
        }
      } else {
        var r :| IsAncestor(f, r) && IsAncestor(r, y.previous) && FirstChange(f, r)
          && Active(r) == Pending(f).value.policy;
        AncestorOfParent(r, y);
      }
    }
  }

  ghost predicate ActiveAt(f: Block, e: Block, y: Block) {
    IsAncestor(f, e) && IsAncestor(e, y) ==> Active(e) == Active(f)
  }

  /** `r` is the first block after `f` on its branch with another active policy. */
  ghost predicate ActiveChanges(f: Block, r: Block) {
    r.Child? && IsAncestor(f, r.previous) && (forall e :: ActiveAt(f, e, r.previous)) && Active(r) != Active(f)
  }

  /** So on any two branches the first change of the active policy is the same: to the policy pending at the fork. */
  lemma BranchesAgree(f: Block, r: Block, s: Block)
    requires WellFormed(r) && WellFormed(s) && Pending(f).Some? && ActiveChanges(f, r) && ActiveChanges(f, s)
    ensures Active(r) == Active(s) == Pending(f).value.policy
  {
    ActiveChangeIs(f, r);
    ActiveChangeIs(f, s);
  }

  lemma ActiveBefore(f: Block, c: Block, r: Block)
    requires ActiveChanges(f, r) && IsAncestor(f, c) && IsAncestor(c, r) && c != r
    ensures Active(c) == Active(f)
  {
    ProperAncestor(c, r);
    assert ActiveAt(f, c, r.previous);
  }

  lemma ActiveChangeIs(f: Block, r: Block)
    requires WellFormed(r) && Pending(f).Some? && ActiveChanges(f, r)
    ensures Active(r) == Pending(f).value.policy
  {
    AncestorOfParent(f, r);
    ForkAgreement(f, r);
    assert IsAncestor(r, r) && SameAt(f, r, r) ==> Active(r) == Active(f);
    if c :| IsAncestor(f, c) && IsAncestor(c, r) && FirstChange(f, c) && Active(c) == Pending(f).value.policy {
      if c != r { ActiveBefore(f, c, r); }
    }
  }

  // ----- Where a policy comes from -----

  /** A queued proposal was made by the ancestor it is filed under. */
  lemma {:induction false} ProposedBy(b: Block, t: Tracked)
    requires WellFormed(b) && t in PoliciesOf(b).proposed
    ensures Num(Root(b)) < t.num <= Num(b)
    ensures Anc(b, t.num).Child? && Anc(b, t.num).proposal == Some(t.policy)
  {
    if b.Child? && t != Tracked(Num(b), if b.proposal.Some? then b.proposal.value else t.policy) {
      assert t in PoliciesOf(b.previous).proposed;
      ProposedBy(b.previous, t);
    } else if b.Child? {
      if t in PoliciesOf(b.previous).proposed { ProposedBy(b.previous, t); }
    }
  }

  /** A pending policy was proposed at `p` and became pending at `q` with `p <= Lib(q) < q`. */
  lemma {:induction false} PendingHistory(b: Block) returns (p: nat)
    requires WellFormed(b) && Pending(b).Some?
    ensures var q := Pending(b).value.num;
            && Num(Root(b)) < p <= Lib(Anc(b, q)) < q <= Num(b)
            && Anc(b, p).Child? && Anc(b, p).proposal == Some(Pending(b).value.policy)
            && Pending(Anc(b, q)) == Pending(b)
  {
    if Pending(b) == Pending(b.previous) {
      p := PendingHistory(b.previous);
    } else {
      var t := NewPendingTarget(PoliciesOf(b.previous), Lib(b), Num(b), b.proposal);
      ProposedBy(b.previous, t);
      p := t.num;
      LibFacts(b);
      ClaimsIncrease(b, b);
    }
  }

  /** An active policy is the genesis policy, or was proposed at `p`, pending from `q` and active from
      `r` with `p <= Lib(q) < q <= Lib(r) < r`. */
  lemma {:induction false} ActiveHistory(b: Block) returns (p: nat, q: nat, r: nat)
    requires WellFormed(b) && Active(b) != Root(b).policy
    ensures Num(Root(b)) < p <= Lib(Anc(b, q)) < q <= Lib(Anc(b, r)) < r <= Num(b)
    ensures Anc(b, p).Child? && Anc(b, p).proposal == Some(Active(b))
    ensures Pending(Anc(b, q)) == Some(Tracked(q, Active(b))) && Active(Anc(b, r)) == Active(b)
  {
    StepFacts(b);
    if Active(b) == Active(b.previous) {
      p, q, r := ActiveHistory(b.previous);
    } else {
      p := PendingHistory(b.previous);
      q, r := Pending(b.previous).value.num, Num(b);
      LibFacts(b);
      ClaimsIncrease(b, b);
    }
  }
}
