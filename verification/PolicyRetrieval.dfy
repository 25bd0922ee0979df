/** `get_finalizer_policies` recovers the policies of any block a quorum certificate may be claimed for. */
module PolicyRetrieval {
  import opened Wrappers
  import opened Blocks
  import opened FinalityCores
  import opened HeaderStates
  import opened PolicyHistory

  function PendingPolicy(b: Block): Option<FinalizerPolicy> {
    if Pending(b).Some? then Some(Pending(b).value.policy) else None
  }

  /** Every reference in a core is the reference its block would make of itself. */
  lemma {:induction false} RefsAreBlocks(b: Block, r: BlockRef)
    requires WellFormed(b) && r in StateOf(b).core.refs
    ensures IsAncestor(r.id, b) && WellFormed(r.id) && r == MakeBlockRef(r.id, StateOf(r.id))
  {
    assert RefIs(b, r);
    AncestorFacts(r.id, b);
    if b.Child? {
      var ps := StateOf(b.previous);
      FinishNextDefined(b, ps);
      NextRefMembers(ps.core, MakeBlockRef(b.previous, ps), b.claim, r);
      if r in ps.core.refs { RefsAreBlocks(b.previous, r); }
    }
  }

  lemma RefAtIs(b: Block, n: nat)
    requires WellFormed(b) && Lib(b) <= n <= Num(b)
    ensures n == Num(b) || 0 <= n - StateOf(b).core.LastFinalBlockNum() < |StateOf(b).core.refs|
    ensures WellFormed(Anc(b, n)) && RefAt(b, StateOf(b), n) == MakeBlockRef(Anc(b, n), StateOf(Anc(b, n)))
  {
    LibFacts(b);
    AncNum(b, n);
    if n < Num(b) {
      ReferenceIsAncestor(b, StateOf(b).core, n);
      RefsAreBlocks(b, StateOf(b).core.GetBlockReference(n));
    }
  }

  lemma SettledGenerations(b: Block)
    requires WellFormed(b)
    ensures Pending(b).Some? ==> 0 <= Active(b).generation < Pending(b).value.policy.generation
  {
    PoliciesOrdered(b);
  }

  /** From the claimed block on, only two policies have been active, and whatever was pending is
      pending still or has become active. */
  lemma AtMostOneActivation(b: Block, n: nat)
    requires WellFormed(b) && ClaimOf(b).num <= n <= Num(b)
    ensures var f, y := ClaimBlock(b), Anc(b, n);
            && WellFormed(y)
            && (Active(y) == Active(b) || (Active(y) == Active(f) && Active(y).generation != Active(b).generation))
            && (Pending(y).Some? ==> PendingPolicy(y).value == Active(b) ||
                                     (Pending(b) == Pending(y)
                                      && Active(b).generation < PendingPolicy(y).value.generation))
  {
    var f, y := ClaimBlock(b), Anc(b, n);
    LibFacts(b);
    ClaimBlockFacts(b);
    AncNum(b, n);
    AncAnc(b, n, Num(f));
    assert IsAncestor(f, y) && IsAncestor(y, b);
    LibIncreases(y, b);
    PolicyPersistence(f, b);
    PolicyPersistence(y, b);
    PolicyPersistence(f, y);
    SettledGenerations(f);
    SettledGenerations(y);
    SettledGenerations(b);
  }

  lemma Retrieves(s: HeaderState, ref: BlockRef, active: FinalizerPolicy, pending: Option<FinalizerPolicy>)
    requires ref.activeGeneration == active.generation
    requires ref.pendingGeneration == if pending.Some? then pending.value.generation else 0
    requires pending.Some? ==> 0 < pending.value.generation
    requires active == s.policies.active ||
             (active.generation != s.policies.active.generation && s.claimActive == Some(active))
    requires pending.Some? ==>
               pending.value == s.policies.active ||
               (s.policies.pending.Some? && s.policies.pending.value.policy == pending.value
                && s.policies.active.generation < pending.value.generation)
    ensures GetFinalizerPolicies(s, ref) == Some((active, pending))
  {
  }

  /** Retrieval never raises its logic error, and returns the policies the block itself had. */
  lemma {:induction false} RetrievalIsExact(b: Block, n: nat)
    requires WellFormed(b) && ClaimOf(b).num <= n <= Num(b)
    ensures n == Num(b) || 0 <= n - StateOf(b).core.LastFinalBlockNum() < |StateOf(b).core.refs|
    ensures GetFinalizerPolicies(StateOf(b), RefAt(b, StateOf(b), n))
            == Some((Active(Anc(b, n)), PendingPolicy(Anc(b, n))))
    decreases b, 1
  {
    LibFacts(b);
    RefAtIs(b, n);
    var y := Anc(b, n);
    StatePolicies(b);
    StatePolicies(y);
    AtMostOneActivation(b, n);
    SettledGenerations(y);
    ClaimedActiveIs(b);
    Retrieves(StateOf(b), RefAt(b, StateOf(b), n), Active(y), PendingPolicy(y));
  }

  /** The extra policy a header state keeps is the one active at the claimed block. */
  lemma {:induction false} ClaimedActiveIs(b: Block)
    requires WellFormed(b)
    ensures Active(ClaimBlock(b)).generation != Active(b).generation ==>
            StateOf(b).claimActive == Some(Active(ClaimBlock(b)))
    decreases b, 0
  {
    if b.Child? {
      var n := b.claim.num;
      ClaimBlockFacts(b);
      RetrievalIsExact(b.previous, n);
      LibFacts(b.previous);
      RefAtIs(b.previous, n);
      assert Anc(b.previous, n) == ClaimBlock(b);
      StatePolicies(b);
      StatePolicies(ClaimBlock(b));
    }
  }
}
