/** The consensus part of a block header state, as a function of the block. */
module HeaderStates {
  import opened Wrappers
  import opened Blocks
  import opened FinalityCores
  import opened PolicyPromotion

  /** `claimActive` is the policy that was active at the latest claimed block, when a pending policy
      has replaced it since. */
  datatype HeaderState = HeaderState(core: FinalityCore, policies: Policies, claimActive: Option<FinalizerPolicy>)

  function MakeBlockRef(b: Block, s: HeaderState): BlockRef {
    BlockRef(b, b.time, s.policies.active.generation,
             if s.policies.pending.Some? then s.policies.pending.value.policy.generation else 0)
  }

  /** The policies a quorum certificate for the referenced block is checked against; `None` is the
      source's "logic error" exception. */
  function GetFinalizerPolicies(s: HeaderState, ref: BlockRef): Option<(FinalizerPolicy, Option<FinalizerPolicy>)> {
    var p := s.policies;
    var active := if p.active.generation == ref.activeGeneration then Some(p.active)
                  else if s.claimActive.Some? && s.claimActive.value.generation == ref.activeGeneration
                       then s.claimActive
                  else None;
    if active.None? then None
    else if ref.pendingGeneration == 0 then Some((active.value, None))
    else if ref.pendingGeneration == p.active.generation then Some((active.value, Some(p.active)))
    else if p.pending.Some? && p.pending.value.policy.generation == ref.pendingGeneration then
      Some((active.value, Some(p.pending.value.policy)))
    else None
  }

  /** The core is exactly what the chain says: links and references list ancestors, and the last
      final block is the one the two-chain rule defines. */
  ghost predicate CoreOf(b: Block, c: FinalityCore) {
    && c.Valid()
    && c.CurrentBlockNum() == Num(b) && c.LatestQcClaim() == ClaimOf(b)
    && c.LastFinalBlockNum() == Lib(b) && c.links[0].source == LibSource(b)
    && (c.IsGenesisCore() <==> b.Genesis?) && c.genesisTimestamp == Root(b).time
    && (forall l :: l in c.links ==> LinkIs(b, l))
    && (forall r :: r in c.refs ==> RefIs(b, r))
  }

  ghost predicate LinkIs(b: Block, l: QcLink) {
    l.source <= Num(b) && l.target == ClaimOf(Anc(b, l.source)).num
  }

  ghost predicate RefIs(b: Block, r: BlockRef) {
    Num(r.id) < Num(b) && IsAncestor(r.id, b) && r.timestamp == r.id.time
  }

  /** The sizes and ranges a core that belongs to a block guarantees. */
  lemma CoreRanges(b: Block, c: FinalityCore)
    requires WellFormed(b) && CoreOf(b, c)
    ensures |c.refs| == Num(b) - Lib(b) && |c.links| == Num(b) - LibSource(b) + 1
    ensures Lib(b) <= LibSource(b) <= ClaimOf(b).num <= Num(b)
    ensures b.Child? ==> ClaimOf(b).num < Num(b)
  {
    CoreSizes(c);
    LibFacts(b);
    ClaimsIncrease(b, b);
  }

  /** Every reference is the ancestor with the requested number. */
  lemma ReferenceIsAncestor(b: Block, c: FinalityCore, num: nat)
    requires WellFormed(b) && CoreOf(b, c) && Lib(b) <= num < Num(b)
    ensures 0 <= num - c.LastFinalBlockNum() < |c.refs|
    ensures c.GetBlockReference(num).id == Anc(b, num) && c.GetBlockReference(num).timestamp == Anc(b, num).time
  {
    CoreRanges(b, c);
    BlockReferenceHasNum(c, num);
    assert RefIs(b, c.GetBlockReference(num));
  }

  /** `extends` never mistakes another branch for an ancestor, and misses an ancestor only when it is
      older than the last irreversible block. */
  lemma ExtendsIsAncestor(b: Block, c: FinalityCore, id: Block)
    requires WellFormed(b) && CoreOf(b, c)
    ensures c.CurrentBlockNum() - c.LastFinalBlockNum() <= |c.refs|
    ensures c.Extends(id) <==> IsAncestor(id, b) && id != b && Lib(b) <= Num(id)
  {
    CoreRanges(b, c);
    if Lib(b) <= Num(id) < Num(b) {
      ReferenceIsAncestor(b, c, Num(id));
    } else if IsAncestor(id, b) && id != b {
      TimeIncreases(id, b);
    }
  }

  lemma QcTimestampIs(b: Block, c: FinalityCore)
    requires WellFormed(b) && CoreOf(b, c)
    ensures c.refs != [] ==> 0 <= c.LatestQcClaim().num - c.LastFinalBlockNum() < |c.refs|
    ensures c.LatestQcBlockTimestamp() == ClaimBlock(b).time
  {
    CoreRanges(b, c);
    if b.Child? { ReferenceIsAncestor(b, c, ClaimOf(b).num); }
  }

  lemma NextRequirementsHold(b: Block, c: FinalityCore, ref: BlockRef)
    requires WellFormed(b) && b.Child? && CoreOf(b.previous, c) && ref.id == b.previous
             && ref.timestamp == b.previous.time
    ensures NextRequires(c, ref, b.claim) && c.NextDefined(b.claim)
  {
    CoreSizes(c);
    if c.refs != [] {
      assert RefIs(b.previous, c.refs[|c.refs| - 1]);
      assert Anc(b.previous, Num(b.previous) - 1) == b.previous.previous;
    }
    NewNumbersInRange(c, b.claim);
  }

  /** The two-chain rule computed from the links is the one computed from the chain. */
  lemma NewNumbersAre(b: Block, c: FinalityCore)
    requires WellFormed(b) && b.Child? && CoreOf(b.previous, c) && c.NextDefined(b.claim)
    ensures c.NewLastFinal(b.claim) == Lib(b) && c.NewLinkSource(b.claim) == LibSource(b)
  {
    if b.claim.strong {
      var i := b.claim.num - c.links[0].source;
      assert LinkInPlace(c.links, i) && LinkIs(b.previous, c.links[i]);
    }
  }

  lemma LinkStays(b: Block, l: QcLink)
    requires b.Child? && (LinkIs(b.previous, l) || l == QcLink(Num(b), b.claim.num, b.claim.strong))
    ensures LinkIs(b, l)
  {
  }

  lemma RefStays(b: Block, r: BlockRef)
    requires b.Child? && (RefIs(b.previous, r) || (r.id == b.previous && r.timestamp == b.previous.time))
    ensures RefIs(b, r)
  {
    AncestorOfParent(r.id, b);
  }

  lemma NextCoreOf(b: Block, c: FinalityCore, ref: BlockRef)
    requires WellFormed(b) && b.Child? && CoreOf(b.previous, c) && ref.id == b.previous
             && ref.timestamp == b.previous.time
    ensures NextRequires(c, ref, b.claim) && c.NextDefined(b.claim) && CoreOf(b, c.Next(ref, b.claim))
  {
    NextRequirementsHold(b, c, ref);
    NewNumbersAre(b, c);
    NextKeepsInvariants(c, ref, b.claim);
    forall l | l in c.NextLinks(b.claim) ensures LinkIs(b, l) {
      NextLinkMembers(c, b.claim, l);
      LinkStays(b, l);
    }
    forall r | r in c.NextRefs(ref, b.claim) ensures RefIs(b, r) {
      NextRefMembers(c, ref, b.claim, r);
      RefStays(b, r);
    }
  }

  /** The reference of block `num`, which is `b` itself or one the core still knows. */
  function RefAt(b: Block, s: HeaderState, num: nat): BlockRef
    requires s.core.links != [] && (num == Num(b) || 0 <= num - s.core.LastFinalBlockNum() < |s.core.refs|)
  {
    if num == Num(b) then MakeBlockRef(b, s) else s.core.GetBlockReference(num)
  }

  function FinishNext(b: Block, ps: HeaderState): HeaderState
    requires b.Child? && ps.core.NextDefined(b.claim)
    requires b.claim.num == Num(b.previous) || 0 <= b.claim.num - ps.core.LastFinalBlockNum() < |ps.core.refs|
  {
    var core := ps.core.Next(MakeBlockRef(b.previous, ps), b.claim);
    var policies := Step(ps.policies, core.LastFinalBlockNum(), Num(b), b.proposal);
    var claimed := RefAt(b.previous, ps, b.claim.num);
    var found := GetFinalizerPolicies(ps, claimed);
    var claimActive := if claimed.activeGeneration != policies.active.generation && found.Some? then Some(found.value.0)
                       else None;
    HeaderState(core, policies, claimActive)
  }

  lemma FinishNextDefined(b: Block, ps: HeaderState)
    requires WellFormed(b) && b.Child? && CoreOf(b.previous, ps.core)
    ensures ps.core.NextDefined(b.claim)
    ensures b.claim.num == Num(b.previous) || 0 <= b.claim.num - ps.core.LastFinalBlockNum() < |ps.core.refs|
    ensures CoreOf(b, FinishNext(b, ps).core)
  {
    NextCoreOf(b, ps.core, MakeBlockRef(b.previous, ps));
    CoreRanges(b.previous, ps.core);
  }

  function StateOf(b: Block): (s: HeaderState)
    requires WellFormed(b)
    ensures CoreOf(b, s.core)
  {
    match b
    case Genesis(_, _, policy) =>
      HeaderState(CreateCoreForGenesisBlock(b), Policies(policy, None, []), None)
    case Child(prev, _, _, _, _) =>
      FinishNextDefined(b, StateOf(prev));
      FinishNext(b, StateOf(prev))
  }
}
