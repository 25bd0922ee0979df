/** The network as a state machine, and what holds in every run of it. */
module Runs {
  import opened Wrappers
  import opened Blocks
  import opened HeaderStates
  import opened PolicyHistory
  import opened PolicyRetrieval
  import opened QuorumCertificates
  import opened Voting
  import opened VotingHistory
  import opened Network
  import opened Safety

  datatype ClaimError =
    | ClaimGoesBack | ClaimTooHigh | RedundantQc | ClaimNotStricter | MissingQc | QcNumberMismatch | QcStrengthMismatch

  /** The checks on a block's claim against its parent's, and on the certificate that comes with it. */
  function CheckClaim(parent: QcClaim, parentNum: nat, claim: QcClaim, qc: Option<Qc>): (e: Option<ClaimError>)
    ensures e.None? <==>
              && parent.AtMost(claim) && claim.num <= parentNum
              && if claim == parent then qc.None?
                 else qc.Some? && qc.value.num == claim.num && qc.value.IsStrong() == claim.strong
  {
    if claim.num < parent.num then Some(ClaimGoesBack)
    else if parentNum < claim.num then Some(ClaimTooHigh)
    else if claim.num == parent.num && claim.strong == parent.strong then
      if qc.Some? then Some(RedundantQc) else None
    else if claim.num == parent.num && !claim.strong then Some(ClaimNotStricter)
    else if qc.None? then Some(MissingQc)
    else if qc.value.num != claim.num then Some(QcNumberMismatch)
    else if qc.value.IsStrong() != claim.strong then Some(QcStrengthMismatch)
    else None
  }

  // ----- Steps -----

  /** Honest keys sign only the digest of a vote they cast; other signatures can always be made. */
  ghost predicate Signs(n: Net, k: Key, x: Block, strong: bool) {
    k in n.log ==> Vote(x, strong) in n.log[k]
  }

  ghost predicate SignedAt(n: Net, s: QcSig, p: FinalizerPolicy, x: Block, i: nat) {
    i < |p.finalizers| ==>
      (s.Strong(i) ==> Signs(n, p.finalizers[i].key, x, true))
        && (s.Weak(i) ==> Signs(n, p.finalizers[i].key, x, false))
  }

  ghost predicate Signed(n: Net, s: QcSig, p: FinalizerPolicy, x: Block) {
    forall i :: SignedAt(n, s, p, x, i)
  }

  /** `verify_qc` on the parent of the block that brings the certificate. */
  ghost predicate VerifiedQc(n: Net, parent: Block, qc: Qc)
    requires WellFormed(parent)
  {
    var s := StateOf(parent);
    && (qc.num == Num(parent) || 0 <= qc.num - s.core.LastFinalBlockNum() < |s.core.refs|)
    && var ref := RefAt(parent, s, qc.num);
       var found := GetFinalizerPolicies(s, ref);
       found.Some? && VerifiedAgainst(n, qc, ref.id, found.value.0, found.value.1)
  }

  ghost predicate VerifiedAgainst(n: Net, qc: Qc, x: Block, active: FinalizerPolicy, pending: Option<FinalizerPolicy>) {
    && ValidQc(qc, active, pending)
    && Signed(n, qc.active, active, x) && (pending.Some? ==> Signed(n, qc.pending.value, pending.value, x))
  }

  datatype Event =
    | Produce(block: Block, qc: Option<Qc>) | Cast(key: Key, block: Block) | Evidence(key: Key, block: Block)

  ghost predicate CanProduce(n: Net, b: Block, qc: Option<Qc>) {
    && b.Child? && b.previous in n.blocks && WellFormed(b.previous) && b.previous.time < b.time
    && (b.proposal.Some? ==> Generation(b.previous) < b.proposal.value.generation)
    && CheckClaim(ClaimOf(b.previous), Num(b.previous), b.claim, qc).None?
    && (qc.Some? ==> VerifiedQc(n, b.previous, qc.value))
  }

  ghost predicate CanCast(n: Net, k: Key, b: Block) {
    && k in n.safety && k in n.log && b in n.blocks && b.Child? && WellFormed(b)
    && ProposalOf(b).Defined() && Decide(n.safety[k], ProposalOf(b)).decision != NoVote
  }

  ghost predicate CanSeeEvidence(n: Net, k: Key, b: Block) {
    k in n.safety && k in n.log && b in n.blocks && WellFormed(b) && ProposalOf(b).Defined() && Signs(n, k, b, true)
  }

  ghost predicate Enabled(n: Net, e: Event) {
    match e
    case Produce(b, qc) => CanProduce(n, b, qc)
    case Cast(k, b) => CanCast(n, k, b)
    case Evidence(k, b) => CanSeeEvidence(n, k, b)
  }

  ghost function Record(n: Net, k: Key, fsi: SafetyInformation, v: Vote): Net
    requires k in n.log
  {
    n.(safety := n.safety[k := fsi], log := n.log[k := n.log[k] + [v]])
  }

  /** What an enabled event does; any other changes nothing. */
  ghost function Apply(n: Net, e: Event): Net {
    match e
    case Produce(b, qc) => if CanProduce(n, b, qc) then n.(blocks := n.blocks + {b}) else n
    case Cast(k, b) =>
      if CanCast(n, k, b) then
        var strong := Decide(n.safety[k], ProposalOf(b)).decision == StrongVote;
        Record(n, k, AfterVote(n.safety[k], ProposalOf(b)), Vote(b, strong))
      else n
    case Evidence(k, b) =>
      if CanSeeEvidence(n, k, b) then n.(safety := n.safety[k := AfterEvidence(n.safety[k], ProposalOf(b))]) else n
  }

  ghost predicate Init(n: Net) {
    && n.genesis.Genesis? && WellFormed(n.genesis) && n.blocks == {n.genesis} && n.log.Keys == n.safety.Keys
    && (forall k :: k in n.log.Keys ==> n.log[k] == [] && InitialSafety(n.genesis, n.safety[k]))
  }

  ghost predicate InitialSafety(g: Block, fsi: SafetyInformation) {
    && fsi.lock.Some? && fsi.lock.value.id == g && fsi.lock.value.timestamp == g.time
    && (fsi.lastVote.None? || fsi.lastVote == fsi.lock)
  }

  // ----- The invariant -----

  lemma InitInv(n: Net)
    requires Init(n)
    ensures Inv(n)
  {
    forall k | k in n.log.Keys ensures GoodFinalizer(n, k) { InitialHistory(n.genesis, n.safety[k]); }
  }

  /** A verified certificate is backed by enough votes, under the policies of the certified block. */
  lemma SignedQuorum(n: Net, s: QcSig, p: FinalizerPolicy, x: Block, strong: bool)
    requires QuorumSig(s, p) && Signed(n, s, p, x) && (strong ==> s.IsStrong())
    ensures HasQuorum(n, p, x, strong)
  {
    forall i: nat | i < |p.finalizers| && (s.Strong(i) || s.Weak(i))
      ensures p.finalizers[i].key in Endorsers(n, p, x, strong)
    {
      assert SignedAt(n, s, p, x, i);
      assert p.finalizers[i] in p.finalizers && Endorses(n, p.finalizers[i].key, x, strong);
    }
    SignersAreQuorum(s, p, Endorsers(n, p, x, strong));
  }

  lemma VerifiedQcHolds(n: Net, b: Block, qc: Qc)
    requires WellFormed(b) && b.Child? && VerifiedQc(n, b.previous, qc)
    requires qc.num == b.claim.num && qc.IsStrong() == b.claim.strong
    ensures HasQc(n, ClaimBlock(b), b.claim.strong)
  {
    var m := b.claim.num;
    var x := ClaimBlock(b);
    RetrievalIsExact(b.previous, m);
    LibFacts(b.previous);
    RefAtIs(b.previous, m);
    assert x == Anc(b.previous, m);
    assert VerifiedAgainst(n, qc, x, Active(x), PendingPolicy(x));
    SignedQuorum(n, qc.active, Active(x), x, b.claim.strong);
    if Pending(x).Some? { SignedQuorum(n, qc.pending.value, Pending(x).value.policy, x, b.claim.strong); }
  }

  ghost predicate VotesKept(n: Net, m: Net) {
    && n.genesis == m.genesis && n.blocks <= m.blocks && n.log.Keys == m.log.Keys
    && (forall k :: k in n.log ==> n.log[k] <= m.log[k])
  }

  lemma GoodBlockKept(n: Net, m: Net, b: Block)
    requires GoodBlock(n, b) && VotesKept(n, m)
    ensures GoodBlock(m, b)
  {
    var x, strong := ClaimBlock(b), ClaimOf(b).strong;
    if HasQc(n, x, strong) {
      forall k | Endorses(n, k, x, strong) ensures Endorses(m, k, x, strong) {
        if k in n.log {
          var v :| v in n.log[k] && v.block == x && (strong ==> v.strong);
          assert v in m.log[k];
        }
      }
      QcGrows(n, m, x, strong, strong);
    }
  }

  lemma NewBlockKeepsInv(n: Net, b: Block)
    requires Inv(n) && GoodBlock(n, b)
    ensures Inv(n.(blocks := n.blocks + {b}))
  {
    var m := n.(blocks := n.blocks + {b});
    forall c | c in m.blocks ensures GoodBlock(m, c) { GoodBlockKept(n, m, c); }
    forall k | k in m.log.Keys ensures GoodFinalizer(m, k) {
      assert GoodFinalizer(n, k);
      FinalizerKept(n, m, k);
    }
  }

  lemma FinalizerKept(n: Net, m: Net, k: Key)
    requires GoodFinalizer(n, k) && m.genesis == n.genesis && n.blocks <= m.blocks
    requires k in m.log && k in m.safety && m.log[k] == n.log[k] && m.safety[k] == n.safety[k]
    ensures GoodFinalizer(m, k)
  {
  }

  lemma RecordedFinalizer(n: Net, k: Key, fsi: SafetyInformation, v: Vote, j: Key)
    requires GoodFinalizer(n, k) && v.block in n.blocks
    requires SafeHistory(n.genesis, n.log[k] + [v]) && Summarises(n.genesis, fsi, n.log[k] + [v])
    requires GoodFinalizer(n, j)
    ensures GoodFinalizer(Record(n, k, fsi, v), j)
  {
    var m := Record(n, k, fsi, v);
    if j != k { FinalizerKept(n, m, j); } else { assert m.log[k] == n.log[k] + [v]; }
  }

  lemma RecordKeepsVotes(n: Net, k: Key, fsi: SafetyInformation, v: Vote)
    requires k in n.log
    ensures VotesKept(n, Record(n, k, fsi, v))
  {
  }

  lemma BlocksStayGood(n: Net, m: Net)
    requires (forall b :: b in n.blocks ==> GoodBlock(n, b)) && VotesKept(n, m) && m.blocks == n.blocks
    ensures forall c :: c in m.blocks ==> GoodBlock(m, c)
  {
    forall c | c in m.blocks ensures GoodBlock(m, c) { GoodBlockKept(n, m, c); }
  }

  lemma FinalizersStayGood(n: Net, k: Key, fsi: SafetyInformation, v: Vote)
    requires (forall j :: j in n.log.Keys ==> GoodFinalizer(n, j)) && k in n.log && v.block in n.blocks
    requires SafeHistory(n.genesis, n.log[k] + [v]) && Summarises(n.genesis, fsi, n.log[k] + [v])
    ensures var m := Record(n, k, fsi, v); forall j :: j in m.log.Keys ==> GoodFinalizer(m, j)
  {
    var m := Record(n, k, fsi, v);
    assert GoodFinalizer(n, k);
    forall j | j in m.log.Keys ensures GoodFinalizer(m, j) { RecordedFinalizer(n, k, fsi, v, j); }
  }

  lemma RecordKeepsInv(n: Net, k: Key, fsi: SafetyInformation, v: Vote)
    requires Inv(n) && k in n.log
    requires var m := Record(n, k, fsi, v); forall j :: j in m.log.Keys ==> GoodFinalizer(m, j)
    ensures Inv(Record(n, k, fsi, v))
  {
    RecordKeepsVotes(n, k, fsi, v);
    BlocksStayGood(n, Record(n, k, fsi, v));
  }

  lemma InheritedClaim(n: Net, b: Block)
    requires b.Child? && WellFormed(b) && Justified(n, b.previous) && b.claim == ClaimOf(b.previous)
    ensures Justified(n, b)
  {
    ClaimsIncrease(b.previous, b.previous);
    assert ClaimBlock(b) == ClaimBlock(b.previous);
  }

  lemma NewClaimHolds(n: Net, b: Block, qc: Option<Qc>)
    requires Inv(n) && CanProduce(n, b, qc)
    ensures GoodBlock(n, b)
  {
    assert GoodBlock(n, b.previous) && WellFormed(b);
    if qc.Some? { VerifiedQcHolds(n, b, qc.value); } else { InheritedClaim(n, b); }
  }

  lemma CastKeepsInv(n: Net, k: Key, b: Block)
    requires Inv(n) && CanCast(n, k, b)
    ensures Inv(Apply(n, Cast(k, b)))
  {
    assert GoodBlock(n, b) && GoodFinalizer(n, k);
    VoteKeepsHistory(n.genesis, n.safety[k], n.log[k], b);
    var v := Vote(b, Decide(n.safety[k], ProposalOf(b)).decision == StrongVote);
    FinalizersStayGood(n, k, AfterVote(n.safety[k], ProposalOf(b)), v);
    RecordKeepsInv(n, k, AfterVote(n.safety[k], ProposalOf(b)), v);
  }

  lemma SameEntry(m: map<Key, SafetyInformation>, k: Key, fsi: SafetyInformation)
    requires k in m && m[k] == fsi
    ensures m[k := fsi] == m
  {
  }

  /** Evidence of a finalizer's own earlier vote leaves the whole network as it is. */
  lemma EvidenceChangesNothing(n: Net, k: Key, b: Block)
    requires Inv(n) && CanSeeEvidence(n, k, b)
    ensures Apply(n, Evidence(k, b)) == n
  {
    assert GoodFinalizer(n, k);
    EvidenceIsRedundant(n.genesis, n.safety[k], n.log[k], Vote(b, true));
    SameEntry(n.safety, k, AfterEvidence(n.safety[k], ProposalOf(b)));
  }

  lemma StepKeepsInv(n: Net, e: Event)
    requires Inv(n) && Enabled(n, e)
    ensures Inv(Apply(n, e))
  {
    match e
    case Produce(b, qc) =>
      NewClaimHolds(n, b, qc);
      NewBlockKeepsInv(n, b);
    case Cast(k, b) => CastKeepsInv(n, k, b);
    case Evidence(k, b) => EvidenceChangesNothing(n, k, b);
  }

  // ----- Runs -----

  ghost predicate StepsTo(n: Net, m: Net) {
    exists e :: Enabled(n, e) && m == Apply(n, e)
  }

  /** A run of the network: a state sequence from an initial state by enabled events. */
  ghost predicate Run(states: seq<Net>) {
    states != [] && Init(states[0]) && forall i :: StepAt(states, i)
  }

  ghost predicate StepAt(states: seq<Net>, i: int) {
    0 <= i < |states| - 1 ==> StepsTo(states[i], states[i + 1])
  }

  lemma StepsKeepInv(n: Net, m: Net)
    requires Inv(n) && StepsTo(n, m)
    ensures Inv(m)
  {
    var e :| Enabled(n, e) && m == Apply(n, e);
    StepKeepsInv(n, e);
  }

  lemma {:induction false} RunKeepsInv(states: seq<Net>, i: nat)
    requires Run(states) && i < |states|
    ensures Inv(states[i])
  {
    if i == 0 {
      InitInv(states[0]);
    } else {
      RunKeepsInv(states, i - 1);
      assert StepAt(states, i - 1);
      StepsKeepInv(states[i - 1], states[i]);
    }
  }

  lemma StepKeepsBlocks(n: Net, m: Net)
    requires StepsTo(n, m)
    ensures n.blocks <= m.blocks
  {
    var e :| Enabled(n, e) && m == Apply(n, e);
  }

  lemma {:induction false} BlocksRemain(states: seq<Net>, i: nat, j: nat)
    requires Run(states) && i <= j < |states|
    ensures states[i].blocks <= states[j].blocks
  {
    if i < j {
      BlocksRemain(states, i, j - 1);
      assert StepAt(states, j - 1);
      StepKeepsBlocks(states[j - 1], states[j]);
    }
  }

  /** Safety of finality: in any run, what any block ever makes irreversible and what any block, then or
      later, makes irreversible lie on one chain, whatever policy changes happened in between. */
  lemma NoConflictingFinality(states: seq<Net>, i: nat, j: nat, b: Block, c: Block)
    requires Run(states) && i <= j < |states| && FaultBound(states[j])
    requires b in states[i].blocks && c in states[j].blocks
    ensures IsAncestor(LibBlock(b), LibBlock(c)) || IsAncestor(LibBlock(c), LibBlock(b))
  {
    RunKeepsInv(states, j);
    BlocksRemain(states, i, j);
    FinalityIsConsistent(states[j], b, c);
  }
}
