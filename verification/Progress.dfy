/** Runs in which finality advances and policies change: with one honest finalizer, as far as one likes. */
module Progress {
  import opened Wrappers
  import opened Blocks
  import opened FinalityCores
  import PolicyPromotion
  import opened HeaderStates
  import opened PolicyHistory
  import opened PolicyRetrieval
  import opened QuorumCertificates
  import opened Voting
  import opened VotingHistory
  import opened Network
  import opened Safety
  import opened Runs

  /** A genesis block whose policy has `k` as its only finalizer. */
  ghost predicate Solo(g: Block, k: Key) {
    g.Genesis? && g.num == 0 && g.time == 0 && g.policy == FinalizerPolicy(1, 1, [FinalizerAuthority(1, k)])
  }

  /** The policy of the genesis block under another generation number. */
  function Version(g: Block, generation: nat): FinalizerPolicy { Root(g).policy.(generation := generation) }

  /** Every fourth block proposes a new version of the policy. */
  function ProposalAt(g: Block, i: nat): Option<FinalizerPolicy> {
    if i % 4 == 1 then Some(Version(g, i / 4 + 2)) else None
  }

  /** Block `i` of a chain in which each block strongly claims its parent, from the second on. */
  function Tip(g: Block, i: nat): Block {
    if i == 0 then g
    else Child(Tip(g, i - 1), i, if i == 1 then QcClaim(0, false) else QcClaim(i - 1, true), ProposalAt(g, i), 0)
  }

  lemma {:induction false} TipIs(g: Block, k: Key, i: nat)
    requires Solo(g, k)
    ensures Num(Tip(g, i)) == i && Tip(g, i).time == i && WellFormed(Tip(g, i)) && Root(Tip(g, i)) == g
    ensures ClaimOf(Tip(g, i)) == if i <= 1 then QcClaim(0, false) else QcClaim(i - 1, true)
    ensures i > 0 ==> Tip(g, i).Child? && Tip(g, i).previous == Tip(g, i - 1)
    ensures Generation(Tip(g, i)) == (i + 3) / 4 + 1
  {
    if i > 0 { TipIs(g, k, i - 1); }
  }

  lemma TipClaims(g: Block, k: Key, i: nat)
    requires Solo(g, k)
    ensures i > 0 ==> ClaimBlock(Tip(g, i)) == Tip(g, i - 1)
    ensures i > 1 ==> Lib(Tip(g, i)) == i - 2
    ensures i == 1 ==> Lib(Tip(g, i)) == 0
  {
    TipIs(g, k, i);
    if i > 0 {
      TipIs(g, k, i - 1);
      var b, p := Tip(g, i), Tip(g, i - 1);
      assert Anc(p, i - 1) == p && Anc(b, i - 1) == Anc(p, i - 1);
    }
  }

  /** Two blocks after its proposal a version is pending, and another two blocks later it is active. */
  function ExpectedAt(g: Block, i: nat): PolicyPromotion.Policies {
    if i == 0 then PolicyPromotion.Policies(Version(g, 1), None, [])
    else
      var j, m := (i - 1) / 4, (i - 1) % 4;
      if m <= 1 then PolicyPromotion.Policies(Version(g, j + 1), None,
                                              [PolicyPromotion.Tracked(4 * j + 1, Version(g, j + 2))])
      else PolicyPromotion.Policies(Version(g, j + 1), Some(PolicyPromotion.Tracked(4 * j + 3, Version(g, j + 2))), [])
  }

  lemma {:induction false} TipPolicies(g: Block, k: Key, i: nat)
    requires Solo(g, k)
    ensures PoliciesOf(Tip(g, i)) == ExpectedAt(g, i)
  {
    if i > 0 {
      TipPolicies(g, k, i - 1);
      TipIs(g, k, i);
      TipClaims(g, k, i);
      ExpectedStep(g, i, if i == 1 then 0 else i - 2);
    }
  }

  lemma ExpectedStep(g: Block, i: nat, lib: nat)
    requires i > 0 && lib == (if i == 1 then 0 else i - 2)
    ensures PolicyPromotion.Step(ExpectedAt(g, i - 1), lib, i, ProposalAt(g, i)) == ExpectedAt(g, i)
  {
    if (i - 1) % 4 == 0 { NewRound(g, i, lib, (i - 1) / 4); } else { RoundGoesOn(g, i, lib, (i - 1) / 4, (i - 1) % 4); }
  }

  /** Block `4 * j + 1`: what was pending becomes active, and the next version is proposed. */
  lemma NewRound(g: Block, i: nat, lib: nat, j: nat)
    requires i == 4 * j + 1 && lib == (if j == 0 then 0 else i - 2)
    ensures PolicyPromotion.Step(ExpectedAt(g, i - 1), lib, i, ProposalAt(g, i)) == ExpectedAt(g, i)
  {
    if j > 0 { assert (i - 2) / 4 == j - 1 && (i - 2) % 4 == 3; }
  }

  /** The three blocks after it: the proposal waits, becomes pending, and waits again. */
  lemma RoundGoesOn(g: Block, i: nat, lib: nat, j: nat, m: nat)
    requires 1 <= m <= 3 && i == 4 * j + 1 + m && lib == i - 2
    ensures PolicyPromotion.Step(ExpectedAt(g, i - 1), lib, i, ProposalAt(g, i)) == ExpectedAt(g, i)
  {
    assert (i - 2) / 4 == j && (i - 1) / 4 == j && (i - 1) % 4 == m && (i - 2) % 4 == m - 1;
    var p := ExpectedAt(g, i - 1);
    PolicyPromotion.FirstReversibleIs(p.proposed, lib, if m == 2 then 1 else 0);
    assert p.proposed[0..] == p.proposed;
  }

  // ----- The next block -----

  const SIGNED := QcSig(Some([true]), None)

  function TipQc(g: Block, i: nat): Option<Qc> {
    if i == 0 then None else Some(Qc(i, SIGNED, if ExpectedAt(g, i).pending.Some? then Some(SIGNED) else None))
  }

  ghost predicate IsSolo(p: FinalizerPolicy, k: Key) { p.finalizers == [FinalizerAuthority(1, k)] && p.threshold == 1 }

  lemma SoloWeights(p: FinalizerPolicy, k: Key, honest: set<Key>)
    requires IsSolo(p, k) && k in honest
    ensures Weight(p.finalizers, [true]) == 1 && Total(p.finalizers) == 1 && Tolerates(p, honest)
  {
    var f, none: seq<FinalizerAuthority> := p.finalizers, [];
    assert f[..0] == none && [true][..0] == [];
    assert Weight(none, []) == 0 && Total(none) == 0 && WeightOf(none, KeysOf(f) - honest) == 0;
  }

  lemma SignedIsQuorum(p: FinalizerPolicy, k: Key)
    requires IsSolo(p, k)
    ensures QuorumSig(SIGNED, p)
  {
    SoloWeights(p, k, {k});
    forall j: nat ensures !(SIGNED.Strong(j) && SIGNED.Weak(j)) { }
  }

  lemma VerifiedAt(n: Net, b: Block, qc: Qc, ref: BlockRef, active: FinalizerPolicy, pending: Option<FinalizerPolicy>)
    requires WellFormed(b) && qc.num == Num(b) && ref == MakeBlockRef(b, StateOf(b))
    requires GetFinalizerPolicies(StateOf(b), ref) == Some((active, pending))
             && VerifiedAgainst(n, qc, b, active, pending)
    ensures VerifiedQc(n, b, qc)
  {
  }

  lemma SoloSigned(n: Net, b: Block, p: FinalizerPolicy, k: Key)
    requires IsSolo(p, k) && (k in n.log ==> Vote(b, true) in n.log[k])
    ensures Signed(n, SIGNED, p, b)
  {
    forall j: nat ensures SignedAt(n, SIGNED, p, b, j) { }
  }

  ghost predicate OnlySigned(qc: Qc, pending: Option<FinalizerPolicy>) {
    qc.active == SIGNED && qc.pending == if pending.Some? then Some(SIGNED) else None
  }

  lemma SoloQcIsBacked(n: Net, b: Block, qc: Qc, p: FinalizerPolicy, q: Option<FinalizerPolicy>, k: Key)
    requires OnlySigned(qc, q) && IsSolo(p, k) && (q.Some? ==> IsSolo(q.value, k))
    requires k in n.log ==> Vote(b, true) in n.log[k]
    ensures VerifiedAgainst(n, qc, b, p, q)
  {
    SignedIsQuorum(p, k);
    SoloSigned(n, b, p, k);
    if q.Some? {
      SignedIsQuorum(q.value, k);
      SoloSigned(n, b, q.value, k);
      forall i, j ensures DualVoteAgrees(SIGNED, p, SIGNED, q.value, i, j) { }
    }
  }

  lemma QcIsVerified(n: Net, b: Block, qc: Qc, k: Key)
    requires WellFormed(b) && qc.num == Num(b) && OnlySigned(qc, PendingPolicy(b))
    requires IsSolo(Active(b), k) && (PendingPolicy(b).Some? ==> IsSolo(PendingPolicy(b).value, k))
    requires k in n.log ==> Vote(b, true) in n.log[k]
    ensures VerifiedQc(n, b, qc)
  {
    ClaimsIncrease(b, b);
    RetrievalIsExact(b, Num(b));
    assert Anc(b, Num(b)) == b;
    SoloQcIsBacked(n, b, qc, Active(b), PendingPolicy(b), k);
    VerifiedAt(n, b, qc, MakeBlockRef(b, StateOf(b)), Active(b), PendingPolicy(b));
  }

  // ----- The next vote -----

  lemma StrongFor(fsi: SafetyInformation, p: Proposal)
    requires p.Defined() && fsi.lock.Some? && TimeOf(fsi.lastVote) <= p.QcTime()
    requires fsi.lastVote.Some? ==> TimeOf(fsi.lastVote) < p.ref.timestamp
    requires TimeOf(fsi.lock) < p.QcTime() || p.core.Extends(fsi.lock.value.id)
    ensures Decide(fsi, p).decision == StrongVote
  {
  }

  /** A finalizer votes strongly if its last vote is not newer than the claimed block and the lock allows it. */
  lemma VotesStrongly(fsi: SafetyInformation, b: Block)
    requires WellFormed(b) && b.Child? && fsi.lock.Some?
    requires TimeOf(fsi.lastVote) <= ClaimBlock(b).time
    requires TimeOf(fsi.lock) < ClaimBlock(b).time ||
             (IsAncestor(fsi.lock.value.id, b) && fsi.lock.value.id != b && Lib(b) <= Num(fsi.lock.value.id))
    ensures ProposalOf(b).Defined() && Decide(fsi, ProposalOf(b)).decision == StrongVote
    ensures VoteEffect(fsi, b, true, AfterVote(fsi, ProposalOf(b)))
  {
    ClaimBlockFacts(b);
    ProposalFacts(b, b);
    ExtendsIsAncestor(b, StateOf(b).core, fsi.lock.value.id);
    StrongFor(fsi, ProposalOf(b));
    DecideEffect(fsi, b);
  }

  // ----- The run -----

  /** The finalizer has voted strongly on every block so far, the last one being block `i`. */
  ghost predicate Happy(n: Net, k: Key, i: nat) {
    && Solo(n.genesis, k) && Tip(n.genesis, i) in n.blocks && (forall b :: b in n.blocks ==> IsTip(n, b))
    && k in n.log && k in n.safety && (i > 0 ==> Vote(Tip(n.genesis, i), true) in n.log[k])
    && HappySafety(n.genesis, n.safety[k], i)
  }

  ghost predicate IsTip(n: Net, b: Block) {
    exists j :: b == Tip(n.genesis, j)
  }

  ghost predicate HappySafety(g: Block, fsi: SafetyInformation, i: nat) {
    && fsi.lock.Some? && TimeOf(fsi.lock) <= (if i == 0 then 0 else i - 1) && (i == 0 ==> fsi.lock.value.id == g)
    && if i == 0 then fsi.lastVote.None? else fsi.lastVote.Some? && TimeOf(fsi.lastVote) == i
  }

  lemma NextIsProduced(n: Net, k: Key, i: nat)
    requires Happy(n, k, i)
    ensures CanProduce(n, Tip(n.genesis, i + 1), TipQc(n.genesis, i))
  {
    var g := n.genesis;
    TipIs(g, k, i);
    TipIs(g, k, i + 1);
    if i > 0 {
      TipPolicies(g, k, i);
      QcIsVerified(n, Tip(g, i), TipQc(g, i).value, k);
    }
  }

  lemma StaysHappy(g: Block, fsi: SafetyInformation, b: Block, after: SafetyInformation, i: nat)
    requires HappySafety(g, fsi, i) && VoteEffect(fsi, b, true, after) && b.time == i + 1 && ClaimBlock(b).time == i
    ensures HappySafety(g, after, i + 1)
  {
  }

  lemma NextIsVoted(g: Block, k: Key, fsi: SafetyInformation, i: nat)
    requires Solo(g, k) && HappySafety(g, fsi, i)
    ensures var b := Tip(g, i + 1);
            && WellFormed(b) && b.Child? && ProposalOf(b).Defined() && Decide(fsi, ProposalOf(b)).decision == StrongVote
            && HappySafety(g, AfterVote(fsi, ProposalOf(b)), i + 1)
  {
    var b := Tip(g, i + 1);
    TipIs(g, k, i);
    TipIs(g, k, i + 1);
    TipClaims(g, k, i + 1);
    if i == 0 { FirstExtends(g, k); }
    VotesStrongly(fsi, b);
    StaysHappy(g, fsi, b, AfterVote(fsi, ProposalOf(b)), i);
  }

  lemma FirstExtends(g: Block, k: Key)
    requires Solo(g, k)
    ensures IsAncestor(g, Tip(g, 1)) && g != Tip(g, 1)
  {
    TipIs(g, k, 1);
    AncestorOfRoot(Tip(g, 1));
  }

  lemma AfterProducing(n: Net, k: Key, i: nat, m: Net)
    requires Happy(n, k, i) && m == n.(blocks := n.blocks + {Tip(n.genesis, i + 1)})
    ensures Happy(m, k, i)
  {
    forall b | b in m.blocks ensures IsTip(m, b) {
      if b in n.blocks { assert IsTip(n, b); }
    }
  }

  lemma AfterVoting(m: Net, k: Key, i: nat, fsi: SafetyInformation)
    requires Happy(m, k, i) && Tip(m.genesis, i + 1) in m.blocks && HappySafety(m.genesis, fsi, i + 1)
    ensures Happy(Record(m, k, fsi, Vote(Tip(m.genesis, i + 1), true)), k, i + 1)
  {
    var r := Record(m, k, fsi, Vote(Tip(m.genesis, i + 1), true));
    forall b | b in r.blocks ensures IsTip(r, b) { assert IsTip(m, b); }
  }

  lemma ProduceStep(n: Net, k: Key, i: nat) returns (m: Net)
    requires Happy(n, k, i)
    ensures StepsTo(n, m) && Happy(m, k, i) && m.genesis == n.genesis && Tip(m.genesis, i + 1) in m.blocks
  {
    var e := Produce(Tip(n.genesis, i + 1), TipQc(n.genesis, i));
    NextIsProduced(n, k, i);
    m := n.(blocks := n.blocks + {Tip(n.genesis, i + 1)});
    assert Enabled(n, e) && m == Apply(n, e);
    AfterProducing(n, k, i, m);
  }

  lemma CastStep(m: Net, k: Key, i: nat) returns (r: Net)
    requires Happy(m, k, i) && Tip(m.genesis, i + 1) in m.blocks
    ensures StepsTo(m, r) && Happy(r, k, i + 1) && r.genesis == m.genesis
  {
    var b := Tip(m.genesis, i + 1);
    NextIsVoted(m.genesis, k, m.safety[k], i);
    var fsi := AfterVote(m.safety[k], ProposalOf(b));
    r := Record(m, k, fsi, Vote(b, true));
    assert Enabled(m, Cast(k, b)) && r == Apply(m, Cast(k, b));
    AfterVoting(m, k, i, fsi);
  }

  lemma HappyStart(g: Block, k: Key) returns (n: Net)
    requires Solo(g, k)
    ensures Init(n) && Happy(n, k, 0) && n.genesis == g
  {
    var fsi := SafetyInformation(None, Some(BlockRef(g, 0, 1, 0)), 0);
    n := Net(g, {g}, map[k := fsi], map[k := []]);
    assert g == Tip(g, 0) && IsTip(n, g);
  }

  /** A run can be continued by a block and a vote. */
  lemma HappyMore(before: seq<Net>, k: Key, i: nat) returns (states: seq<Net>)
    requires Runs.Run(before) && Happy(before[|before| - 1], k, i)
    ensures Runs.Run(states) && Happy(states[|states| - 1], k, i + 1)
    ensures states[|states| - 1].genesis == before[|before| - 1].genesis
  {
    var m := ProduceStep(before[|before| - 1], k, i);
    states := before + [m];
    ExtendsRun(before, m, states);
    var r := CastStep(m, k, i);
    ExtendsRun(states, r, states + [r]);
    states := states + [r];
  }

  lemma {:induction false} HappyRun(g: Block, k: Key, i: nat) returns (states: seq<Net>)
    requires Solo(g, k)
    ensures Runs.Run(states) && Happy(states[|states| - 1], k, i) && states[|states| - 1].genesis == g
  {
    if i == 0 {
      var n := HappyStart(g, k);
      states := [n];
    } else {
      states := HappyRun(g, k, i - 1);
      states := HappyMore(states, k, i - 1);
    }
  }

  lemma ExtendsRun(before: seq<Net>, r: Net, states: seq<Net>)
    requires Runs.Run(before) && StepsTo(before[|before| - 1], r) && states == before + [r]
    ensures Runs.Run(states)
  {
    forall j ensures StepAt(states, j) { assert StepAt(before, j); }
  }

  lemma HappyTolerates(n: Net, k: Key, i: nat)
    requires Happy(n, k, i)
    ensures FaultBound(n)
  {
    forall b | b in n.blocks ensures FaultBoundAt(n, b) {
      assert IsTip(n, b);
      var j :| b == Tip(n.genesis, j);
      TipPolicies(n.genesis, k, j);
      SoloWeights(Active(b), k, n.log.Keys);
      if Pending(b).Some? { SoloWeights(Pending(b).value.policy, k, n.log.Keys); }
    }
  }

  /** For every height there is a run within the fault bound that makes the block of that height irreversible, with
      one change of the active policy for every four blocks on the way. */
  lemma FinalityAdvances(height: nat) returns (states: seq<Net>, b: Block)
    ensures Runs.Run(states) && FaultBound(states[|states| - 1])
    ensures b in states[|states| - 1].blocks && Lib(b) == height
    ensures Active(b).generation == (height + 1) / 4 + 1
  {
    var k := 7;
    var g := Genesis(0, 0, FinalizerPolicy(1, 1, [FinalizerAuthority(1, k)]));
    states := HappyRun(g, k, height + 2);
    b := Tip(g, height + 2);
    TipClaims(g, k, height + 2);
    TipPolicies(g, k, height + 2);
    HappyTolerates(states[|states| - 1], k, height + 2);
  }
}
