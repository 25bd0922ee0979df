/** From every reachable state with enough honest finalizers, finality can go on. */
module Liveness {
  import opened Wrappers
  import opened Blocks
  import PolicyPromotion
  import opened HeaderStates
  import opened PolicyHistory
  import opened PolicyRetrieval
  import opened QuorumCertificates
  import opened Voting
  import opened VotingHistory
  import opened Network
  import opened Safety
  import opened Runs
  import opened Progress

  // ----- Continuations of a run -----

  ghost predicate Path(states: seq<Net>, n: Net, m: Net) {
    states != [] && states[0] == n && states[|states| - 1] == m && forall i :: StepAt(states, i)
  }

  ghost predicate Reaches(n: Net, m: Net) { exists states :: Path(states, n, m) }

  lemma ReachesSelf(n: Net)
    ensures Reaches(n, n)
  {
    assert Path([n], n, n);
  }

  lemma StepReaches(n: Net, m: Net)
    requires StepsTo(n, m)
    ensures Reaches(n, m)
  {
    assert Path([n, m], n, m);
  }

  lemma ReachesTrans(n: Net, m: Net, r: Net)
    requires Reaches(n, m) && Reaches(m, r)
    ensures Reaches(n, r)
  {
    var s :| Path(s, n, m);
    var t :| Path(t, m, r);
    PathsJoin(s, t, n, m, r);
  }

  lemma SameStep(u: seq<Net>, i: int, s: seq<Net>, j: int)
    requires 0 <= i < |u| - 1 && 0 <= j < |s| - 1 && u[i] == s[j] && u[i + 1] == s[j + 1] && StepAt(s, j)
    ensures StepAt(u, i)
  {
  }

  lemma PathsJoin(s: seq<Net>, t: seq<Net>, n: Net, m: Net, r: Net)
    requires Path(s, n, m) && Path(t, m, r)
    ensures Path(s + t[1..], n, r)
  {
    var u, k := s + t[1..], |s| - 1;
    JoinedEnds(s, t, u);
    forall i ensures StepAt(u, i) {
      if 0 <= i < k {
        SameStep(u, i, s, i);
      } else if k <= i < |u| - 1 {
        SameStep(u, i, t, i - k);
      }
    }
  }

  lemma JoinedEnds(s: seq<Net>, t: seq<Net>, u: seq<Net>)
    requires s != [] && t != [] && s[|s| - 1] == t[0] && u == s + t[1..]
    ensures |u| == |s| + |t| - 1 && u[0] == s[0] && u[|u| - 1] == t[|t| - 1]
    ensures forall i :: 0 <= i < |s| ==> u[i] == s[i]
    ensures forall i :: |s| - 1 <= i < |u| ==> u[i] == t[i - (|s| - 1)]
  {
  }

  lemma RunGoesOn(states: seq<Net>, m: Net) returns (more: seq<Net>)
    requires Runs.Run(states) && Reaches(states[|states| - 1], m)
    ensures Runs.Run(more) && states <= more && more[|more| - 1] == m
  {
    var t :| Path(t, states[|states| - 1], m);
    more := states + t[1..];
    assert Path(states, states[0], states[|states| - 1]);
    PathsJoin(states, t, states[0], states[|states| - 1], m);
  }

  // ----- Votes of all honest finalizers -----

  ghost predicate Willing(n: Net, y: Block, k: Key)
    requires WellFormed(y)
  {
    k in n.log && k in n.safety && ProposalOf(y).Defined() && Decide(n.safety[k], ProposalOf(y)).decision != NoVote
  }

  /** Finalizer `k` cast its vote on `y`, and nothing else. */
  ghost predicate VotedBy(n: Net, m: Net, y: Block, k: Key)
    requires WellFormed(y)
  {
    && k in n.log && k in n.safety && k in m.log && k in m.safety && ProposalOf(y).Defined()
    && m.log[k] == n.log[k] + [Vote(y, Decide(n.safety[k], ProposalOf(y)).decision == StrongVote)]
    && m.safety[k] == AfterVote(n.safety[k], ProposalOf(y))
  }

  ghost predicate SameFor(n: Net, m: Net, k: Key) {
    k in n.log && k in n.safety ==> k in m.log && k in m.safety && m.log[k] == n.log[k] && m.safety[k] == n.safety[k]
  }

  /** The finalizers in `ks` voted on `y`, and nothing else happened. */
  ghost predicate AllVoted(n: Net, m: Net, y: Block, ks: set<Key>)
    requires WellFormed(y)
  {
    && m.genesis == n.genesis && m.blocks == n.blocks && m.log.Keys == n.log.Keys && m.safety.Keys == n.safety.Keys
    && forall k :: VotedIf(n, m, y, ks, k)
  }

  ghost predicate VotedIf(n: Net, m: Net, y: Block, ks: set<Key>, k: Key)
    requires WellFormed(y)
  {
    if k in ks then VotedBy(n, m, y, k) else SameFor(n, m, k)
  }

  ghost predicate AllWilling(n: Net, y: Block, ks: set<Key>)
    requires WellFormed(y)
  {
    forall k :: k in ks ==> Willing(n, y, k)
  }

  ghost predicate CanAllCast(n: Net, y: Block, ks: set<Key>) {
    && WellFormed(y) && y.Child? && y in n.blocks && ks <= n.log.Keys && n.log.Keys == n.safety.Keys
    && AllWilling(n, y, ks)
  }

  lemma OthersCanCast(n: Net, r: Net, y: Block, k: Key, ks: set<Key>)
    requires CanAllCast(n, y, ks) && AllVoted(n, r, y, {k})
    ensures CanAllCast(r, y, ks - {k})
  {
    forall j | j in ks - {k} ensures Willing(r, y, j) { assert Willing(n, y, j) && VotedIf(n, r, y, {k}, j); }
  }

  lemma CastOne(n: Net, y: Block, k: Key) returns (m: Net)
    requires WellFormed(y) && y.Child? && y in n.blocks && Willing(n, y, k)
    ensures Reaches(n, m) && AllVoted(n, m, y, {k})
  {
    m := Record(n, k, AfterVote(n.safety[k], ProposalOf(y)),
                Vote(y, Decide(n.safety[k], ProposalOf(y)).decision == StrongVote));
    CastStep(n, y, k, m);
  }

  lemma CastStep(n: Net, y: Block, k: Key, m: Net)
    requires WellFormed(y) && y.Child? && y in n.blocks && Willing(n, y, k)
    requires m == Record(n, k, AfterVote(n.safety[k], ProposalOf(y)),
                         Vote(y, Decide(n.safety[k], ProposalOf(y)).decision == StrongVote))
    ensures Reaches(n, m)
  {
    assert Enabled(n, Cast(k, y)) && m == Apply(n, Cast(k, y));
    StepReaches(n, m);
  }

  lemma VotedIfAdds(n: Net, r: Net, m: Net, y: Block, k: Key, ks: set<Key>, j: Key)
    requires WellFormed(y) && k in ks && r.log.Keys == n.log.Keys && r.safety.Keys == n.safety.Keys
    requires VotedIf(n, r, y, {k}, j) && VotedIf(r, m, y, ks - {k}, j)
    ensures VotedIf(n, m, y, ks, j)
  {
    assert j in r.log <==> j in r.log.Keys;
    assert j in r.safety <==> j in r.safety.Keys;
  }

  lemma VotesAdd(n: Net, r: Net, m: Net, y: Block, k: Key, ks: set<Key>)
    requires WellFormed(y) && k in ks && AllVoted(n, r, y, {k}) && AllVoted(r, m, y, ks - {k})
    ensures AllVoted(n, m, y, ks)
  {
    forall j ensures VotedIf(n, m, y, ks, j) {
      assert VotedIf(n, r, y, {k}, j) && VotedIf(r, m, y, ks - {k}, j);
      VotedIfAdds(n, r, m, y, k, ks, j);
    }
  }

  lemma {:induction false} CastAll(n: Net, y: Block, ks: set<Key>) returns (m: Net)
    requires CanAllCast(n, y, ks)
    ensures Reaches(n, m) && AllVoted(n, m, y, ks)
    decreases ks
  {
    if ks == {} {
      m := n;
      ReachesSelf(n);
    } else {
      var k :| k in ks;
      assert Willing(n, y, k);
      var r := CastOne(n, y, k);
      OthersCanCast(n, r, y, k, ks);
      m := CastAll(r, y, ks - {k});
      ReachesTrans(n, r, m);
      VotesAdd(n, r, m, y, k, ks);
    }
  }

  // ----- Certificates made of honest votes -----

  function Bits(f: seq<FinalizerAuthority>, ks: set<Key>): (r: seq<bool>)
    ensures |r| == |f| && forall i :: 0 <= i < |f| ==> (r[i] <==> f[i].key in ks)
  {
    seq(|f|, i requires 0 <= i < |f| => f[i].key in ks)
  }

  lemma {:induction false} WeightOfBits(f: seq<FinalizerAuthority>, ks: set<Key>)
    ensures Weight(f, Bits(f, ks)) == WeightOf(f, ks)
  {
    if f != [] {
      var n := |f| - 1;
      WeightOfBits(f[..n], ks);
      assert Bits(f, ks)[..n] == Bits(f[..n], ks);
    }
  }

  /** A signature by the keys `s` strongly and `w` weakly. */
  function SigOf(p: FinalizerPolicy, s: set<Key>, w: set<Key>, strong: bool): QcSig {
    QcSig(Some(Bits(p.finalizers, s)), if strong then None else Some(Bits(p.finalizers, w)))
  }

  ghost predicate Reached(p: FinalizerPolicy, honest: set<Key>) { p.threshold <= WeightOf(p.finalizers, honest) }

  /** `honest` keys voted for `b`, those in `s` strongly and those in `w` weakly. */
  ghost predicate Split(n: Net, b: Block, s: set<Key>, w: set<Key>, strong: bool) {
    && s !! w && s + w == n.log.Keys && (strong ==> w == {})
    && (forall k :: k in s ==> k in n.log && Vote(b, true) in n.log[k])
    && (forall k :: k in w ==> k in n.log && Vote(b, false) in n.log[k])
  }

  lemma SigIsQuorum(n: Net, b: Block, p: FinalizerPolicy, s: set<Key>, w: set<Key>, strong: bool)
    requires Split(n, b, s, w, strong) && Reached(p, n.log.Keys)
    ensures QuorumSig(SigOf(p, s, w, strong), p) && Signed(n, SigOf(p, s, w, strong), p, b)
  {
    var f, sig := p.finalizers, SigOf(p, s, w, strong);
    WeightOfBits(f, s);
    WeightOfBits(f, w);
    InclusionExclusion(f, s, w);
    assert s + {} == s;
    forall i: nat ensures !(sig.Strong(i) && sig.Weak(i)) && SignedAt(n, sig, p, b, i) { }
  }

  function QcOf(b: Block, s: set<Key>, w: set<Key>, strong: bool): Qc {
    Qc(Num(b), SigOf(Active(b), s, w, strong),
       if PendingPolicy(b).Some? then Some(SigOf(PendingPolicy(b).value, s, w, strong)) else None)
  }

  ghost predicate ReachedAt(b: Block, honest: set<Key>) {
    Reached(Active(b), honest) && (PendingPolicy(b).Some? ==> Reached(PendingPolicy(b).value, honest))
  }

  lemma QcIsMade(n: Net, b: Block, s: set<Key>, w: set<Key>, strong: bool)
    requires WellFormed(b) && Split(n, b, s, w, strong) && ReachedAt(b, n.log.Keys)
    ensures VerifiedQc(n, b, QcOf(b, s, w, strong)) && QcOf(b, s, w, strong).IsStrong() == strong
  {
    var qc, p, q := QcOf(b, s, w, strong), Active(b), PendingPolicy(b);
    SigIsQuorum(n, b, p, s, w, strong);
    if q.Some? {
      SigIsQuorum(n, b, q.value, s, w, strong);
      forall i, j ensures DualVoteAgrees(qc.active, p, qc.pending.value, q.value, i, j) { }
    }
    ClaimsIncrease(b, b);
    RetrievalIsExact(b, Num(b));
    assert Anc(b, Num(b)) == b;
    VerifiedAt(n, b, qc, MakeBlockRef(b, StateOf(b)), p, q);
  }

  // ----- Locks -----

  /** Two certified blocks of one timestamp are the same block. */
  lemma CertifiedOnce(n: Net, a: Block, b: Block)
    requires Inv(n) && FaultBound(n) && a in n.blocks && b in n.blocks && a.time == b.time
    requires HasQc(n, a, false) && HasQc(n, b, false)
    ensures a == b
  {
    assert GoodBlock(n, a) && GoodBlock(n, b);
    var f := ForkPoint(a, b);
    NotPastFork(n, a, b, f);
    NotPastFork(n, b, a, f);
    AncestorInNet(n, f, a);
    assert FaultBoundAt(n, f);
    SharedQuorum(n, f, a, false);
    SharedQuorum(n, f, b, false);
    var k, i, j := CommonVoter(n, Shared(f), a, false, b);
    OneVotePerTime(n, k, i, j);
  }

  lemma NotPastFork(n: Net, a: Block, b: Block, f: Block)
    requires Inv(n) && FaultBound(n) && a in n.blocks && b in n.blocks && a.time == b.time && HasQc(n, b, false)
    requires Fork(f, a, b) || Fork(f, b, a)
    ensures Lib(a) <= Num(f)
  {
    assert GoodBlock(n, a) && GoodBlock(n, b);
    AncestorFacts(f, a);
    if Lib(a) != Num(n.genesis) {
      var e := FinalizedBy(n, a);
      Agreement(n, e, b);
    }
  }

  ghost predicate IsCertified(n: Net, l: Block) { l in n.blocks && (l == n.genesis || HasQc(n, l, false)) }

  lemma SameTimeSame(n: Net, a: Block, b: Block)
    requires Inv(n) && FaultBound(n) && IsCertified(n, a) && IsCertified(n, b) && a.time == b.time
    ensures a == b
  {
    if a == n.genesis {
      if b != n.genesis { GenesisIsOldest(n, b); }
    } else if b == n.genesis {
      GenesisIsOldest(n, a);
    } else {
      CertifiedOnce(n, a, b);
    }
  }

  lemma ClaimIsCertified(n: Net, x: Block)
    requires Inv(n) && x in n.blocks
    ensures IsCertified(n, ClaimBlock(x))
  {
    ClaimInNet(n, x);
    if ClaimBlock(x) != n.genesis { WeakQc(n, ClaimBlock(x)); }
  }

  lemma GenesisClaimsItself(n: Net)
    requires Inv(n)
    ensures ClaimBlock(n.genesis) == n.genesis
  {
  }

  /** A lock is the claim of some block. */
  lemma LockClaimed(n: Net, k: Key) returns (x: Block)
    requires Inv(n) && k in n.log
    ensures x in n.blocks && k in n.safety && n.safety[k].lock.Some? && n.safety[k].lock.value.id == ClaimBlock(x)
    ensures TimeOf(n.safety[k].lock) == ClaimBlock(x).time
  {
    assert GoodFinalizer(n, k);
    var log, l := n.log[k], n.safety[k].lock.value.id;
    assert LockIs(n.genesis, n.safety[k], log);
    if l == n.genesis {
      x := n.genesis;
      GenesisClaimsItself(n);
    } else {
      var m :| 0 <= m < |log| && log[m].strong && ClaimBlock(log[m].block) == l;
      x := log[m].block;
      assert log[m] in log;
    }
  }

  ghost predicate NotBehind(n: Net, x: Block, k: Key) {
    k in n.safety && n.safety[k].lock.Some? && TimeOf(n.safety[k].lock) <= ClaimBlock(x).time
  }

  ghost predicate NoneBehind(n: Net, x: Block, ks: set<Key>) { forall k :: k in ks ==> NotBehind(n, x, k) }

  lemma OneMore(n: Net, x: Block, z: Block, k: Key, ks: set<Key>)
    requires k in ks && NoneBehind(n, x, ks - {k}) && NotBehind(n, z, k)
    ensures NoneBehind(n, if ClaimBlock(x).time < ClaimBlock(z).time then z else x, ks)
  {
    var w := if ClaimBlock(x).time < ClaimBlock(z).time then z else x;
    forall j | j in ks ensures NotBehind(n, w, j) { assert j == k || NotBehind(n, x, j); }
  }

  /** A block whose claim is at least as recent as every lock. */
  lemma {:induction false} HighestLock(n: Net, ks: set<Key>) returns (x: Block)
    requires Inv(n) && ks <= n.log.Keys
    ensures x in n.blocks && NoneBehind(n, x, ks)
    decreases ks
  {
    x := n.genesis;
    if ks != {} {
      var k :| k in ks;
      x := HighestLock(n, ks - {k});
      var z := LockClaimed(n, k);
      OneMore(n, x, z, k, ks);
      if ClaimBlock(x).time < ClaimBlock(z).time { x := z; }
    }
  }

  // ----- Time -----

  lemma {:induction false} LatestTime(blocks: set<Block>) returns (t: nat)
    ensures forall b :: b in blocks ==> b.time <= t
    decreases blocks
  {
    t := 0;
    if blocks != {} {
      var b :| b in blocks;
      t := LatestTime(blocks - {b});
      if t < b.time { t := b.time; }
    }
  }

  lemma VotesAreOld(n: Net, k: Key, t: nat)
    requires Inv(n) && k in n.log && (forall b :: b in n.blocks ==> b.time <= t)
    ensures TimeOf(n.safety[k].lastVote) <= t
  {
    assert GoodFinalizer(n, k);
    var log := n.log[k];
    if log != [] { assert log[|log| - 1] in log; }
  }

  // ----- The next three blocks -----

  /** A block that keeps its parent's claim keeps its policies and its last irreversible block. */
  lemma SameClaimSameLib(x: Block, y: Block)
    requires WellFormed(y) && y.Child? && y.previous == x && (y.claim == ClaimOf(x) || !y.claim.strong)
    ensures Lib(y) == Lib(x)
  {
    ClaimsIncrease(x, x);
  }

  lemma SamePolicies(x: Block, y: Block)
    requires WellFormed(y) && y.Child? && y.previous == x && Lib(y) == Lib(x) && y.proposal.None?
    ensures Active(y) == Active(x) && Pending(y) == Pending(x)
  {
    PoliciesOrdered(x);
    StepFacts(y);
    if Pending(x).None? {
      assert PolicyPromotion.ReversibleAt(PoliciesOf(x).proposed, 0, Lib(x), 0);
      PolicyPromotion.FirstReversibleIs(PoliciesOf(x).proposed, Lib(x), 0);
    }
  }

  lemma VotesAtAll(fsi: SafetyInformation, b: Block)
    requires WellFormed(b) && b.Child? && fsi.lock.Some? && TimeOf(fsi.lastVote) < b.time
    requires TimeOf(fsi.lock) < ClaimBlock(b).time ||
             (IsAncestor(fsi.lock.value.id, b) && fsi.lock.value.id != b && Lib(b) <= Num(fsi.lock.value.id))
    ensures ProposalOf(b).Defined() && Decide(fsi, ProposalOf(b)).decision != NoVote
    ensures VoteEffect(fsi, b, Decide(fsi, ProposalOf(b)).decision == StrongVote, AfterVote(fsi, ProposalOf(b)))
  {
    ProposalFacts(b, b);
    ExtendsIsAncestor(b, StateOf(b).core, fsi.lock.value.id);
    SomeVoteFor(fsi, ProposalOf(b));
    DecideEffect(fsi, b);
  }

  lemma SomeVoteFor(fsi: SafetyInformation, p: Proposal)
    requires p.Defined() && fsi.lock.Some? && (fsi.lastVote.Some? ==> TimeOf(fsi.lastVote) < p.ref.timestamp)
    requires TimeOf(fsi.lock) < p.QcTime() || p.core.Extends(fsi.lock.value.id)
    ensures Decide(fsi, p).decision != NoVote
  {
  }

  /** Every honest finalizer that is not ahead of `x` votes for a new block on `x` with the same claim. */
  lemma WillingFirst(n: Net, x: Block, y: Block, k: Key, t: nat)
    requires Inv(n) && FaultBound(n) && x in n.blocks && k in n.log && NotBehind(n, x, k)
    requires WellFormed(y) && y.Child? && y.previous == x && y.claim == ClaimOf(x) && t < y.time
    requires forall b :: b in n.blocks ==> b.time <= t
    ensures Willing(n, y, k)
    ensures VoteEffect(n.safety[k], y, Decide(n.safety[k], ProposalOf(y)).decision == StrongVote,
                       AfterVote(n.safety[k], ProposalOf(y)))
  {
    assert GoodFinalizer(n, k) && GoodBlock(n, x);
    var fsi, l := n.safety[k], ClaimBlock(x);
    VotesAreOld(n, k, t);
    ClaimsIncrease(x, x);
    assert ClaimBlock(y) == l;
    var z := LockClaimed(n, k);
    if TimeOf(fsi.lock) == l.time {
      ClaimIsCertified(n, x);
      ClaimIsCertified(n, z);
      SameTimeSame(n, ClaimBlock(z), l);
      ClaimBlockFacts(y);
      LibFacts(y);
    }
    VotesAtAll(fsi, y);
  }

  /** After that vote it votes strongly for the next block, which claims `y`. */
  lemma WillingSecond(fsi: SafetyInformation, after: SafetyInformation, y: Block, strong: bool, z: Block)
    requires VoteEffect(fsi, y, strong, after) && TimeOf(fsi.lock) < y.time && ClaimBlock(y).time < y.time
    requires WellFormed(z) && z.Child? && ClaimBlock(z) == y && y.time < z.time
    ensures ProposalOf(z).Defined() && Decide(after, ProposalOf(z)).decision == StrongVote
  {
    VotesStrongly(after, z);
  }

  // ----- The theorem -----

  /** The honest finalizers alone reach the threshold of every policy in force somewhere. */
  ghost predicate HonestQuorums(n: Net) {
    forall b :: b in n.blocks ==> ReachedAt(b, n.log.Keys)
  }

  /** A new block on `x`, without a new claim. */
  function FirstOn(x: Block, t: nat): Block { Child(x, t + 1, ClaimOf(x), None, 0) }

  function SecondOn(y: Block, t: nat): Block { Child(y, t + 2, QcClaim(Num(y), false), None, 0) }

  function ThirdOn(z: Block, t: nat): Block { Child(z, t + 3, QcClaim(Num(z), true), None, 0) }

  ghost predicate Latest(n: Net, t: nat) { forall b :: b in n.blocks ==> b.time <= t }

  /** Where the continuation starts. */
  ghost predicate Ready(n: Net, x: Block, t: nat) {
    Inv(n) && FaultBound(n) && HonestQuorums(n) && x in n.blocks && NoneBehind(n, x, n.log.Keys) && Latest(n, t)
  }

  lemma ThreeBlocks(n: Net, x: Block, t: nat, y: Block, z: Block, w: Block)
    requires Ready(n, x, t) && y == FirstOn(x, t) && z == SecondOn(y, t) && w == ThirdOn(z, t)
    ensures WellFormed(y) && WellFormed(z) && WellFormed(w) && y !in n.blocks
    ensures ClaimBlock(y) == ClaimBlock(x) && ClaimBlock(y).time < y.time && ClaimBlock(z) == y
    ensures ReachedAt(y, n.log.Keys) && ReachedAt(z, n.log.Keys) && LibBlock(w) == y
  {
    assert GoodBlock(n, x);
    ClaimsIncrease(x, x);
    assert Anc(y, Num(y)) == y && Anc(z, Num(z)) == z;
    ClaimBlockFacts(y);
    SameClaimSameLib(x, y);
    SamePolicies(x, y);
    SameClaimSameLib(y, z);
    SamePolicies(y, z);
    assert ReachedAt(x, n.log.Keys);
    assert Anc(w, Num(y)) == Anc(z, Num(y)) == y;
  }

  lemma MakesStep(n: Net, b: Block, qc: Option<Qc>, m: Net)
    requires CanProduce(n, b, qc) && m == n.(blocks := n.blocks + {b})
    ensures StepsTo(n, m) && Reaches(n, m)
  {
    assert Enabled(n, Produce(b, qc)) && m == Apply(n, Produce(b, qc));
    StepReaches(n, m);
  }

  /** The first block, and the votes of all honest finalizers on it. */
  lemma FirstRound(n: Net, x: Block, t: nat, y: Block) returns (m: Net)
    requires Ready(n, x, t) && y == FirstOn(x, t) && WellFormed(y)
    ensures Reaches(n, m) && AllVoted(n.(blocks := n.blocks + {y}), m, y, n.log.Keys)
    ensures forall k :: k in n.log.Keys ==> SecondReady(n, m, y, k)
  {
    var r := n.(blocks := n.blocks + {y});
    assert GoodBlock(n, x);
    ClaimsIncrease(x, x);
    MakesStep(n, y, None, r);
    forall k | k in n.log.Keys ensures Willing(r, y, k) && Willing(n, y, k) && FirstVote(n, y, k) {
      assert NotBehind(n, x, k);
      WillingFirst(n, x, y, k, t);
    }
    m := CastAll(r, y, n.log.Keys);
    ReachesTrans(n, r, m);
    forall k | k in n.log.Keys ensures SecondReady(n, m, y, k) {
      assert VotedIf(r, m, y, n.log.Keys, k) && FirstVote(n, y, k);
    }
  }

  ghost predicate FirstVote(n: Net, y: Block, k: Key)
    requires WellFormed(y)
  {
    k in n.safety && ProposalOf(y).Defined() &&
    VoteEffect(n.safety[k], y, Decide(n.safety[k], ProposalOf(y)).decision == StrongVote,
               AfterVote(n.safety[k], ProposalOf(y)))
  }

  ghost predicate SecondReady(n: Net, m: Net, y: Block, k: Key) {
    k in n.safety && k in m.safety && exists strong :: VoteEffect(n.safety[k], y, strong, m.safety[k])
  }

  /** Who voted strongly, and who weakly. */
  lemma VotesSplit(n: Net, m: Net, y: Block) returns (s: set<Key>, w: set<Key>)
    requires WellFormed(y) && AllVoted(n, m, y, n.log.Keys)
    ensures Split(m, y, s, w, false)
    ensures (forall k :: k in n.log.Keys ==> StrongIn(n, y, k)) ==> Split(m, y, s, w, true)
  {
    s := set k | k in n.log.Keys && StrongIn(n, y, k);
    w := n.log.Keys - s;
    forall k | k in s ensures k in m.log && Vote(y, true) in m.log[k] { LastIsIn(n, m, y, k); }
    forall k | k in w ensures k in m.log && Vote(y, false) in m.log[k] { LastIsIn(n, m, y, k); }
  }

  ghost predicate StrongIn(n: Net, y: Block, k: Key)
    requires WellFormed(y)
  {
    k in n.safety && ProposalOf(y).Defined() && Decide(n.safety[k], ProposalOf(y)).decision == StrongVote
  }

  lemma LastIsIn(n: Net, m: Net, y: Block, k: Key)
    requires WellFormed(y) && AllVoted(n, m, y, n.log.Keys) && k in n.log.Keys
    ensures k in m.log && Vote(y, StrongIn(n, y, k)) in m.log[k]
  {
    assert VotedIf(n, m, y, n.log.Keys, k);
    assert m.log[k][|n.log[k]|] == Vote(y, StrongIn(n, y, k));
  }

  /** The second block carries the certificate of the first, and all honest finalizers vote strongly for it. */
  lemma SecondRound(n: Net, x: Block, t: nat, y: Block, m: Net, z: Block) returns (r: Net)
    requires Ready(n, x, t) && y == FirstOn(x, t) && z == SecondOn(y, t) && WellFormed(z)
    requires ClaimBlock(y) == ClaimBlock(x) && ClaimBlock(z) == y && ReachedAt(y, n.log.Keys)
    requires AllVoted(n.(blocks := n.blocks + {y}), m, y, n.log.Keys)
    requires forall k :: k in n.log.Keys ==> SecondReady(n, m, y, k)
    ensures Reaches(m, r) && z in r.blocks && r.log.Keys == n.log.Keys && Split(r, z, r.log.Keys, {}, true)
  {
    var s, w := VotesSplit(n.(blocks := n.blocks + {y}), m, y);
    QcIsMade(m, y, s, w, false);
    ClaimsIncrease(y, y);
    var p := m.(blocks := m.blocks + {z});
    MakesStep(m, z, Some(QcOf(y, s, w, false)), p);
    forall k | k in n.log.Keys ensures Willing(p, z, k) && StrongIn(p, z, k) { SecondVote(n, x, t, y, m, z, k); }
    r := CastAll(p, z, n.log.Keys);
    ReachesTrans(m, p, r);
    AllStrong(p, r, z);
  }

  lemma SecondVote(n: Net, x: Block, t: nat, y: Block, m: Net, z: Block, k: Key)
    requires Ready(n, x, t) && y == FirstOn(x, t) && z == SecondOn(y, t) && WellFormed(z)
    requires ClaimBlock(y) == ClaimBlock(x) && ClaimBlock(z) == y && k in n.log && SecondReady(n, m, y, k)
    ensures StrongIn(m, z, k)
  {
    var strong :| VoteEffect(n.safety[k], y, strong, m.safety[k]);
    ClaimInNet(n, x);
    assert NotBehind(n, x, k);
    WillingSecond(n.safety[k], m.safety[k], y, strong, z);
  }

  lemma AllStrong(n: Net, m: Net, z: Block)
    requires WellFormed(z) && AllVoted(n, m, z, n.log.Keys) && forall k :: k in n.log.Keys ==> StrongIn(n, z, k)
    ensures Split(m, z, n.log.Keys, {}, true)
  {
    forall k | k in n.log.Keys ensures k in m.log && Vote(z, true) in m.log[k] { LastIsIn(n, m, z, k); }
  }

  /** From every state that satisfies the invariant within the fault bound, if the honest finalizers reach every
      threshold in force, some continuation makes a block irreversible that did not exist before. */
  lemma FinalityCanAdvance(n: Net) returns (m: Net, b: Block, x: Block)
    requires Inv(n) && FaultBound(n) && HonestQuorums(n)
    ensures Reaches(n, m) && b in m.blocks && LibBlock(b) !in n.blocks
    ensures x in n.blocks && NoneBehind(n, x, n.log.Keys) && WellFormed(LibBlock(b)) && IsAncestor(x, LibBlock(b))
  {
    x := HighestLock(n, n.log.Keys);
    var t := LatestTime(n.blocks);
    var y := FirstOn(x, t);
    var z := SecondOn(y, t);
    b := ThirdOn(z, t);
    ThreeBlocks(n, x, t, y, z, b);
    var p := FirstRound(n, x, t, y);
    var r := SecondRound(n, x, t, y, p, z);
    m := ThirdBlock(n, r, z, b);
    ReachesTrans(n, p, r);
    ReachesTrans(n, r, m);
    assert IsAncestor(x, y);
  }

  lemma ThirdBlock(n: Net, r: Net, z: Block, b: Block) returns (m: Net)
    requires WellFormed(z) && z.Child? && z in r.blocks && ReachedAt(z, r.log.Keys) && Split(r, z, r.log.Keys, {}, true)
    requires b.Child? && b.previous == z && z.time < b.time && b.claim == QcClaim(Num(z), true) && b.proposal.None?
    ensures Reaches(r, m) && b in m.blocks
  {
    QcIsMade(r, z, r.log.Keys, {}, true);
    ClaimsIncrease(z, z);
    m := r.(blocks := r.blocks + {b});
    MakesStep(r, b, Some(QcOf(z, r.log.Keys, {}, true)), m);
  }

  /** Whatever is irreversible, some honest finalizer is locked on it or on something newer. */
  lemma LockedOnFinal(n: Net, b: Block, x: Block)
    requires Inv(n) && FaultBound(n) && b in n.blocks && x in n.blocks && NoneBehind(n, x, n.log.Keys)
    ensures LibBlock(b).time <= ClaimBlock(x).time
  {
    assert GoodBlock(n, b) && GoodBlock(n, x);
    ClaimInNet(n, x);
    if Lib(b) == Num(n.genesis) {
      AncestorOfRoot(b);
      if ClaimBlock(x) != n.genesis { GenesisIsOldest(n, ClaimBlock(x)); }
    } else {
      var a := FinalizedBy(n, b);
      assert FaultBoundAt(n, a);
      WeakQc(n, a);
      var k, i, j := CommonVoter(n, Active(a), a, true, a);
      assert NotBehind(n, x, k) && GoodFinalizer(n, k) && n.log[k][i] in n.log[k];
      assert LockIs(n.genesis, n.safety[k], n.log[k]);
    }
  }

  /** Every run whose last state is within the fault bound and whose honest finalizers reach every threshold in force
      can go on to make irreversible a block that did not exist before, on top of everything that is irreversible. */
  lemma EveryRunCanGoOn(states: seq<Net>) returns (more: seq<Net>, b: Block)
    requires Runs.Run(states)
    requires var n := states[|states| - 1]; FaultBound(n) && HonestQuorums(n)
    ensures Runs.Run(more) && states <= more && b in more[|more| - 1].blocks
    ensures var n := states[|states| - 1];
            LibBlock(b) !in n.blocks && forall c :: c in n.blocks ==> IsAncestor(LibBlock(c), LibBlock(b))
  {
    var n := states[|states| - 1];
    RunKeepsInv(states, |states| - 1);
    var m, x;
    m, b, x := FinalityCanAdvance(n);
    more := RunGoesOn(states, m);
    forall c | c in n.blocks ensures IsAncestor(LibBlock(c), LibBlock(b)) {
      LockedOnFinal(n, c, x);
      FinalityIsRespected(n, c, x);
      AncestorTransitive(LibBlock(c), x, LibBlock(b));
    }
  }
}
