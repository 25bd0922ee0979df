/** The certificate an aggregator offers, and when the node's own checks accept it. */
module OfferedCertificates {
  import opened Wrappers
  import opened Blocks
  import opened QuorumCertificates
  import opened VoteAggregation
  import opened DualAggregation

  /** The signatures received in blocks, one for each policy. */
  datatype Received = Received(active: Option<QcSig>, pending: Option<QcSig>)

  const NOTHING := Received(None, None)

  /** The certificate offered for the block numbered `num`: for each policy the better of what was aggregated and
      what was received. */
  function BestQc(num: nat, t: Tallies, rc: Received): Option<Qc> {
    var a, b := Best(t.active, rc.active), Best(t.pending, rc.pending);
    if a.Some? && b.Some? then Some(Qc(num, a.value, b)) else None
  }

  // ----- When one is offered -----

  /** Each policy's tally is the count of some ballots. */
  lemma {:induction false} CollectIsCount(p: FinalizerPolicy, q: FinalizerPolicy, pMax: nat, qMax: nat,
                                          vs: seq<VoteMessage>)
    returns (a: seq<Ballot>, b: seq<Ballot>)
    ensures ValidBallots(p, a) && Collect(p, q, pMax, qMax, vs).active == Count(p, pMax, a)
    ensures ValidBallots(q, b) && Collect(p, q, pMax, qMax, vs).pending == Count(q, qMax, b)
  {
    if vs == [] {
      a, b := [], [];
    } else {
      var n := |vs| - 1;
      a, b := CollectIsCount(p, q, pMax, qMax, vs[..n]);
      var t, v := Collect(p, q, pMax, qMax, vs[..n]), vs[n];
      if ReachesPending(t.active, p, v) { b := CountMessage(q, qMax, b, v); }
      a := CountMessage(p, pMax, a, v);
    }
  }

  lemma CountMessage(p: FinalizerPolicy, maxWeak: nat, votes: seq<Ballot>, v: VoteMessage) returns (r: seq<Ballot>)
    requires ValidBallots(p, votes)
    ensures ValidBallots(p, r) && Count(p, maxWeak, r) == AfterMessage(Count(p, maxWeak, votes), p, maxWeak, v)
  {
    r := votes;
    if StatusOf(Count(p, maxWeak, votes), p, v) == Success {
      var b := Ballot(IndexOf(p.finalizers, v.key).value, v.strong);
      CountAppend(p, maxWeak, votes, b);
      r := votes + [b];
    }
  }

  /** In every run a certificate is offered exactly when for each policy one was received or the recorded votes reach
      the threshold. */
  lemma OfferedIff(num: nat, p: FinalizerPolicy, q: FinalizerPolicy, pMax: nat, qMax: nat, vs: seq<VoteMessage>,
                   rc: Received)
    requires 0 < p.threshold && 0 < q.threshold
    ensures var t := Collect(p, q, pMax, qMax, vs);
            BestQc(num, t, rc).Some? <==>
              && (rc.active.Some? || p.threshold <= t.active.strongSum + t.active.weakSum)
              && (rc.pending.Some? || q.threshold <= t.pending.strongSum + t.pending.weakSum)
  {
    var a, b := CollectIsCount(p, q, pMax, qMax, vs);
    QuorumReported(p, pMax, a);
    QuorumReported(q, qMax, b);
  }

  // ----- When the dual-vote check accepts it -----

  /** The received signature is the one offered. */
  predicate TakesReceived(t: Tally, r: Option<QcSig>) {
    r.Some? && (!QuorumMet(t.state) || r.value.IsStrong() || !t.state.StrongReached?)
  }

  function VoteIn(s: QcSig, i: nat): Option<bool> {
    if s.Strong(i) then Some(true) else if s.Weak(i) then Some(false) else None
  }

  function RecordOf(t: Tally, i: nat): Option<bool>
    requires i < |t.strongVotes| && i < |t.weakVotes|
  {
    if t.strongVotes[i] then Some(true) else if t.weakVotes[i] then Some(false) else None
  }

  /** How finalizer `i` appears in what is offered: as in the received signature, or as recorded, except that a strong
      aggregate drops weak votes. */
  function Shown(t: Tally, r: Option<QcSig>, i: nat): Option<bool>
    requires i < |t.strongVotes| && i < |t.weakVotes|
  {
    if TakesReceived(t, r) then VoteIn(r.value, i)
    else if t.state.StrongReached? && RecordOf(t, i) == Some(false) then None
    else RecordOf(t, i)
  }

  ghost predicate OneVote(s: QcSig) { forall i: nat :: !(s.Strong(i) && s.Weak(i)) }

  lemma ShownIs(t: Tally, r: Option<QcSig>, i: nat)
    requires Disjoint(t) && i < |t.strongVotes| && i < |t.weakVotes| && (r.Some? ==> OneVote(r.value))
             && Best(t, r).Some?
    ensures Best(t, r).value.Strong(i) <==> Shown(t, r, i) == Some(true)
    ensures Best(t, r).value.Weak(i) <==> Shown(t, r, i) == Some(false)
  {
  }

  ghost predicate SameShown(t: Tallies, rc: Received, p: FinalizerPolicy, q: FinalizerPolicy, i: int, j: int)
    requires Sized(t.active, p) && Sized(t.pending, q)
  {
    0 <= i < |p.finalizers| && 0 <= j < |q.finalizers| && p.finalizers[i].key == q.finalizers[j].key ==>
      Shown(t.active, rc.active, i) == Shown(t.pending, rc.pending, j)
  }

  ghost predicate VerifiedSides(rc: Received, p: FinalizerPolicy, q: FinalizerPolicy) {
    (rc.active.Some? ==> QuorumSig(rc.active.value, p)) && (rc.pending.Some? ==> QuorumSig(rc.pending.value, q))
  }

  lemma ShownDecides(num: nat, t: Tallies, rc: Received, p: FinalizerPolicy, q: FinalizerPolicy)
    requires Sized(t.active, p) && Sized(t.pending, q) && Disjoint(t.active) && Disjoint(t.pending)
    requires VerifiedSides(rc, p, q) && BestQc(num, t, rc).Some?
    ensures var qc := BestQc(num, t, rc).value;
            DualVotesAgree(qc.active, p, qc.pending.value, q) <==> forall i, j :: SameShown(t, rc, p, q, i, j)
  {
    var a, b := BestQc(num, t, rc).value.active, BestQc(num, t, rc).value.pending.value;
    forall i, j ensures DualVoteAgrees(a, p, b, q, i, j) <==> SameShown(t, rc, p, q, i, j) {
      if 0 <= i < |p.finalizers| && 0 <= j < |q.finalizers| {
        ShownIs(t.active, rc.active, i);
        ShownIs(t.pending, rc.pending, j);
      }
    }
  }

  lemma BestIsQuorum(p: FinalizerPolicy, maxWeak: nat, votes: seq<Ballot>, r: Option<QcSig>)
    requires ValidBallots(p, votes) && 0 < p.threshold && (r.Some? ==> QuorumSig(r.value, p))
    ensures var best := Best(Count(p, maxWeak, votes), r); best.Some? ==> QuorumSig(best.value, p)
  {
    ExtractedIsQuorum(p, maxWeak, votes);
  }

  /** In every run, whatever verified signatures were received, `verify_basic` accepts the certificate offered if and
      only if every finalizer in both policies appears the same way on both sides. */
  lemma OfferedQcIsValid(num: nat, p: FinalizerPolicy, q: FinalizerPolicy, pMax: nat, qMax: nat, vs: seq<VoteMessage>,
                         rc: Received)
    requires DistinctKeys(p) && DistinctKeys(q) && 0 < p.threshold && 0 < q.threshold && VerifiedSides(rc, p, q)
    requires BestQc(num, Collect(p, q, pMax, qMax, vs), rc).Some?
    ensures var t := Collect(p, q, pMax, qMax, vs);
            ValidQc(BestQc(num, t, rc).value, p, Some(q)) <==> forall i, j :: SameShown(t, rc, p, q, i, j)
  {
    var t := Collect(p, q, pMax, qMax, vs);
    var a, b := CollectIsCount(p, q, pMax, qMax, vs);
    BestIsQuorum(p, pMax, a, rc.active);
    BestIsQuorum(q, qMax, b, rc.pending);
    CountSums(p, pMax, a);
    CountSums(q, qMax, b);
    ShownDecides(num, t, rc, p, q);
  }

  // ----- Aggregated votes only -----

  ghost predicate DualWeakVote(t: Tallies, p: FinalizerPolicy, q: FinalizerPolicy, i: nat, j: nat)
    requires Sized(t.active, p)
  {
    i < |p.finalizers| && j < |q.finalizers| && p.finalizers[i].key == q.finalizers[j].key && t.active.weakVotes[i]
  }

  /** Some finalizer that is in both policies voted weakly. */
  ghost predicate HasDualWeakVote(t: Tallies, p: FinalizerPolicy, q: FinalizerPolicy)
    requires Sized(t.active, p)
  {
    exists i: nat, j: nat :: DualWeakVote(t, p, q, i, j)
  }

  ghost predicate EquallyStrong(t: Tallies) { t.active.state.StrongReached? <==> t.pending.state.StrongReached? }

  /** Without received signatures that is so exactly when both sides are equally strong, or no finalizer in both
      policies voted weakly: a strong side drops its weak votes. */
  lemma AggregatedAgree(t: Tallies, p: FinalizerPolicy, q: FinalizerPolicy)
    requires Sized(t.active, p) && Sized(t.pending, q) && RecordsAgree(t.active, p, t.pending, q)
    requires Disjoint(t.active) && Disjoint(t.pending)
    ensures (forall i, j :: SameShown(t, NOTHING, p, q, i, j)) <==> EquallyStrong(t) || !HasDualWeakVote(t, p, q)
  {
    forall i: nat, j: nat | i < |p.finalizers| && j < |q.finalizers| && p.finalizers[i].key == q.finalizers[j].key
      ensures SameShown(t, NOTHING, p, q, i, j) <==> EquallyStrong(t) || !DualWeakVote(t, p, q, i, j)
    {
      assert SameRecord(t.active, p, t.pending, q, i, j);
    }
    if !EquallyStrong(t) && HasDualWeakVote(t, p, q) {
      var i: nat, j: nat :| DualWeakVote(t, p, q, i, j);
      assert !SameShown(t, NOTHING, p, q, i, j);
    } else {
      forall i, j ensures SameShown(t, NOTHING, p, q, i, j) { }
    }
  }

  /** In every run without received signatures: `verify_basic` accepts what is offered exactly in that case. */
  lemma AggregatedQcIsValid(num: nat, p: FinalizerPolicy, q: FinalizerPolicy, pMax: nat, qMax: nat,
                            vs: seq<VoteMessage>)
    requires DistinctKeys(p) && DistinctKeys(q) && 0 < p.threshold && 0 < q.threshold
    requires BestQc(num, Collect(p, q, pMax, qMax, vs), NOTHING).Some?
    ensures var t := Collect(p, q, pMax, qMax, vs);
            ValidQc(BestQc(num, t, NOTHING).value, p, Some(q)) <==> EquallyStrong(t) || !HasDualWeakVote(t, p, q)
  {
    var t := Collect(p, q, pMax, qMax, vs);
    var a, b := CollectIsCount(p, q, pMax, qMax, vs);
    CountSums(p, pMax, a);
    CountSums(q, qMax, b);
    RecordsAlwaysAgree(p, q, pMax, qMax, vs);
    OfferedQcIsValid(num, p, q, pMax, qMax, vs, NOTHING);
    AggregatedAgree(t, p, q);
  }

  // ----- Offers that are rejected -----

  /** Two finalizers, keys 0 and 1, in a policy with threshold 2. */
  lemma TwoFinalizers(weight: nat, others: seq<FinalizerAuthority>) returns (p: FinalizerPolicy)
    requires forall i :: 0 <= i < |others| ==> others[i].key == i + 2
    ensures DistinctKeys(p) && p.threshold == 2
    ensures p.finalizers == [FinalizerAuthority(1, 0), FinalizerAuthority(weight, 1)] + others
    ensures IndexOf(p.finalizers, 0) == Some(0) && IndexOf(p.finalizers, 1) == Some(1)
  {
    p := FinalizerPolicy(1, 2, [FinalizerAuthority(1, 0), FinalizerAuthority(weight, 1)] + others);
    IndexIs(p, 0);
    IndexIs(p, 1);
  }

  /** The tally of such a policy after a weak vote of key 0 and a strong vote of key 1. */
  lemma WeakThenStrong(p: FinalizerPolicy, t1: Tally, t2: Tally)
    requires |p.finalizers| >= 2 && p.threshold == 2 && p.finalizers[0].weight == 1
    requires IndexOf(p.finalizers, 0) == Some(0) && IndexOf(p.finalizers, 1) == Some(1)
    requires t1 == AfterMessage(EmptyTally(|p.finalizers|), p, 1, VoteMessage(0, false, true))
    requires t2 == AfterMessage(t1, p, 1, VoteMessage(1, true, true))
    ensures t2.weakVotes[0] && t2.strongSum == p.finalizers[1].weight
    ensures t2.state == if p.finalizers[1].weight >= 2 then StrongReached
                        else if p.finalizers[1].weight == 1 then WeakAchieved else Unrestricted
    ensures StatusOf(EmptyTally(|p.finalizers|), p, VoteMessage(0, false, true)) == Success
    ensures StatusOf(t1, p, VoteMessage(1, true, true)) == Success
  {
    assert t1.state == Unrestricted && t1.weakSum == 1 && t1.strongSum == 0 && t1.weakVotes[0];
  }

  lemma ThreeInAll(p: FinalizerPolicy, weight: nat, others: seq<FinalizerAuthority>)
    requires p.threshold == 2 && p.finalizers == [FinalizerAuthority(1, 0), FinalizerAuthority(weight, 1)] + others
    requires (weight == 2 && others == []) || (weight == 1 && others == [FinalizerAuthority(1, 2)])
    ensures Accepted(p) && MaxWeak(p) == 1
  {
    var f := [] + [FinalizerAuthority(1, 0)];
    var g := f + [FinalizerAuthority(weight, 1)];
    TotalAppend([], FinalizerAuthority(1, 0));
    TotalAppend(f, FinalizerAuthority(weight, 1));
    assert Total(g) == 1 + weight;
    if weight == 1 {
      TotalAppend(g, FinalizerAuthority(1, 2));
      assert p.finalizers == g + [FinalizerAuthority(1, 2)];
    } else {
      assert p.finalizers == g;
    }
    MaxWeakSumIsSpareWeight(p);
  }

  /** An offered certificate that the dual-vote check rejects. */
  lemma RejectedOffer() returns (p: FinalizerPolicy, q: FinalizerPolicy, vs: seq<VoteMessage>)
    ensures DistinctKeys(p) && DistinctKeys(q) && Accepted(p) && Accepted(q) && MaxWeak(p) == 1 && MaxWeak(q) == 1
    ensures var t := Collect(p, q, 1, 1, vs);
            BestQc(7, t, NOTHING).Some? && !DualVotesAgree(BestQc(7, t, NOTHING).value.active, p,
                                                           BestQc(7, t, NOTHING).value.pending.value, q)
  {
    p := TwoFinalizers(2, []);
    q := TwoFinalizers(1, [FinalizerAuthority(1, 2)]);
    ThreeInAll(p, 2, []);
    ThreeInAll(q, 1, [FinalizerAuthority(1, 2)]);
    var v0, v1 := VoteMessage(0, false, true), VoteMessage(1, true, true);
    vs := [] + [v0] + [v1];
    CollectAppend(p, q, 1, 1, [], v0);
    CollectAppend(p, q, 1, 1, [] + [v0], v1);
    var t1, t := Collect(p, q, 1, 1, [] + [v0]), Collect(p, q, 1, 1, vs);
    WeakThenStrong(p, t1.active, AfterMessage(t1.active, p, 1, v1));
    WeakThenStrong(q, t1.pending, AfterMessage(t1.pending, q, 1, v1));
    assert !DualVoteAgrees(BestQc(7, t, NOTHING).value.active, p, BestQc(7, t, NOTHING).value.pending.value, q, 0, 0);
  }

  lemma CollectAppend(p: FinalizerPolicy, q: FinalizerPolicy, pMax: nat, qMax: nat, vs: seq<VoteMessage>,
                      v: VoteMessage)
    ensures var t := Collect(p, q, pMax, qMax, vs);
            Collect(p, q, pMax, qMax, vs + [v]) ==
            Tallies(AfterMessage(t.active, p, pMax, v),
                    if ReachesPending(t.active, p, v) then AfterMessage(t.pending, q, qMax, v) else t.pending)
  {
    assert (vs + [v])[..|vs|] == vs;
  }

  /** A valid certificate was received and the votes alone offer nothing, yet the mixture offered is rejected. */
  lemma RejectedMix() returns (p: FinalizerPolicy, q: FinalizerPolicy, vs: seq<VoteMessage>, rc: Received)
    ensures DistinctKeys(p) && DistinctKeys(q) && Accepted(p) && Accepted(q) && MaxWeak(p) == 1 && MaxWeak(q) == 1
    ensures rc.active.Some? && rc.pending.Some? && ValidQc(Qc(7, rc.active.value, rc.pending), p, Some(q))
    ensures var t := Collect(p, q, 1, 1, vs);
            && BestQc(7, t, NOTHING).None? && BestQc(7, t, rc).Some?
            && !DualVotesAgree(BestQc(7, t, rc).value.active, p, BestQc(7, t, rc).value.pending.value, q)
  {
    p := TwoFinalizers(2, []);
    q := TwoFinalizers(1, [FinalizerAuthority(1, 2)]);
    ThreeInAll(p, 2, []);
    ThreeInAll(q, 1, [FinalizerAuthority(1, 2)]);
    rc := WeakPair(p, q);
    var v := VoteMessage(1, true, true);
    vs := [] + [v];
    CollectAppend(p, q, 1, 1, [], v);
    var t := Collect(p, q, 1, 1, vs);
    assert t.active.state == StrongReached && t.pending.state == Unrestricted;
    assert !DualVoteAgrees(BestQc(7, t, rc).value.active, p, BestQc(7, t, rc).value.pending.value, q, 0, 0);
  }

  /** A weak certificate: key 0 votes weakly and key 1 strongly. */
  lemma WeakPair(p: FinalizerPolicy, q: FinalizerPolicy) returns (rc: Received)
    requires p.threshold == 2 && p.finalizers == [FinalizerAuthority(1, 0), FinalizerAuthority(2, 1)] + []
    requires q.threshold == 2 && q.finalizers == [FinalizerAuthority(1, 0), FinalizerAuthority(1, 1)]
             + [FinalizerAuthority(1, 2)]
    ensures rc.active == Some(QcSig(Some([false, true]), Some([true, false])))
    ensures rc.pending == Some(QcSig(Some([false, true, false]), Some([true, false, false])))
    ensures ValidQc(Qc(7, rc.active.value, rc.pending), p, Some(q))
  {
    rc := Received(Some(QcSig(Some([false, true]), Some([true, false]))),
                   Some(QcSig(Some([false, true, false]), Some([true, false, false]))));
    PairWeights(p.finalizers, 2);
    TripleWeights(q.finalizers);
    forall i, j ensures DualVoteAgrees(rc.active.value, p, rc.pending.value, q, i, j) { }
  }

  lemma PairWeights(f: seq<FinalizerAuthority>, w: nat)
    requires f == [FinalizerAuthority(1, 0), FinalizerAuthority(w, 1)]
    ensures Weight(f, [false, true]) == w && Weight(f, [true, false]) == 1
  {
    assert f[..1] == [f[0]] && f[..1][..0] == [];
    assert [false, true][..1] == [false] && [true, false][..1] == [true] && [false][..0] == [] && [true][..0] == [];
    assert Weight(f[..1][..0], []) == 0 && Weight(f[..1], [false]) == 0 && Weight(f[..1], [true]) == 1;
  }

  lemma TripleWeights(f: seq<FinalizerAuthority>)
    requires f == [FinalizerAuthority(1, 0), FinalizerAuthority(1, 1), FinalizerAuthority(1, 2)]
    ensures Weight(f, [false, true, false]) == 1 && Weight(f, [true, false, false]) == 1
  {
    assert f[..2] == [FinalizerAuthority(1, 0), FinalizerAuthority(1, 1)];
    assert [false, true, false][..2] == [false, true] && [true, false, false][..2] == [true, false];
    PairWeights(f[..2], 1);
  }
}
