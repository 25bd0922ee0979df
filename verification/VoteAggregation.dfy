/** Counting the votes of one finalizer policy into a quorum certificate. */
module VoteAggregation {
  import opened Wrappers
  import opened Blocks
  import opened QuorumCertificates

  datatype AggregatingState = Unrestricted | Restricted | WeakAchieved | WeakFinal | StrongReached

  predicate QuorumMet(s: AggregatingState) { s.StrongReached? || s.WeakAchieved? || s.WeakFinal? }

  datatype Ballot = Ballot(index: nat, strong: bool)

  /** What has been collected so far. */
  datatype Tally = Tally(strongVotes: seq<bool>, weakVotes: seq<bool>, strongSum: nat, weakSum: nat,
                         state: AggregatingState) {
    predicate HasVoted(i: nat) { i < |strongVotes| && i < |weakVotes| && (strongVotes[i] || weakVotes[i]) }
  }

  /** The state after a strong vote, given the sums that include it. */
  function AfterStrong(s: AggregatingState, strongSum: nat, weakSum: nat, quorum: nat): AggregatingState {
    match s
    case Unrestricted =>
      if strongSum >= quorum then StrongReached else if weakSum + strongSum >= quorum then WeakAchieved else s
    case Restricted =>
      if strongSum >= quorum then StrongReached else if weakSum + strongSum >= quorum then WeakFinal else s
    case WeakAchieved => if strongSum >= quorum then StrongReached else s
    case _ => s
  }

  /** The state after a weak vote; in `WeakAchieved` the bound is compared with `>=`. */
  function AfterWeak(s: AggregatingState, strongSum: nat, weakSum: nat, quorum: nat, maxWeak: nat): AggregatingState {
    match s
    case WeakAchieved => if weakSum >= maxWeak then WeakFinal else s
    case WeakFinal => s
    case StrongReached => s
    case _ =>
      if weakSum + strongSum >= quorum then (if weakSum > maxWeak then WeakFinal else WeakAchieved)
      else if weakSum > maxWeak then Restricted
      else s
  }

  function AddVote(t: Tally, b: Ballot, weight: nat, quorum: nat, maxWeak: nat): Tally
    requires b.index < |t.strongVotes| && b.index < |t.weakVotes|
  {
    if t.HasVoted(b.index) then t
    else if b.strong then
      t.(strongVotes := t.strongVotes[b.index := true], strongSum := t.strongSum + weight,
         state := AfterStrong(t.state, t.strongSum + weight, t.weakSum, quorum))
    else
      t.(weakVotes := t.weakVotes[b.index := true], weakSum := t.weakSum + weight,
         state := AfterWeak(t.state, t.strongSum, t.weakSum + weight, quorum, maxWeak))
  }

  function EmptyTally(n: nat): Tally {
    Tally(seq(n, i => false), seq(n, i => false), 0, 0, Unrestricted)
  }

  function Extract(t: Tally): Option<QcSig> {
    if t.state.StrongReached? then Some(QcSig(Some(t.strongVotes), None))
    else if QuorumMet(t.state) then Some(QcSig(Some(t.strongVotes), Some(t.weakVotes)))
    else None
  }

  /** The best of what was aggregated and what was received in a block. */
  function Best(t: Tally, received: Option<QcSig>): (r: Option<QcSig>)
    ensures r.None? <==> !QuorumMet(t.state) && received.None?
    ensures r.Some? ==>
              (r.value.IsStrong() <==> t.state.StrongReached? || (received.Some? && received.value.IsStrong()))
  {
    if Extract(t).None? then received
    else if received.None? then Extract(t)
    else if received.value.IsStrong() || !Extract(t).value.IsStrong() then received
    else Extract(t)
  }

  datatype VoteStatus = Success | Duplicate | UnknownKey | InvalidSignature

  /** The aggregator of one policy, updated vote by vote. */
  class AggregatingQcSig {
    const quorum: nat
    const maxWeak: nat
    var strongVotes: seq<bool>
    var weakVotes: seq<bool>
    var strongSum: nat
    var weakSum: nat
    var state: AggregatingState
    var received: Option<QcSig>

    constructor (n: nat, quorum: nat, maxWeak: nat)
      ensures this.quorum == quorum && this.maxWeak == maxWeak && Value() == EmptyTally(n) && received.None?
    {
      this.quorum, this.maxWeak := quorum, maxWeak;
      strongVotes, weakVotes := seq(n, i => false), seq(n, i => false);
      strongSum, weakSum, state, received := 0, 0, Unrestricted, None;
    }

    function Value(): Tally reads this { Tally(strongVotes, weakVotes, strongSum, weakSum, state) }

    method AddStrongVote(index: nat, weight: nat)
      requires index < |strongVotes| == |weakVotes| && !Value().HasVoted(index)
      modifies this
      ensures Value() == AddVote(old(Value()), Ballot(index, true), weight, quorum, maxWeak)
              && received == old(received)
    {
      strongVotes := strongVotes[index := true];
      strongSum := strongSum + weight;
      match state {
        case Unrestricted =>
          if strongSum >= quorum { state := StrongReached; }
          else if weakSum + strongSum >= quorum { state := WeakAchieved; }
        case Restricted =>
          if strongSum >= quorum { state := StrongReached; }
          else if weakSum + strongSum >= quorum { state := WeakFinal; }
        case WeakAchieved =>
          if strongSum >= quorum { state := StrongReached; }
        case _ =>
      }
    }

    method AddWeakVote(index: nat, weight: nat)
      requires index < |strongVotes| == |weakVotes| && !Value().HasVoted(index)
      modifies this
      ensures Value() == AddVote(old(Value()), Ballot(index, false), weight, quorum, maxWeak)
              && received == old(received)
    {
      weakVotes := weakVotes[index := true];
      weakSum := weakSum + weight;
      if state.Unrestricted? || state.Restricted? {
        if weakSum + strongSum >= quorum { state := WeakAchieved; }
        if weakSum > maxWeak {
          if state == WeakAchieved { state := WeakFinal; } else if state == Unrestricted { state := Restricted; }
        }
      } else if state.WeakAchieved? {
        if weakSum >= maxWeak { state := WeakFinal; }
      }
    }

    method Add(strong: bool, index: nat, weight: nat) returns (s: VoteStatus)
      requires index < |strongVotes| == |weakVotes|
      modifies this
      ensures Value() == AddVote(old(Value()), Ballot(index, strong), weight, quorum, maxWeak)
              && received == old(received)
      ensures s == if old(Value()).HasVoted(index) then Duplicate else Success
    {
      if strongVotes[index] || weakVotes[index] { return Duplicate; }
      if strong { AddStrongVote(index, weight); } else { AddWeakVote(index, weight); }
      s := Success;
    }

    method SetReceivedQcSig(qc: QcSig) returns (better: bool)
      modifies this`received
      ensures better == (old(received).None? || (!old(received).value.IsStrong() && qc.IsStrong()))
      ensures received == if better then Some(qc) else old(received)
      ensures received.value.IsStrong() <==> qc.IsStrong() || (old(received).Some? && old(received).value.IsStrong())
    {
      better := received.None? || (!received.value.IsStrong() && qc.IsStrong());
      if better { received := Some(qc); }
    }

    method GetBestQc() returns (r: Option<QcSig>)
      ensures r == Best(Value(), received)
    {
      if !QuorumMet(state) { return received; }
      var aggregated := if state.StrongReached? then QcSig(Some(strongVotes), None)
                        else QcSig(Some(strongVotes), Some(weakVotes));
      if received.None? { return Some(aggregated); }
      if received.value.IsStrong() || !aggregated.IsStrong() { return received; }
      return Some(aggregated);
    }
  }

  // ----- Every run of the aggregator -----

  predicate ValidBallots(p: FinalizerPolicy, votes: seq<Ballot>) {
    forall b :: b in votes ==> b.index < |p.finalizers|
  }

  /** The tally after a sequence of votes. */
  function Count(p: FinalizerPolicy, maxWeak: nat, votes: seq<Ballot>): (t: Tally)
    requires ValidBallots(p, votes)
    ensures |t.strongVotes| == |t.weakVotes| == |p.finalizers|
  {
    if votes == [] then EmptyTally(|p.finalizers|)
    else
      var n := |votes| - 1;
      AddVote(Count(p, maxWeak, votes[..n]), votes[n], p.finalizers[votes[n].index].weight, p.threshold, maxWeak)
  }

  /** How finalizer `i` voted first, if it has. */
  function FirstVote(votes: seq<Ballot>, i: nat): Option<bool> {
    if votes == [] then None
    else
      var n := |votes| - 1;
      var before := FirstVote(votes[..n], i);
      if before.Some? || votes[n].index != i then before else Some(votes[n].strong)
  }

  /** Only the first vote of each finalizer is recorded. */
  lemma {:induction false} FirstVoteCounts(p: FinalizerPolicy, maxWeak: nat, votes: seq<Ballot>, i: nat)
    requires ValidBallots(p, votes) && i < |p.finalizers|
    ensures Count(p, maxWeak, votes).strongVotes[i] <==> FirstVote(votes, i) == Some(true)
    ensures Count(p, maxWeak, votes).weakVotes[i] <==> FirstVote(votes, i) == Some(false)
  {
    if votes != [] {
      var n := |votes| - 1;
      FirstVoteCounts(p, maxWeak, votes[..n], i);
      var t, b := Count(p, maxWeak, votes[..n]), votes[n];
      var before := FirstVote(votes[..n], i);
      assert before.Some? ==> before == Some(before.value) && (before.value || !before.value);
      assert t.HasVoted(i) <==> before.Some?;
      assert Count(p, maxWeak, votes) == AddVote(t, b, p.finalizers[b.index].weight, p.threshold, maxWeak);
    }
  }

  ghost predicate Disjoint(t: Tally) {
    forall i: nat :: i < |t.strongVotes| && i < |t.weakVotes| ==> !(t.strongVotes[i] && t.weakVotes[i])
  }

  lemma {:induction false} WeightOfSet(finalizers: seq<FinalizerAuthority>, bits: seq<bool>, i: nat)
    requires |finalizers| == |bits| && i < |bits| && !bits[i]
    ensures Weight(finalizers, bits[i := true]) == Weight(finalizers, bits) + finalizers[i].weight
  {
    var n := |bits| - 1;
    if i < n {
      WeightOfSet(finalizers[..n], bits[..n], i);
      assert bits[i := true][..n] == bits[..n][i := true];
    } else {
      assert bits[i := true][..n] == bits[..n];
    }
  }

  /** The running sums are the weights of the recorded votes, and nobody is recorded twice. */
  lemma {:induction false} CountSums(p: FinalizerPolicy, maxWeak: nat, votes: seq<Ballot>)
    requires ValidBallots(p, votes)
    ensures var t := Count(p, maxWeak, votes);
            && Disjoint(t)
            && t.strongSum == Weight(p.finalizers, t.strongVotes) && t.weakSum == Weight(p.finalizers, t.weakVotes)
            && t.strongSum + t.weakSum <= Total(p.finalizers)
  {
    if votes == [] {
      NoVotesNoWeight(p.finalizers, EmptyTally(|p.finalizers|).strongVotes);
    } else {
      var n := |votes| - 1;
      var t, i := Count(p, maxWeak, votes[..n]), votes[n].index;
      CountSums(p, maxWeak, votes[..n]);
      if !t.HasVoted(i) {
        WeightOfSet(p.finalizers, t.strongVotes, i);
        WeightOfSet(p.finalizers, t.weakVotes, i);
      }
    }
    var t := Count(p, maxWeak, votes);
    VotesWithin(p.finalizers, t.strongVotes, t.weakVotes, KeysOf(p.finalizers));
    InclusionExclusion(p.finalizers, KeysOf(p.finalizers), {});
    assert KeysOf(p.finalizers) + {} == KeysOf(p.finalizers);
  }

  /** The state the sums call for, given the weak weight beyond which a strong quorum is ruled out.  With the weight
      a quorum can do without for that bound, this is what the documentation of the five states says they mean. */
  function Ideal(t: Tally, quorum: nat, maxWeak: nat): AggregatingState {
    if t.strongSum >= quorum then StrongReached
    else if t.strongSum + t.weakSum >= quorum then (if t.weakSum > maxWeak then WeakFinal else WeakAchieved)
    else if t.weakSum > maxWeak then Restricted
    else Unrestricted
  }

  /** Vote `k` is a new weak vote that finds a weak quorum and brings the weak weight to the bound
      exactly: a strong quorum is still possible, yet the source gives it up. */
  ghost predicate PrematureAt(p: FinalizerPolicy, maxWeak: nat, votes: seq<Ballot>, k: nat)
    requires ValidBallots(p, votes)
  {
    k < |votes| &&
    var t := Count(p, maxWeak, votes[..k]);
    && !votes[k].strong && !t.HasVoted(votes[k].index)
    && t.strongSum < p.threshold <= t.strongSum + t.weakSum
    && t.weakSum + p.finalizers[votes[k].index].weight == maxWeak
  }

  ghost predicate Premature(p: FinalizerPolicy, maxWeak: nat, votes: seq<Ballot>)
    requires ValidBallots(p, votes)
  {
    exists k: nat :: PrematureAt(p, maxWeak, votes, k)
  }

  lemma PrematureSteps(p: FinalizerPolicy, maxWeak: nat, votes: seq<Ballot>)
    requires ValidBallots(p, votes) && votes != []
    ensures Premature(p, maxWeak, votes) <==>
              Premature(p, maxWeak, votes[..|votes| - 1]) || PrematureAt(p, maxWeak, votes, |votes| - 1)
  {
    var n := |votes| - 1;
    var w := votes[..n];
    forall k: nat | k < n ensures PrematureAt(p, maxWeak, votes, k) <==> PrematureAt(p, maxWeak, w, k) {
      assert votes[..k] == w[..k];
    }
    if Premature(p, maxWeak, votes) {
      var k: nat :| PrematureAt(p, maxWeak, votes, k);
      assert k < n ==> PrematureAt(p, maxWeak, w, k);
    }
    if Premature(p, maxWeak, w) {
      var k: nat :| PrematureAt(p, maxWeak, w, k);
      assert PrematureAt(p, maxWeak, votes, k);
    }
  }

  /** One vote, in a state the sums call for. */
  lemma StateStep(t: Tally, b: Ballot, weight: nat, quorum: nat, maxWeak: nat, total: nat)
    requires b.index < |t.strongVotes| && b.index < |t.weakVotes| && !t.HasVoted(b.index)
    requires 0 < quorum && total <= maxWeak + quorum && t.strongSum + t.weakSum + weight <= total
    requires t.state == Ideal(t, quorum, maxWeak)
    ensures var r := AddVote(t, b, weight, quorum, maxWeak);
            if !b.strong && t.strongSum < quorum <= t.strongSum + t.weakSum && t.weakSum + weight == maxWeak
            then r.state == WeakFinal && quorum <= r.strongSum + r.weakSum
            else r.state == Ideal(r, quorum, maxWeak)
  {
  }

  /** In every run the state is the one the sums and the bound call for, unless a premature vote fixed it at
      `WeakFinal`; the bound may be any that is not below the weight a quorum can do without. */
  lemma {:induction false} CountState(p: FinalizerPolicy, maxWeak: nat, votes: seq<Ballot>)
    requires ValidBallots(p, votes) && 0 < p.threshold && Total(p.finalizers) <= maxWeak + p.threshold
    ensures var t := Count(p, maxWeak, votes);
            if Premature(p, maxWeak, votes) then t.state == WeakFinal && p.threshold <= t.strongSum + t.weakSum
            else t.state == Ideal(t, p.threshold, maxWeak)
  {
    if votes != [] {
      var n := |votes| - 1;
      var t, b := Count(p, maxWeak, votes[..n]), votes[n];
      CountState(p, maxWeak, votes[..n]);
      PrematureSteps(p, maxWeak, votes);
      CountSums(p, maxWeak, votes);
      if !Premature(p, maxWeak, votes[..n]) && !t.HasVoted(b.index) {
        StateStep(t, b, p.finalizers[b.index].weight, p.threshold, maxWeak, Total(p.finalizers));
      }
    }
  }

  /** Whatever the bound, a quorum is reported exactly when the recorded votes reach it, and a strong one only
      when the strong votes do. */
  lemma {:induction false} QuorumReported(p: FinalizerPolicy, maxWeak: nat, votes: seq<Ballot>)
    requires ValidBallots(p, votes) && 0 < p.threshold
    ensures var t := Count(p, maxWeak, votes);
            && (QuorumMet(t.state) <==> p.threshold <= t.strongSum + t.weakSum)
            && (t.state.StrongReached? ==> p.threshold <= t.strongSum)
  {
    if votes != [] { QuorumReported(p, maxWeak, votes[..|votes| - 1]); }
  }

  /** Four finalizers of weights 2, 1, 1 and 1, and threshold 3. */
  lemma FiveInAll() returns (p: FinalizerPolicy)
    ensures p.threshold == 3 && |p.finalizers| == 4 && p.finalizers[0].weight == 2
    ensures p.finalizers[1].weight == p.finalizers[2].weight == p.finalizers[3].weight == 1
    ensures Accepted(p) && MaxWeak(p) == 2
  {
    var p1 := [] + [FinalizerAuthority(2, 0)];
    var p2 := p1 + [FinalizerAuthority(1, 1)];
    var p3 := p2 + [FinalizerAuthority(1, 2)];
    p := FinalizerPolicy(1, 3, p3 + [FinalizerAuthority(1, 3)]);
    TotalAppend([], FinalizerAuthority(2, 0));
    TotalAppend(p1, FinalizerAuthority(1, 1));
    TotalAppend(p2, FinalizerAuthority(1, 2));
    TotalAppend(p3, FinalizerAuthority(1, 3));
    MaxWeakSumIsSpareWeight(p);
  }

  /** Strong votes reach the threshold and the aggregator still only offers a weak certificate. */
  lemma StrongQuorumMissed() returns (p: FinalizerPolicy, votes: seq<Ballot>)
    ensures ValidBallots(p, votes) && Accepted(p) && MaxWeak(p) == 2
    ensures p.threshold == 3 && Count(p, 2, votes).strongSum == 3 && Count(p, 2, votes).state == WeakFinal
  {
    p := FiveInAll();
    var v1 := [] + [Ballot(0, true)];
    var v2 := v1 + [Ballot(1, false)];
    var v3 := v2 + [Ballot(2, false)];
    votes := v3 + [Ballot(3, true)];
    CountAppend(p, 2, [], Ballot(0, true));
    CountAppend(p, 2, v1, Ballot(1, false));
    assert Count(p, 2, v2).state == WeakAchieved;
    CountAppend(p, 2, v2, Ballot(2, false));
    CountAppend(p, 2, v3, Ballot(3, true));
  }

  lemma TotalAppend(finalizers: seq<FinalizerAuthority>, f: FinalizerAuthority)
    ensures Total(finalizers + [f]) == Total(finalizers) + f.weight
  {
    assert (finalizers + [f])[..|finalizers|] == finalizers;
  }

  lemma CountAppend(p: FinalizerPolicy, maxWeak: nat, votes: seq<Ballot>, b: Ballot)
    requires ValidBallots(p, votes) && b.index < |p.finalizers|
    ensures ValidBallots(p, votes + [b])
    ensures Count(p, maxWeak, votes + [b]) ==
            AddVote(Count(p, maxWeak, votes), b, p.finalizers[b.index].weight, p.threshold, maxWeak)
  {
    assert (votes + [b])[..|votes|] == votes;
  }

  /** What the aggregator offers always passes the format and weight checks for its policy. */
  lemma ExtractedIsQuorum(p: FinalizerPolicy, maxWeak: nat, votes: seq<Ballot>)
    requires ValidBallots(p, votes) && 0 < p.threshold
    ensures var s := Extract(Count(p, maxWeak, votes)); s.Some? ==> QuorumSig(s.value, p)
  {
    CountSums(p, maxWeak, votes);
    QuorumReported(p, maxWeak, votes);
  }

  // ----- The bound -----

  const TWO31 := 0x8000_0000
  const TWO32 := 0x1_0000_0000
  const TWO64 := 0x1_0000_0000_0000_0000

  /** A value kept in a 32-bit signed accumulator. */
  function Wrap32(x: int): int { (x + TWO31) % TWO32 - TWO31 }

  lemma Wrap32Congruent(x: int, y: int, w: nat)
    requires Wrap32(x) == Wrap32(y)
    ensures Wrap32(x + w) == Wrap32(y + w)
  {
    var a, b := (x + TWO31) / TWO32, (y + TWO31) / TWO32;
    assert x - y == TWO32 * (a - b);
    ShiftedRemainder(y + w + TWO31, a - b);
  }

  lemma ShiftedRemainder(x: int, k: int)
    ensures (x + TWO32 * k) % TWO32 == x % TWO32
  {
    var q := x / TWO32;
    assert x + TWO32 * k == TWO32 * (q + k) + x % TWO32;
  }

  /** The bound of a policy: what is left of the total weight in 32 bits, less the threshold, in 64 bits. */
  function MaxWeak(p: FinalizerPolicy): nat { (Wrap32(Total(p.finalizers)) - p.threshold) % TWO64 }

  predicate In64Bits(p: FinalizerPolicy) { Total(p.finalizers) < TWO64 && p.threshold < TWO64 }

  /** What `set_finalizers` demands of the weights and the threshold of a policy. */
  predicate Accepted(p: FinalizerPolicy) {
    p.threshold <= Total(p.finalizers) < 2 * p.threshold && Total(p.finalizers) < TWO64
  }

  /** The weights are accumulated into a 32-bit `int`, though each addition is made in 64 bits. */
  method MaxWeakSumBeforeWeakFinal(p: FinalizerPolicy) returns (r: nat)
    requires In64Bits(p)
    ensures r == MaxWeak(p)
  {
    var acc := 0;
    for i := 0 to |p.finalizers|
      invariant acc == Wrap32(Total(p.finalizers[..i]))
    {
      assert p.finalizers[..i + 1][..i] == p.finalizers[..i];
      Wrap32Congruent(acc, Total(p.finalizers[..i]), p.finalizers[i].weight);
      acc := Wrap32((acc + p.finalizers[i].weight));
    }
    assert p.finalizers[..|p.finalizers|] == p.finalizers;
    r := (acc - p.threshold) % TWO64;
  }

  /** The total weight survives the accumulator: it is below 2^31, or so close to 2^64 that sign extension
      restores it. */
  predicate Survives(total: nat) { total < TWO31 || TWO64 - TWO31 <= total }

  lemma MaxWeakIs(p: FinalizerPolicy)
    requires p.threshold <= Total(p.finalizers) < TWO64
    ensures var w := Wrap32(Total(p.finalizers));
            MaxWeak(p) == if w < p.threshold then w - p.threshold + TWO64 else w - p.threshold
  {
    var w := Wrap32(Total(p.finalizers));
    assert -TWO31 <= w < TWO31;
    if w - p.threshold >= 0 {
      assert (w - p.threshold) % TWO64 == w - p.threshold;
    } else {
      assert (w - p.threshold) % TWO64 == w - p.threshold + TWO64;
    }
  }

  /** The bound is the weight a quorum can do without exactly when the total weight survives the accumulator;
      for an accepted policy it is never below that weight. */
  lemma MaxWeakSumIsSpareWeight(p: FinalizerPolicy)
    requires p.threshold <= Total(p.finalizers) < TWO64
    ensures MaxWeak(p) == Total(p.finalizers) - p.threshold <==> Survives(Total(p.finalizers))
    ensures Accepted(p) ==> Total(p.finalizers) - p.threshold <= MaxWeak(p)
  {
    MaxWeakIs(p);
    var total := Total(p.finalizers);
    var w := Wrap32(total);
    assert (total - w) % TWO32 == 0;
    if TWO31 <= total { assert w <= total - TWO32; }
  }

  /** With the bound the aggregator is built with, in every run under an accepted policy: a strong quorum that the
      votes reach goes unreported exactly when the total weight survives the accumulator and a premature vote
      occurred. */
  lemma StrongMissedIff(p: FinalizerPolicy, votes: seq<Ballot>)
    requires Accepted(p) && ValidBallots(p, votes)
    ensures var t := Count(p, MaxWeak(p), votes);
            p.threshold <= t.strongSum ==>
              (!t.state.StrongReached? <==> Survives(Total(p.finalizers)) && Premature(p, MaxWeak(p), votes))
  {
    MaxWeakSumIsSpareWeight(p);
    CountState(p, MaxWeak(p), votes);
    if Premature(p, MaxWeak(p), votes) && Total(p.finalizers) < MaxWeak(p) + p.threshold
    { PrematureTooHeavy(p, MaxWeak(p), votes); }
  }

  /** A premature vote at a bound above the spare weight leaves too little for a strong quorum. */
  lemma {:induction false} PrematureTooHeavy(p: FinalizerPolicy, maxWeak: nat, votes: seq<Ballot>)
    requires ValidBallots(p, votes) && Total(p.finalizers) < maxWeak + p.threshold && Premature(p, maxWeak, votes)
    ensures maxWeak <= Count(p, maxWeak, votes).weakSum && Count(p, maxWeak, votes).strongSum < p.threshold
  {
    var n := |votes| - 1;
    PrematureSteps(p, maxWeak, votes);
    if Premature(p, maxWeak, votes[..n]) { PrematureTooHeavy(p, maxWeak, votes[..n]); }
    CountSums(p, maxWeak, votes);
  }

  /** The weight a quorum can do without. */
  function Spare(p: FinalizerPolicy): nat
    requires Accepted(p)
  {
    Total(p.finalizers) - p.threshold
  }

  /** With the bound the aggregator is built with, the state is the documented one exactly when the weak weight is not
      between the spare weight and the bound; after a premature vote, when a strong quorum is indeed ruled out. */
  lemma DocumentedIff(p: FinalizerPolicy, votes: seq<Ballot>)
    requires Accepted(p) && ValidBallots(p, votes)
    ensures var t := Count(p, MaxWeak(p), votes);
            t.state == Ideal(t, p.threshold, Spare(p)) <==>
              if Premature(p, MaxWeak(p), votes) then t.strongSum < p.threshold && Spare(p) < t.weakSum
              else !(Spare(p) < t.weakSum <= MaxWeak(p))
  {
    MaxWeakSumIsSpareWeight(p);
    CountState(p, MaxWeak(p), votes);
    CountSums(p, MaxWeak(p), votes);
  }

  /** Two finalizers of weight 2^31: the weights do not survive the accumulator. */
  lemma HeavyPolicy() returns (p: FinalizerPolicy)
    ensures Accepted(p) && !Survives(Total(p.finalizers)) && p.threshold == TWO31 + 1
    ensures |p.finalizers| == 2 && p.finalizers[0].weight == TWO31
    ensures Spare(p) == TWO31 - 1 && MaxWeak(p) == TWO64 - TWO31 - 1
  {
    var first := [] + [FinalizerAuthority(TWO31, 0)];
    p := FinalizerPolicy(1, TWO31 + 1, first + [FinalizerAuthority(TWO31, 1)]);
    TotalAppend([], FinalizerAuthority(TWO31, 0));
    TotalAppend(first, FinalizerAuthority(TWO31, 1));
    assert Total(p.finalizers) == TWO32 && Wrap32(TWO32) == 0;
    MaxWeakIs(p);
  }

  /** One weak vote rules out a strong quorum, and the state does not say so. */
  lemma RestrictionMissed() returns (p: FinalizerPolicy, votes: seq<Ballot>)
    ensures Accepted(p) && !Survives(Total(p.finalizers)) && ValidBallots(p, votes)
    ensures var t := Count(p, MaxWeak(p), votes);
            t.state == Unrestricted && Ideal(t, p.threshold, Spare(p)) == Restricted
  {
    p := HeavyPolicy();
    votes := [] + [Ballot(0, false)];
    CountAppend(p, MaxWeak(p), [], Ballot(0, false));
  }
}
