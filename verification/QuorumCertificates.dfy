/** Weighted quorums and the verification of quorum certificates. */
module QuorumCertificates {
  import opened Wrappers
  import opened Blocks

  /** Vote bitsets of one policy; a certificate without weak votes is strong. */
  datatype QcSig = QcSig(strongVotes: Option<seq<bool>>, weakVotes: Option<seq<bool>>) {
    predicate IsStrong() { weakVotes.None? }

    predicate Strong(i: nat) { strongVotes.Some? && i < |strongVotes.value| && strongVotes.value[i] }

    predicate Weak(i: nat) { weakVotes.Some? && i < |weakVotes.value| && weakVotes.value[i] }
  }

  datatype Qc = Qc(num: nat, active: QcSig, pending: Option<QcSig>) {
    predicate IsStrong() { active.IsStrong() && (pending.None? || pending.value.IsStrong()) }
  }

  /** The reasons `verify_basic` rejects a certificate for. */
  datatype QcError =
    | NoVotes | WrongBitsetSize | VotedStrongAndWeak | StrongQuorumNotMet | WeakQuorumNotMet
    | UnexpectedPendingSignature | MissingPendingSignature | DualFinalizerVotesDiffer

  // ----- Weights -----

  /** The total weight of the finalizers whose bit is set. */
  function Weight(finalizers: seq<FinalizerAuthority>, bits: seq<bool>): nat
    requires |finalizers| == |bits|
  {
    if bits == [] then 0
    else
      var n := |bits| - 1;
      Weight(finalizers[..n], bits[..n]) + if bits[n] then finalizers[n].weight else 0
  }

  function Total(finalizers: seq<FinalizerAuthority>): nat {
    if finalizers == [] then 0 else Total(finalizers[..|finalizers| - 1]) + finalizers[|finalizers| - 1].weight
  }

  /** The weight held by a set of keys. */
  function WeightOf(finalizers: seq<FinalizerAuthority>, keys: set<Key>): nat {
    if finalizers == [] then 0
    else
      var n := |finalizers| - 1;
      WeightOf(finalizers[..n], keys) + if finalizers[n].key in keys then finalizers[n].weight else 0
  }

  function KeysOf(finalizers: seq<FinalizerAuthority>): set<Key> {
    set f | f in finalizers :: f.key
  }

  lemma {:induction false} InclusionExclusion(finalizers: seq<FinalizerAuthority>, u: set<Key>, v: set<Key>)
    ensures WeightOf(finalizers, u) + WeightOf(finalizers, v) == WeightOf(finalizers, u + v)
            + WeightOf(finalizers, u * v)
    ensures WeightOf(finalizers, u + v) <= Total(finalizers)
  {
    if finalizers != [] { InclusionExclusion(finalizers[..|finalizers| - 1], u, v); }
  }

  lemma {:induction false} WeightMonotone(finalizers: seq<FinalizerAuthority>, u: set<Key>, v: set<Key>)
    requires forall f :: f in finalizers && f.key in u ==> f.key in v
    ensures WeightOf(finalizers, u) <= WeightOf(finalizers, v)
  {
    if finalizers != [] {
      var n := |finalizers| - 1;
      assert forall f :: f in finalizers[..n] ==> f in finalizers;
      assert finalizers[n] in finalizers;
      WeightMonotone(finalizers[..n], u, v);
    }
  }

  /** Two quorums share keys of total weight at least `2 * threshold - total`. */
  lemma QuorumsIntersect(p: FinalizerPolicy, u: set<Key>, v: set<Key>)
    requires p.threshold <= WeightOf(p.finalizers, u) && p.threshold <= WeightOf(p.finalizers, v)
    ensures 2 * p.threshold - Total(p.finalizers) <= WeightOf(p.finalizers, u * v)
  {
    InclusionExclusion(p.finalizers, u, v);
  }

  /** A policy whose dishonest keys hold less than what any two quorums share. */
  ghost predicate Tolerates(p: FinalizerPolicy, honest: set<Key>) {
    WeightOf(p.finalizers, KeysOf(p.finalizers) - honest) < 2 * p.threshold - Total(p.finalizers)
  }

  /** Then any two quorums share an honest finalizer. */
  lemma HonestInBoth(p: FinalizerPolicy, honest: set<Key>, u: set<Key>, v: set<Key>) returns (k: Key)
    requires Tolerates(p, honest)
    requires p.threshold <= WeightOf(p.finalizers, u) && p.threshold <= WeightOf(p.finalizers, v)
    ensures k in honest && k in u && k in v
  {
    QuorumsIntersect(p, u, v);
    if forall f :: f in p.finalizers && f.key in u * v ==> f.key !in honest {
      WeightMonotone(p.finalizers, u * v, KeysOf(p.finalizers) - honest);
      assert false;
    }
    var f :| f in p.finalizers && f.key in u * v && f.key in honest;
    k := f.key;
  }

  // ----- Verification -----

  /** `verify_vote_format`: one bit for each finalizer, and nobody votes both ways. */
  ghost predicate WellFormedSig(s: QcSig, n: nat) {
    && (s.strongVotes.Some? || s.weakVotes.Some?)
    && (s.strongVotes.Some? ==> |s.strongVotes.value| == n)
    && (s.weakVotes.Some? ==> |s.weakVotes.value| == n)
    && (forall i: nat :: !(s.Strong(i) && s.Weak(i)))
  }

  function StrongWeight(s: QcSig, p: FinalizerPolicy): nat
    requires s.strongVotes.Some? ==> |s.strongVotes.value| == |p.finalizers|
  {
    if s.strongVotes.Some? then Weight(p.finalizers, s.strongVotes.value) else 0
  }

  function WeakWeight(s: QcSig, p: FinalizerPolicy): nat
    requires s.weakVotes.Some? ==> |s.weakVotes.value| == |p.finalizers|
  {
    if s.weakVotes.Some? then Weight(p.finalizers, s.weakVotes.value) else 0
  }

  /** A well-formed signature whose votes reach the threshold. */
  ghost predicate QuorumSig(s: QcSig, p: FinalizerPolicy) {
    && WellFormedSig(s, |p.finalizers|)
    && p.threshold <= StrongWeight(s, p) + (if s.IsStrong() then 0 else WeakWeight(s, p))
  }

  /** `vote_same_at` for every finalizer that is in both policies. */
  ghost predicate DualVotesAgree(a: QcSig, p: FinalizerPolicy, b: QcSig, q: FinalizerPolicy) {
    forall i, j :: DualVoteAgrees(a, p, b, q, i, j)
  }

  ghost predicate DualVoteAgrees(a: QcSig, p: FinalizerPolicy, b: QcSig, q: FinalizerPolicy, i: int, j: int) {
    0 <= i < |p.finalizers| && 0 <= j < |q.finalizers| && p.finalizers[i].key == q.finalizers[j].key ==>
      (a.Strong(i) <==> b.Strong(j)) && (a.Weak(i) <==> b.Weak(j))
  }

  ghost predicate DistinctKeys(p: FinalizerPolicy) {
    forall i, j :: 0 <= i < j < |p.finalizers| ==> p.finalizers[i].key != p.finalizers[j].key
  }

  /** What `verify_basic` establishes. */
  ghost predicate ValidQc(qc: Qc, active: FinalizerPolicy, pending: Option<FinalizerPolicy>) {
    && QuorumSig(qc.active, active)
    && (qc.pending.Some? <==> pending.Some?)
    && (pending.Some? ==> QuorumSig(qc.pending.value, pending.value)
                          && DualVotesAgree(qc.active, active, qc.pending.value, pending.value))
  }

  method SumWeights(p: FinalizerPolicy, bits: seq<bool>) returns (sum: nat)
    requires |bits| == |p.finalizers|
    ensures sum == Weight(p.finalizers, bits)
  {
    sum := 0;
    var i := 0;
    while i < |p.finalizers|
      invariant 0 <= i <= |p.finalizers|
      invariant sum == Weight(p.finalizers[..i], bits[..i])
    {
      assert p.finalizers[..i + 1][..i] == p.finalizers[..i] && bits[..i + 1][..i] == bits[..i];
      if bits[i] { sum := sum + p.finalizers[i].weight; }
      i := i + 1;
    }
    assert p.finalizers[..i] == p.finalizers && bits[..i] == bits;
  }

  /** One bit for each finalizer, in each bitset that is there. */
  predicate RightSize(s: QcSig, n: nat) {
    (s.strongVotes.Some? ==> |s.strongVotes.value| == n) && (s.weakVotes.Some? ==> |s.weakVotes.value| == n)
  }

  method VerifyVoteFormat(s: QcSig, p: FinalizerPolicy) returns (e: Option<QcError>)
    ensures e.None? <==> WellFormedSig(s, |p.finalizers|)
    ensures e == Some(NoVotes) <==> s.strongVotes.None? && s.weakVotes.None?
    ensures e == Some(WrongBitsetSize) <==> !RightSize(s, |p.finalizers|)
    ensures e == Some(VotedStrongAndWeak) <==>
              RightSize(s, |p.finalizers|) && exists i: nat :: s.Strong(i) && s.Weak(i)
    ensures e.Some? ==> e.value in {NoVotes, WrongBitsetSize, VotedStrongAndWeak}
  {
    var n := |p.finalizers|;
    if s.strongVotes.None? && s.weakVotes.None? { return Some(NoVotes); }
    if s.strongVotes.Some? && |s.strongVotes.value| != n { return Some(WrongBitsetSize); }
    if s.weakVotes.Some? && |s.weakVotes.value| != n { return Some(WrongBitsetSize); }
    if s.strongVotes.Some? && s.weakVotes.Some? {
      for i := 0 to n
        invariant forall k: nat :: k < i ==> !(s.Strong(k) && s.Weak(k))
      {
        if s.strongVotes.value[i] && s.weakVotes.value[i] {
          assert s.Strong(i) && s.Weak(i);
          return Some(VotedStrongAndWeak);
        }
      }
    }
    return None;
  }

  method VerifyWeights(s: QcSig, p: FinalizerPolicy) returns (e: Option<QcError>)
    requires WellFormedSig(s, |p.finalizers|)
    ensures e.None? <==> QuorumSig(s, p)
    ensures e.Some? ==> e.value == if s.IsStrong() then StrongQuorumNotMet else WeakQuorumNotMet
  {
    var strong, weak := 0, 0;
    if s.strongVotes.Some? { strong := SumWeights(p, s.strongVotes.value); }
    if s.weakVotes.Some? { weak := SumWeights(p, s.weakVotes.value); }
    if s.IsStrong() {
      return if strong >= p.threshold then None else Some(StrongQuorumNotMet);
    } else {
      return if strong + weak >= p.threshold then None else Some(WeakQuorumNotMet);
    }
  }

  /** The nested search for finalizers that are in both policies; it stops at the first match. */
  method VerifyDualFinalizersVotes(a: QcSig, p: FinalizerPolicy, b: QcSig, q: FinalizerPolicy)
      returns (e: Option<QcError>)
    requires DistinctKeys(q)
    ensures e == if DualVotesAgree(a, p, b, q) then None else Some(DualFinalizerVotesDiffer)
  {
    for i := 0 to |p.finalizers|
      invariant forall x, y :: x < i ==> DualVoteAgrees(a, p, b, q, x, y)
    {
      var j := 0;
      while j < |q.finalizers| && p.finalizers[i].key != q.finalizers[j].key
        invariant 0 <= j <= |q.finalizers|
        invariant forall y :: 0 <= y < j ==> p.finalizers[i].key != q.finalizers[y].key
      {
        j := j + 1;
      }
      if j < |q.finalizers| && (a.Strong(i) != b.Strong(j) || a.Weak(i) != b.Weak(j)) {
        assert !DualVoteAgrees(a, p, b, q, i, j);
        return Some(DualFinalizerVotesDiffer);
      }
    }
    return None;
  }

  method VerifyBasic(qc: Qc, active: FinalizerPolicy, pending: Option<FinalizerPolicy>) returns (e: Option<QcError>)
    requires pending.Some? ==> DistinctKeys(pending.value)
    ensures e.None? <==> ValidQc(qc, active, pending)
    ensures e == Some(UnexpectedPendingSignature) <==>
              QuorumSig(qc.active, active) && qc.pending.Some? && pending.None?
    ensures e == Some(MissingPendingSignature) <==>
              QuorumSig(qc.active, active) && qc.pending.None? && pending.Some?
    ensures e == Some(DualFinalizerVotesDiffer) <==>
              QuorumSig(qc.active, active) && qc.pending.Some? && pending.Some?
                && !DualVotesAgree(qc.active, active, qc.pending.value, pending.value)
  {
    e := VerifyVoteFormat(qc.active, active);
    if e.Some? { return; }
    e := VerifyWeights(qc.active, active);
    if e.Some? { return; }
    if qc.pending.Some? {
      if pending.None? { return Some(UnexpectedPendingSignature); }
      e := VerifyDualFinalizersVotes(qc.active, active, qc.pending.value, pending.value);
      if e.Some? { return; }
      e := VerifyVoteFormat(qc.pending.value, pending.value);
      if e.Some? { return; }
      e := VerifyWeights(qc.pending.value, pending.value);
    } else if pending.Some? {
      return Some(MissingPendingSignature);
    }
  }

  /** The votes of a well-formed signature weigh no more than the keys that cast them. */
  lemma {:induction false} VotesWithin(finalizers: seq<FinalizerAuthority>, strong: seq<bool>, weak: seq<bool>,
                                       keys: set<Key>)
    requires |finalizers| == |strong| == |weak|
    requires forall i :: 0 <= i < |strong| ==>
               !(strong[i] && weak[i]) && (strong[i] || weak[i] ==> finalizers[i].key in keys)
    ensures Weight(finalizers, strong) + Weight(finalizers, weak) <= WeightOf(finalizers, keys)
  {
    if finalizers != [] {
      var n := |finalizers| - 1;
      VotesWithin(finalizers[..n], strong[..n], weak[..n], keys);
    }
  }

  lemma {:induction false} NoVotesNoWeight(finalizers: seq<FinalizerAuthority>, bits: seq<bool>)
    requires |finalizers| == |bits| && forall i :: 0 <= i < |bits| ==> !bits[i]
    ensures Weight(finalizers, bits) == 0
  {
    if bits != [] { NoVotesNoWeight(finalizers[..|bits| - 1], bits[..|bits| - 1]); }
  }

  /** If everyone whose bit is set is in `keys`, a quorum signature makes `keys` a quorum. */
  lemma SignersAreQuorum(s: QcSig, p: FinalizerPolicy, keys: set<Key>)
    requires QuorumSig(s, p)
    requires forall i: nat :: i < |p.finalizers| && (s.Strong(i) || s.Weak(i)) ==> p.finalizers[i].key in keys
    ensures p.threshold <= WeightOf(p.finalizers, keys)
  {
    var n := |p.finalizers|;
    var none := seq(n, i => false);
    var strong := if s.strongVotes.Some? then s.strongVotes.value else none;
    var weak := if s.weakVotes.Some? then s.weakVotes.value else none;
    NoVotesNoWeight(p.finalizers, none);
    forall i | 0 <= i < n
      ensures !(strong[i] && weak[i]) && (strong[i] || weak[i] ==> p.finalizers[i].key in keys)
    {
      assert strong[i] == s.Strong(i) && weak[i] == s.Weak(i);
    }
    VotesWithin(p.finalizers, strong, weak, keys);
  }

  /** The keys whose votes a signature carries. */
  ghost function Signers(s: QcSig, p: FinalizerPolicy): set<Key> {
    set i: nat | i < |p.finalizers| && (s.Strong(i) || s.Weak(i)) :: p.finalizers[i].key
  }

  /** Any two signatures accepted for one policy share finalizers of weight at least `2 * threshold - total`. */
  lemma AcceptedSigsOverlap(a: QcSig, b: QcSig, p: FinalizerPolicy)
    requires QuorumSig(a, p) && QuorumSig(b, p)
    ensures 2 * p.threshold - Total(p.finalizers) <= WeightOf(p.finalizers, Signers(a, p) * Signers(b, p))
  {
    SignersAreQuorum(a, p, Signers(a, p));
    SignersAreQuorum(b, p, Signers(b, p));
    QuorumsIntersect(p, Signers(a, p), Signers(b, p));
  }
}
