/** Aggregating votes while a second finalizer policy is pending. */
module DualAggregation {
  import opened Wrappers
  import opened Blocks
  import opened QuorumCertificates
  import opened VoteAggregation

  /** A vote message; `genuine` says whether its signature verifies. */
  datatype VoteMessage = VoteMessage(key: Key, strong: bool, genuine: bool)

  function IndexOf(finalizers: seq<FinalizerAuthority>, key: Key): (r: Option<nat>)
    ensures r.Some? ==> r.value < |finalizers| && finalizers[r.value].key == key
    ensures r.None? <==> forall f :: f in finalizers ==> f.key != key
  {
    if finalizers == [] then None
    else
      var n := |finalizers| - 1;
      var before := IndexOf(finalizers[..n], key);
      if before.Some? then before else if finalizers[n].key == key then Some(n) else None
  }

  method FindFinalizer(p: FinalizerPolicy, key: Key) returns (r: Option<nat>)
    ensures r == IndexOf(p.finalizers, key)
  {
    for i := 0 to |p.finalizers|
      invariant IndexOf(p.finalizers[..i], key).None?
    {
      assert p.finalizers[..i + 1][..i] == p.finalizers[..i];
      if p.finalizers[i].key == key {
        FirstIndex(p.finalizers, key, i);
        return Some(i);
      }
    }
    assert p.finalizers[..|p.finalizers|] == p.finalizers;
    return None;
  }

  lemma {:induction false} FirstIndex(finalizers: seq<FinalizerAuthority>, key: Key, i: nat)
    requires i < |finalizers| && IndexOf(finalizers[..i], key).None? && finalizers[i].key == key
    ensures IndexOf(finalizers, key) == Some(i)
  {
    var n := |finalizers| - 1;
    if i < n {
      assert finalizers[..n][..i] == finalizers[..i];
      FirstIndex(finalizers[..n], key, i);
    }
  }

  /** One policy's part of a vote: what it is answered with and the tally it leaves. */
  function StatusOf(t: Tally, p: FinalizerPolicy, v: VoteMessage): VoteStatus {
    var i := IndexOf(p.finalizers, v.key);
    if i.None? then UnknownKey
    else if t.HasVoted(i.value) then Duplicate
    else if !v.genuine then InvalidSignature
    else Success
  }

  predicate Sized(t: Tally, p: FinalizerPolicy) { |t.strongVotes| == |t.weakVotes| == |p.finalizers| }

  function AfterMessage(t: Tally, p: FinalizerPolicy, maxWeak: nat, v: VoteMessage): (r: Tally)
    requires Sized(t, p)
    ensures Sized(r, p)
  {
    if StatusOf(t, p, v) != Success then t
    else
      var i := IndexOf(p.finalizers, v.key).value;
      AddVote(t, Ballot(i, v.strong), p.finalizers[i].weight, p.threshold, maxWeak)
  }

  /** The aggregator of a block, with a second tally if a policy is pending. */
  class AggregatingQc {
    const activePolicy: FinalizerPolicy
    const pendingPolicy: Option<FinalizerPolicy>
    const active: AggregatingQcSig
    const pending: AggregatingQcSig?

    ghost predicate Valid()
      reads this, active, pending
    {
      && Sized(active.Value(), activePolicy) && active.quorum == activePolicy.threshold
      && (pending == null <==> pendingPolicy.None?)
      && (pending != null ==>
            && active != pending && Sized(pending.Value(), pendingPolicy.value)
            && pending.quorum == pendingPolicy.value.threshold)
    }

    constructor (activePolicy: FinalizerPolicy, pendingPolicy: Option<FinalizerPolicy>)
      requires In64Bits(activePolicy) && (pendingPolicy.Some? ==> In64Bits(pendingPolicy.value))
      ensures Valid() && fresh(active) && (pending != null ==> fresh(pending))
      ensures this.activePolicy == activePolicy && this.pendingPolicy == pendingPolicy
      ensures active.maxWeak == MaxWeak(activePolicy) && active.Value() == EmptyTally(|activePolicy.finalizers|)
      ensures pending != null ==>
                && pending.maxWeak == MaxWeak(pendingPolicy.value)
                && pending.Value() == EmptyTally(|pendingPolicy.value.finalizers|)
    {
      this.activePolicy, this.pendingPolicy := activePolicy, pendingPolicy;
      var bound := MaxWeakSumBeforeWeakFinal(activePolicy);
      active := new AggregatingQcSig(|activePolicy.finalizers|, activePolicy.threshold, bound);
      if pendingPolicy.Some? {
        var p := pendingPolicy.value;
        bound := MaxWeakSumBeforeWeakFinal(p);
        pending := new AggregatingQcSig(|p.finalizers|, p.threshold, bound);
      } else {
        pending := null;
      }
    }

    /** The part of `aggregate_vote` done for each policy. */
    static method AddTo(sig: AggregatingQcSig, p: FinalizerPolicy, v: VoteMessage) returns (s: VoteStatus)
      requires Sized(sig.Value(), p) && sig.quorum == p.threshold
      modifies sig
      ensures s == StatusOf(old(sig.Value()), p, v)
      ensures sig.Value() == AfterMessage(old(sig.Value()), p, sig.maxWeak, v)
    {
      var i := FindFinalizer(p, v.key);
      if i.None? { return UnknownKey; }
      if sig.strongVotes[i.value] || sig.weakVotes[i.value] { return Duplicate; }
      if !v.genuine { return InvalidSignature; }
      s := sig.Add(v.strong, i.value, p.finalizers[i.value].weight);
    }

    method AggregateVote(v: VoteMessage) returns (s: VoteStatus)
      requires Valid()
      modifies active, pending
      ensures Valid()
      ensures s == if pending == null then StatusOf(old(active.Value()), activePolicy, v)
                   else Answer(old(active.Value()), activePolicy, old(pending.Value()), pendingPolicy.value, v)
      ensures active.Value() == AfterMessage(old(active.Value()), activePolicy, active.maxWeak, v)
      ensures pending != null ==>
                pending.Value() == if ReachesPending(old(active.Value()), activePolicy, v)
                                   then AfterMessage(old(pending.Value()), pendingPolicy.value, pending.maxWeak, v)
                                   else old(pending.Value())
    {
      s := AddTo(active, activePolicy, v);
      if s != Success && s != UnknownKey { return; }
      if pending != null {
        var ps := AddTo(pending, pendingPolicy.value, v);
        if ps != UnknownKey { s := ps; }
      }
    }
  }

  predicate ReachesPending(a: Tally, p: FinalizerPolicy, v: VoteMessage) {
    StatusOf(a, p, v) == Success || StatusOf(a, p, v) == UnknownKey
  }

  function Answer(a: Tally, p: FinalizerPolicy, b: Tally, q: FinalizerPolicy, v: VoteMessage): VoteStatus {
    if ReachesPending(a, p, v) && StatusOf(b, q, v) != UnknownKey then StatusOf(b, q, v) else StatusOf(a, p, v)
  }

  /** Both tallies after a sequence of vote messages. */
  datatype Tallies = Tallies(active: Tally, pending: Tally)

  function Collect(p: FinalizerPolicy, q: FinalizerPolicy, pMax: nat, qMax: nat, vs: seq<VoteMessage>): (r: Tallies)
    ensures Sized(r.active, p) && Sized(r.pending, q)
  {
    if vs == [] then Tallies(EmptyTally(|p.finalizers|), EmptyTally(|q.finalizers|))
    else
      var n := |vs| - 1;
      var t := Collect(p, q, pMax, qMax, vs[..n]);
      Tallies(AfterMessage(t.active, p, pMax, vs[n]),
              if ReachesPending(t.active, p, vs[n]) then AfterMessage(t.pending, q, qMax, vs[n]) else t.pending)
  }

  // ----- A finalizer in both policies has one record -----

  ghost predicate SameRecord(a: Tally, p: FinalizerPolicy, b: Tally, q: FinalizerPolicy, i: int, j: int) {
    0 <= i < |p.finalizers| && 0 <= j < |q.finalizers| && p.finalizers[i].key == q.finalizers[j].key
    && Sized(a, p) && Sized(b, q) ==>
      a.strongVotes[i] == b.strongVotes[j] && a.weakVotes[i] == b.weakVotes[j]
  }

  ghost predicate RecordsAgree(a: Tally, p: FinalizerPolicy, b: Tally, q: FinalizerPolicy) {
    forall i, j :: SameRecord(a, p, b, q, i, j)
  }

  lemma IndexIs(p: FinalizerPolicy, i: nat)
    requires DistinctKeys(p) && i < |p.finalizers|
    ensures IndexOf(p.finalizers, p.finalizers[i].key) == Some(i)
  {
    assert p.finalizers[i] in p.finalizers;
  }

  /** What one message does to one finalizer's record. */
  lemma RecordAfter(t: Tally, p: FinalizerPolicy, maxWeak: nat, v: VoteMessage, i: nat)
    requires Sized(t, p) && DistinctKeys(p) && i < |p.finalizers|
    ensures var r := AfterMessage(t, p, maxWeak, v);
            var counted := v.key == p.finalizers[i].key && !t.HasVoted(i) && v.genuine;
            && r.strongVotes[i] == (t.strongVotes[i] || (counted && v.strong))
            && r.weakVotes[i] == (t.weakVotes[i] || (counted && !v.strong))
  {
    IndexIs(p, i);
    var k := IndexOf(p.finalizers, v.key);
    assert k == Some(i) <==> v.key == p.finalizers[i].key;
  }

  /** How the first genuine message with the key votes. */
  function FirstGenuine(vs: seq<VoteMessage>, key: Key): Option<bool> {
    if vs == [] then None
    else
      var n := |vs| - 1;
      var before := FirstGenuine(vs[..n], key);
      if before.Some? || vs[n].key != key || !vs[n].genuine then before else Some(vs[n].strong)
  }

  /** The tally of one policy alone, after a sequence of vote messages. */
  function Receive(p: FinalizerPolicy, maxWeak: nat, vs: seq<VoteMessage>): (t: Tally)
    ensures Sized(t, p)
  {
    if vs == [] then EmptyTally(|p.finalizers|)
    else AfterMessage(Receive(p, maxWeak, vs[..|vs| - 1]), p, maxWeak, vs[|vs| - 1])
  }

  /** Whatever messages arrive, with unknown keys, bad signatures and repeats, each finalizer is recorded as its first
      genuine message votes. */
  lemma {:induction false} FirstGenuineCounts(p: FinalizerPolicy, maxWeak: nat, vs: seq<VoteMessage>, i: nat)
    requires DistinctKeys(p) && i < |p.finalizers|
    ensures Receive(p, maxWeak, vs).strongVotes[i] <==> FirstGenuine(vs, p.finalizers[i].key) == Some(true)
    ensures Receive(p, maxWeak, vs).weakVotes[i] <==> FirstGenuine(vs, p.finalizers[i].key) == Some(false)
  {
    if vs != [] {
      var before := vs[..|vs| - 1];
      FirstGenuineCounts(p, maxWeak, before, i);
      RecordAfter(Receive(p, maxWeak, before), p, maxWeak, vs[|vs| - 1], i);
      var first := FirstGenuine(before, p.finalizers[i].key);
      assert first.Some? ==> first == Some(first.value) && (first.value || !first.value);
    }
  }

  lemma ReceivedAgree(p: FinalizerPolicy, q: FinalizerPolicy, pMax: nat, qMax: nat, vs: seq<VoteMessage>)
    requires DistinctKeys(p) && DistinctKeys(q)
    ensures RecordsAgree(Receive(p, pMax, vs), p, Receive(q, qMax, vs), q)
  {
    forall i, j ensures SameRecord(Receive(p, pMax, vs), p, Receive(q, qMax, vs), q, i, j) {
      if 0 <= i < |p.finalizers| && 0 <= j < |q.finalizers| {
        FirstGenuineCounts(p, pMax, vs, i);
        FirstGenuineCounts(q, qMax, vs, j);
      }
    }
  }

  /** A vote that the active policy refuses would not change the pending policy's tally either. */
  lemma NothingMissed(a: Tally, p: FinalizerPolicy, b: Tally, q: FinalizerPolicy, qMax: nat, v: VoteMessage)
    requires Sized(a, p) && Sized(b, q) && RecordsAgree(a, p, b, q) && !ReachesPending(a, p, v)
    ensures AfterMessage(b, q, qMax, v) == b
  {
    var i, j := IndexOf(p.finalizers, v.key), IndexOf(q.finalizers, v.key);
    if j.Some? { assert SameRecord(a, p, b, q, i.value, j.value); }
  }

  /** Aggregating for two policies together is aggregating for each of them alone. */
  lemma {:induction false} DualIsIndependent(p: FinalizerPolicy, q: FinalizerPolicy, pMax: nat, qMax: nat,
                                             vs: seq<VoteMessage>)
    requires DistinctKeys(p) && DistinctKeys(q)
    ensures Collect(p, q, pMax, qMax, vs) == Tallies(Receive(p, pMax, vs), Receive(q, qMax, vs))
  {
    if vs != [] {
      var before, v := vs[..|vs| - 1], vs[|vs| - 1];
      DualIsIndependent(p, q, pMax, qMax, before);
      var a, b := Receive(p, pMax, before), Receive(q, qMax, before);
      if !ReachesPending(a, p, v) {
        ReceivedAgree(p, q, pMax, qMax, before);
        NothingMissed(a, p, b, q, qMax, v);
      }
    }
  }

  /** So in every run a finalizer that is in both policies is recorded the same way in both. */
  lemma RecordsAlwaysAgree(p: FinalizerPolicy, q: FinalizerPolicy, pMax: nat, qMax: nat, vs: seq<VoteMessage>)
    requires DistinctKeys(p) && DistinctKeys(q)
    ensures RecordsAgree(Collect(p, q, pMax, qMax, vs).active, p, Collect(p, q, pMax, qMax, vs).pending, q)
  {
    DualIsIndependent(p, q, pMax, qMax, vs);
    ReceivedAgree(p, q, pMax, qMax, vs);
  }

  /** So the answer to a vote depends only on the key: unknown to both policies, already recorded under
      either, badly signed, or counted under every policy it belongs to. */
  lemma AnswerIs(a: Tally, p: FinalizerPolicy, b: Tally, q: FinalizerPolicy, v: VoteMessage)
    requires RecordsAgree(a, p, b, q) && Sized(a, p) && Sized(b, q)
    ensures var i, j := IndexOf(p.finalizers, v.key), IndexOf(q.finalizers, v.key);
            Answer(a, p, b, q, v) ==
            if i.None? && j.None? then UnknownKey
            else if (i.Some? && a.HasVoted(i.value)) || (j.Some? && b.HasVoted(j.value)) then Duplicate
            else if !v.genuine then InvalidSignature
            else Success
  {
    var i, j := IndexOf(p.finalizers, v.key), IndexOf(q.finalizers, v.key);
    if i.Some? && j.Some? { assert SameRecord(a, p, b, q, i.value, j.value); }
  }

  /** A vote that is not answered with success changes neither tally. */
  lemma RefusedChangesNothing(a: Tally, p: FinalizerPolicy, pMax: nat, b: Tally, q: FinalizerPolicy, qMax: nat,
                              v: VoteMessage)
    requires RecordsAgree(a, p, b, q) && Sized(a, p) && Sized(b, q) && Answer(a, p, b, q, v) != Success
    ensures AfterMessage(a, p, pMax, v) == a
    ensures ReachesPending(a, p, v) ==> AfterMessage(b, q, qMax, v) == b
  {
    AnswerIs(a, p, b, q, v);
    var i, j := IndexOf(p.finalizers, v.key), IndexOf(q.finalizers, v.key);
    if i.Some? && j.Some? { assert SameRecord(a, p, b, q, i.value, j.value); }
  }
}
