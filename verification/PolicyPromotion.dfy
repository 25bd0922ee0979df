/** Finalizer policies on their way from proposed through pending to active, driven by the
    last irreversible block number. */
module PolicyPromotion {
  import opened Wrappers
  import opened Blocks

  /** A policy with the number of the block that proposed it or made it pending. */
  datatype Tracked = Tracked(num: nat, policy: FinalizerPolicy)

  datatype Policies = Policies(active: FinalizerPolicy, pending: Option<Tracked>, proposed: seq<Tracked>) {
    predicate SlotOpensAt(lib: nat) {
      pending.None? || pending.value.num <= lib
    }
  }

  /** How many leading proposals are irreversible. */
  function FirstReversible(proposed: seq<Tracked>, lib: nat): (k: nat)
    ensures k <= |proposed|
  {
    if proposed == [] || lib < proposed[0].num then 0 else 1 + FirstReversible(proposed[1..], lib)
  }

  /** How many proposals are dropped: all that are superseded by a newer irreversible one, and that
      one too if the pending slot takes it. */
  function Dropped(prev: Policies, lib: nat): (k: nat)
    ensures k <= |prev.proposed|
  {
    var k := FirstReversible(prev.proposed, lib);
    if k == 0 || prev.SlotOpensAt(lib) then k else k - 1
  }

  /** The policies of block `num`, whose last irreversible block is `lib`, from its parent's. */
  function Promote(prev: Policies, lib: nat, num: nat): Policies {
    var k := FirstReversible(prev.proposed, lib);
    Policies(
      if prev.pending.Some? && prev.SlotOpensAt(lib) then prev.pending.value.policy else prev.active,
      if !prev.SlotOpensAt(lib) then prev.pending
      else if k == 0 then None else Some(Tracked(num, prev.proposed[k - 1].policy)),
      prev.proposed[Dropped(prev, lib)..])
  }

  /** Promotion followed by the new block's own proposal, if it makes one. */
  function Step(prev: Policies, lib: nat, num: nat, proposal: Option<FinalizerPolicy>): Policies {
    var p := Promote(prev, lib, num);
    if proposal.None? then p else p.(proposed := p.proposed + [Tracked(num, proposal.value)])
  }

  /** The reversible proposals start at the first one above the last irreversible block. */
  lemma {:induction false} FirstReversibleIs(proposed: seq<Tracked>, lib: nat, k: nat)
    requires k <= |proposed|
    ensures FirstReversible(proposed, lib) == k <==>
              && (forall i :: 0 <= i < k ==> proposed[i].num <= lib)
              && (k < |proposed| ==> lib < proposed[k].num)
  {
    if proposed != [] && proposed[0].num <= lib {
      if k > 0 {
        FirstReversibleIs(proposed[1..], lib, k - 1);
        assert forall i :: 0 < i < k ==> proposed[i] == proposed[1..][i - 1];
      }
    }
  }

  /** The header state under construction, filled in by `evaluate_finalizer_policies_for_promotion`. */
  class NextHeaderState {
    const lib: nat
    const num: nat
    var active: FinalizerPolicy
    var pending: Option<Tracked>
    var proposed: seq<Tracked>

    /** A fresh header state inherits only the active policy. */
    constructor (active: FinalizerPolicy, lib: nat, num: nat)
      ensures this.active == active && pending == None && proposed == []
      ensures this.lib == lib && this.num == num
    {
      this.active, this.pending, this.proposed := active, None, [];
      this.lib, this.num := lib, num;
    }

    method EvaluateForPromotion(prev: Policies)
      requires active == prev.active && pending == None && proposed == []
      modifies this
      ensures Policies(active, pending, proposed) == Promote(prev, lib, num)
    {
      if prev.pending == None && prev.proposed == [] { return; }
      var slotOpen := true;
      if prev.pending.Some? {
        if prev.pending.value.num <= lib {
          active := prev.pending.value.policy;
        } else {
          pending := prev.pending;
          slotOpen := false;
        }
      }
      if prev.proposed == [] { return; }
      var firstReversible := FindFirstReversible(prev.proposed, lib);
      if firstReversible > 0 {
        var target := prev.proposed[firstReversible - 1];
        if slotOpen {
          pending := Some(Tracked(num, target.policy));
        } else {
          proposed := [target];
        }
        proposed := proposed + prev.proposed[firstReversible..];
      } else {
        proposed := prev.proposed;
      }
      assert proposed == prev.proposed[Dropped(prev, lib)..];
    }
  }

  method FindFirstReversible(proposed: seq<Tracked>, lib: nat) returns (k: nat)
    ensures k == FirstReversible(proposed, lib)
  {
    k := 0;
    while k < |proposed| && proposed[k].num <= lib
      invariant 0 <= k <= |proposed|
      invariant forall i :: 0 <= i < k ==> proposed[i].num <= lib
    {
      k := k + 1;
    }
    FirstReversibleIs(proposed, lib, k);
  }

  /** A policy that becomes pending was proposed, and its proposal is irreversible; among proposals in block order
      it is the newest that is. */
  lemma NewPendingTarget(prev: Policies, lib: nat, num: nat, proposal: Option<FinalizerPolicy>) returns (t: Tracked)
    requires Step(prev, lib, num, proposal).pending.Some? && Step(prev, lib, num, proposal).pending != prev.pending
    ensures t in prev.proposed && t.num <= lib
    ensures Step(prev, lib, num, proposal).pending == Some(Tracked(num, t.policy))
    ensures Increasing(prev.proposed) ==> forall u :: u in prev.proposed && u.num <= lib ==> u.num <= t.num
  {
    var k := FirstReversible(prev.proposed, lib);
    FirstReversibleIs(prev.proposed, lib, k);
    t := prev.proposed[k - 1];
    if Increasing(prev.proposed) { NewestIs(prev.proposed, lib, k); }
  }

  lemma NewestIs(proposed: seq<Tracked>, lib: nat, k: nat)
    requires Increasing(proposed) && 0 < k == FirstReversible(proposed, lib) <= |proposed|
    ensures forall u :: u in proposed && u.num <= lib ==> u.num <= proposed[k - 1].num
  {
    FirstReversibleIs(proposed, lib, k);
    forall u | u in proposed && u.num <= lib ensures u.num <= proposed[k - 1].num {
      var i :| 0 <= i < |proposed| && proposed[i] == u;
      assert InOrder(proposed, i, k - 1) && InOrder(proposed, k, i);
    }
  }

  // ----- What every step keeps -----

  /** The generation of the newest policy that is no longer merely proposed. */
  function SettledGeneration(p: Policies): nat {
    if p.pending.Some? then p.pending.value.policy.generation else p.active.generation
  }

  /** Proposals are in block order and at most the first is irreversible; a pending policy is not
      yet irreversible; generations increase from active through pending to the newest proposal. */
  ghost predicate Ordered(p: Policies, lib: nat, num: nat, generation: nat) {
    && QueueOrdered(p.proposed, SettledGeneration(p), num, generation)
    && ReversibleFrom(p.proposed, if p.pending.None? then 0 else 1, lib)
    && SlotOrdered(p, lib, num, generation)
  }

  ghost predicate QueueOrdered(s: seq<Tracked>, low: nat, num: nat, generation: nat) {
    && Increasing(s)
    && (forall t :: t in s ==> Between(t, low, num, generation))
  }

  ghost predicate Increasing(s: seq<Tracked>) {
    forall i, j :: InOrder(s, i, j)
  }

  ghost predicate InOrder(s: seq<Tracked>, i: int, j: int) {
    0 <= i < j < |s| ==> s[i].num < s[j].num && s[i].policy.generation < s[j].policy.generation
  }

  ghost predicate Between(t: Tracked, low: nat, num: nat, generation: nat) {
    t.num <= num && low < t.policy.generation <= generation
  }

  ghost predicate ReversibleFrom(s: seq<Tracked>, from: nat, lib: nat) {
    forall i :: ReversibleAt(s, from, lib, i)
  }

  ghost predicate ReversibleAt(s: seq<Tracked>, from: nat, lib: nat, i: int) {
    from <= i < |s| ==> lib < s[i].num
  }

  ghost predicate SlotOrdered(p: Policies, lib: nat, num: nat, generation: nat) {
    && SettledGeneration(p) <= generation
    && (p.pending.Some? ==> lib < p.pending.value.num <= num && p.active.generation < p.pending.value.policy.generation)
  }

  lemma QueueTail(s: seq<Tracked>, k: nat, low: nat, num: nat, generation: nat, newLow: nat)
    requires QueueOrdered(s, low, num, generation) && k <= |s|
    requires newLow == low || (k > 0 && newLow == s[k - 1].policy.generation)
    ensures QueueOrdered(s[k..], newLow, num, generation)
  {
    var n := s[k..];
    forall i, j ensures InOrder(n, i, j) { assert InOrder(s, k + i, k + j); }
    forall t | t in n ensures Between(t, newLow, num, generation) {
      assert t in s;
      var i :| 0 <= i < |n| && n[i] == t;
      assert InOrder(s, k - 1, k + i);
    }
  }

  lemma QueueAppend(s: seq<Tracked>, t: Tracked, low: nat, num: nat, generation: nat)
    requires QueueOrdered(s, low, num, generation) && num < t.num && low <= generation < t.policy.generation
    ensures QueueOrdered(s + [t], low, t.num, t.policy.generation)
  {
    var n := s + [t];
    forall i, j ensures InOrder(n, i, j) {
      assert InOrder(s, i, j);
      assert 0 <= i < |s| ==> s[i] in s;
    }
    forall u | u in n ensures Between(u, low, t.num, t.policy.generation) {
      assert u == t || Between(u, low, num, generation);
    }
  }

  lemma ReversibleTail(s: seq<Tracked>, lib: nat, k: nat, from: nat)
    requires Increasing(s) && FirstReversible(s, lib) <= k + from && k <= |s|
    ensures ReversibleFrom(s[k..], from, lib)
  {
    var n, f := s[k..], FirstReversible(s, lib);
    FirstReversibleIs(s, lib, f);
    forall i ensures ReversibleAt(n, from, lib, i) { assert InOrder(s, f, k + i); }
  }

  lemma ReversibleAppend(s: seq<Tracked>, t: Tracked, lib: nat, from: nat)
    requires ReversibleFrom(s, from, lib) && lib < t.num
    ensures ReversibleFrom(s + [t], from, lib)
  {
    var n := s + [t];
    forall i ensures ReversibleAt(n, from, lib, i) { assert ReversibleAt(s, from, lib, i); }
  }

  lemma PromoteKeepsOrder(prev: Policies, oldLib: nat, oldNum: nat, lib: nat, num: nat, generation: nat)
    requires Ordered(prev, oldLib, oldNum, generation) && oldLib <= lib <= oldNum < num
    ensures Ordered(Promote(prev, lib, num), lib, num, generation)
    ensures QueueOrdered(Promote(prev, lib, num).proposed, SettledGeneration(Promote(prev, lib, num)), oldNum,
                         generation)
  {
    var q, k := Promote(prev, lib, num), FirstReversible(prev.proposed, lib);
    if k > 0 { assert prev.proposed[k - 1] in prev.proposed; }
    QueueTail(prev.proposed, Dropped(prev, lib), SettledGeneration(prev), oldNum, generation, SettledGeneration(q));
    ReversibleTail(prev.proposed, lib, Dropped(prev, lib), if q.pending.None? then 0 else 1);
    forall t | t in q.proposed ensures Between(t, SettledGeneration(q), num, generation) {
      assert Between(t, SettledGeneration(q), oldNum, generation);
    }
  }

  lemma StepKeepsOrder(prev: Policies, oldLib: nat, oldNum: nat, lib: nat, num: nat, proposal: Option<FinalizerPolicy>,
                       generation: nat, newGeneration: nat)
    requires Ordered(prev, oldLib, oldNum, generation) && oldLib <= lib <= oldNum < num
    requires if proposal.Some? then generation < proposal.value.generation == newGeneration
             else newGeneration == generation
    ensures Ordered(Step(prev, lib, num, proposal), lib, num, newGeneration)
  {
    PromoteKeepsOrder(prev, oldLib, oldNum, lib, num, generation);
    if proposal.Some? {
      var q, t := Promote(prev, lib, num), Tracked(num, proposal.value);
      QueueAppend(q.proposed, t, SettledGeneration(q), oldNum, generation);
      ReversibleAppend(q.proposed, t, lib, if q.pending.None? then 0 else 1);
    }
  }

  // ----- Garbage collection is invisible -----

  /** One block: its last irreversible block, its number and its proposal. */
  datatype Event = Event(lib: nat, num: nat, proposal: Option<FinalizerPolicy>)

  /** A machine that never forgets a proposal; `last` is the number of the newest one promoted. */
  datatype Reference = Reference(active: FinalizerPolicy, pending: Option<Tracked>, all: seq<Tracked>, last: int)

  /** The newest irreversible proposal newer than the last one promoted. */
  function Newest(all: seq<Tracked>, last: int, lib: nat): Option<Tracked> {
    if all == [] then None
    else if last < all[|all| - 1].num <= lib then Some(all[|all| - 1])
    else Newest(all[..|all| - 1], last, lib)
  }

  function ReferenceStep(r: Reference, e: Event): Reference {
    var opens := r.pending.None? || r.pending.value.num <= e.lib;
    var active := if r.pending.Some? && opens then r.pending.value.policy else r.active;
    var target := Newest(r.all, r.last, e.lib);
    var pending := if !opens then r.pending
                   else if target.None? then None else Some(Tracked(e.num, target.value.policy));
    var last := if opens && target.Some? then target.value.num else r.last;
    Reference(active, pending, if e.proposal.None? then r.all else r.all + [Tracked(e.num, e.proposal.value)], last)
  }

  function Run(p: Policies, events: seq<Event>): Policies {
    if events == [] then p
    else var e := events[|events| - 1];
      Step(Run(p, events[..|events| - 1]), e.lib, e.num, e.proposal)
  }

  function ReferenceRun(r: Reference, events: seq<Event>): Reference {
    if events == [] then r else ReferenceStep(ReferenceRun(r, events[..|events| - 1]), events[|events| - 1])
  }

  /** Block numbers increase, irreversibility never retreats and stays behind the block. */
  ghost predicate Chain(events: seq<Event>) {
    && (forall i :: 0 <= i < |events| ==> events[i].lib < events[i].num)
    && (forall i, j :: 0 <= i < j < |events| ==> events[i].lib <= events[j].lib && events[i].num < events[j].num)
  }

  /** The queue kept is a tail of all proposals, and what was dropped can never be promoted. */
  ghost predicate Simulates(p: Policies, r: Reference, lib: nat, num: nat) {
    var k := |r.all| - |p.proposed|;
    && p.active == r.active && p.pending == r.pending
    && 0 <= k && p.proposed == r.all[k..]
    && r.last <= lib
    && InBlockOrder(r.all, num) && Split(r.all, k, r.last, lib)
  }

  ghost predicate InBlockOrder(all: seq<Tracked>, num: nat) {
    && (forall t :: t in all ==> t.num <= num)
    && (forall i, j :: NumsInOrder(all, i, j))
  }

  ghost predicate NumsInOrder(all: seq<Tracked>, i: int, j: int) {
    0 <= i < j < |all| ==> all[i].num < all[j].num
  }

  /** Everything from `k` on is newer than the last promotion; everything before is superseded. */
  ghost predicate Split(all: seq<Tracked>, k: nat, last: int, lib: nat) {
    forall i :: SplitAt(all, k, last, lib, i)
  }

  ghost predicate SplitAt(all: seq<Tracked>, k: nat, last: int, lib: nat, i: int) {
    && (k <= i < |all| ==> last < all[i].num)
    && (0 <= i < k <= |all| ==> all[i].num <= last || (k < |all| && all[k].num <= lib))
  }

  lemma {:induction false} NewestNone(all: seq<Tracked>, last: int, lib: nat)
    requires forall i :: 0 <= i < |all| ==> all[i].num <= last || lib < all[i].num
    ensures Newest(all, last, lib) == None
  {
    if all != [] { NewestNone(all[..|all| - 1], last, lib); }
  }

  lemma {:induction false} NewestSome(all: seq<Tracked>, last: int, lib: nat, m: nat)
    requires m < |all| && last < all[m].num <= lib
    requires forall i :: m < i < |all| ==> lib < all[i].num
    ensures Newest(all, last, lib) == Some(all[m])
    decreases |all|
  {
    if m < |all| - 1 { NewestSome(all[..|all| - 1], last, lib, m); }
  }

  /** The queue finds the target that a search through every proposal would find. */
  lemma QueueFindsTarget(all: seq<Tracked>, k: nat, last: int, oldLib: nat, lib: nat, num: nat)
    requires k <= |all| && InBlockOrder(all, num) && Split(all, k, last, oldLib) && last <= oldLib <= lib
    ensures var f := FirstReversible(all[k..], lib);
            && Newest(all, last, lib) == (if f == 0 then None else Some(all[k + f - 1]))
            && (f > 0 ==> last < all[k + f - 1].num <= lib)
  {
    var tail, f := all[k..], FirstReversible(all[k..], lib);
    FirstReversibleIs(tail, lib, f);
    if f > 0 {
      var m := k + f - 1;
      assert tail[f - 1] == all[m] && SplitAt(all, k, last, oldLib, m);
      forall i | m < i < |all| ensures lib < all[i].num {
        assert tail[f] == all[m + 1] && NumsInOrder(all, m + 1, i);
      }
      NewestSome(all, last, lib, m);
    } else {
      forall i | 0 <= i < |all| ensures all[i].num <= last || lib < all[i].num {
        assert SplitAt(all, k, last, oldLib, i);
        if k < |all| { assert tail[0] == all[k] && NumsInOrder(all, k, i); }
      }
      NewestNone(all, last, lib);
    }
  }

  /** After a step, with the slot open or not, dropped proposals are again exactly the dead ones. */
  lemma SplitMoves(all: seq<Tracked>, k: nat, last: int, oldLib: nat, lib: nat, num: nat, f: nat, open: bool)
    requires k + f <= |all| && InBlockOrder(all, num) && Split(all, k, last, oldLib) && oldLib <= lib
    requires f > 0 ==> last < all[k + f - 1].num <= lib
    requires f == 0 && k < |all| ==> lib < all[k].num
    ensures if f == 0 then Split(all, k, last, lib)
            else if open then Split(all, k + f, all[k + f - 1].num, lib)
            else Split(all, k + f - 1, last, lib)
  {
    forall i ensures f == 0 ==> SplitAt(all, k, last, lib, i) { assert SplitAt(all, k, last, oldLib, i); }
    if f > 0 {
      var m := k + f - 1;
      var n, newLast := m + 1, all[m].num;
      forall i ensures SplitAt(all, n, newLast, lib, i) { assert NumsInOrder(all, m, i) && NumsInOrder(all, i, m); }
      forall i ensures SplitAt(all, m, last, lib, i) { assert NumsInOrder(all, m, i); }
    }
  }

  lemma AppendSimulates(p: Policies, r: Reference, lib: nat, num: nat, t: Tracked)
    requires Simulates(p, r, lib, num) && num < t.num && lib < t.num
    ensures Simulates(p.(proposed := p.proposed + [t]), r.(all := r.all + [t]), lib, t.num)
  {
    var k, n := |r.all| - |p.proposed|, r.all + [t];
    assert n[k..] == r.all[k..] + [t];
    forall i, j ensures NumsInOrder(n, i, j) {
      assert NumsInOrder(r.all, i, j);
      assert 0 <= i < |r.all| ==> r.all[i] in r.all;
    }
    var last := r.last;
    forall i ensures SplitAt(n, k, last, lib, i) {
      assert SplitAt(r.all, k, last, lib, i);
    }
  }

  lemma SimulatesFrom(p: Policies, r: Reference, k: nat, lib: nat, num: nat)
    requires p.active == r.active && p.pending == r.pending && r.last <= lib
    requires k <= |r.all| && p.proposed == r.all[k..] && InBlockOrder(r.all, num) && Split(r.all, k, r.last, lib)
    ensures Simulates(p, r, lib, num)
  {
  }

  lemma PromotedQueue(p: Policies, all: seq<Tracked>, k: nat, lib: nat, num: nat)
    requires k <= |all| && p.proposed == all[k..]
    ensures var d, q := k + Dropped(p, lib), Promote(p, lib, num);
            d <= |all| && q.proposed == all[d..] && |all[d..]| == |all| - d
    ensures var f := FirstReversible(all[k..], lib); f > 0 ==> p.proposed[f - 1] == all[k + f - 1]
  {
  }

  /** The number of the newest promoted proposal after a step from a queue that starts at `k`. */
  ghost function LastAfter(p: Policies, r: Reference, k: nat, lib: nat): int
    requires k <= |r.all|
  {
    var f := FirstReversible(r.all[k..], lib);
    if f > 0 && p.SlotOpensAt(lib) then r.all[k + f - 1].num else r.last
  }

  lemma SlotsAgree(p: Policies, r: Reference, k: nat, lib: nat, num: nat)
    requires p.active == r.active && p.pending == r.pending && k <= |r.all| && p.proposed == r.all[k..]
    requires var f := FirstReversible(r.all[k..], lib);
             Newest(r.all, r.last, lib) == if f == 0 then None else Some(r.all[k + f - 1])
    ensures var q, s := Promote(p, lib, num), ReferenceStep(r, Event(lib, num, None));
            q.active == s.active && q.pending == s.pending && s.all == r.all && s.last == LastAfter(p, r, k, lib)
  {
  }

  lemma SplitAfter(p: Policies, r: Reference, k: nat, oldLib: nat, lib: nat, num: nat)
    requires k <= |r.all| && p.proposed == r.all[k..] && InBlockOrder(r.all, num)
    requires Split(r.all, k, r.last, oldLib) && r.last <= oldLib <= lib
    ensures var f := FirstReversible(r.all[k..], lib);
            Newest(r.all, r.last, lib) == if f == 0 then None else Some(r.all[k + f - 1])
    ensures Split(r.all, k + Dropped(p, lib), LastAfter(p, r, k, lib), lib) && LastAfter(p, r, k, lib) <= lib
  {
    var f := FirstReversible(r.all[k..], lib);
    QueueFindsTarget(r.all, k, r.last, oldLib, lib, num);
    FirstReversibleIs(r.all[k..], lib, f);
    SplitMoves(r.all, k, r.last, oldLib, lib, num, f, p.SlotOpensAt(lib));
  }

  lemma PromoteSimulates(p: Policies, r: Reference, oldLib: nat, lib: nat, oldNum: nat, num: nat)
    requires Simulates(p, r, oldLib, oldNum) && oldLib <= lib
    ensures Simulates(Promote(p, lib, num), ReferenceStep(r, Event(lib, num, None)), lib, oldNum)
  {
    var k := |r.all| - |p.proposed|;
    SplitAfter(p, r, k, oldLib, lib, oldNum);
    PromotedQueue(p, r.all, k, lib, num);
    SlotsAgree(p, r, k, lib, num);
    SimulatesFrom(Promote(p, lib, num), ReferenceStep(r, Event(lib, num, None)), k + Dropped(p, lib), lib, oldNum);
  }

  lemma StepSimulates(p: Policies, r: Reference, lib: nat, num: nat, e: Event)
    requires Simulates(p, r, lib, num) && lib <= e.lib < e.num && num < e.num
    ensures Simulates(Step(p, e.lib, e.num, e.proposal), ReferenceStep(r, e), e.lib, e.num)
  {
    PromoteSimulates(p, r, lib, e.lib, num, e.num);
    var q, s := Promote(p, e.lib, e.num), ReferenceStep(r, e.(proposal := None));
    if e.proposal.Some? {
      AppendSimulates(q, s, e.lib, num, Tracked(e.num, e.proposal.value));
    }
  }

  /** For every run along a chain, dropping superseded proposals changes neither the pending nor
      the active policy at any block. */
  lemma {:induction false} GarbageCollectionInvisible(genesis: FinalizerPolicy, events: seq<Event>)
    requires Chain(events)
    ensures var p, r := Run(Policies(genesis, None, []), events),
            ReferenceRun(Reference(genesis, None, [], -1), events);
            && p.active == r.active && p.pending == r.pending
            && (events != [] ==> Simulates(p, r, events[|events| - 1].lib, events[|events| - 1].num))
  {
    var p0, r0 := Policies(genesis, None, []), Reference(genesis, None, [], -1);
    if events != [] {
      var n := |events| - 1;
      GarbageCollectionInvisible(genesis, events[..n]);
      if n == 0 {
        assert events[..0] == [] && Simulates(p0, r0, 0, 0);
        StepSimulates(p0, r0, 0, 0, events[0]);
      } else {
        StepSimulates(Run(p0, events[..n]), ReferenceRun(r0, events[..n]), events[n - 1].lib, events[n - 1].num,
                      events[n]);
      }
    }
  }
}
