/** Execution order, receipts and failures of whole transactions. */
module ActionTheorems {
  import opened ActionScheduler
  import opened ActionOrder
  import opened ActionRuns

  /** From `t` to `r`, only the actions `xs` and what they created was executed and given children. */
  ghost predicate Below(t: Trx, r: Trx, xs: seq<nat>) {
    && t.traces <= r.traces && t.started <= r.started
    && (forall k :: ChildBelow(t, r, xs, k))
    && (forall j :: StartedBelow(t, r, xs, j))
  }

  ghost predicate ChildBelow(t: Trx, r: Trx, xs: seq<nat>, k: int) {
    |t.traces| <= k < |r.traces| ==> r.traces[k].ancestor in xs || |t.traces| < r.traces[k].ancestor
  }

  ghost predicate StartedBelow(t: Trx, r: Trx, xs: seq<nat>, j: int) {
    |t.started| <= j < |r.started| ==> r.started[j] in xs || |t.traces| < r.started[j]
  }

  /** An action that has been scheduled and not yet executed. */
  ghost predicate Startable(t: Trx, x: nat) {
    1 <= x <= |t.traces| && KindOf(t.traces[x - 1]) != Notified && NoneFrom(t.traces, 0, x) && x !in t.started
  }

  ghost predicate AllStartable(t: Trx, xs: seq<nat>) {
    forall k :: StartableAt(t, xs, k)
  }

  ghost predicate StartableAt(t: Trx, xs: seq<nat>, k: int) {
    0 <= k < |xs| ==> Startable(t, xs[k])
  }

  lemma StillStartable(t: Trx, u: Trx, xs: seq<nat>, x: nat)
    requires Startable(t, x) && Below(t, u, xs) && x !in xs
    ensures Startable(u, x)
  {
    forall k | 0 <= k < |u.traces| ensures u.traces[k].ancestor != x { assert ChildBelow(t, u, xs, k); }
    forall j | 0 <= j < |u.started| ensures u.started[j] != x { assert StartedBelow(t, u, xs, j); }
  }

  lemma BelowTrans(t: Trx, u: Trx, r: Trx, xs: seq<nat>, ys: seq<nat>, zs: seq<nat>)
    requires Below(t, u, xs) && Below(u, r, ys)
    requires forall x :: x in xs ==> x in zs
    requires forall y :: y in ys ==> y in zs || |t.traces| < y
    ensures Below(t, r, zs)
  {
    forall k ensures ChildBelow(t, r, zs, k) { assert ChildBelow(t, u, xs, k) && ChildBelow(u, r, ys, k); }
    forall j ensures StartedBelow(t, r, zs, j) { assert StartedBelow(t, u, xs, j) && StartedBelow(u, r, ys, j); }
  }

  lemma StartsNotifying(t: Trx, o: nat, base: nat)
    requires Startable(t, o) && WellTraced(t.traces) && Books(t, base)
    ensures Notifying(StartContext(t, o), 0, t.started, |t.traces|, base)
  {
    Childless(t.traces, o, Notified);
    Childless(t.traces, o, ContextFreeSent);
    Childless(t.traces, o, Sent);
  }

  /** The notification loop of action `o`, seen from outside. */
  lemma NotifiedBelow(t: Trx, o: nat, s: State, base: nat)
    requires Startable(t, o) && Notifies(StartContext(t, o), s, t.started, base)
    ensures Below(t, s.trx, [o])
  {
    var j :| 0 <= j <= |s.ctx.ordinals| && s.trx.started == t.started + s.ctx.ordinals[..j];
    KidsBeyond(s.trx.traces, o, Notified, |t.traces|, |s.trx.traces|);
    forall i ensures StartedBelow(t, s.trx, [o], i) { }
    forall k ensures ChildBelow(t, s.trx, [o], k) { }
  }

  /** Whatever the action and its notified receivers sent is scheduled and not yet executed. */
  lemma SentStartable(t: Trx, o: nat, s: State, base: nat, x: nat, kind: Kind)
    requires Startable(t, o) && WellTraced(t.traces) && InRange(|t.traces|, t.started)
    requires Notifies(StartContext(t, o), s, t.started, base) && s.trx.status == Running
    requires kind != Notified && x in Kids(s.trx.traces, o, kind)
    ensures Startable(s.trx, x) && |t.traces| < x && o < x
  {
    var traces := s.trx.traces;
    KidsBeyond(traces, o, kind, |t.traces|, |traces|);
    KidsAre(traces, o, kind, |traces|);
    assert IsKid(traces, o, kind, x);
    KidsAre(traces, o, Notified, |traces|);
    assert x !in Kids(traces, o, Notified) by { assert !IsKid(traces, o, Notified, x); }
    forall k | 0 <= k < |traces| ensures traces[k].ancestor != x { assert TraceOk(traces, k); }
  }

  ghost predicate Within(xs: seq<nat>, p: nat, n: nat) {
    forall k :: 0 <= k < |xs| ==> p < xs[k] <= n
  }

  lemma AllSentStartable(t: Trx, o: nat, s: State, base: nat)
    requires Startable(t, o) && WellTraced(t.traces) && InRange(|t.traces|, t.started)
    requires Notifies(StartContext(t, o), s, t.started, base) && s.trx.status == Running
    ensures AllStartable(s.trx, SentBy(s)) && NoRepeats(SentBy(s)) && Within(SentBy(s), |t.traces|, |s.trx.traces|)
  {
    var traces, xs := s.trx.traces, SentBy(s);
    var c, i := Kids(traces, o, ContextFreeSent), Kids(traces, o, Sent);
    forall k ensures StartableAt(s.trx, xs, k) && (0 <= k < |xs| ==> |t.traces| < xs[k]) {
      if 0 <= k < |xs| {
        assert if k < |c| then xs[k] == c[k] else xs[k] == i[k - |c|];
        SentStartable(t, o, s, base, xs[k], if k < |c| then ContextFreeSent else Sent);
      }
    }
    KidsAre(traces, o, ContextFreeSent, |traces|);
    KidsAre(traces, o, Sent, |traces|);
    forall p, q | 0 <= p < q < |xs| ensures xs[p] != xs[q] {
      if p < |c| <= q { assert IsKid(traces, o, ContextFreeSent, c[p]) && IsKid(traces, o, Sent, i[q - |c|]); }
    }
  }

  ghost predicate Sound(t: Trx, r: Trx, xs: seq<nat>, base: nat) {
    Below(t, r, xs) && WellTraced(r.traces) && Books(r, base)
  }

  lemma SoundThen(t: Trx, u: Trx, r: Trx, xs: seq<nat>, ys: seq<nat>, zs: seq<nat>, base: nat)
    requires Below(t, u, xs) && Sound(u, r, ys, base)
    requires forall x :: x in xs ==> x in zs
    requires forall y :: y in ys ==> y in zs || |t.traces| < y
    ensures Sound(t, r, zs, base)
  {
    BelowTrans(t, u, r, xs, ys, zs);
  }

  lemma Append(a: seq<nat>, b: seq<nat>, c: seq<nat>, ab: seq<nat>, bc: seq<nat>, abc: seq<nat>)
    requires ab == a + b && bc == b + c && abc == ab + c
    ensures abc == a + bc
  {
  }

  /** Everything below `o` was scheduled by its notification loop. */
  lemma OrderIs(s: State, r: Trx)
    requires ContextOk(s) && Below(s.trx, r, SentBy(s)) && Within(SentBy(s), s.ctx.first, |s.trx.traces|)
    ensures Order(r.traces, s.ctx.first) == s.ctx.ordinals + Orders(r.traces, s.ctx.first, SentBy(s))
  {
    var a, b, o := s.trx.traces, r.traces, s.ctx.first;
    forall k | |a| <= k < |b| ensures b[k].ancestor != o { assert ChildBelow(s.trx, r, SentBy(s), k); }
    KidsSame(a, b, o, Notified);
    KidsSame(a, b, o, ContextFreeSent);
    KidsSame(a, b, o, Sent);
  }

  lemma SentWithin(s: State)
    requires ContextOk(s)
    ensures Within(SentBy(s), s.ctx.first, |s.trx.traces|)
  {
  }

  /** Everything scheduled since `t` has been executed. */
  ghost predicate NewStarted(t: Trx, r: Trx) {
    forall k :: NewStartedAt(t, r, k)
  }

  ghost predicate NewStartedAt(t: Trx, r: Trx, k: int) {
    |t.traces| <= k < |r.traces| ==> k + 1 in r.started
  }

  ghost predicate AllStarted(r: Trx, xs: seq<nat>) {
    forall k :: StartedAt(r, xs, k)
  }

  ghost predicate StartedAt(r: Trx, xs: seq<nat>, k: int) {
    0 <= k < |xs| ==> xs[k] in r.started
  }

  lemma NewStartedTrans(t: Trx, u: Trx, r: Trx)
    requires NewStarted(t, u) && NewStarted(u, r) && u.started <= r.started
    ensures NewStarted(t, r)
  {
    forall k ensures NewStartedAt(t, r, k) { assert NewStartedAt(t, u, k) && NewStartedAt(u, r, k); }
  }

  lemma {:induction false} KidIsIn(traces: seq<ActionTrace>, o: nat, kind: Kind, x: nat, n: nat)
    requires n <= |traces| && o < x <= n && IsKid(traces, o, kind, x)
    ensures x in KidsUpTo(traces, o, kind, n)
  {
    if x < n { KidIsIn(traces, o, kind, x, n - 1); }
  }

  /** After the notification loop, whatever it scheduled has been executed or was sent. */
  lemma NotifiedOrSent(t: Trx, s: State, k: nat)
    requires ContextOk(s) && AddedBelow(t.traces, s.trx.traces, s.ctx.first) && s.ctx.first <= |t.traces|
    requires s.trx.started == t.started + s.ctx.ordinals && |t.traces| <= k < |s.trx.traces|
    ensures k + 1 in s.trx.started || k + 1 in SentBy(s)
  {
    var traces, o := s.trx.traces, s.ctx.first;
    KidIsIn(traces, o, KindOf(traces[k]), k + 1, |traces|);
  }

  /** From `t` to `r`, action `o` was applied: the trace is sound, and if nothing threw, `o` and everything
      that follows from it ran in the recursive order. */
  ghost predicate Applied(t: Trx, r: Trx, o: nat, base: nat) {
    && o <= |t.traces| && Sound(t, r, [o], base)
    && (r.status == Running ==> r.started == t.started + Order(r.traces, o) && NewStarted(t, r) && o in r.started)
  }

  /** The state after the notification loop of action `o`. */
  ghost predicate AfterNotified(t: Trx, s: State, o: nat, base: nat) {
    && Sound(t, s.trx, [o], base) && ContextOk(s) && s.ctx.first == o <= |t.traces|
       && Within(SentBy(s), o, |s.trx.traces|)
    && (s.trx.status == Running ==>
          && s.trx.started == t.started + s.ctx.ordinals && AddedBelow(t.traces, s.trx.traces, o)
          && AllStartable(s.trx, SentBy(s)) && NoRepeats(SentBy(s)) && Within(SentBy(s), |t.traces|, |s.trx.traces|))
  }

  lemma NotifiedSound(env: Env, code: Code, t: Trx, o: nat, base: nat, s: State)
    requires t.status == Running && Startable(t, o) && WellTraced(t.traces) && Books(t, base)
    requires s == RunNotified(env.accounts, code, StartContext(t, o), 0)
    ensures AfterNotified(t, s, o, base)
  {
    StartsNotifying(t, o, base);
    NotifiedRun(env.accounts, code, StartContext(t, o), 0, t.started, |t.traces|, base);
    NotifiedBelow(t, o, s, base);
    SentWithin(s);
    if s.trx.status == Running { AllSentStartable(t, o, s, base); }
  }

  lemma NothingSent(t: Trx, s: State, r: Trx, o: nat, base: nat)
    requires AfterNotified(t, s, o, base) && r == s.trx && (r.status == Running ==> SentBy(s) == [])
    ensures Applied(t, r, o, base)
  {
    if r.status == Running {
      assert Below(s.trx, s.trx, []);
      OrderIs(s, s.trx);
      NothingLeft(t, s, r);
      assert o == s.ctx.ordinals[0];
    }
  }

  lemma NothingLeft(t: Trx, s: State, r: Trx)
    requires ContextOk(s) && AddedBelow(t.traces, s.trx.traces, s.ctx.first) && s.ctx.first <= |t.traces|
    requires s.trx.started == t.started + s.ctx.ordinals && s.trx.started <= r.started
    requires NewStarted(s.trx, r) && AllStarted(r, SentBy(s))
    ensures NewStarted(t, r)
  {
    forall k ensures NewStartedAt(t, r, k) {
      assert NewStartedAt(s.trx, r, k);
      if |t.traces| <= k < |s.trx.traces| {
        NotifiedOrSent(t, s, k);
        if k + 1 in SentBy(s) {
          var i :| 0 <= i < |SentBy(s)| && SentBy(s)[i] == k + 1;
          assert StartedAt(r, SentBy(s), i);
        }
      }
    }
  }

  lemma SentRan(t: Trx, s: State, r: Trx, o: nat, base: nat)
    requires AfterNotified(t, s, o, base) && s.trx.status == Running && Sound(s.trx, r, SentBy(s), base)
    requires r.status == Running ==>
               |s.trx.traces| <= |r.traces| && r.started == s.trx.started + Orders(r.traces, o, SentBy(s))
    requires r.status == Running ==> NewStarted(s.trx, r) && AllStarted(r, SentBy(s))
    ensures Applied(t, r, o, base)
  {
    SoundThen(t, s.trx, r, [o], SentBy(s), [o], base);
    if r.status == Running {
      OrderIs(s, r);
      NothingLeft(t, s, r);
      assert o == s.ctx.ordinals[0] && o in s.trx.started;
      Append(t.started, s.ctx.ordinals, Orders(r.traces, o, SentBy(s)), s.trx.started, Order(r.traces, o), r.started);
    }
  }

  lemma TooDeep(t: Trx, s: State, r: Trx, o: nat, base: nat)
    requires AfterNotified(t, s, o, base) && s.trx.status == Running && r == s.trx.(status := DepthReached)
    ensures Applied(t, r, o, base)
  {
    forall k ensures ChildBelow(t, r, [o], k) { assert ChildBelow(t, s.trx, [o], k); }
    forall k ensures StartedBelow(t, r, [o], k) { assert StartedBelow(t, s.trx, [o], k); }
  }

  lemma {:induction false} ActionRun(env: Env, code: Code, t: Trx, o: nat, depth: nat, base: nat, r: Trx)
    requires depth <= env.maxDepth && t.status == Running && Startable(t, o) && WellTraced(t.traces) && Books(t, base)
    requires r == ExecuteAction(env, code, t, o, depth)
    ensures Applied(t, r, o, base)
    decreases env.maxDepth - depth, 1
  {
    var s := RunNotified(env.accounts, code, StartContext(t, o), 0);
    NotifiedSound(env, code, t, o, base, s);
    if s.trx.status != Running || SentBy(s) == [] {
      NothingSent(t, s, r, o, base);
    } else if env.maxDepth <= depth {
      TooDeep(t, s, r, o, base);
    } else {
      SentRun(env, code, t, s, o, depth, base, r);
    }
  }

  lemma {:induction false} SentRun(env: Env, code: Code, t: Trx, s: State, o: nat, depth: nat, base: nat, r: Trx)
    requires depth < env.maxDepth && AfterNotified(t, s, o, base) && s.trx.status == Running && Ready(s)
    requires r == RunActions(env, code, s.trx, SentBy(s), depth + 1)
    ensures Applied(t, r, o, base)
    decreases env.maxDepth - depth, 0
  {
    ActionsRun(env, code, s.trx, SentBy(s), o, depth + 1, base, r);
    SentRan(t, s, r, o, base);
  }

  lemma RestStartable(t: Trx, u: Trx, xs: seq<nat>)
    requires xs != [] && AllStartable(t, xs) && NoRepeats(xs) && Below(t, u, [xs[0]])
    ensures AllStartable(u, xs[1..]) && NoRepeats(xs[1..])
    ensures forall p: nat :: Within(xs, p, |t.traces|) ==> Within(xs[1..], p, |u.traces|)
    ensures InRange(|t.traces|, xs) ==> InRange(|u.traces|, xs[1..])
  {
    forall k ensures StartableAt(u, xs[1..], k) {
      if 0 <= k < |xs| - 1 {
        assert StartableAt(t, xs, k + 1);
        StillStartable(t, u, [xs[0]], xs[k + 1]);
      }
    }
  }

  /** The rest of a list does not disturb the order below its first element. */
  lemma FirstStable(t: Trx, u: Trx, r: Trx, xs: seq<nat>)
    requires xs != [] && NoRepeats(xs) && AllStartable(t, xs) && Below(t, u, [xs[0]]) && Below(u, r, xs[1..])
    requires xs[0] <= |t.traces|
    ensures Order(r.traces, xs[0]) == Order(u.traces, xs[0])
  {
    var a, b, n, x := u.traces, r.traces, |t.traces|, xs[0];
    assert StartableAt(t, xs, 0);
    forall k | |a| <= k < |b| ensures b[k].ancestor != x && (b[k].ancestor <= n || |a| < b[k].ancestor) {
      assert ChildBelow(u, r, xs[1..], k);
      if b[k].ancestor in xs[1..] {
        var i :| 0 <= i < |xs[1..]| && xs[1..][i] == b[k].ancestor;
        assert StartableAt(t, xs, i + 1);
      }
    }
    assert Outside(a, b, n, x);
    OrderStable(a, b, n, x);
  }

  lemma AllStartedCons(u: Trx, r: Trx, xs: seq<nat>)
    requires xs != [] && xs[0] in u.started && u.started <= r.started && AllStarted(r, xs[1..])
    ensures AllStarted(r, xs)
  {
    forall k ensures StartedAt(r, xs, k) { assert StartedAt(r, xs[1..], k - 1); }
  }

  ghost predicate AllApplied(t: Trx, r: Trx, xs: seq<nat>, p: nat, base: nat) {
    Sound(t, r, xs, base) && p <= |r.traces| && Within(xs, p, |r.traces|) &&
    (r.status == Running ==> r.started == t.started + Orders(r.traces, p, xs) && NewStarted(t, r) && AllStarted(r, xs))
  }

  lemma NoneApplied(t: Trx, p: nat, base: nat)
    requires WellTraced(t.traces) && Books(t, base) && p <= |t.traces|
    ensures AllApplied(t, t, [], p, base)
  {
    assert t.started + [] == t.started;
  }

  /** The first of the actions, then the others. */
  lemma RestRan(t: Trx, u: Trx, r: Trx, xs: seq<nat>, p: nat, base: nat)
    requires xs != [] && AllStartable(t, xs) && NoRepeats(xs) && Within(xs, p, |t.traces|)
    requires Applied(t, u, xs[0], base) && u.status == Running && AllApplied(u, r, xs[1..], p, base)
    ensures AllApplied(t, r, xs, p, base)
  {
    var x, rest := xs[0], xs[1..];
    SoundThen(t, u, r, [x], rest, xs, base);
    FirstStable(t, u, r, xs);
    if r.status == Running {
      NewStartedTrans(t, u, r);
      AllStartedCons(u, r, xs);
      Append(t.started, Order(u.traces, x), Orders(r.traces, p, rest), u.started, Orders(r.traces, p, xs), r.started);
    }
  }

  lemma FirstThrew(t: Trx, u: Trx, xs: seq<nat>, p: nat, base: nat)
    requires xs != [] && Within(xs, p, |t.traces|) && p <= |t.traces| && Applied(t, u, xs[0], base)
             && u.status != Running
    ensures AllApplied(t, u, xs, p, base)
  {
    SoundThen(t, u, u, [xs[0]], [], xs, base);
  }

  lemma {:induction false} ActionsRun(env: Env, code: Code, t: Trx, xs: seq<nat>, p: nat, depth: nat, base: nat, r: Trx)
    requires depth <= env.maxDepth && t.status == Running && AllStartable(t, xs) && NoRepeats(xs)
             && InRange(|t.traces|, xs)
    requires WellTraced(t.traces) && Books(t, base) && p <= |t.traces| && Within(xs, p, |t.traces|)
    requires r == RunActions(env, code, t, xs, depth)
    ensures AllApplied(t, r, xs, p, base)
    decreases env.maxDepth - depth, |xs| + 2
  {
    if xs == [] {
      NoneApplied(t, p, base);
    } else {
      var x, rest := xs[0], xs[1..];
      assert StartableAt(t, xs, 0);
      var u := ExecuteAction(env, code, t, x, depth);
      ActionRun(env, code, t, x, depth, base, u);
      if u.status == Running {
        RestStartable(t, u, xs);
        ActionsRun(env, code, u, rest, p, depth, base, r);
        RestRan(t, u, r, xs, p, base);
      } else {
        assert r == RunActions(env, code, u, rest, depth) == u;
        FirstThrew(t, u, xs, p, base);
      }
    }
  }

  // ----- Whole transactions -----

  /** The execution order of a transaction, from the columns of its trace alone. */
  function TransactionOrder(traces: seq<ActionTrace>): seq<nat> {
    Orders(traces, 0, SentKids(traces, 0))
  }

  /** Nothing but actions of the transaction itself, context-free ones first. */
  ghost predicate Roots(t: Trx, contextFree: bool) {
    && WellTraced(t.traces) && t.started == [] && t.status == Running
    && (forall k :: 0 <= k < |t.traces| ==> t.traces[k].ancestor == 0 && KindOf(t.traces[k]) != Notified)
    && SentKids(t.traces, 0) == Ordinals(|t.traces|) && (contextFree ==> Kids(t.traces, 0, Sent) == [])
  }

  lemma RootKidsAppend(traces: seq<ActionTrace>, a: ActionTrace)
    requires a.ancestor == 0 && KindOf(a) != Notified && (a.contextFree ==> Kids(traces, 0, Sent) == [])
    ensures SentKids(traces + [a], 0) == SentKids(traces, 0) + [|traces| + 1]
    ensures a.contextFree ==> Kids(traces + [a], 0, Sent) == []
  {
    KidsAppend(traces, a, 0, ContextFreeSent);
    KidsAppend(traces, a, 0, Sent);
  }

  lemma ScheduleRoot(t: Trx, u: Trx, act: Action, contextFree: bool)
    requires Roots(t, contextFree) && u == Schedule(t, act, act.account, contextFree, 0, 0)
    ensures Roots(u, contextFree)
  {
    var a := u.traces[|t.traces|];
    WellTracedAppend(t.traces, a);
    RootKidsAppend(t.traces, a);
  }

  lemma {:induction false} ScheduleAllRoots(t: Trx, acts: seq<Action>, contextFree: bool)
    requires Roots(t, contextFree)
    ensures var r := ScheduleAll(t, acts, contextFree); Roots(r, contextFree) && r == t.(traces := r.traces)
    decreases |acts|
  {
    if acts != [] {
      var u := Schedule(t, acts[0], acts[0].account, contextFree, 0, 0);
      ScheduleRoot(t, u, acts[0], contextFree);
      ScheduleAllRoots(u, acts[1..], contextFree);
    }
  }

  lemma BeginIs(contextFree: seq<Action>, acts: seq<Action>, sequence: nat)
    ensures Roots(Begin(contextFree, acts, sequence), false) && Books(Begin(contextFree, acts, sequence), sequence)
  {
    var t := Trx([], map[], {}, [], [], sequence, {}, Running);
    EmptyRoots(t);
    ScheduleAllRoots(t, contextFree, true);
    ScheduleAllRoots(ScheduleAll(t, contextFree, true), acts, false);
    NothingDone(Begin(contextFree, acts, sequence), sequence);
  }

  lemma EmptyRoots(t: Trx)
    requires t.traces == [] && t.started == [] && t.status == Running
    ensures Roots(t, true)
  {
    forall k ensures TraceOk([], k) { }
  }

  lemma NothingDone(t: Trx, sequence: nat)
    requires t.started == [] && t.completed == [] && t.receipts == map[] && t.exceptions == {}
    requires t.sequence == sequence && t.status == Running
    ensures Books(t, sequence)
  {
  }

  /** Every run of a transaction: its trace is well formed, its receipts and exceptions are in order, and
      if nothing throws, the actions ran in the recursive order. */
  lemma TransactionRun(env: Env, code: Code, contextFree: seq<Action>, acts: seq<Action>, sequence: nat)
    ensures var r := RunTransaction(env, code, contextFree, acts, sequence);
            && WellTraced(r.traces) && Books(r, sequence)
            && (forall k :: 0 <= k < |r.traces| ==> r.traces[k].ancestor == Unnotified(r.traces, r.traces[k].creator))
            && (r.status == Running ==> r.completed == TransactionOrder(r.traces))
            && (r.status == Running ==> forall x :: 1 <= x <= |r.traces| ==> x in r.started)
  {
    var t, r := Begin(contextFree, acts, sequence), RunTransaction(env, code, contextFree, acts, sequence);
    BeginIs(contextFree, acts, sequence);
    RootsStartable(t);
    ActionsRun(env, code, t, Ordinals(|t.traces|), 0, 0, sequence, r);
    RootsStay(t, r);
    forall k | 0 <= k < |r.traces| ensures r.traces[k].ancestor == Unnotified(r.traces, r.traces[k].creator) {
      AncestorIsUnnotified(r.traces, k);
    }
    if r.status == Running { AllRan(t, r); }
  }

  lemma AllRan(t: Trx, r: Trx)
    requires NewStarted(t, r) && AllStarted(r, Ordinals(|t.traces|))
    ensures forall x :: 1 <= x <= |r.traces| ==> x in r.started
  {
    forall x | 1 <= x <= |r.traces| ensures x in r.started {
      assert NewStartedAt(t, r, x - 1) && StartedAt(r, Ordinals(|t.traces|), x - 1);
    }
  }

  lemma RootsStartable(t: Trx)
    requires Roots(t, false)
    ensures AllStartable(t, Ordinals(|t.traces|)) && NoRepeats(Ordinals(|t.traces|))
            && Within(Ordinals(|t.traces|), 0, |t.traces|)
  {
    forall k ensures StartableAt(t, Ordinals(|t.traces|), k) { }
  }

  lemma RootsStay(t: Trx, r: Trx)
    requires Below(t, r, Ordinals(|t.traces|))
    ensures SentKids(r.traces, 0) == SentKids(t.traces, 0)
  {
    forall k | |t.traces| <= k < |r.traces| ensures r.traces[k].ancestor != 0
    { assert ChildBelow(t, r, Ordinals(|t.traces|), k); }
    KidsSame(t.traces, r.traces, 0, ContextFreeSent);
    KidsSame(t.traces, r.traces, 0, Sent);
  }

  // ----- Every action runs -----

  /** If nothing throws, every scheduled action has exactly one receipt and none has an exception. */
  lemma SuccessExecutesAll(env: Env, code: Code, contextFree: seq<Action>, acts: seq<Action>, sequence: nat)
    requires RunTransaction(env, code, contextFree, acts, sequence).status == Running
    ensures var r := RunTransaction(env, code, contextFree, acts, sequence);
            r.exceptions == {} && forall x :: x in r.receipts <==> 1 <= x <= |r.traces|
  {
    var r := RunTransaction(env, code, contextFree, acts, sequence);
    TransactionRun(env, code, contextFree, acts, sequence);
    ReceiptsOfAll(r, sequence);
  }

  lemma ReceiptsOfAll(r: Trx, base: nat)
    requires Books(r, base) && r.status == Running && forall x :: 1 <= x <= |r.traces| ==> x in r.started
    ensures forall x :: x in r.receipts <==> 1 <= x <= |r.traces|
  {
    forall x ensures x in r.receipts <==> 1 <= x <= |r.traces| {
      if x in r.receipts || 1 <= x <= |r.traces| {
        assert x in r.completed;
        var i :| 0 <= i < |r.completed| && r.completed[i] == x;
        assert r.started[i] == x;
      }
    }
  }
}
