/** Runs that fail, against runs that do the same until then. */
module ActionFailures {
  import opened ActionScheduler
  import opened ActionRuns
  import opened ActionTheorems

  // ----- Execution only adds -----

  ghost predicate Grows(t: Trx, r: Trx) {
    && t.traces <= r.traces && t.started <= r.started && t.completed <= r.completed
    && (InRange(|t.traces|, t.started) ==> InRange(|r.traces|, r.started))
  }

  lemma ExecOneGrows(world: set<Account>, code: Code, s: State, i: nat)
    requires Ready(s) && i < |s.ctx.ordinals|
    ensures Grows(s.trx, ExecOne(world, code, s, i).trx)
    ensures ExecOne(world, code, s, i).trx.started == s.trx.started + [s.ctx.ordinals[i]]
  {
  }

  lemma GrowsTrans(t: Trx, u: Trx, r: Trx)
    requires Grows(t, u) && Grows(u, r)
    ensures Grows(t, r)
  {
  }

  // The notification loop, turn by turn.

  /** Turn `j` takes state `u[j]` to the next one. */
  ghost predicate Turn(world: set<Account>, code: Code, u: seq<State>, j: int) {
    0 <= j < |u| - 1 ==> Goes(u[j], j) && u[j + 1] == ExecOne(world, code, u[j], j)
  }

  /** The loop goes on after `j` turns. */
  ghost predicate Goes(s: State, j: int) {
    Ready(s) && 0 <= j < |s.ctx.ordinals| && s.trx.status == Running
  }

  ghost predicate Loop(world: set<Account>, code: Code, u: seq<State>, i: nat, s: State, r: State) {
    && i < |u| && u[i] == s && u[|u| - 1] == r && !Goes(r, |u| - 1)
    && forall j :: i <= j ==> Turn(world, code, u, j)
  }

  lemma LoopEnds(world: set<Account>, code: Code, u: seq<State>, i: nat, s: State)
    requires |u| == i + 1 && u[i] == s && !Goes(s, i)
    ensures Loop(world, code, u, i, s, s)
  {
    forall j | i <= j ensures Turn(world, code, u, j) { }
  }

  lemma LoopGoesOn(world: set<Account>, code: Code, u: seq<State>, i: nat, s: State, t: State, r: State)
    requires Loop(world, code, u, i + 1, t, r) && u[i] == s && Goes(s, i) && t == ExecOne(world, code, s, i)
    ensures Loop(world, code, u, i, s, r)
  {
    forall j | i <= j ensures Turn(world, code, u, j) { }
  }

  lemma NextTurn(world: set<Account>, code: Code, s: State, i: nat, t: State, r: State)
    requires Goes(s, i) && AllExist(world, s, i) && t == ExecOne(world, code, s, i)
             && r == RunNotified(world, code, s, i)
    ensures t.trx.status != Running ==> r == t
    ensures t.trx.status == Running ==>
              Ready(t) && i + 1 <= |t.ctx.ordinals| && AllExist(world, t, i + 1)
                && r == RunNotified(world, code, t, i + 1)
  {
    if t.trx.status == Running { FewerLeft(world, code, s, i); }
  }

  lemma {:induction false} Unroll(world: set<Account>, code: Code, s: State, i: nat, before: seq<State>, r: State)
    returns (u: seq<State>)
    requires Ready(s) && i <= |s.ctx.ordinals| && AllExist(world, s, i) && |before| == i
    requires r == RunNotified(world, code, s, i)
    ensures before <= u && Loop(world, code, u, i, s, r)
    decreases i == 0, Accounts(world, s.trx) - Seen(s.ctx.receivers[..i])
  {
    var here := before + [s];
    if !Goes(s, i) {
      u := here;
      LoopEnds(world, code, u, i, s);
    } else {
      var t := ExecOne(world, code, s, i);
      NextTurn(world, code, s, i, t, r);
      if t.trx.status == Running {
        FewerLeft(world, code, s, i);
        u := Unroll(world, code, t, i + 1, here, r);
      } else {
        u := here + [t];
        LoopEnds(world, code, u, i + 1, t);
      }
      assert u[i] == here[i];
      LoopGoesOn(world, code, u, i, s, t, r);
    }
  }

  lemma {:induction false} TurnsGrow(world: set<Account>, code: Code, u: seq<State>, i: nat, j: nat)
    requires i <= j < |u| && (forall m :: i <= m ==> Turn(world, code, u, m))
    ensures Grows(u[i].trx, u[j].trx) && |u[j].trx.started| == |u[i].trx.started| + j - i
    decreases j
  {
    if i < j {
      TurnsGrow(world, code, u, i, j - 1);
      assert Turn(world, code, u, j - 1);
      ExecOneGrows(world, code, u[j - 1], j - 1);
      GrowsTrans(u[i].trx, u[j - 1].trx, u[j].trx);
    }
  }

  lemma NotifiedGrows(world: set<Account>, code: Code, s: State, r: State)
    requires Ready(s) && r == RunNotified(world, code, s, 0)
    ensures Grows(s.trx, r.trx)
  {
    var u := Unroll(world, code, s, 0, [], r);
    TurnsGrow(world, code, u, 0, |u| - 1);
  }

  lemma {:induction false} DeliverGrows(env: Env, code: Code, s: State, depth: nat)
    requires Ready(s) && depth <= env.maxDepth
    ensures Grows(s.trx, Deliver(env, code, s, depth))
    decreases env.maxDepth - depth, 0
  {
    if s.trx.status == Running && SentBy(s) != [] && depth < env.maxDepth {
      ActionsGrow(env, code, s.trx, SentBy(s), depth + 1);
    }
  }

  lemma {:induction false} ActionGrows(env: Env, code: Code, t: Trx, o: nat, depth: nat)
    requires 1 <= o <= |t.traces| && depth <= env.maxDepth
    ensures Grows(t, ExecuteAction(env, code, t, o, depth))
    decreases env.maxDepth - depth, 1
  {
    var s := RunNotified(env.accounts, code, StartContext(t, o), 0);
    NotifiedGrows(env.accounts, code, StartContext(t, o), s);
    DeliverGrows(env, code, s, depth);
    GrowsTrans(t, s.trx, ExecuteAction(env, code, t, o, depth));
  }

  lemma {:induction false} ActionsGrow(env: Env, code: Code, t: Trx, xs: seq<nat>, depth: nat)
    requires InRange(|t.traces|, xs) && depth <= env.maxDepth
    ensures Grows(t, RunActions(env, code, t, xs, depth))
    decreases env.maxDepth - depth, |xs| + 2
  {
    if xs != [] && t.status == Running {
      ActionGrows(env, code, t, xs[0], depth);
      ActionsGrow(env, code, ExecuteAction(env, code, t, xs[0], depth), xs[1..], depth);
    }
  }

  // ----- Runs with the same code up to some execution -----

  /** The action numbered `o` is the same in both traces. */
  ghost predicate SameTrace(a: Trx, b: Trx, o: nat) {
    1 <= o <= |a.traces| && o <= |b.traces| && a.traces[o - 1] == b.traces[o - 1]
  }

  /** Both runs got past the `k`-th execution, starting the same actions up to and including it. */
  ghost predicate BothPast(a: Trx, b: Trx, k: nat) {
    && k < |a.started| && k < |b.started| && a.started[..k + 1] == b.started[..k + 1]
    && forall i :: 0 <= i <= k ==> SameTrace(a, b, a.started[i])
  }

  lemma PastGrows(a: Trx, b: Trx, c: Trx, d: Trx, k: nat)
    requires BothPast(a, b, k) && Grows(a, c) && Grows(b, d)
    ensures BothPast(c, d, k)
  {
    assert c.started[..k + 1] == a.started[..k + 1] && d.started[..k + 1] == b.started[..k + 1];
    forall i | 0 <= i <= k ensures SameTrace(c, d, c.started[i]) { assert SameTrace(a, b, a.started[i]); }
  }

  ghost predicate SameCode(c: Code, d: Code, k: nat) {
    forall i :: 0 <= i < k ==> c(i) == d(i)
  }

  /** With the same code up to execution `k`, two runs are the same, or have got past `k` in the same way. */
  ghost predicate SameOrPast(a: Trx, b: Trx, k: nat) { a == b || BothPast(a, b, k) }

  /** In the `k`-th execution the runs part, and have both started the same actions. */
  lemma PartHere(t: Trx, a: Trx, b: Trx, o: nat)
    requires InRange(|t.traces|, t.started) && 1 <= o <= |t.traces| && t.traces <= a.traces && t.traces <= b.traces
    requires a.started == t.started + [o] && b.started == t.started + [o]
    ensures BothPast(a, b, |t.started|)
  {
    forall i | 0 <= i <= |t.started| ensures SameTrace(a, b, a.started[i]) { }
  }

  lemma SameExecOne(world: set<Account>, c: Code, d: Code, s: State, i: nat, k: nat)
    requires SameCode(c, d, k) && |s.trx.started| < k && Ready(s) && i < |s.ctx.ordinals|
    ensures ExecOne(world, c, s, i) == ExecOne(world, d, s, i)
  {
  }

  /** As long as the code is the same, both loops go through the same states. */
  lemma {:induction false} SameTurns(world: set<Account>, c: Code, d: Code, u: seq<State>, w: seq<State>, k: nat,
                                     j: nat)
    requires SameCode(c, d, k) && u != [] && w != [] && u[0] == w[0] && !Goes(w[|w| - 1], |w| - 1)
    requires (forall m :: 0 <= m ==> Turn(world, c, u, m)) && (forall m :: 0 <= m ==> Turn(world, d, w, m))
    requires j < |u| && |u[0].trx.started| + j <= k
    ensures j < |w| && u[j] == w[j]
  {
    if j > 0 {
      SameTurns(world, c, d, u, w, k, j - 1);
      assert Turn(world, c, u, j - 1);
      assert j < |w|;
      assert Turn(world, d, w, j - 1);
      TurnsGrow(world, c, u, 0, j - 1);
      SameExecOne(world, c, d, u[j - 1], j - 1, k);
    }
  }

  ghost predicate SameOrPastState(a: State, b: State, k: nat) { a == b || BothPast(a.trx, b.trx, k) }

  lemma SameNotified(world: set<Account>, c: Code, d: Code, s: State, k: nat, a: State, b: State)
    requires SameCode(c, d, k) && Ready(s) && |s.trx.started| <= k && InRange(|s.trx.traces|, s.trx.started)
    requires a == RunNotified(world, c, s, 0) && b == RunNotified(world, d, s, 0)
    ensures SameOrPastState(a, b, k)
  {
    var u := Unroll(world, c, s, 0, [], a);
    var w := Unroll(world, d, s, 0, [], b);
    SameLoops(world, c, d, u, w, k);
  }

  lemma SameLoops(world: set<Account>, c: Code, d: Code, u: seq<State>, w: seq<State>, k: nat)
    requires SameCode(c, d, k) && u != [] && w != [] && u[0] == w[0]
    requires Loop(world, c, u, 0, u[0], u[|u| - 1]) && Loop(world, d, w, 0, w[0], w[|w| - 1])
    requires |u[0].trx.started| <= k && InRange(|u[0].trx.traces|, u[0].trx.started)
    ensures SameOrPastState(u[|u| - 1], w[|w| - 1], k)
  {
    var m := k - |u[0].trx.started|;
    if |u| - 1 <= m {
      SameTurns(world, c, d, u, w, k, |u| - 1);
      assert Turn(world, d, w, |u| - 1);
    } else {
      SameTurns(world, c, d, u, w, k, m);
      assert Turn(world, c, u, m);
      PartAt(world, c, d, u, w, k, m);
    }
  }

  /** At the turn of the `k`-th execution the runs part. */
  lemma PartAt(world: set<Account>, c: Code, d: Code, u: seq<State>, w: seq<State>, k: nat, m: nat)
    requires m < |u| - 1 && m < |w| && u[m] == w[m] && !Goes(w[|w| - 1], |w| - 1) && k == |u[0].trx.started| + m
    requires (forall j :: 0 <= j ==> Turn(world, c, u, j)) && (forall j :: 0 <= j ==> Turn(world, d, w, j))
    requires InRange(|u[0].trx.traces|, u[0].trx.started)
    ensures BothPast(u[|u| - 1].trx, w[|w| - 1].trx, k)
  {
    assert Turn(world, c, u, m);
    assert m < |w| - 1;
    assert Turn(world, d, w, m);
    TurnsGrow(world, c, u, 0, m);
    TurnsGrow(world, c, u, m + 1, |u| - 1);
    TurnsGrow(world, d, w, m + 1, |w| - 1);
    ExecOneGrows(world, c, u[m], m);
    ExecOneGrows(world, d, u[m], m);
    PartHere(u[m].trx, u[m + 1].trx, w[m + 1].trx, u[m].ctx.ordinals[m]);
    PastGrows(u[m + 1].trx, w[m + 1].trx, u[|u| - 1].trx, w[|w| - 1].trx, k);
  }

  lemma {:induction false} SameDelivered(env: Env, c: Code, d: Code, s: State, depth: nat, k: nat)
    requires SameCode(c, d, k) && Ready(s) && depth <= env.maxDepth
    requires |s.trx.started| <= k && InRange(|s.trx.traces|, s.trx.started)
    ensures SameOrPast(Deliver(env, c, s, depth), Deliver(env, d, s, depth), k)
    decreases env.maxDepth - depth, 0
  {
    if s.trx.status == Running && SentBy(s) != [] && depth < env.maxDepth {
      SameActions(env, c, d, s.trx, SentBy(s), depth + 1, k);
    }
  }

  lemma PastDelivered(env: Env, c: Code, d: Code, s: State, u: State, depth: nat, k: nat)
    requires Ready(s) && Ready(u) && depth <= env.maxDepth && BothPast(s.trx, u.trx, k)
    ensures BothPast(Deliver(env, c, s, depth), Deliver(env, d, u, depth), k)
  {
    DeliverGrows(env, c, s, depth);
    DeliverGrows(env, d, u, depth);
    PastGrows(s.trx, u.trx, Deliver(env, c, s, depth), Deliver(env, d, u, depth), k);
  }

  lemma ItselfPast(t: Trx, k: nat)
    requires k < |t.started| && InRange(|t.traces|, t.started)
    ensures BothPast(t, t, k)
  {
  }

  lemma {:induction false} SameAction(env: Env, c: Code, d: Code, t: Trx, o: nat, depth: nat, k: nat)
    requires SameCode(c, d, k) && 1 <= o <= |t.traces| && depth <= env.maxDepth
    requires |t.started| <= k && InRange(|t.traces|, t.started)
    ensures SameOrPast(ExecuteAction(env, c, t, o, depth), ExecuteAction(env, d, t, o, depth), k)
    decreases env.maxDepth - depth, 1
  {
    var s, u := RunNotified(env.accounts, c, StartContext(t, o), 0),
                RunNotified(env.accounts, d, StartContext(t, o), 0);
    SameNotified(env.accounts, c, d, StartContext(t, o), k, s, u);
    NotifiedGrows(env.accounts, c, StartContext(t, o), s);
    if s == u && |s.trx.started| <= k {
      SameDelivered(env, c, d, s, depth, k);
    } else {
      if s == u { ItselfPast(s.trx, k); }
      PastDelivered(env, c, d, s, u, depth, k);
    }
  }

  lemma {:induction false} SameActions(env: Env, c: Code, d: Code, t: Trx, xs: seq<nat>, depth: nat, k: nat)
    requires SameCode(c, d, k) && InRange(|t.traces|, xs) && depth <= env.maxDepth
    requires |t.started| <= k && InRange(|t.traces|, t.started)
    ensures SameOrPast(RunActions(env, c, t, xs, depth), RunActions(env, d, t, xs, depth), k)
    decreases env.maxDepth - depth, |xs| + 2
  {
    if xs != [] && t.status == Running {
      var a, b := ExecuteAction(env, c, t, xs[0], depth), ExecuteAction(env, d, t, xs[0], depth);
      SameAction(env, c, d, t, xs[0], depth, k);
      ActionGrows(env, c, t, xs[0], depth);
      if a == b && |a.started| <= k {
        SameActions(env, c, d, a, xs[1..], depth, k);
      } else {
        if a == b { ItselfPast(a, k); }
        ActionsGrow(env, c, a, xs[1..], depth);
        ActionsGrow(env, d, b, xs[1..], depth);
        PastGrows(a, b, RunActions(env, c, a, xs[1..], depth), RunActions(env, d, b, xs[1..], depth), k);
      }
    }
  }

  // ----- A failing transaction -----

  /** A failing transaction against one that does the same until then: it completed exactly the actions that
      the other had completed before, in that order, and the next one in that order is the one that threw. */
  lemma FailureIsPrefix(env: Env, failing: Code, code: Code, contextFree: seq<Action>, acts: seq<Action>, sequence: nat)
    requires var a := RunTransaction(env, failing, contextFree, acts, sequence);
             a.status.Threw? && SameCode(failing, code, |a.completed|)
    requires RunTransaction(env, code, contextFree, acts, sequence).status == Running
    ensures var a, b := RunTransaction(env, failing, contextFree, acts, sequence),
                        RunTransaction(env, code, contextFree, acts, sequence);
            && |a.completed| < |b.completed|
            && a.completed == b.completed[..|a.completed|] && a.status.ordinal == b.completed[|a.completed|]
            && a.exceptions == {a.status.ordinal}
            && (forall o :: o in a.started ==> SameTrace(a, b, o))
            && (forall x :: x in a.receipts <==> x in b.completed[..|a.completed|])
            && (forall x :: x in a.receipts ==> x in b.receipts && a.receipts[x] == b.receipts[x])
  {
    var a, b := RunTransaction(env, failing, contextFree, acts, sequence),
                RunTransaction(env, code, contextFree, acts, sequence);
    TransactionRun(env, failing, contextFree, acts, sequence);
    TransactionRun(env, code, contextFree, acts, sequence);
    var t := Begin(contextFree, acts, sequence);
    BeginIs(contextFree, acts, sequence);
    SameActions(env, failing, code, t, Ordinals(|t.traces|), 0, |a.completed|);
    CommonPrefix(a, b);
    SameReceipts(a, b, sequence);
  }

  lemma CommonPrefix(a: Trx, b: Trx)
    requires a.status.Threw? && b.status == Running && OutcomeOk(a) && OutcomeOk(b) && SameOrPast(a, b, |a.completed|)
    ensures |a.completed| < |b.completed|
    ensures a.completed == b.completed[..|a.completed|] && a.status.ordinal == b.completed[|a.completed|]
    ensures forall o :: o in a.started ==> SameTrace(a, b, o)
  {
    var k := |a.completed|;
    assert a.started[..k + 1] == a.completed + [a.status.ordinal];
    assert b.completed[..k + 1][..k] == b.completed[..k] && (a.completed + [a.status.ordinal])[..k] == a.completed;
    assert b.completed[..k + 1][k] == b.completed[k];
  }

  /** Receipts of the common part are the same. */
  lemma SameReceipts(a: Trx, b: Trx, base: nat)
    requires Books(a, base) && Books(b, base) && |a.completed| <= |b.completed|
             && a.completed == b.completed[..|a.completed|]
    ensures forall x :: x in a.receipts <==> x in b.completed[..|a.completed|]
    ensures forall x :: x in a.receipts ==> x in b.receipts && a.receipts[x] == b.receipts[x]
  {
    forall x | x in a.receipts ensures x in b.receipts && a.receipts[x] == b.receipts[x] {
      var i :| 0 <= i < |a.completed| && a.completed[i] == x;
      assert b.completed[i] == x;
    }
  }

  // ----- A transaction nested too deeply -----

  ghost predicate Deeper(env: Env, deep: Env) { deep.accounts == env.accounts && env.maxDepth <= deep.maxDepth }

  /** The run is the same, or stopped too deep where the other one goes on. */
  ghost predicate SameOrStopped(a: Trx, b: Trx) { a == b || (a.status == DepthReached && Grows(a, b)) }

  lemma {:induction false} DeeperDelivered(env: Env, deep: Env, code: Code, s: State, depth: nat)
    requires Deeper(env, deep) && Ready(s) && depth <= env.maxDepth
    ensures SameOrStopped(Deliver(env, code, s, depth), Deliver(deep, code, s, depth))
    decreases env.maxDepth - depth, 0
  {
    if s.trx.status == Running && SentBy(s) != [] {
      if depth < env.maxDepth {
        DeeperActions(env, deep, code, s.trx, SentBy(s), depth + 1);
      } else {
        DeliverGrows(deep, code, s, depth);
      }
    }
  }

  lemma {:induction false} DeeperAction(env: Env, deep: Env, code: Code, t: Trx, o: nat, depth: nat)
    requires Deeper(env, deep) && 1 <= o <= |t.traces| && depth <= env.maxDepth
    ensures SameOrStopped(ExecuteAction(env, code, t, o, depth), ExecuteAction(deep, code, t, o, depth))
    decreases env.maxDepth - depth, 1
  {
    DeeperDelivered(env, deep, code, RunNotified(env.accounts, code, StartContext(t, o), 0), depth);
  }

  lemma {:induction false} DeeperActions(env: Env, deep: Env, code: Code, t: Trx, xs: seq<nat>, depth: nat)
    requires Deeper(env, deep) && InRange(|t.traces|, xs) && depth <= env.maxDepth
    ensures SameOrStopped(RunActions(env, code, t, xs, depth), RunActions(deep, code, t, xs, depth))
    decreases env.maxDepth - depth, |xs| + 2
  {
    if xs != [] && t.status == Running {
      var a, b := ExecuteAction(env, code, t, xs[0], depth), ExecuteAction(deep, code, t, xs[0], depth);
      DeeperAction(env, deep, code, t, xs[0], depth);
      if a == b {
        DeeperActions(env, deep, code, a, xs[1..], depth);
      } else {
        assert RunActions(env, code, a, xs[1..], depth) == a;
        ActionsGrow(deep, code, b, xs[1..], depth);
      }
    }
  }

  /** A transaction nested too deeply against the same one under a larger limit: nothing threw, and it completed a
      prefix of what the other completed, the same actions with the same receipts. */
  lemma DepthIsPrefix(env: Env, deep: Env, code: Code, contextFree: seq<Action>, acts: seq<Action>, sequence: nat)
    requires Deeper(env, deep) && RunTransaction(env, code, contextFree, acts, sequence).status == DepthReached
    ensures var a, b := RunTransaction(env, code, contextFree, acts, sequence),
                        RunTransaction(deep, code, contextFree, acts, sequence);
            && a.exceptions == {} && a.started == a.completed <= b.completed && a.traces <= b.traces
            && (forall x :: x in a.receipts <==> x in a.completed)
            && (forall x :: x in a.receipts ==> x in b.receipts && a.receipts[x] == b.receipts[x])
  {
    var a, b := RunTransaction(env, code, contextFree, acts, sequence),
                RunTransaction(deep, code, contextFree, acts, sequence);
    TransactionRun(env, code, contextFree, acts, sequence);
    TransactionRun(deep, code, contextFree, acts, sequence);
    var t := Begin(contextFree, acts, sequence);
    DeeperActions(env, deep, code, t, Ordinals(|t.traces|), 0);
    assert b.completed[..|a.completed|] == a.completed;
    SameReceipts(a, b, sequence);
  }
}
