/** The objects that execute a transaction: one transaction context, and an apply context for each action. */
module ActionContexts {
  import opened ActionScheduler

  class TransactionContext {
    const env: Env
    const code: Code
    var traces: seq<ActionTrace>
    var receipts: map<nat, nat>
    var exceptions: set<nat>
    var started: seq<nat>
    var completed: seq<nat>
    var sequence: nat
    var created: set<Account>
    var status: Status

    constructor (env: Env, code: Code, sequence: nat)
      ensures this.env == env && this.code == code && Value() == Trx([], map[], {}, [], [], sequence, {}, Running)
    {
      this.env, this.code := env, code;
      traces, receipts, exceptions, started, completed := [], map[], {}, [], [];
      this.sequence, created, status := sequence, {}, Running;
    }

    function Value(): Trx
      reads this
    {
      Trx(traces, receipts, exceptions, started, completed, sequence, created, status)
    }

    predicate Exists(a: Account)
      reads this
    {
      a in env.accounts || a in created
    }

    method ScheduleAction(act: Action, receiver: Account, contextFree: bool, creator: nat, ancestor: nat)
        returns (ordinal: nat)
      modifies this
      ensures Value() == Schedule(old(Value()), act, receiver, contextFree, creator, ancestor)
      ensures ordinal == |traces| == |old(traces)| + 1
    {
      ordinal := |traces| + 1;
      traces := traces + [ActionTrace(ordinal, creator, ancestor, receiver, act, contextFree)];
    }

    method ExecuteAction(ordinal: nat, depth: nat)
      requires 1 <= ordinal <= |traces| && depth <= env.maxDepth && status == Running
      modifies this
      ensures Value() == ActionScheduler.ExecuteAction(env, code, old(Value()), ordinal, depth)
      decreases env.maxDepth - depth, 2
    {
      var context := new ApplyContext(this, ordinal, depth);
      context.Exec();
    }

    method ExecuteActions(ordinals: seq<nat>, depth: nat)
      requires InRange(|traces|, ordinals) && depth <= env.maxDepth
      modifies this
      ensures Value() == RunActions(env, code, old(Value()), ordinals, depth)
      decreases env.maxDepth - depth, 3
    {
      ghost var goal := RunActions(env, code, Value(), ordinals, depth);
      var rest := ordinals;
      while rest != [] && status == Running
        invariant TowardsAll(env, code, Value(), rest, depth, goal)
        decreases |rest|
      {
        TowardsAllStep(env, code, Value(), rest, depth, goal);
        ExecuteAction(rest[0], depth);
        rest := rest[1..];
      }
    }

    method ScheduleActions(acts: seq<Action>, contextFree: bool)
      modifies this
      ensures Value() == ScheduleAll(old(Value()), acts, contextFree)
    {
      var rest := acts;
      while rest != []
        invariant ScheduleAll(Value(), rest, contextFree) == ScheduleAll(old(Value()), acts, contextFree)
        decreases |rest|
      {
        var _ := ScheduleAction(rest[0], rest[0].account, contextFree, 0, 0);
        rest := rest[1..];
      }
    }

    /** The transaction's own actions are scheduled first, then executed one after the other. */
    method Exec(contextFree: seq<Action>, acts: seq<Action>)
      requires traces == [] && receipts == map[] && exceptions == {} && started == [] && completed == []
               && created == {} && status == Running
      modifies this
      ensures Value() == RunTransaction(env, code, contextFree, acts, old(sequence))
    {
      ScheduleActions(contextFree, true);
      ScheduleActions(acts, false);
      assert Value() == Begin(contextFree, acts, old(sequence));
      ExecuteActions(Ordinals(|traces|), 0);
    }
  }

  class ApplyContext {
    const trx: TransactionContext
    const depth: nat
    const first: nat
    const act: Action
    var receivers: seq<Account>
    var ordinals: seq<nat>
    var contextFreeInlines: seq<nat>
    var inlines: seq<nat>
    var actionOrdinal: nat

    constructor (trx: TransactionContext, ordinal: nat, depth: nat)
      requires 1 <= ordinal <= |trx.traces|
      ensures this.trx == trx && this.depth == depth && first == ordinal
      ensures Value() == StartContext(trx.Value(), ordinal)
    {
      this.trx, this.depth, first, actionOrdinal := trx, depth, ordinal, ordinal;
      act := trx.traces[ordinal - 1].act;
      receivers, ordinals := [trx.traces[ordinal - 1].receiver], [ordinal];
      contextFreeInlines, inlines := [], [];
    }

    function Value(): State
      reads this, trx
    {
      State(trx.Value(), Context(act, first, receivers, ordinals, contextFreeInlines, inlines))
    }

    /** One request of the running code; it throws by leaving the transaction's status. */
    method Request(e: Effect)
      requires trx.status == Running
      modifies this, trx
      ensures Value() == DoEffect(trx.env.accounts, old(Value()), actionOrdinal, e)
              && actionOrdinal == old(actionOrdinal)
    {
      match e {
        case Notify(who) =>
          if who !in receivers {
            var ordinal := trx.ScheduleAction(act, who, false, actionOrdinal, first);
            receivers, ordinals := receivers + [who], ordinals + [ordinal];
          }
        case Inline(a) =>
          if !trx.Exists(a.account) {
            trx.status := Threw(actionOrdinal);
          } else {
            var ordinal := trx.ScheduleAction(a, a.account, false, actionOrdinal, first);
            inlines := inlines + [ordinal];
          }
        case ContextFreeInline(a) =>
          if !trx.Exists(a.account) || a.authorizations != 0 {
            trx.status := Threw(actionOrdinal);
          } else {
            var ordinal := trx.ScheduleAction(a, a.account, true, actionOrdinal, first);
            contextFreeInlines := contextFreeInlines + [ordinal];
          }
      }
    }

    /** The requests of one run of contract code, up to the first that throws. */
    method RunCode(effects: seq<Effect>)
      requires trx.status == Running
      modifies this, trx
      ensures Value() == DoEffects(trx.env.accounts, old(Value()), actionOrdinal, effects)
              && actionOrdinal == old(actionOrdinal)
    {
      var rest := effects;
      while rest != [] && trx.status == Running
        invariant actionOrdinal == old(actionOrdinal)
        invariant DoEffects(trx.env.accounts, Value(), actionOrdinal, rest)
                  == DoEffects(trx.env.accounts, old(Value()), actionOrdinal, effects)
        decreases |rest|
      {
        Request(rest[0]);
        rest := rest[1..];
      }
    }

    method FinishOne(throws: bool)
      modifies trx
      ensures Value() == old(Value()).(trx := Finish(old(trx.Value()), actionOrdinal, throws))
    {
      if trx.status != Running || throws {
        trx.exceptions, trx.status := trx.exceptions + {actionOrdinal}, Threw(actionOrdinal);
      } else {
        trx.receipts, trx.completed := trx.receipts[actionOrdinal := trx.sequence], trx.completed + [actionOrdinal];
        trx.sequence := trx.sequence + 1;
      }
    }

    method ExecOne(i: nat)
      requires Ready(Value()) && i < |ordinals| && trx.status == Running
      modifies this, trx
      ensures Value() == ActionScheduler.ExecOne(trx.env.accounts, trx.code, old(Value()), i)
    {
      actionOrdinal := ordinals[i];
      var behaviour := trx.code(|trx.started|);
      trx.started := trx.started + [actionOrdinal];
      if !trx.Exists(receivers[i]) {
        FinishOne(true);
      } else {
        if i == 0 { trx.created := trx.created + behaviour.creates; }
        RunCode(behaviour.effects);
        FinishOne(behaviour.throws);
      }
    }

    /** The action itself and then every receiver notified so far, until no more are added. */
    method RunReceivers()
      requires Ready(Value()) && trx.status == Running
      modifies this, trx
      ensures Value() == RunNotified(trx.env.accounts, trx.code, old(Value()), 0)
    {
      ghost var goal := RunNotified(trx.env.accounts, trx.code, Value(), 0);
      var i := 0;
      while i < |ordinals| && trx.status == Running
        invariant Towards(trx.env.accounts, trx.code, Value(), i, goal)
        decreases i == 0, Left(trx.env.accounts, Value(), i), trx.status == Running
      {
        TowardsStep(trx.env.accounts, trx.code, Value(), i, goal);
        ExecOne(i);
        i := i + 1;
      }
    }

    /** The inline actions sent by the action and its receivers, context-free ones first. */
    method RunInlines()
      requires Ready(Value()) && depth <= trx.env.maxDepth
      modifies trx
      ensures trx.Value() == Deliver(trx.env, trx.code, old(Value()), depth)
      decreases trx.env.maxDepth - depth, 0
    {
      if trx.status == Running && (contextFreeInlines != [] || inlines != []) {
        if trx.env.maxDepth <= depth {
          trx.status := DepthReached;
        } else {
          trx.ExecuteActions(contextFreeInlines + inlines, depth + 1);
        }
      }
    }

    method Exec()
      requires 1 <= first <= |trx.traces| && depth <= trx.env.maxDepth && trx.status == Running
      requires Value() == StartContext(trx.Value(), first)
      modifies this, trx
      ensures trx.Value() == ActionScheduler.ExecuteAction(trx.env, trx.code, old(trx.Value()), first, depth)
      decreases trx.env.maxDepth - depth, 1
    {
      RunReceivers();
      RunInlines();
    }
  }

  /** `t` is on the way to `goal`, with the actions `rest` still to execute. */
  ghost predicate TowardsAll(env: Env, code: Code, t: Trx, rest: seq<nat>, depth: nat, goal: Trx) {
    InRange(|t.traces|, rest) && depth <= env.maxDepth && RunActions(env, code, t, rest, depth) == goal
  }

  lemma TowardsAllStep(env: Env, code: Code, t: Trx, rest: seq<nat>, depth: nat, goal: Trx)
    requires TowardsAll(env, code, t, rest, depth, goal) && rest != [] && t.status == Running
    ensures TowardsAll(env, code, ActionScheduler.ExecuteAction(env, code, t, rest[0], depth), rest[1..], depth, goal)
  {
  }

  /** `s` is on the way to `goal` in the loop over receivers, about to run the `i`-th. */
  ghost predicate Towards(world: set<Account>, code: Code, s: State, i: nat, goal: State) {
    && Ready(s) && i <= |s.ctx.ordinals|
    && if s.trx.status == Running
       then AllExist(world, s, i) && RunNotified(world, code, s, i) == goal
       else s == goal
  }

  lemma TowardsStep(world: set<Account>, code: Code, s: State, i: nat, goal: State)
    requires Towards(world, code, s, i, goal) && i < |s.ctx.ordinals| && s.trx.status == Running
    ensures var r := ActionScheduler.ExecOne(world, code, s, i);
            && Towards(world, code, r, i + 1, goal)
            && (i > 0 && r.trx.status == Running ==> Left(world, r, i + 1) < Left(world, s, i))
            && (i > 0 ==> Left(world, r, i + 1) <= Left(world, s, i))
  {
    var r := ActionScheduler.ExecOne(world, code, s, i);
    assert r.ctx.receivers[..i + 1] == s.ctx.receivers[..i] + [s.ctx.receivers[i]];
    if r.trx.status == Running {
      assert s.ctx.receivers[i] in Left(world, s, i);
    }
  }

  /** The accounts that are not among the first `i` receivers. */
  ghost function Left(world: set<Account>, s: State, i: nat): set<Account>
    requires i <= |s.ctx.receivers|
  {
    Accounts(world, s.trx) - Seen(s.ctx.receivers[..i])
  }
}
