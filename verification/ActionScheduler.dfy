/** How the actions of one transaction are scheduled and executed. */
module ActionScheduler {
  type Account = nat

  datatype Action = Action(account: Account, payload: nat, authorizations: nat)

  /** What running contract code asks the scheduler for. */
  datatype Effect = Notify(who: Account) | Inline(act: Action) | ContextFreeInline(act: Action)

  /** One run of contract code: the accounts a native handler creates, the requests made, and whether it then throws. */
  datatype Behaviour = Behaviour(creates: set<Account>, effects: seq<Effect>, throws: bool)

  /** The code run by the n-th execution of a transaction; any run of any contracts is some such stream. */
  type Code = nat -> Behaviour

  /** `ancestor` is the closest unnotified ancestor. */
  datatype ActionTrace = ActionTrace(ordinal: nat, creator: nat, ancestor: nat, receiver: Account, act: Action,
                                     contextFree: bool)

  datatype Status = Running | Threw(ordinal: nat) | DepthReached

  /** The trace of a transaction.  The receipt of an action is kept by its ordinal and is the global
      sequence number it was given; `exceptions` are the ordinals with an exception.  `started` and
      `completed` list the ordinals in the order their code was entered and left without an exception,
      `sequence` is the next global sequence number, and `created` are the accounts made so far. */
  datatype Trx = Trx(traces: seq<ActionTrace>, receipts: map<nat, nat>, exceptions: set<nat>, started: seq<nat>,
                     completed: seq<nat>, sequence: nat, created: set<Account>, status: Status)

  /** An action being applied: its notified receivers with their ordinals, and the inline actions they sent. */
  datatype Context = Context(act: Action, first: nat, receivers: seq<Account>, ordinals: seq<nat>,
                             contextFreeInlines: seq<nat>, inlines: seq<nat>)

  /** `accounts` are those that exist before the transaction. */
  datatype Env = Env(accounts: set<Account>, maxDepth: nat)

  function Accounts(world: set<Account>, t: Trx): set<Account> { world + t.created }

  datatype State = State(trx: Trx, ctx: Context)

  // ----- The scheduler -----

  function Schedule(t: Trx, act: Action, receiver: Account, contextFree: bool, creator: nat, ancestor: nat): Trx {
    t.(traces := t.traces + [ActionTrace(|t.traces| + 1, creator, ancestor, receiver, act, contextFree)])
  }

  /** One request; an impossible one throws. */
  function DoEffect(world: set<Account>, s: State, current: nat, e: Effect): (r: State)
    ensures Extends(s, r)
    ensures Ready(s) ==> Ready(r)
  {
    var t, c, next := s.trx, s.ctx, |s.trx.traces| + 1;
    match e
    case Notify(who) =>
      if who in c.receivers then s
      else State(Schedule(t, c.act, who, false, current, c.first),
                 c.(receivers := c.receivers + [who], ordinals := c.ordinals + [next]))
    case Inline(a) =>
      if a.account !in Accounts(world, t) then State(t.(status := Threw(current)), c)
      else State(Schedule(t, a, a.account, false, current, c.first), c.(inlines := c.inlines + [next]))
    case ContextFreeInline(a) =>
      if a.account !in Accounts(world, t) || a.authorizations != 0 then State(t.(status := Threw(current)), c)
      else State(Schedule(t, a, a.account, true, current, c.first),
                 c.(contextFreeInlines := c.contextFreeInlines + [next]))
  }

  /** Requests only add: traces, receivers and inline actions already there stay in place. */
  ghost predicate Extends(s: State, r: State) {
    && s.trx.traces <= r.trx.traces && r.trx.started == s.trx.started && r.trx.completed == s.trx.completed
    && r.trx.receipts == s.trx.receipts && r.trx.exceptions == s.trx.exceptions && r.trx.sequence == s.trx.sequence
    && r.trx.created == s.trx.created
    && r.ctx.act == s.ctx.act && r.ctx.first == s.ctx.first
    && s.ctx.receivers <= r.ctx.receivers && s.ctx.ordinals <= r.ctx.ordinals
  }

  function DoEffects(world: set<Account>, s: State, current: nat, effects: seq<Effect>): (r: State)
    ensures Extends(s, r)
    ensures Ready(s) ==> Ready(r)
    decreases |effects|
  {
    if effects == [] || s.trx.status != Running then s
    else DoEffects(world, DoEffect(world, s, current, effects[0]), current, effects[1..])
  }

  /** The end of an execution: a receipt, or the exception recorded in the trace. */
  function Finish(t: Trx, current: nat, throws: bool): Trx {
    if t.status == Running && !throws then
      t.(receipts := t.receipts[current := t.sequence], completed := t.completed + [current],
         sequence := t.sequence + 1)
    else t.(exceptions := t.exceptions + {current}, status := Threw(current))
  }

  predicate InRange(n: nat, ordinals: seq<nat>) {
    forall k :: 0 <= k < |ordinals| ==> 1 <= ordinals[k] <= n
  }

  predicate Distinct(s: seq<Account>) {
    forall i, j :: 0 <= i < j < |s| ==> s[i] != s[j]
  }

  predicate Ready(s: State) {
    && |s.ctx.receivers| == |s.ctx.ordinals| && Distinct(s.ctx.receivers) && InRange(|s.trx.traces|, s.ctx.ordinals)
    && InRange(|s.trx.traces|, s.ctx.contextFreeInlines) && InRange(|s.trx.traces|, s.ctx.inlines)
  }

  /** Running the code of the `i`-th receiver; a receiver that does not exist throws.  Only the first receiver,
      the account of the action itself, can have a native handler. */
  function ExecOne(world: set<Account>, code: Code, s: State, i: nat): (r: State)
    requires Ready(s) && i < |s.ctx.ordinals|
    ensures Ready(r) && |s.trx.traces| <= |r.trx.traces|
    ensures s.ctx.receivers <= r.ctx.receivers && s.ctx.ordinals <= r.ctx.ordinals
    ensures s.trx.created <= r.trx.created && (i > 0 ==> r.trx.created == s.trx.created)
    ensures r.trx.status == Running ==> s.ctx.receivers[i] in Accounts(world, s.trx)
  {
    var current := s.ctx.ordinals[i];
    var behaviour := code(|s.trx.started|);
    var entered := s.(trx := s.trx.(started := s.trx.started + [current]));
    if s.ctx.receivers[i] !in Accounts(world, s.trx) then entered.(trx := Finish(entered.trx, current, true))
    else
      var native := if i == 0 then s.trx.created + behaviour.creates else s.trx.created;
      var ran := DoEffects(world, entered.(trx := entered.trx.(created := native)), current, behaviour.effects);
      ran.(trx := Finish(ran.trx, current, behaviour.throws))
  }

  function Seen(s: seq<Account>): set<Account> { set a | a in s }

  /** The receivers before the `i`-th exist. */
  predicate AllExist(world: set<Account>, s: State, i: nat) {
    i <= |s.ctx.receivers| && forall k :: 0 <= k < i ==> s.ctx.receivers[k] in Accounts(world, s.trx)
  }

  /** The loop over the notified receivers, which grows as they notify others. */
  function RunNotified(world: set<Account>, code: Code, s: State, i: nat): (r: State)
    requires Ready(s) && i <= |s.ctx.ordinals|
    requires AllExist(world, s, i)
    ensures Ready(r) && |s.trx.traces| <= |r.trx.traces|
    decreases i == 0, Accounts(world, s.trx) - Seen(s.ctx.receivers[..i])
  {
    if i == |s.ctx.ordinals| || s.trx.status != Running then s
    else
      var r := ExecOne(world, code, s, i);
      if r.trx.status != Running then r
      else
        assert r.ctx.receivers[..i + 1] == s.ctx.receivers[..i] + [s.ctx.receivers[i]];
        assert s.ctx.receivers[i] in Accounts(world, s.trx) - Seen(s.ctx.receivers[..i]);
        RunNotified(world, code, r, i + 1)
  }

  function StartContext(t: Trx, ordinal: nat): State
    requires 1 <= ordinal <= |t.traces|
  {
    var a := t.traces[ordinal - 1];
    State(t, Context(a.act, ordinal, [a.receiver], [ordinal], [], []))
  }

  /** The inline actions sent, context-free ones first. */
  function SentBy(s: State): seq<nat> { s.ctx.contextFreeInlines + s.ctx.inlines }

  /** An action with its notifications, then the inline actions any of them sent. */
  function ExecuteAction(env: Env, code: Code, t: Trx, ordinal: nat, depth: nat): (r: Trx)
    requires 1 <= ordinal <= |t.traces| && depth <= env.maxDepth
    ensures |t.traces| <= |r.traces|
    decreases env.maxDepth - depth, 1
  {
    Deliver(env, code, RunNotified(env.accounts, code, StartContext(t, ordinal), 0), depth)
  }

  /** Executes the inline actions sent, unless something threw or they are too deep. */
  function Deliver(env: Env, code: Code, s: State, depth: nat): (r: Trx)
    requires Ready(s) && depth <= env.maxDepth
    ensures |s.trx.traces| <= |r.traces|
    decreases env.maxDepth - depth, 0
  {
    if s.trx.status != Running || SentBy(s) == [] then s.trx
    else if env.maxDepth <= depth then s.trx.(status := DepthReached)
    else RunActions(env, code, s.trx, SentBy(s), depth + 1)
  }

  function RunActions(env: Env, code: Code, t: Trx, ordinals: seq<nat>, depth: nat): (r: Trx)
    requires InRange(|t.traces|, ordinals) && depth <= env.maxDepth
    ensures |t.traces| <= |r.traces|
    decreases env.maxDepth - depth, |ordinals| + 2
  {
    if ordinals == [] || t.status != Running then t
    else RunActions(env, code, ExecuteAction(env, code, t, ordinals[0], depth), ordinals[1..], depth)
  }

  // ----- Whole transactions -----

  function ScheduleAll(t: Trx, acts: seq<Action>, contextFree: bool): (r: Trx)
    ensures |r.traces| == |t.traces| + |acts|
    decreases |acts|
  {
    if acts == [] then t
    else ScheduleAll(Schedule(t, acts[0], acts[0].account, contextFree, 0, 0), acts[1..], contextFree)
  }

  function Ordinals(n: nat): (r: seq<nat>)
    ensures |r| == n && forall k :: 0 <= k < n ==> r[k] == k + 1
  {
    if n == 0 then [] else Ordinals(n - 1) + [n]
  }

  /** The trace with which a transaction begins: all its actions, none of them executed. */
  function Begin(contextFree: seq<Action>, acts: seq<Action>, sequence: nat): (t: Trx)
    ensures |t.traces| == |contextFree| + |acts|
  {
    ScheduleAll(ScheduleAll(Trx([], map[], {}, [], [], sequence, {}, Running), contextFree, true), acts, false)
  }

  function RunTransaction(env: Env, code: Code, contextFree: seq<Action>, acts: seq<Action>, sequence: nat): Trx {
    var t := Begin(contextFree, acts, sequence);
    RunActions(env, code, t, Ordinals(|t.traces|), 0)
  }
}
