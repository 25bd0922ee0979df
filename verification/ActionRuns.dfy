/** What holds in every run of a transaction, whatever its contracts do. */
module ActionRuns {
  import opened ActionScheduler
  import opened ActionOrder

  // ----- The columns of the trace -----

  /** The nearest action on the creator chain from `c` upwards that is not a notification. */
  function Unnotified(traces: seq<ActionTrace>, c: nat): nat {
    if c == 0 || |traces| < c then 0
    else if KindOf(traces[c - 1]) != Notified then c
    else if traces[c - 1].creator < c then Unnotified(traces, traces[c - 1].creator)
    else 0
  }

  /** The same from the ancestor recorded for `c`. */
  function Closest(traces: seq<ActionTrace>, c: nat): nat
    requires 1 <= c <= |traces|
  {
    if KindOf(traces[c - 1]) == Notified then traces[c - 1].ancestor else c
  }

  ghost predicate TraceOk(traces: seq<ActionTrace>, k: int) {
    0 <= k < |traces| ==>
      var a := traces[k];
      && a.ordinal == k + 1 && a.creator <= k && a.ancestor <= k
      && (a.creator == 0 ==> a.ancestor == 0 && KindOf(a) != Notified)
      && (a.creator > 0 ==> 0 < a.ancestor == Closest(traces, a.creator))
      && (a.ancestor > 0 ==> KindOf(traces[a.ancestor - 1]) != Notified)
  }

  /** Ordinals count from one in creation order, creators come first, and ancestors are recorded as those of the
      creators say. */
  ghost predicate WellTraced(traces: seq<ActionTrace>) {
    forall k :: TraceOk(traces, k)
  }

  /** So the recorded ancestor is the nearest action on the creator chain that is not a notification. */
  lemma {:induction false} AncestorIsUnnotified(traces: seq<ActionTrace>, k: nat)
    requires WellTraced(traces) && k < |traces|
    ensures traces[k].ancestor == Unnotified(traces, traces[k].creator)
  {
    var c := traces[k].creator;
    assert TraceOk(traces, k);
    if c > 0 {
      assert TraceOk(traces, c - 1);
      AncestorIsUnnotified(traces, c - 1);
    }
  }

  lemma WellTracedAppend(traces: seq<ActionTrace>, a: ActionTrace)
    requires WellTraced(traces) && TraceOk(traces + [a], |traces|)
    ensures WellTraced(traces + [a])
  {
    forall k ensures TraceOk(traces + [a], k) { assert TraceOk(traces, k); }
  }

  ghost predicate IsKid(traces: seq<ActionTrace>, o: nat, kind: Kind, x: nat) {
    1 <= x <= |traces| && traces[x - 1].ancestor == o && KindOf(traces[x - 1]) == kind
  }

  lemma {:induction false} KidsAre(traces: seq<ActionTrace>, o: nat, kind: Kind, n: nat)
    requires n <= |traces|
    ensures forall x :: x in KidsUpTo(traces, o, kind, n) ==> IsKid(traces, o, kind, x)
    ensures Increasing(KidsUpTo(traces, o, kind, n))
  {
    if o < n { KidsAre(traces, o, kind, n - 1); }
  }

  ghost predicate Increasing(s: seq<nat>) {
    forall i, j :: 0 <= i < j < |s| ==> s[i] < s[j]
  }

  // ----- One action being applied -----

  /** The context lists exactly the traces that hang below its action. */
  ghost predicate ContextOk(s: State) {
    var o, traces := s.ctx.first, s.trx.traces;
    && WellTraced(traces) && 1 <= o <= |traces| && KindOf(traces[o - 1]) != Notified
    && s.ctx.receivers != [] && s.ctx.receivers[0] == s.ctx.act.account
    && s.ctx.ordinals == [o] + Kids(traces, o, Notified)
    && s.ctx.contextFreeInlines == Kids(traces, o, ContextFreeSent) && s.ctx.inlines == Kids(traces, o, Sent)
  }

  ghost predicate AddedBelow(a: seq<ActionTrace>, b: seq<ActionTrace>, o: nat) {
    a <= b && forall k :: |a| <= k < |b| ==> b[k].ancestor == o
  }

  lemma NewTraceOk(s: State, current: nat, a: ActionTrace)
    requires ContextOk(s) && current in s.ctx.ordinals
    requires a.ordinal == |s.trx.traces| + 1 && a.creator == current && a.ancestor == s.ctx.first
    ensures WellTraced(s.trx.traces + [a])
  {
    var traces, o := s.trx.traces, s.ctx.first;
    KidsAre(traces, o, Notified, |traces|);
    assert current == o || IsKid(traces, o, Notified, current);
    WellTracedAppend(traces, a);
  }

  lemma EffectKeepsContext(world: set<Account>, s: State, current: nat, e: Effect)
    requires ContextOk(s) && current in s.ctx.ordinals
    ensures ContextOk(DoEffect(world, s, current, e))
    ensures AddedBelow(s.trx.traces, DoEffect(world, s, current, e).trx.traces, s.ctx.first)
  {
    var r, traces, o := DoEffect(world, s, current, e), s.trx.traces, s.ctx.first;
    if r.trx.traces != traces {
      var a := r.trx.traces[|traces|];
      assert r.trx.traces == traces + [a];
      NewTraceOk(s, current, a);
      KidsAppend(traces, a, o, Notified);
      KidsAppend(traces, a, o, ContextFreeSent);
      KidsAppend(traces, a, o, Sent);
    }
  }

  lemma {:induction false} EffectsKeepContext(world: set<Account>, s: State, current: nat, effects: seq<Effect>)
    requires ContextOk(s) && current in s.ctx.ordinals
    ensures ContextOk(DoEffects(world, s, current, effects))
    ensures AddedBelow(s.trx.traces, DoEffects(world, s, current, effects).trx.traces, s.ctx.first)
    decreases |effects|
  {
    if effects != [] && s.trx.status == Running {
      EffectKeepsContext(world, s, current, effects[0]);
      EffectsKeepContext(world, DoEffect(world, s, current, effects[0]), current, effects[1..]);
    }
  }

  // ----- Receipts and exceptions -----

  ghost predicate NoRepeats(s: seq<nat>) {
    forall i, j :: 0 <= i < j < |s| ==> s[i] != s[j]
  }

  /** Every action is started at most once; those that completed have consecutive sequence numbers from
      `base` in that order, nothing else has a receipt, and only the one that threw has an exception. */
  ghost predicate Books(t: Trx, base: nat) {
    NoRepeats(t.started) && InRange(|t.traces|, t.started) && OutcomeOk(t) && ReceiptsOk(t, base)
  }

  ghost predicate OutcomeOk(t: Trx) {
    if t.status.Threw? then t.started == t.completed + [t.status.ordinal] && t.exceptions == {t.status.ordinal}
    else t.started == t.completed && t.exceptions == {}
  }

  ghost predicate ReceiptsOk(t: Trx, base: nat) {
    && t.sequence == base + |t.completed|
    && (forall i :: 0 <= i < |t.completed| ==> t.completed[i] in t.receipts && t.receipts[t.completed[i]] == base + i)
    && (forall x :: x in t.receipts ==> x in t.completed)
  }

  lemma FinishKeepsBooks(t: Trx, u: Trx, current: nat, throws: bool, base: nat)
    requires Books(t, base) && t.status == Running && current !in t.started && 1 <= current <= |u.traces|
    requires t.traces <= u.traces && u.receipts == t.receipts && u.exceptions == t.exceptions
             && u.sequence == t.sequence
    requires u.completed == t.completed && u.started == t.started + [current]
    ensures Books(Finish(u, current, throws), base)
  {
  }

  // ----- The notification loop -----

  /** What was started before the action numbered `o`, when there were `n` traces. */
  ghost predicate Earlier(before: seq<nat>, o: nat, n: nat) {
    forall x :: x in before ==> x <= n && x != o
  }

  lemma OrdinalIsFresh(s: State, i: nat, before: seq<nat>, n: nat)
    requires ContextOk(s) && i < |s.ctx.ordinals| && Earlier(before, s.ctx.first, n)
    requires forall k :: 0 <= k < n && k < |s.trx.traces| ==> s.trx.traces[k].ancestor != s.ctx.first
    ensures s.ctx.ordinals[i] !in before + s.ctx.ordinals[..i]
    ensures 1 <= s.ctx.ordinals[i] <= |s.trx.traces|
  {
    var traces, o := s.trx.traces, s.ctx.first;
    KidsBeyond(traces, o, Notified, n, |traces|);
    KidsAre(traces, o, Notified, |traces|);
    assert Increasing(s.ctx.ordinals);
  }

  ghost predicate Notifying(s: State, i: nat, before: seq<nat>, n: nat, base: nat) {
    && Ready(s) && ContextOk(s) && Books(s.trx, base) && i <= |s.ctx.ordinals|
    && Earlier(before, s.ctx.first, n) && n <= |s.trx.traces|
    && (forall k :: 0 <= k < n ==> s.trx.traces[k].ancestor != s.ctx.first)
    && s.trx.started == before + s.ctx.ordinals[..i]
  }

  lemma StaysChildless(a: seq<ActionTrace>, b: seq<ActionTrace>, n: nat, o: nat)
    requires a <= b && n <= |a| && forall k :: 0 <= k < n ==> a[k].ancestor != o
    ensures forall k :: 0 <= k < n ==> b[k].ancestor != o
  {
  }

  /** An execution: requests from the running code, then a receipt or an exception. */
  lemma ExecOneIs(world: set<Account>, code: Code, s: State, i: nat) returns (u: State, throws: bool)
    requires Ready(s) && ContextOk(s) && i < |s.ctx.ordinals|
    ensures var current := s.ctx.ordinals[i];
            && ExecOne(world, code, s, i) == u.(trx := Finish(u.trx, current, throws))
            && Extends(s.(trx := s.trx.(started := s.trx.started + [current], created := u.trx.created)), u)
            && ContextOk(u) && AddedBelow(s.trx.traces, u.trx.traces, s.ctx.first)
  {
    var current := s.ctx.ordinals[i];
    u := s.(trx := s.trx.(started := s.trx.started + [current]));
    assert ContextOk(u);
    if s.ctx.receivers[i] !in Accounts(world, s.trx) {
      throws := true;
    } else {
      var b := code(|s.trx.started|);
      u := u.(trx := u.trx.(created := if i == 0 then s.trx.created + b.creates else s.trx.created));
      assert ContextOk(u);
      EffectsKeepContext(world, u, current, b.effects);
      u, throws := DoEffects(world, u, current, b.effects), b.throws;
    }
  }

  lemma FinishKeepsContext(u: State, current: nat, throws: bool)
    requires ContextOk(u)
    ensures ContextOk(u.(trx := Finish(u.trx, current, throws)))
  {
  }

  lemma StartedIs(s: State, r: State, i: nat, before: seq<nat>)
    requires i < |s.ctx.ordinals| && s.ctx.ordinals <= r.ctx.ordinals && s.trx.started == before + s.ctx.ordinals[..i]
    requires r.trx.started == s.trx.started + [s.ctx.ordinals[i]]
    ensures r.trx.started == before + r.ctx.ordinals[..i + 1]
  {
    assert r.ctx.ordinals[..i + 1] == s.ctx.ordinals[..i] + [s.ctx.ordinals[i]];
  }

  lemma OneNotified(world: set<Account>, code: Code, s: State, i: nat, before: seq<nat>, n: nat, base: nat)
    requires Notifying(s, i, before, n, base) && i < |s.ctx.ordinals| && s.trx.status == Running
    ensures var r := ExecOne(world, code, s, i);
            && Notifying(r, i + 1, before, n, base) && r.ctx.first == s.ctx.first
            && AddedBelow(s.trx.traces, r.trx.traces, s.ctx.first)
  {
    var u, throws := ExecOneIs(world, code, s, i);
    var r := ExecOne(world, code, s, i);
    OneFinished(s, u, r, i, throws, before, n, base);
  }

  lemma OneFinished(s: State, u: State, r: State, i: nat, throws: bool, before: seq<nat>, n: nat, base: nat)
    requires Notifying(s, i, before, n, base) && i < |s.ctx.ordinals| && s.trx.status == Running
    requires Extends(s.(trx := s.trx.(started := s.trx.started + [s.ctx.ordinals[i]], created := u.trx.created)), u)
    requires ContextOk(u) && AddedBelow(s.trx.traces, u.trx.traces, s.ctx.first)
    requires Ready(r) && r == u.(trx := Finish(u.trx, s.ctx.ordinals[i], throws))
    ensures Notifying(r, i + 1, before, n, base)
  {
    var current := s.ctx.ordinals[i];
    OrdinalIsFresh(s, i, before, n);
    FinishKeepsBooks(s.trx, u.trx, current, throws, base);
    FinishKeepsContext(u, current, throws);
    StaysChildless(s.trx.traces, r.trx.traces, n, s.ctx.first);
    StartedIs(s, r, i, before);
  }

  /** Between a state of the notification loop and its end. */
  ghost predicate Notifies(s: State, r: State, before: seq<nat>, base: nat) {
    && ContextOk(r) && Books(r.trx, base) && r.ctx.first == s.ctx.first && !r.trx.status.DepthReached?
    && AddedBelow(s.trx.traces, r.trx.traces, s.ctx.first)
    && (exists j :: 0 <= j <= |r.ctx.ordinals| && r.trx.started == before + r.ctx.ordinals[..j])
    && (r.trx.status == Running ==> r.trx.started == before + r.ctx.ordinals)
  }

  lemma NotifiesNow(s: State, i: nat, before: seq<nat>, n: nat, base: nat)
    requires Notifying(s, i, before, n, base) && !s.trx.status.DepthReached?
    requires s.trx.status == Running ==> i == |s.ctx.ordinals|
    ensures Notifies(s, s, before, base)
  {
    assert i == |s.ctx.ordinals| ==> s.ctx.ordinals[..i] == s.ctx.ordinals;
  }

  lemma NotifiesTrans(s: State, t: State, r: State, before: seq<nat>, base: nat)
    requires Notifies(t, r, before, base) && t.ctx.first == s.ctx.first
             && AddedBelow(s.trx.traces, t.trx.traces, s.ctx.first)
    ensures Notifies(s, r, before, base)
  {
  }

  /** Each turn of the loop after the first notifies one more account, and no more come to exist. */
  lemma FewerLeft(world: set<Account>, code: Code, s: State, i: nat)
    requires Ready(s) && i < |s.ctx.ordinals| && AllExist(world, s, i)
             && ExecOne(world, code, s, i).trx.status == Running
    ensures AllExist(world, ExecOne(world, code, s, i), i + 1)
    ensures var r := ExecOne(world, code, s, i);
            var left, before := Accounts(world, r.trx) - Seen(r.ctx.receivers[..i + 1]),
                                Accounts(world, s.trx) - Seen(s.ctx.receivers[..i]);
            i > 0 ==> left < before
  {
    var r := ExecOne(world, code, s, i);
    assert r.ctx.receivers[..i + 1] == s.ctx.receivers[..i] + [s.ctx.receivers[i]];
    assert s.ctx.receivers[i] in Accounts(world, s.trx) - Seen(s.ctx.receivers[..i]);
  }

  lemma {:induction false} NotifiedRun(world: set<Account>, code: Code, s: State, i: nat, before: seq<nat>, n: nat,
                                       base: nat)
    requires Notifying(s, i, before, n, base) && s.trx.status == Running
    requires AllExist(world, s, i)
    ensures Notifies(s, RunNotified(world, code, s, i), before, base)
    decreases i == 0, Accounts(world, s.trx) - Seen(s.ctx.receivers[..i])
  {
    if i == |s.ctx.ordinals| {
      NotifiesNow(s, i, before, n, base);
    } else {
      var r := ExecOne(world, code, s, i);
      OneNotified(world, code, s, i, before, n, base);
      if r.trx.status == Running {
        FewerLeft(world, code, s, i);
        NotifiedRun(world, code, r, i + 1, before, n, base);
      } else {
        NeverTooDeep(world, code, s, i);
        NotifiesNow(r, i + 1, before, n, base);
      }
      NotifiesTrans(s, r, RunNotified(world, code, s, i), before, base);
    }
  }

  lemma NeverTooDeep(world: set<Account>, code: Code, s: State, i: nat)
    requires Ready(s) && i < |s.ctx.ordinals|
    ensures !ExecOne(world, code, s, i).trx.status.DepthReached?
  {
  }
}
