/** Every trace is there because it was asked for, and everything asked for is there. */
module ActionRequests {
  import opened ActionScheduler
  import opened ActionOrder
  import opened ActionRuns
  import opened ActionTheorems

  // ----- What code asks for, and what the trace shows -----

  datatype Request = Request(receiver: Account, act: Action, contextFree: bool)

  function RequestOf(a: ActionTrace): Request { Request(a.receiver, a.act, a.contextFree) }

  /** What the action numbered `x` created, in ordinal order; 0 is the transaction itself. */
  function MadeBy(traces: seq<ActionTrace>, x: nat): seq<Request> {
    if traces == [] then []
    else
      var n := |traces| - 1;
      MadeBy(traces[..n], x) + if traces[n].creator == x then [RequestOf(traces[n])] else []
  }

  predicate Possible(accounts: set<Account>, e: Effect) {
    match e
    case Notify(_) => true
    case Inline(a) => a.account in accounts
    case ContextFreeInline(a) => a.account in accounts && a.authorizations == 0
  }

  predicate AllPossible(accounts: set<Account>, effects: seq<Effect>) {
    forall e :: e in effects ==> Possible(accounts, e)
  }

  /** What comes of one request: nothing, if it is to notify an account that knows already. */
  function Outcome(act: Action, known: set<Account>, e: Effect): seq<Request> {
    match e
    case Notify(who) => if who in known then [] else [Request(who, act, false)]
    case Inline(a) => [Request(a.account, a, false)]
    case ContextFreeInline(a) => [Request(a.account, a, true)]
  }

  function Informed(e: Effect): set<Account> { if e.Notify? then {e.who} else {} }

  /** What comes of all the requests up to the first impossible one. */
  function Requested(accounts: set<Account>, act: Action, known: set<Account>, effects: seq<Effect>): seq<Request>
    decreases |effects|
  {
    if effects == [] || !Possible(accounts, effects[0]) then []
    else Outcome(act, known, effects[0]) + Requested(accounts, act, known + Informed(effects[0]), effects[1..])
  }

  /** Trace `k` is the unnotified action `o` itself, or a notification of it made before `x` ran. */
  predicate NotifiedBefore(traces: seq<ActionTrace>, o: nat, x: nat, k: int) {
    && 0 <= k < |traces|
    && (k + 1 == o || (traces[k].ancestor == o && KindOf(traces[k]) == Notified && traces[k].creator < x))
  }

  /** The accounts that know of the action when its notification `x`, or `x` itself, runs. */
  function Known(traces: seq<ActionTrace>, x: nat): set<Account>
    requires 1 <= x <= |traces|
  {
    set k | 0 <= k < |traces| && NotifiedBefore(traces, Closest(traces, x), x, k) :: traces[k].receiver
  }

  /** Only the account of the action itself can have a native handler that creates accounts. */
  function Creates(a: ActionTrace, b: Behaviour): set<Account> { if KindOf(a) == Notified then {} else b.creates }

  /** The accounts made by the first `m` executions. */
  function CreatedBefore(t: Trx, code: Code, m: nat): set<Account>
    requires m <= |t.started| && InRange(|t.traces|, t.started)
  {
    if m == 0 then {} else CreatedBefore(t, code, m - 1) + Creates(t.traces[t.started[m - 1] - 1], code(m - 1))
  }

  /** Running `b` for the trace `a`, when `known` know of the action and `accounts` exist, makes exactly what the code
      asks for, and completes if and only if the receiver exists, everything asked for is possible and the code does
      not throw. */
  ghost predicate Fits(a: ActionTrace, b: Behaviour, accounts: set<Account>, known: set<Account>, made: seq<Request>,
                       completes: bool) {
    var after := accounts + Creates(a, b);
    && made == (if a.receiver in accounts then Requested(after, a.act, known, b.effects) else [])
    && (completes <==> a.receiver in accounts && AllPossible(after, b.effects) && !b.throws)
  }

  /** That is what the `m`-th execution did. */
  ghost predicate Explained(world: set<Account>, code: Code, t: Trx, m: int)
    requires InRange(|t.traces|, t.started)
  {
    0 <= m < |t.started| ==>
      var x := t.started[m];
      Fits(t.traces[x - 1], code(m), world + CreatedBefore(t, code, m), Known(t.traces, x), MadeBy(t.traces, x),
           m < |t.completed|)
  }

  /** Nothing is created by an action that has not run. */
  ghost predicate CreatorRan(t: Trx, k: int) {
    0 <= k < |t.traces| ==> t.traces[k].creator == 0 || t.traces[k].creator in t.started
  }

  ghost predicate Told(world: set<Account>, code: Code, roots: seq<Request>, t: Trx) {
    && InRange(|t.traces|, t.started) && MadeBy(t.traces, 0) == roots
    && (forall m :: Explained(world, code, t, m)) && (forall k :: CreatorRan(t, k))
    && (t.status == Running ==> t.created == CreatedBefore(t, code, |t.started|))
  }

  // ----- One execution -----

  ghost predicate AddedBy(a: seq<ActionTrace>, b: seq<ActionTrace>, current: nat) {
    a <= b && forall k :: |a| <= k < |b| ==> b[k].creator == current
  }

  /** The context has receiver and action of each trace it lists. */
  ghost predicate Listed(s: State) {
    |s.ctx.receivers| == |s.ctx.ordinals| && InRange(|s.trx.traces|, s.ctx.ordinals)
      && forall i :: 0 <= i < |s.ctx.ordinals| ==> ListedAt(s, i)
  }

  ghost predicate ListedAt(s: State, i: nat)
    requires i < |s.ctx.ordinals| && |s.ctx.receivers| == |s.ctx.ordinals| && InRange(|s.trx.traces|, s.ctx.ordinals)
  {
    var a := s.trx.traces[s.ctx.ordinals[i] - 1];
    a.receiver == s.ctx.receivers[i] && a.act == s.ctx.act
  }

  lemma MadeByAppend(traces: seq<ActionTrace>, a: ActionTrace, x: nat)
    ensures MadeBy(traces + [a], x) == MadeBy(traces, x) + if a.creator == x then [RequestOf(a)] else []
  {
    assert (traces + [a])[..|traces|] == traces;
  }

  lemma {:induction false} NotMade(a: seq<ActionTrace>, b: seq<ActionTrace>, x: nat)
    requires a <= b && forall k :: |a| <= k < |b| ==> b[k].creator != x
    ensures MadeBy(b, x) == MadeBy(a, x)
    decreases |b|
  {
    if |a| < |b| {
      var n := |b| - 1;
      assert b == b[..n] + [b[n]];
      NotMade(a, b[..n], x);
      MadeByAppend(b[..n], b[n], x);
    } else {
      assert a == b;
    }
  }

  lemma EffectTells(world: set<Account>, s: State, current: nat, e: Effect)
    requires s.trx.status == Running
    ensures var r := DoEffect(world, s, current, e);
            && AddedBy(s.trx.traces, r.trx.traces, current)
            && if Possible(Accounts(world, s.trx), e) then
                 && r.trx.status == Running && Seen(r.ctx.receivers) == Seen(s.ctx.receivers) + Informed(e)
                 && MadeBy(r.trx.traces, current)
                    == MadeBy(s.trx.traces, current) + Outcome(s.ctx.act, Seen(s.ctx.receivers), e)
               else r.trx.status == Threw(current) && r.trx.traces == s.trx.traces
  {
    var r := DoEffect(world, s, current, e);
    if r.trx.traces != s.trx.traces {
      MadeByAppend(s.trx.traces, r.trx.traces[|s.trx.traces|], current);
    }
  }

  lemma EffectLists(world: set<Account>, s: State, current: nat, e: Effect)
    requires Listed(s)
    ensures Listed(DoEffect(world, s, current, e))
  {
    var r := DoEffect(world, s, current, e);
    forall i | 0 <= i < |r.ctx.ordinals| ensures ListedAt(r, i) {
      if i < |s.ctx.ordinals| { assert ListedAt(s, i); }
    }
  }

  lemma Join(a: seq<Request>, b: seq<Request>, c: seq<Request>)
    ensures (a + b) + c == a + (b + c)
  {
  }

  lemma {:induction false} EffectsTell(world: set<Account>, s: State, current: nat, effects: seq<Effect>)
    requires s.trx.status == Running && Listed(s)
    ensures var r, accounts := DoEffects(world, s, current, effects), Accounts(world, s.trx);
            && AddedBy(s.trx.traces, r.trx.traces, current) && Listed(r)
            && r.trx.status == (if AllPossible(accounts, effects) then Running else Threw(current))
            && MadeBy(r.trx.traces, current)
               == MadeBy(s.trx.traces, current) + Requested(accounts, s.ctx.act, Seen(s.ctx.receivers), effects)
    decreases |effects|
  {
    if effects != [] {
      var e, rest := effects[0], effects[1..];
      assert effects == [e] + rest;
      var u := DoEffect(world, s, current, e);
      EffectTells(world, s, current, e);
      EffectLists(world, s, current, e);
      if u.trx.status == Running {
        EffectsTell(world, u, current, rest);
        Join(MadeBy(s.trx.traces, current), Outcome(s.ctx.act, Seen(s.ctx.receivers), e),
             Requested(Accounts(world, s.trx), s.ctx.act, Seen(u.ctx.receivers), rest));
      }
    }
  }

  // ----- What an execution knows -----

  /** Whatever hangs below the action was created by one of the first `i` receivers. */
  ghost predicate CreatorsListed(s: State, i: nat) {
    i <= |s.ctx.ordinals| && forall k :: CreatorListed(s, i, k)
  }

  ghost predicate CreatorListed(s: State, i: nat, k: int)
    requires i <= |s.ctx.ordinals|
  {
    0 <= k < |s.trx.traces| && s.trx.traces[k].ancestor == s.ctx.first ==>
      s.trx.traces[k].creator in s.ctx.ordinals[..i]
  }

  lemma OrdinalsIncrease(s: State)
    requires ContextOk(s)
    ensures Increasing(s.ctx.ordinals) && s.ctx.ordinals[0] == s.ctx.first
    ensures forall i :: 0 < i < |s.ctx.ordinals| ==> IsKid(s.trx.traces, s.ctx.first, Notified, s.ctx.ordinals[i])
  {
    KidsAre(s.trx.traces, s.ctx.first, Notified, |s.trx.traces|);
  }

  lemma ContextIs(s: State, i: nat)
    requires ContextOk(s) && i < |s.ctx.ordinals|
    ensures 1 <= s.ctx.ordinals[i] <= |s.trx.traces| && Closest(s.trx.traces, s.ctx.ordinals[i]) == s.ctx.first
    ensures KindOf(s.trx.traces[s.ctx.ordinals[i] - 1]) == Notified <==> i > 0
  {
    OrdinalsIncrease(s);
    if i > 0 { assert IsKid(s.trx.traces, s.ctx.first, Notified, s.ctx.ordinals[i]); }
  }

  lemma KidKnows(traces: seq<ActionTrace>, o: nat, ordinals: seq<nat>, i: nat, y: nat)
    requires IsKid(traces, o, Notified, y) && Increasing(ordinals) && i < |ordinals|
             && traces[y - 1].creator in ordinals[..i]
    ensures NotifiedBefore(traces, o, ordinals[i], y - 1)
  {
    var h :| 0 <= h < i && ordinals[h] == traces[y - 1].creator;
  }

  lemma ReceiverKnows(s: State, i: nat, j: nat)
    requires ContextOk(s) && CreatorsListed(s, i) && i < |s.ctx.ordinals| && j < |s.ctx.ordinals|
    ensures NotifiedBefore(s.trx.traces, s.ctx.first, s.ctx.ordinals[i], s.ctx.ordinals[j] - 1)
  {
    OrdinalsIncrease(s);
    if j > 0 {
      var y := s.ctx.ordinals[j];
      assert IsKid(s.trx.traces, s.ctx.first, Notified, y) && CreatorListed(s, i, y - 1);
      KidKnows(s.trx.traces, s.ctx.first, s.ctx.ordinals, i, y);
    }
  }

  lemma KnowingIsListed(s: State, x: nat, k: nat)
    requires ContextOk(s) && Listed(s) && NotifiedBefore(s.trx.traces, s.ctx.first, x, k)
    ensures s.trx.traces[k].receiver in Seen(s.ctx.receivers)
  {
    var traces, o := s.trx.traces, s.ctx.first;
    if k + 1 == o {
      assert s.ctx.ordinals[0] == k + 1 && ListedAt(s, 0);
    } else {
      assert TraceOk(traces, k);
      KidIsIn(traces, o, Notified, k + 1, |traces|);
      assert k + 1 in Kids(traces, o, Notified) && k + 1 in s.ctx.ordinals;
      var j :| 0 <= j < |s.ctx.ordinals| && s.ctx.ordinals[j] == k + 1;
      assert ListedAt(s, j);
    }
  }

  /** Before the `i`-th receiver runs, exactly the listed receivers know. */
  lemma KnownIs(s: State, i: nat)
    requires ContextOk(s) && Listed(s) && CreatorsListed(s, i) && i < |s.ctx.ordinals|
    ensures 1 <= s.ctx.ordinals[i] <= |s.trx.traces|
    ensures Known(s.trx.traces, s.ctx.ordinals[i]) == Seen(s.ctx.receivers)
  {
    var traces, x := s.trx.traces, s.ctx.ordinals[i];
    ContextIs(s, i);
    forall a | a in Seen(s.ctx.receivers) ensures a in Known(traces, x) {
      var j :| 0 <= j < |s.ctx.receivers| && s.ctx.receivers[j] == a;
      ReceiverKnows(s, i, j);
      assert ListedAt(s, j);
    }
    forall a | a in Known(traces, x) ensures a in Seen(s.ctx.receivers) {
      var k :| 0 <= k < |traces| && NotifiedBefore(traces, Closest(traces, x), x, k) && traces[k].receiver == a;
      KnowingIsListed(s, x, k);
    }
  }

  lemma KnownStays(a: seq<ActionTrace>, b: seq<ActionTrace>, x: nat)
    requires a <= b && 1 <= x <= |a|
    requires forall k :: |a| <= k < |b| ==> !NotifiedBefore(b, Closest(a, x), x, k)
    ensures Known(b, x) == Known(a, x)
  {
    var o := Closest(a, x);
    assert Closest(b, x) == o;
    forall k | 0 <= k < |a| ensures NotifiedBefore(b, o, x, k) == NotifiedBefore(a, o, x, k) && b[k] == a[k] { }
  }

  lemma {:induction false} CreatedStays(t: Trx, u: Trx, code: Code, m: nat)
    requires t.traces <= u.traces && t.started <= u.started && m <= |t.started|
    requires InRange(|t.traces|, t.started) && InRange(|u.traces|, u.started)
    ensures CreatedBefore(u, code, m) == CreatedBefore(t, code, m)
  {
    if m > 0 {
      CreatedStays(t, u, code, m - 1);
      assert u.started[m - 1] == t.started[m - 1];
    }
  }

  // ----- One execution, in terms of its behaviour -----

  /** What the `i`-th receiver does: the traces it makes, the accounts that exist then, and whether it completes. */
  ghost predicate Ran(world: set<Account>, code: Code, s: State, i: nat, r: State)
    requires Listed(s) && i < |s.ctx.ordinals|
  {
    var current, b := s.ctx.ordinals[i], code(|s.trx.started|);
    var accounts := Accounts(world, s.trx) + if i == 0 then b.creates else {};
    var known := s.ctx.receivers[i] in Accounts(world, s.trx);
    var completes := known && AllPossible(accounts, b.effects) && !b.throws;
    && AddedBy(s.trx.traces, r.trx.traces, current) && r.trx.started == s.trx.started + [current] && Listed(r)
    && s.ctx.ordinals <= r.ctx.ordinals && r.ctx.first == s.ctx.first
    && r.trx.completed == s.trx.completed + (if completes then [current] else [])
    && (r.trx.status == Running <==> completes)
    && (completes ==> r.trx.created == s.trx.created + if i == 0 then b.creates else {})
    && MadeBy(r.trx.traces, current)
       == MadeBy(s.trx.traces, current)
          + if known then Requested(accounts, s.ctx.act, Seen(s.ctx.receivers), b.effects) else []
  }

  lemma StillListed(s: State, r: State)
    requires Listed(s) && r == s.(trx := r.trx) && r.trx.traces == s.trx.traces
    ensures Listed(r)
  {
    forall j | 0 <= j < |r.ctx.ordinals| ensures ListedAt(r, j) { assert ListedAt(s, j); }
  }

  lemma ExecOneRan(world: set<Account>, code: Code, s: State, i: nat)
    requires Ready(s) && Listed(s) && i < |s.ctx.ordinals| && s.trx.status == Running
    ensures Ran(world, code, s, i, ExecOne(world, code, s, i))
  {
    var current, b, r := s.ctx.ordinals[i], code(|s.trx.started|), ExecOne(world, code, s, i);
    if s.ctx.receivers[i] !in Accounts(world, s.trx) {
      StillListed(s, r);
    } else {
      var native := if i == 0 then s.trx.created + b.creates else s.trx.created;
      var u := s.(trx := s.trx.(started := s.trx.started + [current], created := native));
      StillListed(s, u);
      EffectsTell(world, u, current, b.effects);
      assert Accounts(world, u.trx) == Accounts(world, s.trx) + if i == 0 then b.creates else {};
      StillListed(DoEffects(world, u, current, b.effects), r);
    }
  }

  // ----- The explanations grow with the trace -----

  ghost predicate Telling(world: set<Account>, code: Code, roots: seq<Request>, s: State, i: nat) {
    Listed(s) && CreatorsListed(s, i) && Told(world, code, roots, s.trx)
  }

  /** An action that has not run has created nothing. */
  lemma NothingMade(t: Trx, x: nat)
    requires (forall k :: CreatorRan(t, k)) && x != 0 && x !in t.started
    ensures MadeBy(t.traces, x) == []
  {
    forall k | 0 <= k < |t.traces| ensures t.traces[k].creator != x { assert CreatorRan(t, k); }
    NotMade([], t.traces, x);
  }

  /** The execution itself. */
  lemma NewExplained(world: set<Account>, code: Code, roots: seq<Request>, s: State, i: nat, r: State)
    requires Ready(s) && ContextOk(s) && Telling(world, code, roots, s, i) && s.trx.status == Running
    requires i < |s.ctx.ordinals| && s.ctx.ordinals[i] !in s.trx.started && |s.trx.completed| == |s.trx.started|
    requires Ran(world, code, s, i, r) && InRange(|r.trx.traces|, r.trx.started)
    ensures Explained(world, code, r.trx, |s.trx.started|)
    ensures r.trx.status == Running ==> r.trx.created == CreatedBefore(r.trx, code, |r.trx.started|)
  {
    var x, m := s.ctx.ordinals[i], |s.trx.started|;
    ContextIs(s, i);
    KnownIs(s, i);
    assert ListedAt(s, i);
    KnownStays(s.trx.traces, r.trx.traces, x);
    CreatedStays(s.trx, r.trx, code, m);
    NothingMade(s.trx, x);
    assert r.trx.started[m] == x && r.trx.traces[x - 1] == s.trx.traces[x - 1];
  }

  /** An earlier execution of another context, or of an earlier receiver of this one. */
  lemma NoLaterKnowledge(s: State, i: nat, before: seq<nat>, n: nat, base: nat, x: nat)
    requires Notifying(s, i, before, n, base) && i < |s.ctx.ordinals| && x in s.trx.started
    ensures 1 <= x <= |s.trx.traces| && Closest(s.trx.traces, x) <= |s.trx.traces|
    ensures Closest(s.trx.traces, x) == s.ctx.first ==> x < s.ctx.ordinals[i]
  {
    OrdinalsIncrease(s);
    assert TraceOk(s.trx.traces, x - 1);
    if x in before {
      assert x - 1 < n && s.trx.traces[x - 1].ancestor != s.ctx.first;
    }
  }

  lemma KnownSame(a: seq<ActionTrace>, b: seq<ActionTrace>, current: nat, first: nat, x: nat)
    requires AddedBy(a, b, current) && AddedBelow(a, b, first) && first <= |a| && 1 <= x <= |a| && x != current
    requires Closest(a, x) <= |a| && (Closest(a, x) == first ==> x < current)
    ensures MadeBy(b, x) == MadeBy(a, x) && Known(b, x) == Known(a, x)
  {
    NotMade(a, b, x);
    KnownStays(a, b, x);
  }

  lemma SameExplained(world: set<Account>, code: Code, t: Trx, u: Trx, m: nat)
    requires m < |t.started| == |t.completed| && InRange(|t.traces|, t.started) && InRange(|u.traces|, u.started)
    requires t.traces <= u.traces && t.started <= u.started && t.completed <= u.completed
    requires var x := t.started[m];
             MadeBy(u.traces, x) == MadeBy(t.traces, x) && Known(u.traces, x) == Known(t.traces, x)
    requires Explained(world, code, t, m)
    ensures Explained(world, code, u, m)
  {
    var x := t.started[m];
    CreatedStays(t, u, code, m);
    assert u.started[m] == x && u.traces[x - 1] == t.traces[x - 1];
  }

  lemma OldExplained(world: set<Account>, code: Code, t: Trx, u: Trx, current: nat, first: nat, m: nat)
    requires m < |t.started| == |t.completed| && InRange(|t.traces|, t.started) && InRange(|u.traces|, u.started)
    requires AddedBy(t.traces, u.traces, current) && t.started <= u.started && t.completed <= u.completed
    requires AddedBelow(t.traces, u.traces, first) && first <= |t.traces|
    requires var x := t.started[m];
             && x != current && Closest(t.traces, x) <= |t.traces| && (Closest(t.traces, x) == first ==> x < current)
    requires Explained(world, code, t, m)
    ensures Explained(world, code, u, m)
  {
    KnownSame(t.traces, u.traces, current, first, t.started[m]);
    SameExplained(world, code, t, u, m);
  }

  lemma RootsRemain(s: State, i: nat, r: State)
    requires InRange(|s.trx.traces|, s.ctx.ordinals) && i < |s.ctx.ordinals| && forall k :: CreatorRan(s.trx, k)
    requires AddedBy(s.trx.traces, r.trx.traces, s.ctx.ordinals[i])
             && r.trx.started == s.trx.started + [s.ctx.ordinals[i]]
    ensures MadeBy(r.trx.traces, 0) == MadeBy(s.trx.traces, 0) && forall k :: CreatorRan(r.trx, k)
  {
    NotMade(s.trx.traces, r.trx.traces, 0);
    forall k ensures CreatorRan(r.trx, k) { assert CreatorRan(s.trx, k); }
  }

  lemma StillCreatorsListed(s: State, i: nat, r: State)
    requires CreatorsListed(s, i) && i < |s.ctx.ordinals| && s.ctx.ordinals <= r.ctx.ordinals
             && r.ctx.first == s.ctx.first
    requires AddedBy(s.trx.traces, r.trx.traces, s.ctx.ordinals[i])
    ensures CreatorsListed(r, i + 1)
  {
    var j := i + 1;
    assert r.ctx.ordinals[..j] == s.ctx.ordinals[..i] + [s.ctx.ordinals[i]];
    forall k ensures CreatorListed(r, j, k) { assert CreatorListed(s, i, k); }
  }

  lemma StillExplained(world: set<Account>, code: Code, s: State, i: nat, before: seq<nat>, n: nat, base: nat, r: State,
                       m: int)
    requires Notifying(s, i, before, n, base) && i < |s.ctx.ordinals| && s.trx.status == Running && Listed(s)
    requires s.ctx.ordinals[i] !in s.trx.started && (forall j :: Explained(world, code, s.trx, j))
    requires Ran(world, code, s, i, r) && AddedBelow(s.trx.traces, r.trx.traces, s.ctx.first)
    requires InRange(|r.trx.traces|, r.trx.started) && m < |s.trx.started|
    ensures Explained(world, code, r.trx, m)
  {
    if 0 <= m {
      assert Explained(world, code, s.trx, m) && s.trx.started[m] in s.trx.started;
      NoLaterKnowledge(s, i, before, n, base, s.trx.started[m]);
      OldExplained(world, code, s.trx, r.trx, s.ctx.ordinals[i], s.ctx.first, m);
    }
  }

  lemma OneTold(world: set<Account>, code: Code, roots: seq<Request>, s: State, i: nat, before: seq<nat>, n: nat,
                base: nat, r: State)
    requires Notifying(s, i, before, n, base) && i < |s.ctx.ordinals| && s.trx.status == Running
    requires Telling(world, code, roots, s, i) && r == ExecOne(world, code, s, i)
    ensures Telling(world, code, roots, r, i + 1)
  {
    OneNotified(world, code, s, i, before, n, base);
    ExecOneRan(world, code, s, i);
    OrdinalIsFresh(s, i, before, n);
    NewExplained(world, code, roots, s, i, r);
    forall m | m != |s.trx.started| ensures Explained(world, code, r.trx, m) {
      if m < |s.trx.started| { StillExplained(world, code, s, i, before, n, base, r, m); }
    }
    StillCreatorsListed(s, i, r);
    RootsRemain(s, i, r);
  }

  lemma {:induction false} NotifiedTold(world: set<Account>, code: Code, roots: seq<Request>, s: State, i: nat,
                                        before: seq<nat>, n: nat, base: nat)
    requires Notifying(s, i, before, n, base) && s.trx.status == Running && AllExist(world, s, i)
    requires Telling(world, code, roots, s, i)
    ensures Told(world, code, roots, RunNotified(world, code, s, i).trx)
    decreases i == 0, Accounts(world, s.trx) - Seen(s.ctx.receivers[..i])
  {
    if i < |s.ctx.ordinals| {
      var r := ExecOne(world, code, s, i);
      OneTold(world, code, roots, s, i, before, n, base, r);
      OneNotified(world, code, s, i, before, n, base);
      if r.trx.status == Running {
        FewerLeft(world, code, s, i);
        NotifiedTold(world, code, roots, r, i + 1, before, n, base);
      }
    }
  }

  // ----- Nesting -----

  /** How many inline actions led to the unnotified action `x`. */
  function Level(traces: seq<ActionTrace>, x: nat): nat {
    if x == 0 || |traces| < x || x <= traces[x - 1].ancestor || traces[x - 1].ancestor == 0 then 0
    else Level(traces, traces[x - 1].ancestor) + 1
  }

  lemma {:induction false} LevelStays(a: seq<ActionTrace>, b: seq<ActionTrace>, x: nat)
    requires a <= b && x <= |a|
    ensures Level(b, x) == Level(a, x)
  {
    if x != 0 && 0 < a[x - 1].ancestor < x { LevelStays(a, b, a[x - 1].ancestor); }
  }

  ghost predicate LevelOk(env: Env, t: Trx, j: int)
    requires InRange(|t.traces|, t.started)
  {
    0 <= j < |t.started| ==> Level(t.traces, Closest(t.traces, t.started[j])) <= env.maxDepth
  }

  ghost predicate NestedTooDeep(env: Env, t: Trx, x: nat) {
    1 <= x <= |t.traces| && KindOf(t.traces[x - 1]) != Notified && Level(t.traces, x) == env.maxDepth + 1
  }

  /** Nothing runs beyond the limit, and a run is stopped by it only if something was nested too deep. */
  ghost predicate WithinDepth(env: Env, t: Trx) {
    && InRange(|t.traces|, t.started) && (forall j :: LevelOk(env, t, j))
    && (t.status == DepthReached ==> exists x :: NestedTooDeep(env, t, x))
  }

  lemma LevelOkStays(env: Env, t: Trx, u: Trx, j: int)
    requires InRange(|t.traces|, t.started) && InRange(|u.traces|, u.started) && LevelOk(env, t, j) && j < |t.started|
    requires t.traces <= u.traces && t.started <= u.started && WellTraced(t.traces)
    ensures LevelOk(env, u, j)
  {
    if 0 <= j {
      var x := t.started[j];
      assert u.started[j] == x && TraceOk(t.traces, x - 1);
      LevelStays(t.traces, u.traces, Closest(t.traces, x));
    }
  }

  /** The notification loop runs everything at the level of its action. */
  lemma NotifiedLevels(env: Env, t: Trx, o: nat, s: State, base: nat)
    requires WithinDepth(env, t) && t.status == Running && WellTraced(t.traces) && 1 <= o <= |t.traces|
    requires Level(t.traces, o) <= env.maxDepth && Notifies(StartContext(t, o), s, t.started, base)
    ensures WithinDepth(env, s.trx)
  {
    var j :| 0 <= j <= |s.ctx.ordinals| && s.trx.started == t.started + s.ctx.ordinals[..j];
    LevelStays(t.traces, s.trx.traces, o);
    forall i ensures LevelOk(env, s.trx, i) {
      if i < |t.started| {
        assert LevelOk(env, t, i);
        LevelOkStays(env, t, s.trx, i);
      } else if i < |s.trx.started| {
        assert s.trx.started[i] == s.ctx.ordinals[i - |t.started|];
        ContextIs(s, i - |t.started|);
      }
    }
  }

  ghost predicate AllAt(traces: seq<ActionTrace>, xs: seq<nat>, level: nat) {
    forall k :: LevelAt(traces, xs, k, level)
  }

  ghost predicate LevelAt(traces: seq<ActionTrace>, xs: seq<nat>, k: int, level: nat) {
    0 <= k < |xs| ==> 1 <= xs[k] <= |traces| && Level(traces, xs[k]) == level
  }

  lemma SentLevels(s: State)
    requires ContextOk(s)
    ensures AllAt(s.trx.traces, SentBy(s), Level(s.trx.traces, s.ctx.first) + 1)
    ensures forall k :: 0 <= k < |SentBy(s)| ==>
              1 <= SentBy(s)[k] <= |s.trx.traces| && KindOf(s.trx.traces[SentBy(s)[k] - 1]) != Notified
  {
    var traces, o, xs := s.trx.traces, s.ctx.first, SentBy(s);
    KidsAre(traces, o, ContextFreeSent, |traces|);
    KidsAre(traces, o, Sent, |traces|);
    var level := Level(traces, o) + 1;
    forall k ensures LevelAt(traces, xs, k, level)
      ensures 0 <= k < |xs| ==> 1 <= xs[k] <= |traces| && KindOf(traces[xs[k] - 1]) != Notified
    {
      if 0 <= k < |xs| {
        var c := s.ctx.contextFreeInlines;
        assert if k < |c| then xs[k] == c[k] else xs[k] == s.ctx.inlines[k - |c|];
        assert IsKid(traces, o, if k < |c| then ContextFreeSent else Sent, xs[k]);
        assert TraceOk(traces, xs[k] - 1);
      }
    }
  }

  lemma RestLevels(a: seq<ActionTrace>, b: seq<ActionTrace>, xs: seq<nat>, level: nat)
    requires a <= b && xs != [] && AllAt(a, xs, level)
    ensures AllAt(b, xs[1..], level)
  {
    forall k ensures LevelAt(b, xs[1..], k, level) {
      if 0 <= k < |xs| - 1 {
        assert LevelAt(a, xs, k + 1, level);
        LevelStays(a, b, xs[k + 1]);
      }
    }
  }

  // ----- Whole transactions -----

  ghost predicate Honoured(env: Env, code: Code, roots: seq<Request>, t: Trx) {
    Told(env.accounts, code, roots, t) && WithinDepth(env, t)
  }

  lemma StartsTelling(world: set<Account>, code: Code, roots: seq<Request>, t: Trx, o: nat)
    requires Told(world, code, roots, t) && Startable(t, o)
    ensures Telling(world, code, roots, StartContext(t, o), 0)
  {
    var s := StartContext(t, o);
    assert ListedAt(s, 0);
    forall k ensures CreatorListed(s, 0, k) { }
  }

  lemma NotifiedHonoured(env: Env, code: Code, roots: seq<Request>, t: Trx, o: nat, base: nat, s: State)
    requires t.status == Running && Startable(t, o) && WellTraced(t.traces) && Books(t, base)
    requires Honoured(env, code, roots, t) && Level(t.traces, o) <= env.maxDepth
    requires s == RunNotified(env.accounts, code, StartContext(t, o), 0)
    ensures Honoured(env, code, roots, s.trx)
  {
    StartsNotifying(t, o, base);
    StartsTelling(env.accounts, code, roots, t, o);
    NotifiedTold(env.accounts, code, roots, StartContext(t, o), 0, t.started, |t.traces|, base);
    NotifiedRun(env.accounts, code, StartContext(t, o), 0, t.started, |t.traces|, base);
    NotifiedLevels(env, t, o, s, base);
  }

  lemma StoppedHonoured(env: Env, code: Code, roots: seq<Request>, s: State, r: Trx)
    requires Honoured(env, code, roots, s.trx) && ContextOk(s) && s.trx.status == Running
             && r == s.trx.(status := DepthReached)
    requires SentBy(s) != [] && Level(s.trx.traces, s.ctx.first) == env.maxDepth
    ensures Honoured(env, code, roots, r)
  {
    SentLevels(s);
    assert LevelAt(s.trx.traces, SentBy(s), 0, env.maxDepth + 1);
    assert NestedTooDeep(env, r, SentBy(s)[0]);
    forall m ensures Explained(env.accounts, code, r, m) {
      assert Explained(env.accounts, code, s.trx, m);
      if 0 <= m < |r.started| { CreatedStays(s.trx, r, code, m); }
    }
    forall k ensures CreatorRan(r, k) { assert CreatorRan(s.trx, k); }
    forall j ensures LevelOk(env, r, j) { assert LevelOk(env, s.trx, j); }
  }

  lemma {:induction false} ActionHonoured(env: Env, code: Code, roots: seq<Request>, t: Trx, o: nat, depth: nat,
                                          base: nat, r: Trx)
    requires depth <= env.maxDepth && t.status == Running && Startable(t, o) && WellTraced(t.traces) && Books(t, base)
    requires Honoured(env, code, roots, t) && Level(t.traces, o) == depth
    requires r == ExecuteAction(env, code, t, o, depth)
    ensures Honoured(env, code, roots, r)
    decreases env.maxDepth - depth, 1
  {
    var s := RunNotified(env.accounts, code, StartContext(t, o), 0);
    NotifiedSound(env, code, t, o, base, s);
    NotifiedHonoured(env, code, roots, t, o, base, s);
    LevelStays(t.traces, s.trx.traces, o);
    if s.trx.status != Running || SentBy(s) == [] {
      assert r == s.trx;
    } else if env.maxDepth <= depth {
      StoppedHonoured(env, code, roots, s, r);
    } else {
      SentHonoured(env, code, roots, t, s, o, depth, base, r);
    }
  }

  lemma {:induction false} SentHonoured(env: Env, code: Code, roots: seq<Request>, t: Trx, s: State, o: nat, depth: nat,
                                        base: nat, r: Trx)
    requires depth < env.maxDepth && AfterNotified(t, s, o, base) && s.trx.status == Running && Ready(s)
    requires Honoured(env, code, roots, s.trx) && Level(s.trx.traces, o) == depth
    requires r == RunActions(env, code, s.trx, SentBy(s), depth + 1)
    ensures Honoured(env, code, roots, r)
    decreases env.maxDepth - depth, 0
  {
    SentLevels(s);
    ActionsHonoured(env, code, roots, s.trx, SentBy(s), o, depth + 1, base, r);
  }

  lemma {:induction false} ActionsHonoured(env: Env, code: Code, roots: seq<Request>, t: Trx, xs: seq<nat>, p: nat,
                                           depth: nat, base: nat, r: Trx)
    requires depth <= env.maxDepth && t.status == Running && AllStartable(t, xs) && NoRepeats(xs)
             && InRange(|t.traces|, xs)
    requires WellTraced(t.traces) && Books(t, base) && p <= |t.traces| && Within(xs, p, |t.traces|)
    requires Honoured(env, code, roots, t) && AllAt(t.traces, xs, depth)
    requires r == RunActions(env, code, t, xs, depth)
    ensures Honoured(env, code, roots, r)
    decreases env.maxDepth - depth, |xs| + 2
  {
    if xs != [] {
      var u := ExecuteAction(env, code, t, xs[0], depth);
      assert StartableAt(t, xs, 0) && LevelAt(t.traces, xs, 0, depth);
      ActionRun(env, code, t, xs[0], depth, base, u);
      ActionHonoured(env, code, roots, t, xs[0], depth, base, u);
      if u.status == Running {
        RestStartable(t, u, xs);
        RestLevels(t.traces, u.traces, xs, depth);
        ActionsHonoured(env, code, roots, u, xs[1..], p, depth, base, r);
      } else {
        assert r == u;
      }
    }
  }

  /** The requests that are the actions of the transaction itself. */
  function Sends(acts: seq<Action>, contextFree: bool): seq<Request> {
    if acts == [] then [] else [Request(acts[0].account, acts[0], contextFree)] + Sends(acts[1..], contextFree)
  }

  lemma {:induction false} ScheduleAllMakes(t: Trx, acts: seq<Action>, contextFree: bool)
    ensures var r := ScheduleAll(t, acts, contextFree);
            && MadeBy(r.traces, 0) == MadeBy(t.traces, 0) + Sends(acts, contextFree)
            && ((forall k :: CreatorRan(t, k)) ==> forall k :: CreatorRan(r, k)) && r == t.(traces := r.traces)
    decreases |acts|
  {
    if acts != [] {
      var u := Schedule(t, acts[0], acts[0].account, contextFree, 0, 0);
      MadeByAppend(t.traces, u.traces[|t.traces|], 0);
      if forall k :: CreatorRan(t, k) {
        forall k ensures CreatorRan(u, k) { assert CreatorRan(t, k); }
      }
      ScheduleAllMakes(u, acts[1..], contextFree);
      Join(MadeBy(t.traces, 0), [Request(acts[0].account, acts[0], contextFree)], Sends(acts[1..], contextFree));
    }
  }

  lemma NothingRan(env: Env, code: Code, t: Trx)
    requires t.started == [] && t.status == Running && t.created == {}
    ensures (forall m :: Explained(env.accounts, code, t, m)) && WithinDepth(env, t)
    ensures t.created == CreatedBefore(t, code, 0)
  {
    forall m ensures Explained(env.accounts, code, t, m) { }
    forall j ensures LevelOk(env, t, j) { }
  }

  lemma RootLevels(t: Trx)
    requires forall k :: 0 <= k < |t.traces| ==> t.traces[k].ancestor == 0
    ensures AllAt(t.traces, Ordinals(|t.traces|), 0)
  {
    forall k ensures LevelAt(t.traces, Ordinals(|t.traces|), k, 0) { }
  }

  lemma BeginHonoured(env: Env, code: Code, contextFree: seq<Action>, acts: seq<Action>, sequence: nat)
    ensures Honoured(env, code, Sends(contextFree, true) + Sends(acts, false), Begin(contextFree, acts, sequence))
    ensures var t := Begin(contextFree, acts, sequence); AllAt(t.traces, Ordinals(|t.traces|), 0)
  {
    var e := Trx([], map[], {}, [], [], sequence, {}, Running);
    forall k ensures CreatorRan(e, k) { }
    ScheduleAllMakes(e, contextFree, true);
    ScheduleAllMakes(ScheduleAll(e, contextFree, true), acts, false);
    BeginIs(contextFree, acts, sequence);
    NothingRan(env, code, Begin(contextFree, acts, sequence));
    RootLevels(Begin(contextFree, acts, sequence));
  }

  /** Every run of a transaction: the actions it starts with are those of the transaction, in order, and each
      execution leaves exactly the traces that its code asked for, in the order it asked, up to the first impossible
      request; it completes if and only if there is none, its receiver exists and its code does not throw. */
  lemma RequestsHonoured(env: Env, code: Code, contextFree: seq<Action>, acts: seq<Action>, sequence: nat)
    ensures var r := RunTransaction(env, code, contextFree, acts, sequence);
            && InRange(|r.traces|, r.started)
            && MadeBy(r.traces, 0) == Sends(contextFree, true) + Sends(acts, false)
            && (forall m :: Explained(env.accounts, code, r, m))
            && (forall k :: CreatorRan(r, k))
  {
    RunHonoured(env, code, contextFree, acts, sequence);
  }

  lemma RunHonoured(env: Env, code: Code, contextFree: seq<Action>, acts: seq<Action>, sequence: nat)
    ensures Honoured(env, code, Sends(contextFree, true) + Sends(acts, false),
                     RunTransaction(env, code, contextFree, acts, sequence))
  {
    var t, roots := Begin(contextFree, acts, sequence), Sends(contextFree, true) + Sends(acts, false);
    BeginIs(contextFree, acts, sequence);
    BeginHonoured(env, code, contextFree, acts, sequence);
    RootsStartable(t);
    ActionsHonoured(env, code, roots, t, Ordinals(|t.traces|), 0, 0, sequence,
                    RunTransaction(env, code, contextFree, acts, sequence));
  }

  /** No action runs nested deeper than the limit, and unless something throws, the run is stopped by the limit if
      and only if an inline action is nested deeper than that. */
  lemma DepthIff(env: Env, code: Code, contextFree: seq<Action>, acts: seq<Action>, sequence: nat)
    ensures var r := RunTransaction(env, code, contextFree, acts, sequence);
            && WithinDepth(env, r)
            && (!r.status.Threw? ==> (r.status == DepthReached <==> exists x :: NestedTooDeep(env, r, x)))
  {
    var r := RunTransaction(env, code, contextFree, acts, sequence);
    RunHonoured(env, code, contextFree, acts, sequence);
    if r.status == Running {
      TransactionRun(env, code, contextFree, acts, sequence);
      forall x ensures !NestedTooDeep(env, r, x) { RanWithinDepth(env, r, x); }
    }
  }

  lemma RanWithinDepth(env: Env, r: Trx, x: nat)
    requires WithinDepth(env, r) && (1 <= x <= |r.traces| ==> x in r.started)
    ensures !NestedTooDeep(env, r, x)
  {
    if 1 <= x <= |r.traces| {
      var j :| 0 <= j < |r.started| && r.started[j] == x;
      assert LevelOk(env, r, j);
    }
  }
}
