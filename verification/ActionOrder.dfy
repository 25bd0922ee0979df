/** The order in which a transaction's actions run, read off its trace. */
module ActionOrder {
  import opened ActionScheduler

  datatype Kind = Notified | ContextFreeSent | Sent

  /** A notification carries another account's action. */
  function KindOf(a: ActionTrace): Kind {
    if a.receiver != a.act.account then Notified else if a.contextFree then ContextFreeSent else Sent
  }

  /** The ordinals up to `n` of one kind whose closest unnotified ancestor is `o`, in ordinal order. */
  function KidsUpTo(traces: seq<ActionTrace>, o: nat, kind: Kind, n: nat): (r: seq<nat>)
    requires n <= |traces|
    ensures forall k :: 0 <= k < |r| ==> o < r[k] <= n
  {
    if n <= o then []
    else KidsUpTo(traces, o, kind, n - 1) + if traces[n - 1].ancestor == o && KindOf(traces[n - 1]) == kind then [n]
         else []
  }

  function Kids(traces: seq<ActionTrace>, o: nat, kind: Kind): (r: seq<nat>)
    ensures forall k :: 0 <= k < |r| ==> o < r[k] <= |traces|
  {
    KidsUpTo(traces, o, kind, |traces|)
  }

  /** The inline actions below `o`, context-free ones first. */
  function SentKids(traces: seq<ActionTrace>, o: nat): (r: seq<nat>)
    ensures forall k :: 0 <= k < |r| ==> o < r[k] <= |traces|
  {
    Kids(traces, o, ContextFreeSent) + Kids(traces, o, Sent)
  }

  /** The recursive order: an action, its notifications in the order they were made, then each inline
      action sent by any of them with everything that follows from it, context-free ones first. */
  function Order(traces: seq<ActionTrace>, o: nat): seq<nat>
    requires o <= |traces|
    decreases |traces| - o, 1, 0
  {
    [o] + Kids(traces, o, Notified) + Orders(traces, o, SentKids(traces, o))
  }

  function Orders(traces: seq<ActionTrace>, o: nat, xs: seq<nat>): seq<nat>
    requires o <= |traces| && forall k :: 0 <= k < |xs| ==> o < xs[k] <= |traces|
    decreases |traces| - o, 0, |xs|
  {
    if xs == [] then [] else Order(traces, xs[0]) + Orders(traces, o, xs[1..])
  }

  // ----- Adding traces -----

  lemma {:induction false} KidsUpToSame(a: seq<ActionTrace>, b: seq<ActionTrace>, o: nat, kind: Kind, n: nat)
    requires n <= |a| && a <= b
    ensures KidsUpTo(b, o, kind, n) == KidsUpTo(a, o, kind, n)
  {
    if o < n { KidsUpToSame(a, b, o, kind, n - 1); }
  }

  lemma {:induction false} KidsUpToNone(b: seq<ActionTrace>, o: nat, kind: Kind, m: nat, n: nat)
    requires m <= n <= |b| && forall k :: m <= k < n ==> b[k].ancestor != o
    ensures KidsUpTo(b, o, kind, n) == KidsUpTo(b, o, kind, m)
    decreases n
  {
    if m < n { KidsUpToNone(b, o, kind, m, n - 1); }
  }

  lemma KidsAppend(a: seq<ActionTrace>, t: ActionTrace, o: nat, kind: Kind)
    requires o <= |a|
    ensures Kids(a + [t], o, kind) == Kids(a, o, kind) + if t.ancestor == o && KindOf(t) == kind then [|a| + 1] else []
  {
    KidsUpToSame(a, a + [t], o, kind, |a|);
  }

  ghost predicate NoneFrom(b: seq<ActionTrace>, m: nat, o: nat) {
    forall k :: m <= k < |b| ==> b[k].ancestor != o
  }

  lemma KidsSame(a: seq<ActionTrace>, b: seq<ActionTrace>, o: nat, kind: Kind)
    requires a <= b && NoneFrom(b, |a|, o)
    ensures Kids(b, o, kind) == Kids(a, o, kind)
  {
    KidsUpToNone(b, o, kind, |a|, |b|);
    KidsUpToSame(a, b, o, kind, |a|);
  }

  lemma Childless(a: seq<ActionTrace>, o: nat, kind: Kind)
    requires NoneFrom(a, 0, o)
    ensures Kids(a, o, kind) == []
  {
    KidsUpToNone(a, o, kind, 0, |a|);
  }

  /** The traces of `b` beyond those of `a` hang neither below `o` nor below anything numbered above `n` in `a`. */
  ghost predicate Outside(a: seq<ActionTrace>, b: seq<ActionTrace>, n: nat, o: nat) {
    forall k :: |a| <= k < |b| ==> b[k].ancestor != o && (b[k].ancestor <= n || |a| < b[k].ancestor)
  }

  lemma {:induction false} KidsBeyond(a: seq<ActionTrace>, o: nat, kind: Kind, n: nat, m: nat)
    requires m <= |a| && (n < o || forall k :: 0 <= k < n && k < |a| ==> a[k].ancestor != o)
    ensures forall k :: 0 <= k < |KidsUpTo(a, o, kind, m)| ==> n < KidsUpTo(a, o, kind, m)[k]
  {
    if o < m { KidsBeyond(a, o, kind, n, m - 1); }
  }

  /** Then the order below `o` does not change. */
  lemma {:induction false} OrderStable(a: seq<ActionTrace>, b: seq<ActionTrace>, n: nat, o: nat)
    requires a <= b && o <= |a| && Outside(a, b, n, o)
    requires n < o || forall k :: 0 <= k < n && k < |a| ==> a[k].ancestor != o
    ensures Order(b, o) == Order(a, o)
    decreases |a| - o, 1, 0
  {
    KidsSame(a, b, o, Notified);
    KidsSame(a, b, o, ContextFreeSent);
    KidsSame(a, b, o, Sent);
    KidsBeyond(a, o, ContextFreeSent, n, |a|);
    KidsBeyond(a, o, Sent, n, |a|);
    OrdersStable(a, b, n, o, SentKids(a, o));
  }

  lemma {:induction false} OrdersStable(a: seq<ActionTrace>, b: seq<ActionTrace>, n: nat, o: nat, xs: seq<nat>)
    requires a <= b && o <= |a| && Outside(a, b, n, o)
    requires forall k :: 0 <= k < |xs| ==> o < xs[k] <= |a| && n < xs[k]
    ensures Orders(b, o, xs) == Orders(a, o, xs)
    decreases |a| - o, 0, |xs|
  {
    if xs != [] {
      OrderStable(a, b, n, xs[0]);
      OrdersStable(a, b, n, o, xs[1..]);
    }
  }
}
