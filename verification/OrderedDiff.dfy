/** Differences between two sequences, used to publish a changed finalizer policy. */
module OrderedDiff {
  import opened Wrappers

  datatype Insertion<T> = Insertion(index: nat, value: T)

  datatype Diff<T> = Diff(removals: seq<nat>, insertions: seq<Insertion<T>>)

  // ----- Applying a difference; `None` is a failed assertion -----

  /** Removes the elements at the given indices, which have to increase, one after the other. */
  function RemoveAll<T>(s: seq<T>, removals: seq<nat>): Option<seq<T>> {
    if removals == [] then Some(s)
    else
      var n := |removals| - 1;
      var before := RemoveAll(s, removals[..n]);
      if before.None? || (n > 0 && removals[n] <= removals[n - 1]) then None
      else if removals[n] < n || |before.value| <= removals[n] - n then None
      else
        var i := removals[n] - n;
        Some(before.value[..i] + before.value[i + 1..])
  }

  /** Inserts the values at the given indices, which have to increase, one after the other. */
  function InsertAll<T>(s: seq<T>, insertions: seq<Insertion<T>>): Option<seq<T>> {
    if insertions == [] then Some(s)
    else
      var n := |insertions| - 1;
      var before := InsertAll(s, insertions[..n]);
      if before.None? || (n > 0 && insertions[n].index <= insertions[n - 1].index)
         || |before.value| < insertions[n].index then None
      else
        var i := insertions[n].index;
        Some(before.value[..i] + [insertions[n].value] + before.value[i..])
  }

  function ApplyDiff<T>(s: seq<T>, d: Diff<T>): Option<seq<T>> {
    var kept := RemoveAll(s, d.removals);
    if kept.None? then None else InsertAll(kept.value, d.insertions)
  }

  method Apply<T>(container: seq<T>, diff: Diff<T>) returns (r: Option<seq<T>>)
    ensures r == ApplyDiff(container, diff)
  {
    var c := container;
    var i := 0;
    while i < |diff.removals|
      invariant 0 <= i <= |diff.removals| && RemoveAll(container, diff.removals[..i]) == Some(c)
    {
      assert diff.removals[..i + 1][..i] == diff.removals[..i];
      if (i > 0 && diff.removals[i] <= diff.removals[i - 1]) || diff.removals[i] < i || |c| <= diff.removals[i] - i {
        RemoveStops(container, diff.removals, i + 1);
        return None;
      }
      var k := diff.removals[i] - i;
      c := c[..k] + c[k + 1..];
      i := i + 1;
    }
    assert diff.removals[..i] == diff.removals;
    var kept := c;
    i := 0;
    while i < |diff.insertions|
      invariant 0 <= i <= |diff.insertions| && InsertAll(kept, diff.insertions[..i]) == Some(c)
    {
      assert diff.insertions[..i + 1][..i] == diff.insertions[..i];
      var next := diff.insertions[i];
      if (i > 0 && next.index <= diff.insertions[i - 1].index) || |c| < next.index {
        InsertStops(kept, diff.insertions, i + 1);
        return None;
      }
      c := c[..next.index] + [next.value] + c[next.index..];
      i := i + 1;
    }
    assert diff.insertions[..i] == diff.insertions;
    return Some(c);
  }

  lemma {:induction false} RemoveStops<T>(s: seq<T>, removals: seq<nat>, i: nat)
    requires i <= |removals| && RemoveAll(s, removals[..i]).None?
    ensures RemoveAll(s, removals).None?
    decreases |removals|
  {
    if i == |removals| {
      assert removals[..i] == removals;
    } else {
      assert removals[..|removals| - 1][..i] == removals[..i];
      RemoveStops(s, removals[..|removals| - 1], i);
    }
  }

  lemma {:induction false} InsertStops<T>(s: seq<T>, insertions: seq<Insertion<T>>, i: nat)
    requires i <= |insertions| && InsertAll(s, insertions[..i]).None?
    ensures InsertAll(s, insertions).None?
    decreases |insertions|
  {
    if i == |insertions| {
      assert insertions[..i] == insertions;
    } else {
      assert insertions[..|insertions| - 1][..i] == insertions[..i];
      InsertStops(s, insertions[..|insertions| - 1], i);
    }
  }

  // ----- What applying a difference means -----

  ghost predicate Increasing(xs: seq<nat>) { forall i, j :: 0 <= i < j < |xs| ==> xs[i] < xs[j] }

  ghost predicate Below(xs: seq<nat>, n: nat) { forall i :: 0 <= i < |xs| ==> xs[i] < n }

  function Positions(xs: seq<nat>): set<nat> { set x | x in xs }

  /** The elements of `s` at the positions that are not in `p`. */
  function Without<T>(s: seq<T>, p: set<nat>): seq<T> {
    if s == [] then []
    else
      var n := |s| - 1;
      Without(s[..n], p) + if n in p then [] else [s[n]]
  }

  /** Positions beyond the end of a sequence do not matter. */
  lemma {:induction false} WithoutBeyond<T>(s: seq<T>, p: set<nat>, q: set<nat>)
    requires forall x :: x in p + q && x < |s| ==> x in p * q
    ensures Without(s, p) == Without(s, q)
  {
    if s != [] { WithoutBeyond(s[..|s| - 1], p, q); }
  }

  lemma {:induction false} WithoutTail<T>(s: seq<T>, p: set<nat>, tail: seq<T>)
    requires forall x :: x in p ==> x < |s|
    ensures Without(s + tail, p) == Without(s, p) + tail
    decreases |tail|
  {
    if tail == [] {
      assert s + tail == s;
    } else {
      var n := |tail| - 1;
      assert (s + tail)[..|s| + n] == s + tail[..n] && (s + tail)[|s| + n] == tail[n];
      WithoutTail(s, p, tail[..n]);
      assert Without(s, p) + tail == (Without(s, p) + tail[..n]) + [tail[n]];
    }
  }

  /** With a further position after all others, the element there is gone. */
  lemma WithoutAt<T>(s: seq<T>, p: set<nat>, x: nat)
    requires x < |s| && forall y :: y in p ==> y < x
    ensures Without(s, p) == Without(s[..x], p) + s[x..]
    ensures Without(s, p + {x}) == Without(s[..x], p) + s[x + 1..]
  {
    var upTo := s[..x] + [s[x]];
    assert s == s[..x] + s[x..] && s == upTo + s[x + 1..] && upTo[..x] == s[..x];
    WithoutTail(s[..x], p, s[x..]);
    WithoutTail(upTo, p + {x}, s[x + 1..]);
    WithoutBeyond(s[..x], p + {x}, p);
  }

  lemma Last(xs: seq<nat>)
    requires xs != []
    ensures var n := |xs| - 1;
            && Positions(xs) == Positions(xs[..n]) + {xs[n]}
            && (Increasing(xs) <==> Increasing(xs[..n]) && Below(xs[..n], xs[n]))
            && (Increasing(xs[..n]) ==> (Below(xs[..n], xs[n]) <==> n == 0 || xs[n - 1] < xs[n]))
  {
    assert xs == xs[..|xs| - 1] + [xs[|xs| - 1]];
  }

  lemma WithoutNothing<T>(s: seq<T>, xs: seq<nat>)
    requires xs == []
    ensures Without(s, Positions(xs)) == s
  {
    var none: seq<T> := [];
    assert Positions(xs) == {} && none + s == s;
    WithoutTail(none, {}, s);
  }

  lemma {:induction false} WithoutLength<T>(s: seq<T>, xs: seq<nat>)
    requires Increasing(xs) && Below(xs, |s|)
    ensures |Without(s, Positions(xs))| == |s| - |xs|
    decreases |xs|
  {
    if xs == [] {
      WithoutNothing(s, xs);
    } else {
      var n := |xs| - 1;
      Last(xs);
      WithoutAt(s, Positions(xs[..n]), xs[n]);
      WithoutLength(s[..xs[n]], xs[..n]);
    }
  }

  /** Removing is defined exactly for increasing positions in the sequence, and leaves the other elements. */
  lemma {:induction false} RemoveIff<T>(s: seq<T>, removals: seq<nat>)
    ensures RemoveAll(s, removals)
            == if Increasing(removals) && Below(removals, |s|) then Some(Without(s, Positions(removals))) else None
    decreases |removals|
  {
    if removals == [] {
      WithoutNothing(s, removals);
    } else {
      var n := |removals| - 1;
      RemoveIff(s, removals[..n]);
      Last(removals);
      if Increasing(removals) && Below(removals[..n], |s|) {
        RemoveLast(s, removals[..n], removals[n]);
        assert Below(removals, |s|) <==> removals[n] < |s|;
      } else {
        assert Below(removals, |s|) ==> Below(removals[..n], |s|);
      }
    }
  }

  lemma RemoveLast<T>(s: seq<T>, before: seq<nat>, x: nat)
    requires Increasing(before) && Below(before, x) && Below(before, |s|)
    ensures var kept, n := Without(s, Positions(before)), |before|;
            && |kept| == |s| - n && (x < |s| ==> n <= x)
            && (x < |s| ==> kept[..x - n] + kept[x - n + 1..] == Without(s, Positions(before) + {x}))
  {
    WithoutLength(s, before);
    if x < |s| {
      WithoutLength(s[..x], before);
      WithoutAt(s, Positions(before), x);
    }
  }

  function Indices<T>(insertions: seq<Insertion<T>>): (r: seq<nat>)
    ensures |r| == |insertions| && forall i :: 0 <= i < |r| ==> r[i] == insertions[i].index
  {
    seq(|insertions|, i requires 0 <= i < |insertions| => insertions[i].index)
  }

  /** Every insertion is at most at the end of what there is then. */
  ghost predicate Reachable<T>(insertions: seq<Insertion<T>>, n: nat) {
    forall i :: 0 <= i < |insertions| ==> insertions[i].index <= n + i
  }

  ghost predicate ValueAt<T>(r: seq<T>, x: Insertion<T>) { x.index < |r| && r[x.index] == x.value }

  /** `r` has the values at their indices, and `s` at the other positions. */
  ghost predicate Filled<T>(s: seq<T>, insertions: seq<Insertion<T>>, r: seq<T>) {
    && |r| == |s| + |insertions| && (forall i :: 0 <= i < |insertions| ==> ValueAt(r, insertions[i]))
    && Without(r, Positions(Indices(insertions))) == s
  }

  lemma {:induction false} FilledOnce<T>(a: seq<T>, b: seq<T>, p: set<nat>)
    requires |a| == |b| && Without(a, p) == Without(b, p) && forall x :: x in p && x < |a| ==> a[x] == b[x]
    ensures a == b
  {
    if a != [] {
      var n := |a| - 1;
      var u, w := Without(a[..n], p), Without(b[..n], p);
      if n !in p {
        assert u + [a[n]] == w + [b[n]] && |u + [a[n]]| == |w + [b[n]]|;
        assert u == (u + [a[n]])[..|u|] == (w + [b[n]])[..|w|] == w;
      } else {
        assert u + [] == u && w + [] == w;
      }
      FilledOnce(a[..n], b[..n], p);
      assert a == a[..n] + [a[n]] && b == b[..n] + [b[n]];
    }
  }

  lemma FillAt<T>(s: seq<T>, before: seq<Insertion<T>>, b: seq<T>, x: Insertion<T>, r: seq<T>)
    requires Filled(s, before, b) && Below(Indices(before), x.index) && x.index <= |b|
    requires r == b[..x.index] + [x.value] + b[x.index..]
    ensures Filled(s, before + [x], r)
  {
    var p, i, all := Positions(Indices(before)), x.index, before + [x];
    assert Indices(all) == Indices(before) + [i] && Positions(Indices(all)) == p + {i};
    assert b == b[..i] + b[i..] && r[..i] == b[..i] && r[i + 1..] == b[i..];
    WithoutAt(r, p, i);
    WithoutTail(b[..i], p, b[i..]);
    forall k | 0 <= k < |all| ensures ValueAt(r, all[k]) {
      if k < |before| { assert ValueAt(b, before[k]) && Indices(before)[k] < i; }
    }
  }

  /** Inserting is defined exactly for increasing indices that can be reached. */
  lemma {:induction false} InsertIff<T>(s: seq<T>, insertions: seq<Insertion<T>>)
    ensures InsertAll(s, insertions).Some? <==> Increasing(Indices(insertions)) && Reachable(insertions, |s|)
    ensures InsertAll(s, insertions).Some? ==> Filled(s, insertions, InsertAll(s, insertions).value)
    decreases |insertions|
  {
    if insertions == [] {
      WithoutNothing(s, Indices(insertions));
    } else {
      var n := |insertions| - 1;
      InsertIff(s, insertions[..n]);
      LastInsertion(insertions, |s|);
      if InsertAll(s, insertions).Some? {
        assert insertions == insertions[..n] + [insertions[n]];
        FillAt(s, insertions[..n], InsertAll(s, insertions[..n]).value, insertions[n], InsertAll(s, insertions).value);
      }
    }
  }

  lemma LastInsertion<T>(insertions: seq<Insertion<T>>, size: nat)
    requires insertions != []
    ensures var n, before := |insertions| - 1, insertions[..|insertions| - 1];
            && (Increasing(Indices(insertions)) <==>
                  Increasing(Indices(before)) && Below(Indices(before), insertions[n].index))
            && (Increasing(Indices(before)) ==>
                  (Below(Indices(before), insertions[n].index) <==>
                     n == 0 || insertions[n - 1].index < insertions[n].index))
            && (Reachable(insertions, size) <==> Reachable(before, size) && insertions[n].index <= size + n)
  {
    var n := |insertions| - 1;
    assert Indices(insertions)[..n] == Indices(insertions[..n]);
    Last(Indices(insertions));
  }

  /** A difference applies to exactly the sequences it fits, and its result is the one sequence that has the inserted
      values at their indices and, at the other positions, the source without the removed ones. */
  lemma ApplyIff<T>(s: seq<T>, d: Diff<T>, r: seq<T>)
    ensures ApplyDiff(s, d) == Some(r) <==>
              && Increasing(d.removals) && Below(d.removals, |s|)
              && var kept := Without(s, Positions(d.removals));
                 && Increasing(Indices(d.insertions)) && Reachable(d.insertions, |kept|)
                 && Filled(kept, d.insertions, r)
  {
    RemoveIff(s, d.removals);
    if Increasing(d.removals) && Below(d.removals, |s|) {
      var kept := Without(s, Positions(d.removals));
      InsertIff(kept, d.insertions);
      var q := InsertAll(kept, d.insertions);
      if q.Some? && Filled(kept, d.insertions, r) { SameFilled(kept, d.insertions, q.value, r); }
    }
  }

  lemma SameFilled<T>(s: seq<T>, insertions: seq<Insertion<T>>, a: seq<T>, b: seq<T>)
    requires Filled(s, insertions, a) && Filled(s, insertions, b)
    ensures a == b
  {
    var p := Positions(Indices(insertions));
    forall x | x in p && x < |a| ensures a[x] == b[x] {
      var i :| 0 <= i < |insertions| && Indices(insertions)[i] == x;
      assert ValueAt(a, insertions[i]) && ValueAt(b, insertions[i]);
    }
    FilledOnce(a, b, p);
  }

  // ----- Computing a difference -----

  /** `removals` cuts a text that starts with `source` down to `kept`, whatever follows. */
  ghost predicate Cuts<T(!new)>(source: seq<T>, removals: seq<nat>, kept: seq<T>) {
    && (removals == [] || removals[|removals| - 1] < |source|) && |source| == |kept| + |removals|
    && forall tail :: RemoveAll(source + tail, removals) == Some(kept + tail)
  }

  /** `insertions` completes a text that starts with `kept` to one that starts with `target`. */
  ghost predicate Fills<T(!new)>(kept: seq<T>, insertions: seq<Insertion<T>>, target: seq<T>) {
    && (insertions == [] || insertions[|insertions| - 1].index < |target|)
    && forall tail :: InsertAll(kept + tail, insertions) == Some(target + tail)
  }

  lemma CutNothing<T(!new)>()
    ensures Cuts<T>([], [], []) && Fills<T>([], [], [])
  {
  }

  lemma CutOne<T(!new)>(source: seq<T>, removals: seq<nat>, kept: seq<T>, x: T)
    requires Cuts(source, removals, kept)
    ensures Cuts(source + [x], removals + [|source|], kept)
  {
    var r := removals + [|source|];
    assert r[..|removals|] == removals;
    forall tail ensures RemoveAll(source + [x] + tail, r) == Some(kept + tail) {
      assert source + [x] + tail == source + ([x] + tail);
      var before := kept + ([x] + tail);
      assert RemoveAll(source + ([x] + tail), removals) == Some(before);
      assert before[..|kept|] + before[|kept| + 1..] == kept + tail;
    }
  }

  lemma CutKeeps<T(!new)>(source: seq<T>, removals: seq<nat>, kept: seq<T>, x: T)
    requires Cuts(source, removals, kept)
    ensures Cuts(source + [x], removals, kept + [x])
  {
    forall tail ensures RemoveAll(source + [x] + tail, removals) == Some(kept + [x] + tail) {
      assert source + [x] + tail == source + ([x] + tail) && kept + [x] + tail == kept + ([x] + tail);
    }
  }

  lemma FillOne<T(!new)>(kept: seq<T>, insertions: seq<Insertion<T>>, target: seq<T>, x: T)
    requires Fills(kept, insertions, target)
    ensures Fills(kept, insertions + [Insertion(|target|, x)], target + [x])
  {
    var i := insertions + [Insertion(|target|, x)];
    assert i[..|insertions|] == insertions;
    forall tail ensures InsertAll(kept + tail, i) == Some(target + [x] + tail) {
      var before := target + tail;
      assert before[..|target|] + [x] + before[|target|..] == target + [x] + tail;
    }
  }

  lemma FillKeeps<T(!new)>(kept: seq<T>, insertions: seq<Insertion<T>>, target: seq<T>, x: T)
    requires Fills(kept, insertions, target)
    ensures Fills(kept + [x], insertions, target + [x])
  {
    forall tail ensures InsertAll(kept + [x] + tail, insertions) == Some(target + [x] + tail) {
      assert kept + [x] + tail == kept + ([x] + tail) && target + [x] + tail == target + ([x] + tail);
    }
  }

  /** The difference so far turns the first `s` elements of `source` into the first `t` of `target`, through `kept`. */
  ghost predicate Aligned<T(!new)>(source: seq<T>, s: nat, removals: seq<nat>, kept: seq<T>, target: seq<T>, t: nat,
                                   insertions: seq<Insertion<T>>) {
    s <= |source| && t <= |target| && Cuts(source[..s], removals, kept) && Fills(kept, insertions, target[..t])
  }

  lemma AlignBoth<T(!new)>(source: seq<T>, s: nat, removals: seq<nat>, kept: seq<T>, target: seq<T>, t: nat,
                           insertions: seq<Insertion<T>>)
    requires Aligned(source, s, removals, kept, target, t, insertions) && s < |source| && t < |target|
             && source[s] == target[t]
    ensures Aligned(source, s + 1, removals, kept + [source[s]], target, t + 1, insertions)
  {
    assert source[..s] + [source[s]] == source[..s + 1] && target[..t] + [target[t]] == target[..t + 1];
    CutKeeps(source[..s], removals, kept, source[s]);
    FillKeeps(kept, insertions, target[..t], target[t]);
  }

  lemma AlignRemove<T(!new)>(source: seq<T>, s: nat, removals: seq<nat>, kept: seq<T>, target: seq<T>, t: nat,
                             insertions: seq<Insertion<T>>)
    requires Aligned(source, s, removals, kept, target, t, insertions) && s < |source|
    ensures Aligned(source, s + 1, removals + [s], kept, target, t, insertions)
  {
    assert source[..s] + [source[s]] == source[..s + 1];
    CutOne(source[..s], removals, kept, source[s]);
  }

  lemma AlignInsert<T(!new)>(source: seq<T>, s: nat, removals: seq<nat>, kept: seq<T>, target: seq<T>, t: nat,
                             insertions: seq<Insertion<T>>)
    requires Aligned(source, s, removals, kept, target, t, insertions) && t < |target|
    ensures Aligned(source, s, removals, kept, target, t + 1, insertions + [Insertion(t, target[t])])
  {
    assert target[..t] + [target[t]] == target[..t + 1];
    FillOne(kept, insertions, target[..t], target[t]);
  }

  lemma AlignEnd<T(!new)>(source: seq<T>, removals: seq<nat>, kept: seq<T>, target: seq<T>,
                          insertions: seq<Insertion<T>>)
    requires Aligned(source, |source|, removals, kept, target, |target|, insertions)
    ensures ApplyDiff(source, Diff(removals, insertions)) == Some(target)
  {
    assert source[..|source|] + [] == source && kept + [] == kept && target[..|target|] + [] == target;
  }

  // ----- Changes of one element -----

  ghost predicate Distinct<T>(s: seq<T>) { forall i, j :: 0 <= i < j < |s| ==> s[i] != s[j] }

  /** `b` is `a`, which has no repeats, with a new element at `i`. */
  ghost predicate Added<T>(a: seq<T>, b: seq<T>, i: nat) {
    Distinct(a) && i <= |a| && |b| == |a| + 1 && b[..i] == a[..i] && b[i + 1..] == a[i..] && b[i] !in a
  }

  ghost predicate Replaced<T>(a: seq<T>, b: seq<T>, i: nat) {
    |a| == |b| && i < |a| && a[..i] == b[..i] && a[i + 1..] == b[i + 1..] && a[i] != b[i]
  }

  /** One change at most, where the two sequences differ. */
  ghost predicate OneChange<T>(source: seq<T>, target: seq<T>, i: nat) {
    Added(source, target, i) || Added(target, source, i) || Replaced(source, target, i)
  }

  /** The difference that makes one change. */
  ghost function ChangeAt<T>(source: seq<T>, target: seq<T>, i: nat): Diff<T>
    requires OneChange(source, target, i)
  {
    Diff(if |target| <= |source| then [i] else [], if |source| <= |target| then [Insertion(i, target[i])] else [])
  }

  lemma AddedAt<T>(a: seq<T>, b: seq<T>, i: nat, k: nat)
    requires Added(a, b, i)
    ensures k < i ==> b[k] == a[k]
    ensures i < k < |b| ==> b[k] == a[k - 1]
    ensures k < i || i < k < |b| ==> b[k] in a
  {
    if k < i { assert b[k] == b[..i][k] && a[k] == a[..i][k]; }
    if i < k < |b| { assert b[k] == b[i + 1..][k - i - 1] && a[k - 1] == a[i..][k - i - 1]; }
  }

  lemma ReplacedAt<T>(a: seq<T>, b: seq<T>, i: nat, k: nat)
    requires Replaced(a, b, i) && k < |a|
    ensures k != i ==> a[k] == b[k]
  {
    if k < i { assert a[k] == a[..i][k] && b[k] == b[..i][k]; }
    if i < k { assert a[k] == a[i + 1..][k - i - 1] && b[k] == b[i + 1..][k - i - 1]; }
  }

  lemma ChangeIsUnique<T>(source: seq<T>, target: seq<T>, i: nat, j: nat)
    requires OneChange(source, target, i) && OneChange(source, target, j)
    ensures i == j
  {
    if Added(source, target, i) { AddedAt(source, target, i, j); }
    else if Added(target, source, i) { AddedAt(target, source, i, j); }
    else { ReplacedAt(source, target, i, j); }
  }

  /** Where the comparison stands when there is one change, at `i`. */
  ghost predicate Tracks<T>(source: seq<T>, target: seq<T>, i: nat, s: nat, t: nat, d: Diff<T>)
    requires OneChange(source, target, i)
  {
    if s <= i && t <= i then s == t && d == Diff([], [])
    else s - t == |source| - |target| && i <= s && i <= t && d == ChangeAt(source, target, i)
  }

  /** What one turn of the comparison does. */
  predicate Removes<T(==)>(source: seq<T>, target: seq<T>, s: nat, t: nat) {
    s < |source| && (t < |target| ==> source[s] != target[t] && (PairAhead(source, target, s, t) ||
                                      !(t + 1 < |target| && source[s] == target[t + 1])))
  }

  predicate Inserts<T(==)>(source: seq<T>, target: seq<T>, s: nat, t: nat) {
    t < |target| && (s < |source| ==> source[s] != target[t] && (PairAhead(source, target, s, t) ||
                                      (t + 1 < |target| && source[s] == target[t + 1])))
  }

  /** Both are at their last element, or agree in the next one. */
  predicate PairAhead<T(==)>(source: seq<T>, target: seq<T>, s: nat, t: nat) {
    || (s == |source| - 1 && t == |target| - 1)
    || (s + 1 < |source| && t + 1 < |target| && source[s + 1] == target[t + 1])
  }

  /** A turn away from the change goes on in both; the turn at the change makes it. */
  lemma TurnTracks<T>(source: seq<T>, target: seq<T>, i: nat, s: nat, t: nat, d: Diff<T>)
    requires OneChange(source, target, i) && Tracks(source, target, i, s, t, d)
    requires s <= |source| && t <= |target| && (s < |source| || t < |target|)
    ensures if s == t == i then (Removes(source, target, s, t) <==> |target| <= |source|)
                                && (Inserts(source, target, s, t) <==> |source| <= |target|)
            else s < |source| && t < |target| && source[s] == target[t]
  {
    if Added(source, target, i) {
      AddedAt(source, target, i, t);
      AddedAt(source, target, i, t + 1);
    } else if Added(target, source, i) {
      AddedAt(target, source, i, s);
      AddedAt(target, source, i, s + 1);
    } else {
      if s < |source| { ReplacedAt(source, target, i, s); }
      if s + 1 < |source| { ReplacedAt(source, target, i, s + 1); }
    }
  }

  ghost predicate Follows<T(!new)>(source: seq<T>, target: seq<T>, s: nat, t: nat, d: Diff<T>) {
    forall i: nat :: OneChange(source, target, i) ==> Tracks(source, target, i, s, t, d)
  }

  lemma FollowsTurn<T(!new)>(source: seq<T>, target: seq<T>, s: nat, t: nat, d: Diff<T>, removing: bool,
                             inserting: bool, s1: nat, t1: nat, d1: Diff<T>)
    requires Follows(source, target, s, t, d)
    requires s <= |source| && t <= |target| && (s < |source| || t < |target|)
    requires removing == Removes(source, target, s, t) && inserting == Inserts(source, target, s, t)
    requires s1 == (if removing || !inserting then s + 1 else s) && t1 == (if inserting || !removing then t + 1 else t)
    requires d1.removals == d.removals + (if removing then [s] else [])
    requires d1.insertions == d.insertions + (if inserting then [Insertion(t, target[t])] else [])
    ensures Follows(source, target, s1, t1, d1)
  {
    forall i: nat | OneChange(source, target, i) ensures Tracks(source, target, i, s1, t1, d1) {
      TurnTracks(source, target, i, s, t, d);
    }
  }

  /** The branches of one turn. */
  method Compare<T(==)>(source: seq<T>, target: seq<T>, s: nat, t: nat) returns (removing: bool, inserting: bool)
    requires s <= |source| && t <= |target| && (s < |source| || t < |target|)
    ensures removing == Removes(source, target, s, t) && inserting == Inserts(source, target, s, t)
  {
    removing, inserting := false, false;
    if s < |source| && t < |target| {
      if source[s] != target[t] {
        if s == |source| - 1 && t == |target| - 1 {
          removing, inserting := true, true;
        } else if s + 1 < |source| && t + 1 < |target| && source[s + 1] == target[t + 1] {
          removing, inserting := true, true;
        } else if t + 1 < |target| && source[s] == target[t + 1] {
          inserting := true;
        } else {
          removing := true;
        }
      }
    } else if s < |source| {
      removing := true;
    } else {
      inserting := true;
    }
  }

  /** Applying the computed difference to `source` gives `target`; sizes beyond what indices of the chosen width
      can address are refused. */
  method Compute<T(==,!new)>(source: seq<T>, target: seq<T>, maxIndex: nat) returns (d: Option<Diff<T>>)
    ensures d.None? <==> maxIndex + 1 < |source| || maxIndex + 1 < |target|
    ensures d.Some? ==> ApplyDiff(source, d.value) == Some(target)
    ensures d.Some? && source == target ==> d.value == Diff([], [])
    ensures d.Some? ==> forall i: nat :: OneChange(source, target, i) ==> d.value == ChangeAt(source, target, i)
  {
    if maxIndex + 1 < |source| || maxIndex + 1 < |target| { return None; }
    var s, t := 0, 0;
    var removals: seq<nat>, insertions: seq<Insertion<T>> := [], [];
    ghost var kept: seq<T> := [];
    CutNothing<T>();
    while s < |source| || t < |target|
      invariant 0 <= s <= |source| && 0 <= t <= |target|
      invariant Aligned(source, s, removals, kept, target, t, insertions)
      invariant source == target ==> s == t && removals == [] && insertions == []
      invariant Follows(source, target, s, t, Diff(removals, insertions))
      decreases |source| - s + |target| - t
    {
      ghost var before, s0, t0 := Diff(removals, insertions), s, t;
      var removing, inserting := Compare(source, target, s, t);
      if !removing && !inserting {
        AlignBoth(source, s, removals, kept, target, t, insertions);
        kept := kept + [source[s]];
        s, t := s + 1, t + 1;
      } else {
        if removing {
          AlignRemove(source, s, removals, kept, target, t, insertions);
          removals, s := removals + [s], s + 1;
        }
        if inserting {
          AlignInsert(source, s, removals, kept, target, t, insertions);
          insertions, t := insertions + [Insertion(t, target[t])], t + 1;
        }
      }
      FollowsTurn(source, target, s0, t0, before, removing, inserting, s, t, Diff(removals, insertions));
    }
    AlignEnd(source, removals, kept, target, insertions);
    return Some(Diff(removals, insertions));
  }
}
