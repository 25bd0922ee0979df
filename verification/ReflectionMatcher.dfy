/** Matching the fields of a class against the fields its reflection macro lists. */
module ReflectionMatcher {
  import opened Wrappers

  type Field = string

  predicate Distinct(s: seq<Field>) {
    forall i, j :: 0 <= i < j < |s| ==> s[i] != s[j]
  }

  /** The lists of one reflection, which are only built up through the checks below. */
  class ReflectClass {
    var fields: seq<Field>
    var ignored: seq<Field>
    var swapped: seq<Field>

    ghost predicate Valid()
      reads this
    {
      Distinct(fields) && Distinct(ignored) && Distinct(swapped)
    }

    ghost predicate Apart()
      reads this
    {
      forall f :: f in ignored ==> f !in swapped
    }

    constructor ()
      ensures Valid() && Apart() && fields == [] && ignored == [] && swapped == []
    {
      fields, ignored, swapped := [], [], [];
    }

    method AddField(f: Field) returns (ok: bool)
      requires Valid()
      modifies this`fields
      ensures Valid() && ok == (f !in old(fields))
      ensures fields == if ok then old(fields) + [f] else old(fields)
    {
      ok := f !in fields;
      if ok { fields := fields + [f]; }
    }

    method AddIgnore(f: Field) returns (ok: bool)
      requires Valid()
      modifies this`ignored
      ensures Valid() && (old(Apart()) ==> Apart()) && ok == (f !in old(ignored) && f !in swapped)
      ensures ignored == if ok then old(ignored) + [f] else old(ignored)
    {
      ok := f !in ignored && f !in swapped;
      if ok { ignored := ignored + [f]; }
    }

    method AddSwap(f: Field) returns (ok: bool)
      requires Valid()
      modifies this`swapped
      ensures Valid() && (old(Apart()) ==> Apart()) && ok == (f !in old(swapped) && f !in ignored)
      ensures swapped == if ok then old(swapped) + [f] else old(swapped)
    {
      ok := f !in swapped && f !in ignored;
      if ok { swapped := swapped + [f]; }
    }

    /** The identifier of a database object need not be reflected; whether it is swapped is not looked at. */
    method IgnoreId(id: Field)
      requires Valid()
      modifies this`ignored
      ensures Valid() && (old(Apart()) ==> (Apart() <==> id !in swapped || id in old(fields)))
      ensures ignored == if id in old(ignored) || id in fields then old(ignored) else old(ignored) + [id]
    {
      if id !in ignored && id !in fields { ignored := ignored + [id]; }
    }
  }

  // ----- What the matcher accepts -----

  /** The fields of `s` that are in neither list. */
  function Kept(s: seq<Field>, a: seq<Field>, b: seq<Field>): seq<Field> {
    if s == [] then []
    else
      var n := |s| - 1;
      Kept(s[..n], a, b) + if s[n] in a || s[n] in b then [] else [s[n]]
  }

  /** Class index `start` and reflected index `j` follow a matched pair of unswapped fields, or the beginning. */
  ghost predicate Anchor(c: seq<Field>, r: seq<Field>, s: seq<Field>, start: int, j: int) {
    (start == 0 && j == 0) || (0 < start <= |c| && 0 < j <= |r| && c[start - 1] == r[j - 1] && c[start - 1] !in s)
  }

  /** Swapped field `c[i] == r[j]` is where it would be without its annotation: after an anchor, only
      swapped fields that are reflected later stand before it. */
  ghost predicate InOrderAt(c: seq<Field>, r: seq<Field>, s: seq<Field>, start: int, i: int, j: int) {
    && 0 <= start <= i < |c| && 0 <= j < |r| && c[i] == r[j] && c[i] in s
    && Anchor(c, r, s, start, j)
    && (forall m :: start <= m < i ==> c[m] in s && c[m] !in r[..j])
  }

  ghost predicate SwapInOrder(c: seq<Field>, r: seq<Field>, s: seq<Field>) {
    exists start, i, j :: InOrderAt(c, r, s, start, i, j)
  }

  /** Swapped fields are in both lists, ignored ones only in the class, and the others are the same in order. */
  ghost predicate Agrees(c: seq<Field>, r: seq<Field>, swapped: seq<Field>, ignored: seq<Field>) {
    && (forall f :: f in swapped ==> f in c && f in r)
    && (forall f :: f in ignored ==> f in c && f !in r)
    && Kept(r, swapped, []) == Kept(c, swapped, ignored)
  }

  ghost predicate Accepts(c: seq<Field>, r: seq<Field>, swapped: seq<Field>, ignored: seq<Field>) {
    Agrees(c, r, swapped, ignored) && !SwapInOrder(c, r, swapped)
  }

  // ----- Lists edited in place -----

  function Remove(s: seq<Field>, f: Field): (r: seq<Field>) {
    if s == [] then [] else if s[0] == f then s[1..] else [s[0]] + Remove(s[1..], f)
  }

  lemma {:induction false} RemoveFacts(s: seq<Field>, f: Field)
    requires Distinct(s)
    ensures Distinct(Remove(s, f)) && forall g :: g in Remove(s, f) <==> g in s && g != f
  {
    if s != [] {
      var t := s[1..];
      assert s == [s[0]] + t;
      RemoveFacts(t, f);
      assert s[0] !in t;
      if s[0] != f { DistinctCons(s[0], Remove(t, f)); }
    }
  }

  lemma DistinctCons(f: Field, s: seq<Field>)
    requires Distinct(s) && f !in s
    ensures Distinct([f] + s) && Distinct(s + [f])
  {
  }

  lemma {:induction false} KeptPrefix(s: seq<Field>, a: seq<Field>, b: seq<Field>, i: nat)
    requires i <= |s|
    ensures Kept(s[..i], a, b) <= Kept(s, a, b)
    ensures i < |s| && s[i] !in a && s[i] !in b ==> Kept(s[..i], a, b) + [s[i]] <= Kept(s, a, b)
  {
    if i < |s| {
      var n := |s| - 1;
      assert s[..n][..i] == s[..i];
      KeptPrefix(s[..n], a, b, i);
    } else {
      assert s[..i] == s;
    }
  }

  lemma KeptNext(s: seq<Field>, a: seq<Field>, b: seq<Field>, i: nat)
    requires i < |s|
    ensures Kept(s[..i + 1], a, b) == Kept(s[..i], a, b) + if s[i] in a || s[i] in b then [] else [s[i]]
  {
    assert s[..i + 1][..i] == s[..i];
  }

  lemma {:induction false} KeptMembers(s: seq<Field>, a: seq<Field>, b: seq<Field>)
    ensures forall f :: f in Kept(s, a, b) <==> f in s && f !in a && f !in b
  {
    if s != [] {
      var n := |s| - 1;
      assert s == s[..n] + [s[n]];
      KeptMembers(s[..n], a, b);
    }
  }

  lemma KeptGrows(s: seq<Field>, a: seq<Field>, b: seq<Field>, i: nat, k: nat)
    requires i <= k < |s| && Kept(s[..i], a, b) == Kept(s, a, b)
    ensures s[k] in a || s[k] in b
  {
    KeptPrefix(s, a, b, k);
    assert s[..k][..i] == s[..i];
    KeptPrefix(s[..k], a, b, i);
  }

  lemma {:induction false} KeptSame(s: seq<Field>, a: seq<Field>, b: seq<Field>, i: nat, k: nat)
    requires i <= k <= |s| && forall m :: i <= m < k ==> s[m] in a
    ensures Kept(s[..k], a, b) == Kept(s[..i], a, b)
    decreases k
  {
    if i < k {
      KeptSame(s, a, b, i, k - 1);
      KeptNext(s, a, b, k - 1);
    }
  }

  // ----- The walk over the two lists -----

  /** Where the walk stands: `c` and `r` are the class and reflected fields, `s` and `g` the swapped and
      ignored ones, `i` and `j` the two indices. */
  datatype Walk = Walk(c: seq<Field>, r: seq<Field>, s: seq<Field>, g: seq<Field>, i: nat, j: nat) {
    ghost predicate Valid() {
      i <= |c| && j <= |r| && Distinct(c) && Distinct(r) && forall f :: f in g ==> f !in s
    }

    /** The class side is at a swapped field not yet met on either side. */
    predicate SwapAhead() { i < |c| && j <= |r| && c[i] in s && c[i] !in r[..j] }

    predicate ReflectedSwapAhead() { j < |r| && i <= |c| && r[j] in s && r[j] !in c[..i] }

    predicate AtSame() { i < |c| && j < |r| && c[i] == r[j] }
  }

  datatype Move = Fail | ClassOnly | ReflectedOnly | Both

  /** The branch the matcher takes. */
  function Next(w: Walk): Move
    requires w.i < |w.c| && w.j <= |w.r|
  {
    if w.SwapAhead() then (if w.c[w.i] !in w.r || w.AtSame() then Fail else ClassOnly)
    else if w.ReflectedSwapAhead() then ReflectedOnly
    else if w.j < |w.r| && w.r[w.j] in w.g && w.r[w.j] in w.c[..w.i] then Fail
    else if w.c[w.i] in w.g then (if w.AtSame() then Fail else ClassOnly)
    else if w.j < |w.r| && w.r[w.j] in w.s then ReflectedOnly
    else if w.c[w.i] in w.s then ClassOnly
    else if w.AtSame() then Both
    else Fail
  }

  function Moved(w: Walk, m: Move): Walk {
    match m
    case Fail => w
    case ClassOnly => w.(i := w.i + 1)
    case ReflectedOnly => w.(j := w.j + 1)
    case Both => w.(i := w.i + 1, j := w.j + 1)
  }

  /** Only swapped fields reflected later stand between an anchor and class index `i`. */
  ghost predicate RunsFrom(w: Walk, start: int) {
    && 0 <= start <= w.i <= |w.c| && w.j <= |w.r| && Anchor(w.c, w.r, w.s, start, w.j)
    && (forall m :: start <= m < w.i ==> w.c[m] in w.s && w.c[m] !in w.r[..w.j])
  }

  ghost predicate Anchored(w: Walk) {
    w.SwapAhead() && w.ReflectedSwapAhead() ==> exists start :: RunsFrom(w, start)
  }

  /** The walk has not gone past a needlessly swapped field. */
  ghost predicate NotPast(w: Walk, start: int, i: int, j: int) {
    InOrderAt(w.c, w.r, w.s, start, i, j) ==> w.i < start || (w.i <= i && w.j == j)
  }

  ghost predicate Inv(w: Walk) {
    && w.Valid()
    && Kept(w.r[..w.j], w.s, []) == Kept(w.c[..w.i], w.s, w.g)
    && Anchored(w)
    && ((forall f :: f in w.g ==> f !in w.r) ==> forall start, i, j :: NotPast(w, start, i, j))
  }

  /** When the matcher rejects in its main loop, the lists are not acceptable. */
  lemma FailRejects(w: Walk)
    requires Inv(w) && w.i < |w.c| && Next(w) == Fail
    ensures !Accepts(w.c, w.r, w.s, w.g)
  {
    if w.SwapAhead() {
      if w.c[w.i] in w.r {
        assert w.ReflectedSwapAhead();
        var start :| RunsFrom(w, start);
        assert InOrderAt(w.c, w.r, w.s, start, w.i, w.j);
      }
    } else if Accepts(w.c, w.r, w.s, w.g) && w.c[w.i] !in w.g {
      SameNext(w);
    }
  }

  /** Past a common beginning, the next unswapped and unignored fields are the same one. */
  lemma SameNext(w: Walk)
    requires w.i < |w.c| && w.j <= |w.r| && Kept(w.r[..w.j], w.s, []) == Kept(w.c[..w.i], w.s, w.g)
    requires Kept(w.r, w.s, []) == Kept(w.c, w.s, w.g)
    requires w.c[w.i] !in w.s && w.c[w.i] !in w.g && (w.j < |w.r| ==> w.r[w.j] !in w.s)
    ensures w.AtSame()
  {
    KeptPrefix(w.c, w.s, w.g, w.i);
    KeptPrefix(w.r, w.s, [], w.j);
    var p := Kept(w.r[..w.j], w.s, []);
    assert Kept(w.c, w.s, w.g)[|p|] == w.c[w.i];
    assert w.r[..|w.r|] == w.r;
  }

  lemma KeptStep(w: Walk)
    requires Inv(w) && w.i < |w.c| && Next(w) != Fail
    ensures var v := Moved(w, Next(w)); v.Valid() && Kept(v.r[..v.j], v.s, []) == Kept(v.c[..v.i], v.s, v.g)
  {
    match Next(w)
    case ClassOnly => KeptNext(w.c, w.s, w.g, w.i);
    case ReflectedOnly => KeptNext(w.r, w.s, [], w.j);
    case Both =>
      KeptNext(w.c, w.s, w.g, w.i);
      KeptNext(w.r, w.s, [], w.j);
  }

  lemma AnchoredStep(w: Walk)
    requires Inv(w) && w.i < |w.c| && Next(w) != Fail
    ensures Anchored(Moved(w, Next(w)))
  {
    var v := Moved(w, Next(w));
    if v.SwapAhead() && v.ReflectedSwapAhead() {
      match Next(w)
      case ClassOnly =>
        assert w.r[w.j] in w.s && w.r[w.j] !in w.c[..w.i] && w.SwapAhead();
        var start :| RunsFrom(w, start);
        assert RunsFrom(v, start);
      case Both => assert RunsFrom(v, v.i);
      case _ =>
    }
  }

  lemma NotPastStep(w: Walk, start: int, i: int, j: int)
    requires Inv(w) && w.i < |w.c| && Next(w) != Fail && forall f :: f in w.g ==> f !in w.r
    ensures NotPast(Moved(w, Next(w)), start, i, j)
  {
    assert NotPast(w, start, i, j);
    if InOrderAt(w.c, w.r, w.s, start, i, j) && start <= w.i {
      assert w.r[w.j] !in w.c[..w.i];
      assert w.SwapAhead();
    }
  }

  lemma StepKeepsInv(w: Walk)
    requires Inv(w) && w.i < |w.c| && Next(w) != Fail
    ensures Inv(Moved(w, Next(w)))
  {
    var v := Moved(w, Next(w));
    KeptStep(w);
    AnchoredStep(w);
    if forall f :: f in w.g ==> f !in w.r {
      forall start, i, j ensures NotPast(v, start, i, j) { NotPastStep(w, start, i, j); }
    }
  }

  ghost predicate IgnoresAreFields(w: Walk) { forall f :: f in w.g ==> f in w.c }

  ghost predicate SwapsAreShared(w: Walk) { forall f :: f in w.s ==> f in w.c && f in w.r }

  ghost predicate RestIsSwapped(w: Walk) { forall k :: w.j <= k < |w.r| ==> w.r[k] in w.s }

  lemma AcceptedRest(w: Walk)
    requires Inv(w) && w.i == |w.c| && Accepts(w.c, w.r, w.s, w.g)
    ensures RestIsSwapped(w)
  {
    assert w.c[..w.i] == w.c;
    forall k | w.j <= k < |w.r| ensures w.r[k] in w.s { KeptGrows(w.r, w.s, [], w.j, k); }
  }

  lemma RestKept(w: Walk)
    requires w.Valid() && Kept(w.r[..w.j], w.s, []) == Kept(w.c, w.s, w.g) && RestIsSwapped(w)
    ensures Kept(w.r, w.s, []) == Kept(w.c, w.s, w.g) && forall f :: f in w.g ==> f !in w.r
  {
    KeptSame(w.r, w.s, [], w.j, |w.r|);
    assert w.r[..|w.r|] == w.r;
    KeptMembers(w.r, w.s, []);
    KeptMembers(w.c, w.s, w.g);
  }

  lemma RestAccepted(w: Walk)
    requires Inv(w) && w.i == |w.c| && IgnoresAreFields(w) && SwapsAreShared(w) && RestIsSwapped(w)
    ensures Accepts(w.c, w.r, w.s, w.g)
  {
    assert w.c[..w.i] == w.c;
    RestKept(w);
    forall start, i, j ensures !InOrderAt(w.c, w.r, w.s, start, i, j) { assert NotPast(w, start, i, j); }
  }

  // ----- The matcher itself -----

  datatype MatchError =
    | SwapNotReflected | SwapInCorrectOrder | ShouldSwapNotIgnore | IgnoreInCorrectOrder | FieldMismatch
    | ErroneousIgnores | FieldsNotInClass | ErroneousSwaps | SwappedNeverProvided | SwappedNotInClass

  /** The lists that the loops edit. */
  datatype Lists = Lists(swapped: seq<Field>, ignoring: seq<Field>, back: seq<Field>, fwd: seq<Field>,
                         ignored: seq<Field>)

  /** They hold exactly what the two indices say. */
  ghost predicate Tracks(w: Walk, l: Lists) {
    && w.i <= |w.c| && w.j <= |w.r|
    && Distinct(l.swapped) && Distinct(l.ignoring) && Distinct(l.back) && Distinct(l.fwd)
    && (forall f :: f in l.swapped <==> f in w.s && f !in w.c[..w.i] && f !in w.r[..w.j])
    && (forall f :: f in l.back <==> f in w.s && f in w.c[..w.i] && f !in w.r[..w.j])
    && (forall f :: f in l.fwd <==> f in w.s && f !in w.c[..w.i] && f in w.r[..w.j])
    && (forall f :: f in l.ignoring <==> f in w.g && f !in w.c[..w.i])
    && (forall f :: f in l.ignored <==> f in w.g && f in w.c[..w.i])
  }

  datatype Turned = Turned(move: Move, error: MatchError, lists: Lists)

  /** One turn of the main loop, branch by branch. */
  function Turn(w: Walk, l: Lists): Turned
    requires w.i < |w.c|
  {
    var field := w.c[w.i];
    var reflected := if w.j < |w.r| then Some(w.r[w.j]) else None;
    if field in l.swapped then
      var k := l.(swapped := Remove(l.swapped, field), back := l.back + [field]);
      if field !in w.r then Turned(Fail, SwapNotReflected, k)
      else if reflected == Some(field) then Turned(Fail, SwapInCorrectOrder, k)
      else Turned(ClassOnly, FieldMismatch, k)
    else if reflected.Some? && reflected.value in l.swapped then
      Turned(ReflectedOnly, FieldMismatch,
             l.(swapped := Remove(l.swapped, reflected.value), fwd := l.fwd + [reflected.value]))
    else if reflected.Some? && reflected.value in l.ignored then
      Turned(Fail, ShouldSwapNotIgnore, l)
    else if field in l.ignoring then
      var k := l.(ignoring := Remove(l.ignoring, field), ignored := l.ignored + [field]);
      if reflected == Some(field) then Turned(Fail, IgnoreInCorrectOrder, k) else Turned(ClassOnly, FieldMismatch, k)
    else if reflected.Some? && reflected.value in l.back then
      Turned(ReflectedOnly, FieldMismatch, l.(back := Remove(l.back, reflected.value)))
    else if field in l.fwd then
      Turned(ClassOnly, FieldMismatch, l.(fwd := Remove(l.fwd, field)))
    else if reflected == Some(field) then Turned(Both, FieldMismatch, l)
    else Turned(Fail, FieldMismatch, l)
  }

  /** The lists decide as the indices do, and go on holding what the indices say. */
  lemma TurnTracks(w: Walk, l: Lists)
    requires w.Valid() && w.i < |w.c| && Tracks(w, l)
    ensures Turn(w, l).move == Next(w)
    ensures Next(w) != Fail ==> Tracks(Moved(w, Next(w)), Turn(w, l).lists)
  {
    var field := w.c[w.i];
    var reflected := if w.j < |w.r| then Some(w.r[w.j]) else None;
    Extends(w);
    if field in l.swapped {
      RemoveFacts(l.swapped, field);
      DistinctCons(field, l.back);
    } else if reflected.Some? && reflected.value in l.swapped {
      RemoveFacts(l.swapped, reflected.value);
      DistinctCons(reflected.value, l.fwd);
    } else if field in l.ignoring {
      RemoveFacts(l.ignoring, field);
    } else if reflected.Some? && reflected.value in l.back {
      RemoveFacts(l.back, reflected.value);
    } else if field in l.fwd {
      RemoveFacts(l.fwd, field);
    }
  }

  /** A field that is both swapped and ignored is never used up. */
  ghost predicate Stuck(w: Walk, l: Lists, f: Field) {
    && w.i <= |w.c| && w.j <= |w.r| && Distinct(w.c) && Distinct(l.swapped) && Distinct(l.ignoring)
    && if f in w.c[..w.i] then f in l.ignoring || f in l.fwd else f in l.ignoring && (f in l.swapped || f in l.fwd)
  }

  lemma TurnStuck(w: Walk, l: Lists, f: Field)
    requires Stuck(w, l, f) && w.i < |w.c|
    ensures Turn(w, l).move != Fail ==> Stuck(Moved(w, Turn(w, l).move), Turn(w, l).lists, f)
  {
    var field := w.c[w.i];
    assert w.c[..w.i + 1] == w.c[..w.i] + [field] && field !in w.c[..w.i];
    RemoveFacts(l.swapped, field);
    RemoveFacts(l.ignoring, field);
    if w.j < |w.r| { RemoveFacts(l.swapped, w.r[w.j]); }
    RemoveOther(l.fwd, field, f);
  }

  lemma {:induction false} RemoveOther(s: seq<Field>, f: Field, g: Field)
    ensures f != g && g in s ==> g in Remove(s, f)
  {
    if s != [] {
      assert s == [s[0]] + s[1..];
      RemoveOther(s[1..], f, g);
    }
  }

  lemma Extends(w: Walk)
    requires w.Valid() && w.i < |w.c|
    ensures w.c[..w.i + 1] == w.c[..w.i] + [w.c[w.i]] && w.c[w.i] !in w.c[..w.i]
    ensures w.j < |w.r| ==> w.r[..w.j + 1] == w.r[..w.j] + [w.r[w.j]] && w.r[w.j] !in w.r[..w.j]
  {
  }

  /** The whole match: it accepts exactly what it should, in as many turns as there are fields at most. */
  method MatchFields(c: seq<Field>, r: seq<Field>, swapped: seq<Field>, ignored: seq<Field>)
    returns (e: Option<MatchError>, ghost steps: nat)
    requires Distinct(c) && Distinct(r) && Distinct(swapped) && Distinct(ignored)
    ensures e.None? <==> Accepts(c, r, swapped, ignored)
    ensures steps <= |c| + |r|
  {
    var w := Walk(c, r, swapped, ignored, 0, 0);
    var l := Lists(swapped, ignored, [], [], []);
    ghost var apart := forall f :: f in ignored ==> f !in swapped;
    ghost var both := if apart then "" else var f :| f in ignored && f in swapped; f;
    assert RunsFrom(w, 0);
    steps := 0;
    while w.i < |c|
      invariant w == Walk(c, r, swapped, ignored, w.i, w.j) && w.i <= |c| && w.j <= |r| && steps <= w.i + w.j
      invariant if apart then Inv(w) && Tracks(w, l) else Stuck(w, l, both)
      decreases |c| - w.i + |r| - w.j
    {
      var t := Turn(w, l);
      steps := steps + 1;
      if apart { TurnTracks(w, l); } else { TurnStuck(w, l, both); }
      if t.move == Fail {
        if apart { FailRejects(w); }
        return Some(t.error), steps;
      }
      if apart { StepKeepsInv(w); }
      w, l := Moved(w, t.move), t.lists;
    }
    ghost var closing;
    e, closing := CloseMatch(w, l);
    steps := steps + closing;
  }

  predicate Provided(w: Walk, k: int) { 0 <= k < |w.r| ==> w.r[k] in w.s && w.r[k] in w.c }

  /** The reflected fields left over: they have to be swapped ones that were met in the class. */
  method UseUp(w: Walk, l: Lists) returns (back: seq<Field>, unused: seq<Field>, ghost steps: nat)
    requires w.j <= |w.r|
    ensures Distinct(w.r) && Distinct(l.back) ==>
              && (forall f :: f in back <==> f in l.back && f !in w.r[w.j..])
              && (unused == [] <==> forall f :: f in w.r[w.j..] ==> f in l.back)
    ensures steps == |w.r| - w.j
  {
    var j := w.j;
    back, unused, steps := l.back, [], 0;
    ghost var clean := Distinct(w.r) && Distinct(l.back);
    while j < |w.r|
      invariant w.j <= j <= |w.r| && steps == j - w.j
      invariant clean ==> Distinct(back) && forall f :: f in back <==> f in l.back && f !in w.r[w.j..j]
      invariant clean ==> (unused == [] <==> forall f :: f in w.r[w.j..j] ==> f in l.back)
    {
      assert w.r[w.j..j + 1] == w.r[w.j..j] + [w.r[j]];
      if clean { RemoveFacts(back, w.r[j]); }
      if w.r[j] in back {
        back := Remove(back, w.r[j]);
      } else {
        unused := unused + [w.r[j]];
      }
      j, steps := j + 1, steps + 1;
    }
    assert w.r[w.j..j] == w.r[w.j..];
  }

  /** With all class fields used up, what is left over is swapped exactly if it was put back. */
  lemma LeftOver(w: Walk, l: Lists)
    requires w.Valid() && Tracks(w, l) && w.i == |w.c|
    ensures (forall f :: f in w.r[w.j..] ==> f in l.back) <==> forall k :: w.j <= k < |w.r| ==> Provided(w, k)
    ensures forall f :: f in l.back && f !in w.r[w.j..] <==> f in w.s && f in w.c && f !in w.r
  {
    assert w.c[..w.i] == w.c && w.r == w.r[..w.j] + w.r[w.j..];
    forall k | w.j <= k < |w.r| ensures w.r[k] in l.back <==> Provided(w, k) { assert w.r[k] !in w.r[..w.j]; }
    if forall f :: f in w.r[w.j..] ==> f in l.back {
      forall k | w.j <= k < |w.r| ensures Provided(w, k) { assert w.r[k] in w.r[w.j..]; }
    }
  }

  /** The checks after the class fields are used up. */
  method CloseMatch(w: Walk, l: Lists) returns (e: Option<MatchError>, ghost steps: nat)
    requires w.i == |w.c| && w.j <= |w.r|
    ensures Inv(w) && Tracks(w, l) ==> (e.None? <==> Accepts(w.c, w.r, w.s, w.g))
    ensures e.None? ==> l.ignoring == [] && l.fwd == []
    ensures steps <= |w.r| - w.j
  {
    steps := 0;
    ghost var clean := Inv(w) && Tracks(w, l);
    assert w.c[..w.i] == w.c;
    if l.ignoring != [] {
      assert l.ignoring[0] in l.ignoring;
      return Some(ErroneousIgnores), 0;
    }
    var back, unused;
    back, unused, steps := UseUp(w, l);
    if clean { LeftOver(w, l); }
    if unused != [] {
      if clean && Accepts(w.c, w.r, w.s, w.g) { AcceptedRest(w); }
      return Some(FieldsNotInClass), steps;
    }
    if l.swapped != [] {
      assert l.swapped[0] in l.swapped;
      return Some(ErroneousSwaps), steps;
    }
    if back != [] {
      assert back[0] in back;
      return Some(SwappedNeverProvided), steps;
    }
    if l.fwd != [] {
      assert l.fwd[0] in l.fwd;
      return Some(SwappedNotInClass), steps;
    }
    if clean { LeftSwapped(w); RestAccepted(w); }
    return None, steps;
  }

  lemma LeftSwapped(w: Walk)
    requires forall k :: w.j <= k < |w.r| ==> Provided(w, k)
    ensures RestIsSwapped(w)
  {
    forall k | w.j <= k < |w.r| ensures w.r[k] in w.s { assert Provided(w, k); }
  }

  // ----- Consequences -----

  lemma {:induction false} KeptConcat(x: seq<Field>, y: seq<Field>, a: seq<Field>, b: seq<Field>)
    ensures Kept(x + y, a, b) == Kept(x, a, b) + Kept(y, a, b)
  {
    if y == [] {
      assert x + y == x;
    } else {
      var n := |y| - 1;
      assert (x + y)[..|x| + n] == x + y[..n];
      KeptConcat(x, y[..n], a, b);
    }
  }

  lemma {:induction false} KeptAll(s: seq<Field>, a: seq<Field>, b: seq<Field>)
    requires forall f :: f in s ==> f !in a && f !in b
    ensures Kept(s, a, b) == s
  {
    if s != [] {
      var n := |s| - 1;
      assert s == s[..n] + [s[n]];
      KeptAll(s[..n], a, b);
    }
  }

  /** An accepted reflection lists every class field that is not ignored, and nothing else. */
  lemma ReflectsTheRest(c: seq<Field>, r: seq<Field>, swapped: seq<Field>, ignored: seq<Field>)
    requires Accepts(c, r, swapped, ignored)
    ensures forall f :: f in r <==> f in c && f !in ignored
  {
    KeptMembers(r, swapped, []);
    KeptMembers(c, swapped, ignored);
    forall f ensures f in r <==> f in c && f !in ignored {
      assert f in Kept(r, swapped, []) <==> f in Kept(c, swapped, ignored);
    }
  }

  /** Without swaps: the reflected list is the class list minus the ignored fields, which are class fields. */
  lemma WithoutSwaps(c: seq<Field>, r: seq<Field>, ignored: seq<Field>)
    ensures Accepts(c, r, [], ignored) <==> (forall f :: f in ignored ==> f in c) && r == Kept(c, [], ignored)
  {
    KeptAll(r, [], []);
    KeptMembers(c, [], ignored);
  }

  /** A field moved anywhere else, forwards or backwards, is accepted when it is annotated. */
  lemma MovedFieldAccepted(x: seq<Field>, f: Field, y: seq<Field>, z: seq<Field>)
    requires Distinct(x + [f] + y + z) && y != []
    ensures Accepts(x + [f] + y + z, x + y + [f] + z, [f], [])
    ensures Accepts(x + y + [f] + z, x + [f] + y + z, [f], [])
  {
    assert x + [f] + y + z == x + [f] + (y + z);
    OnlyOnce(x, f, y + z);
    MovedKept(x, f, y, z);
    MovedIndices(x, f, y, z);
    MoveAccepted(x + [f] + y + z, x + y + [f] + z, f, |x|, |x| + |y|);
  }

  lemma MovedKept(x: seq<Field>, f: Field, y: seq<Field>, z: seq<Field>)
    requires f !in x && f !in y + z
    ensures Kept(x + [f] + y + z, [f], []) == Kept(x + y + [f] + z, [f], [])
  {
    assert x + [f] + y + z == x + [f] + (y + z) && x + (y + z) == x + y + z;
    KeptWithout(x, f, y + z);
    assert forall g :: g in y || g in z ==> g in y + z;
    KeptWithout(x + y, f, z);
  }

  lemma MovedIndices(x: seq<Field>, f: Field, y: seq<Field>, z: seq<Field>)
    requires f !in x && f !in y + z && y != []
    ensures MovedTo(x + [f] + y + z, x + y + [f] + z, f, |x|, |x| + |y|)
  {
    assert forall g :: g in y ==> g in y + z;
    assert forall g :: g in z ==> g in y + z;
    var j := |x| + |y|;
    assert (x + [f] + y + z)[j] == y[|y| - 1] && (x + y + [f] + z)[j - 1] == y[|y| - 1];
  }

  lemma OnlyOnce(x: seq<Field>, f: Field, z: seq<Field>)
    requires Distinct(x + [f] + z)
    ensures f !in x && f !in z
  {
    var s := x + [f] + z;
    assert s[|x|] == f;
    forall i | 0 <= i < |x| ensures x[i] != f { assert s[i] == x[i]; }
    forall i | 0 <= i < |z| ensures z[i] != f { assert s[|x| + 1 + i] == z[i]; }
  }

  lemma KeptWithout(x: seq<Field>, f: Field, z: seq<Field>)
    requires f !in x && f !in z
    ensures Kept(x + [f] + z, [f], []) == x + z
  {
    KeptOmits(x, [f], z, [f]);
  }

  ghost predicate NoneIn(s: seq<Field>, a: seq<Field>) { forall f :: f in s ==> f !in a }

  ghost predicate AllIn(s: seq<Field>, a: seq<Field>) { forall f :: f in s ==> f in a }

  lemma KeptOmits(x: seq<Field>, y: seq<Field>, z: seq<Field>, a: seq<Field>)
    requires NoneIn(x, a) && NoneIn(z, a) && AllIn(y, a)
    ensures Kept(x + y + z, a, []) == x + z
  {
    KeptConcat(x + y, z, a, []);
    KeptConcat(x, y, a, []);
    KeptAll(x, a, []);
    KeptAll(z, a, []);
    KeptNone(y, a);
  }

  lemma {:induction false} KeptNone(s: seq<Field>, a: seq<Field>)
    requires AllIn(s, a)
    ensures Kept(s, a, []) == []
  {
    if s != [] {
      assert s[|s| - 1] in s && AllIn(s[..|s| - 1], a);
      KeptNone(s[..|s| - 1], a);
    }
  }

  /** `f` is at `i` in `c` and later, at `j`, in `r`, and nowhere else. */
  ghost predicate MovedTo(c: seq<Field>, r: seq<Field>, f: Field, i: nat, j: nat) {
    && i < j < |c| && j < |r| && c[i] == f && r[j] == f && c[j] == r[j - 1]
    && (forall k :: 0 <= k < |c| && k != i ==> c[k] != f)
    && (forall k :: 0 <= k < |r| && k != j ==> r[k] != f)
  }

  lemma MoveIsNotNeedless(c: seq<Field>, r: seq<Field>, f: Field, i: nat, j: nat)
    requires MovedTo(c, r, f, i, j) && Distinct(c)
    ensures !SwapInOrder(c, r, [f]) && !SwapInOrder(r, c, [f])
  {
    forall start, p, q ensures !InOrderAt(c, r, [f], start, p, q) && !InOrderAt(r, c, [f], start, p, q) { }
  }

  lemma MoveAccepted(c: seq<Field>, r: seq<Field>, f: Field, i: nat, j: nat)
    requires MovedTo(c, r, f, i, j) && Distinct(c) && Kept(c, [f], []) == Kept(r, [f], [])
    ensures Accepts(c, r, [f], []) && Accepts(r, c, [f], [])
  {
    MoveIsNotNeedless(c, r, f, i, j);
    assert c[i] in c && r[j] in r;
  }

  /** For an adjacent exchange, annotating both fields is one annotation too many. */
  lemma AdjacentExchangeRejected(x: seq<Field>, f: Field, g: Field, z: seq<Field>)
    requires Distinct(x + [f, g] + z)
    ensures !Accepts(x + [f, g] + z, x + [g, f] + z, [f, g], [])
  {
    var c, r, s, n := x + [f, g] + z, x + [g, f] + z, [f, g], |x|;
    assert c[n] == f && c[n + 1] == g && r[n] == g && r[n + 1] == f;
    assert n > 0 ==> c[n - 1] == x[n - 1] && r[n - 1] == x[n - 1];
    assert r[..n] == x;
    forall k | 0 <= k < n ensures x[k] != f { assert c[k] == x[k]; }
    assert InOrderAt(c, r, s, n, n + 1, n);
  }
}
