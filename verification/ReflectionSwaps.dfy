/** Which swap annotations could be dropped, and which of those the matcher finds. */
module ReflectionSwaps {
  import opened ReflectionMatcher

  /** The lists agree without the annotation of `f` as well. */
  ghost predicate Droppable(c: seq<Field>, r: seq<Field>, s: seq<Field>, g: seq<Field>, f: Field) {
    f in s && Agrees(c, r, Remove(s, f), g)
  }

  // ----- Kept fields around one field -----

  lemma {:induction false} KeptCongruent(s: seq<Field>, a: seq<Field>, d: seq<Field>, b: seq<Field>)
    requires forall f :: f in s ==> (f in a <==> f in d)
    ensures Kept(s, a, b) == Kept(s, d, b)
  {
    if s != [] {
      var n := |s| - 1;
      assert s[n] in s;
      KeptCongruent(s[..n], a, d, b);
    }
  }

  lemma {:induction false} KeptDistinct(s: seq<Field>, a: seq<Field>, b: seq<Field>)
    requires Distinct(s)
    ensures Distinct(Kept(s, a, b))
  {
    if s != [] {
      var n := |s| - 1;
      KeptDistinct(s[..n], a, b);
      KeptMembers(s[..n], a, b);
      assert s[n] !in s[..n];
      DistinctCons(s[n], Kept(s[..n], a, b));
    }
  }

  lemma SplitAt(s: seq<Field>, i: nat)
    requires Distinct(s) && i < |s|
    ensures s == s[..i] + [s[i]] + s[i + 1..] && s[i] !in s[..i] && s[i] !in s[i + 1..]
  {
  }

  /** Dropping the annotation of the field at `i` puts it between the kept fields before and after it. */
  lemma KeptAround(s: seq<Field>, a: seq<Field>, b: seq<Field>, i: nat)
    requires Distinct(s) && Distinct(a) && i < |s| && s[i] in a && s[i] !in b
    ensures Kept(s, a, b) == Kept(s[..i], a, b) + Kept(s[i + 1..], a, b)
    ensures Kept(s, Remove(a, s[i]), b) == Kept(s[..i], a, b) + [s[i]] + Kept(s[i + 1..], a, b)
  {
    SplitAt(s, i);
    RemoveFacts(a, s[i]);
    KeptParts(s[..i], s[i], s[i + 1..], a, Remove(a, s[i]), b);
  }

  lemma KeptParts(x: seq<Field>, f: Field, y: seq<Field>, a: seq<Field>, d: seq<Field>, b: seq<Field>)
    requires f !in x && f !in y && f in a && f !in b && forall g :: g in d <==> g in a && g != f
    ensures Kept(x + [f] + y, a, b) == Kept(x, a, b) + Kept(y, a, b)
    ensures Kept(x + [f] + y, d, b) == Kept(x, a, b) + [f] + Kept(y, a, b)
  {
    KeptJoin(x, f, y, a, b);
    assert Kept(x, a, b) + [] == Kept(x, a, b);
    KeptJoin(x, f, y, d, b);
    KeptCongruent(x, a, d, b);
    KeptCongruent(y, a, d, b);
  }

  lemma KeptJoin(x: seq<Field>, f: Field, y: seq<Field>, a: seq<Field>, b: seq<Field>)
    ensures Kept(x + [f] + y, a, b) == Kept(x, a, b) + (if f in a || f in b then [] else [f]) + Kept(y, a, b)
  {
    KeptConcat(x + [f], y, a, b);
    KeptConcat(x, [f], a, b);
    assert [f][..0] == [];
    assert Kept([f], a, b) == Kept([], a, b) + if f in a || f in b then [] else [f];
  }

  /** A field that occurs once splits a list in one way only. */
  lemma SplitOnce(x: seq<Field>, y: seq<Field>, u: seq<Field>, w: seq<Field>, f: Field)
    requires x + [f] + y == u + [f] + w && f !in x && f !in y && f !in u
    ensures x == u && y == w
  {
    var s := x + [f] + y;
    assert s[|x|] == f && s[|u|] == f;
    assert x == s[..|x|] && u == s[..|u|] && y == s[|x| + 1..] && w == s[|u| + 1..];
  }

  // ----- Which annotations can be dropped -----

  /** A swapped field at `i` in the class and `j` in the reflection. */
  ghost predicate SwappedAt(c: seq<Field>, r: seq<Field>, s: seq<Field>, i: int, j: int) {
    0 <= i < |c| && 0 <= j < |r| && c[i] == r[j] && c[i] in s
  }

  ghost predicate Agreeing(c: seq<Field>, r: seq<Field>, s: seq<Field>, g: seq<Field>) {
    Distinct(c) && Distinct(r) && Distinct(s) && Agrees(c, r, s, g)
  }

  /** An annotation can be dropped exactly when the same unswapped fields stand before the field in both lists. */
  lemma DroppableIff(c: seq<Field>, r: seq<Field>, s: seq<Field>, g: seq<Field>, i: nat, j: nat)
    requires Agreeing(c, r, s, g) && SwappedAt(c, r, s, i, j)
    ensures Droppable(c, r, s, g, c[i]) <==> Kept(r[..j], s, []) == Kept(c[..i], s, g)
  {
    var f := c[i];
    RemoveFacts(s, f);
    KeptAround(r, s, [], j);
    KeptAround(c, s, g, i);
    SplitAt(r, j);
    SplitAt(c, i);
    var x, y, u, w := Kept(r[..j], s, []), Kept(r[j + 1..], s, []), Kept(c[..i], s, g), Kept(c[i + 1..], s, g);
    KeptMembers(r[..j], s, []);
    KeptMembers(r[j + 1..], s, []);
    KeptMembers(c[..i], s, g);
    if x == u { assert y == (x + y)[|x|..] && w == (u + w)[|u|..]; }
    if Droppable(c, r, s, g, f) { SplitOnce(x, y, u, w, f); }
  }

  /** A kept field has the same kept fields before it in both lists. */
  lemma SameBefore(c: seq<Field>, r: seq<Field>, s: seq<Field>, g: seq<Field>, p: nat, q: nat)
    requires Agreeing(c, r, s, g) && p < |c| && q < |r| && c[p] == r[q] && c[p] !in s
    ensures Kept(r[..q + 1], s, []) == Kept(c[..p + 1], s, g)
  {
    var k := Kept(r, s, []);
    KeptDistinct(r, s, []);
    assert r[q] in r && c[p] !in g;
    KeptPrefix(r, s, [], q);
    KeptPrefix(c, s, g, p);
    var x, u := Kept(r[..q], s, []), Kept(c[..p], s, g);
    assert k[|x|] == r[q] && k[|u|] == c[p];
    assert x == k[..|x|] && u == k[..|u|];
    KeptNext(r, s, [], q);
    KeptNext(c, s, g, p);
  }

  /** What the matcher rejects as a swap in the correct order can always be dropped. */
  lemma InOrderDroppable(c: seq<Field>, r: seq<Field>, s: seq<Field>, g: seq<Field>, start: nat, i: nat, j: nat)
    requires Agreeing(c, r, s, g) && InOrderAt(c, r, s, start, i, j)
    ensures Droppable(c, r, s, g, c[i])
  {
    KeptSame(c, s, g, start, i);
    if j > 0 { SameBefore(c, r, s, g, start - 1, j - 1); }
    DroppableIff(c, r, s, g, i, j);
  }

  /** Lists without an annotation that could be dropped are accepted exactly when they agree. */
  lemma NoneDroppable(c: seq<Field>, r: seq<Field>, s: seq<Field>, g: seq<Field>)
    requires Distinct(c) && Distinct(r) && Distinct(s) && forall f :: !Droppable(c, r, s, g, f)
    ensures Accepts(c, r, s, g) <==> Agrees(c, r, s, g)
  {
    if Agrees(c, r, s, g) {
      forall start, i, j ensures !InOrderAt(c, r, s, start, i, j) {
        if InOrderAt(c, r, s, start, i, j) { InOrderDroppable(c, r, s, g, start, i, j); }
      }
    }
  }

  // ----- Which of them the matcher finds -----

  /** Class field `m` is `a` or stands before it. */
  ghost predicate UpTo(c: seq<Field>, m: int, a: Field) { exists p :: 0 <= m <= p < |c| && c[p] == a }

  /** Nothing, or an unswapped field, is reflected right before the field at `j`; and between that one and the
      field in the class, at `i`, stand only swapped fields that are reflected later. */
  ghost predicate PlainlyInPlace(c: seq<Field>, r: seq<Field>, s: seq<Field>, i: int, j: int) {
    && SwappedAt(c, r, s, i, j) && (j > 0 ==> r[j - 1] !in s)
    && forall m :: 0 <= m < i ==> (j > 0 && UpTo(c, m, r[j - 1])) || (c[m] in s && c[m] !in r[..j])
  }

  /** An unswapped field reflected before one that could be unswapped stands before it in the class as well. */
  lemma StandsBefore(c: seq<Field>, r: seq<Field>, s: seq<Field>, g: seq<Field>, i: nat, j: nat, q: nat)
      returns (p: nat)
    requires Agreeing(c, r, s, g) && SwappedAt(c, r, s, i, j) && Droppable(c, r, s, g, c[i]) && q < j && r[q] !in s
    ensures p < i && c[p] == r[q]
  {
    DroppableIff(c, r, s, g, i, j);
    KeptMembers(r[..j], s, []);
    KeptMembers(c[..i], s, g);
    assert r[..j][q] == r[q];
    assert r[q] in c[..i];
    p :| 0 <= p < i && c[..i][p] == r[q];
  }

  lemma InPlaceInOrder(c: seq<Field>, r: seq<Field>, s: seq<Field>, g: seq<Field>, i: nat, j: nat) returns (start: nat)
    requires Agreeing(c, r, s, g) && PlainlyInPlace(c, r, s, i, j) && Droppable(c, r, s, g, c[i])
    ensures InOrderAt(c, r, s, start, i, j)
  {
    start := StartsAt(c, r, s, g, i, j);
    AfterIt(c, r, s, i, j, start);
  }

  lemma StartsAt(c: seq<Field>, r: seq<Field>, s: seq<Field>, g: seq<Field>, i: nat, j: nat) returns (start: nat)
    requires Agreeing(c, r, s, g) && SwappedAt(c, r, s, i, j) && Droppable(c, r, s, g, c[i])
             && (j > 0 ==> r[j - 1] !in s)
    ensures if j == 0 then start == 0 else 0 < start <= i && c[start - 1] == r[j - 1]
  {
    if j == 0 { return 0; }
    start := StandsBefore(c, r, s, g, i, j, j - 1);
    start := start + 1;
  }

  lemma AfterIt(c: seq<Field>, r: seq<Field>, s: seq<Field>, i: nat, j: nat, start: nat)
    requires Distinct(c) && PlainlyInPlace(c, r, s, i, j)
    requires if j == 0 then start == 0 else 0 < start <= i && c[start - 1] == r[j - 1]
    ensures InOrderAt(c, r, s, start, i, j)
  {
    forall m | start <= m < i ensures c[m] in s && c[m] !in r[..j] {
      assert j > 0 ==> !UpTo(c, m, r[j - 1]);
    }
  }

  lemma InOrderInPlace(c: seq<Field>, r: seq<Field>, s: seq<Field>, start: nat, i: nat, j: nat)
    requires InOrderAt(c, r, s, start, i, j)
    ensures PlainlyInPlace(c, r, s, i, j)
  {
    forall m | 0 <= m < i ensures (j > 0 && UpTo(c, m, r[j - 1])) || (c[m] in s && c[m] !in r[..j]) {
      if m < start { assert 0 <= m <= start - 1 < |c| && c[start - 1] == r[j - 1]; }
    }
  }

  ghost predicate FoundAt(c: seq<Field>, r: seq<Field>, s: seq<Field>, g: seq<Field>, i: int, j: int) {
    PlainlyInPlace(c, r, s, i, j) && Droppable(c, r, s, g, c[i])
  }

  /** Lists that agree are rejected exactly when some annotation that could be dropped is plainly in place. */
  lemma RejectedIff(c: seq<Field>, r: seq<Field>, s: seq<Field>, g: seq<Field>)
    requires Agreeing(c, r, s, g)
    ensures !Accepts(c, r, s, g) <==> exists i, j :: FoundAt(c, r, s, g, i, j)
  {
    if start, i, j :| InOrderAt(c, r, s, start, i, j) {
      InOrderInPlace(c, r, s, start, i, j);
      InOrderDroppable(c, r, s, g, start, i, j);
      assert FoundAt(c, r, s, g, i, j);
    }
    if i, j :| FoundAt(c, r, s, g, i, j) {
      var start := InPlaceInOrder(c, r, s, g, i, j);
    }
  }

  // ----- Annotations that could be dropped and are accepted -----

  function KeptOne(f: Field, a: seq<Field>, b: seq<Field>): seq<Field> { if f in a || f in b then [] else [f] }

  lemma KeptThree(x: Field, y: Field, z: Field, a: seq<Field>, b: seq<Field>)
    ensures Kept([x, y], a, b) == KeptOne(x, a, b) + KeptOne(y, a, b)
    ensures Kept([x, y, z], a, b) == KeptOne(x, a, b) + KeptOne(y, a, b) + KeptOne(z, a, b)
  {
    assert [x] == [] + [x] + [] && [x, y] == [x] + [y] + [] && [x, y, z] == [x, y] + [z] + [];
    KeptJoin([], x, [], a, b);
    KeptJoin([x], y, [], a, b);
    KeptJoin([x, y], z, [], a, b);
  }

  lemma KeptSingle(x: Field, a: seq<Field>, b: seq<Field>)
    ensures Kept([x], a, b) == KeptOne(x, a, b)
  {
    assert [x] == [] + [x] + [];
    KeptJoin([], x, [], a, b);
  }

  /** The field in its place follows an ignored one. */
  lemma NeedlessSwapAccepted(f: Field, g: Field)
    requires f != g
    ensures Accepts([f, g], [g], [g], [f]) && Droppable([f, g], [g], [g], [f], g)
  {
    assert Remove([g], g) == [];
    IgnoredAgrees(f, g, [g]);
    IgnoredAgrees(f, g, []);
    var c := [f, g];
    forall start, i, j ensures !InOrderAt(c, [g], [g], start, i, j) {
      assert c[0] == f && f !in [g];
    }
  }

  lemma IgnoredAgrees(f: Field, g: Field, s: seq<Field>)
    requires f != g && (s == [] || s == [g])
    ensures Agrees([f, g], [g], s, [f])
  {
    KeptThree(f, g, g, s, [f]);
    KeptSingle(g, s, []);
  }

  /** The field in its place follows a swapped one. */
  lemma InPlaceSwapAccepted(a: Field, b: Field, d: Field)
    requires Distinct([a, b, d])
    ensures Accepts([a, b, d], [b, a, d], [a, d], []) && Droppable([a, b, d], [b, a, d], [a, d], [], d)
  {
    var c, r, s := [a, b, d], [b, a, d], [a, d];
    assert c[0] == a && c[1] == b && c[2] == d;
    assert Remove([d], d) == [] && s[1..] == [d] && Remove(s, d) == [a];
    ExchangeAgrees(a, b, d, s);
    ExchangeAgrees(a, b, d, [a]);
    forall start, i, j ensures !InOrderAt(c, r, s, start, i, j) { }
  }

  lemma ExchangeAgrees(a: Field, b: Field, d: Field, s: seq<Field>)
    requires a != b && (s == [a] || s == [a, d]) && b != d
    ensures Agrees([a, b, d], [b, a, d], s, [])
  {
    KeptThree(a, b, d, s, []);
    KeptThree(b, a, d, s, []);
  }

  /** An ignored field before it is not enough: this annotation is found. */
  lemma NeedlessSwapRejected(f: Field, h: Field, g: Field)
    requires Distinct([f, h, g])
    ensures Agrees([f, h, g], [h, g], [g], [f]) && !Accepts([f, h, g], [h, g], [g], [f])
  {
    var c, r := [f, h, g], [h, g];
    assert c[0] == f && c[1] == h && c[2] == g && r[0] == h && r[1] == g;
    KeptThree(f, h, g, [g], [f]);
    KeptThree(h, g, g, [g], []);
    assert InOrderAt(c, r, [g], 2, 2, 1);
  }
}
