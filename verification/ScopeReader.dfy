/** Reading the brace scopes of a source text. */
module ScopeReader {
  import opened Wrappers

  // ----- Matching braces by counting depth -----

  /** Where `d` open braces are closed, scanning from `i`. */
  function Close(s: string, i: nat, d: nat): (r: Option<nat>)
    requires i <= |s| && 1 <= d
    ensures r.Some? ==> i <= r.value < |s| && s[r.value] == '}'
    decreases |s| - i
  {
    if i == |s| then None
    else if s[i] == '{' then Close(s, i + 1, d + 1)
    else if s[i] == '}' then (if d == 1 then Some(i) else Close(s, i + 1, d - 1))
    else Close(s, i + 1, d)
  }

  /** The brace that closes the one at `p`. */
  function Match(s: string, p: nat): Option<nat>
    requires p < |s|
  {
    Close(s, p + 1, 1)
  }

  /** Closing `k + d` braces is closing `k` and then `d`. */
  lemma {:induction false} CloseCompose(s: string, i: nat, k: nat, d: nat)
    requires i <= |s| && 1 <= k && 1 <= d
    ensures Close(s, i, k + d) == if Close(s, i, k).Some? then Close(s, Close(s, i, k).value + 1, d) else None
    decreases |s| - i
  {
    if i < |s| {
      if s[i] == '{' {
        CloseCompose(s, i + 1, k + 1, d);
      } else if s[i] != '}' {
        CloseCompose(s, i + 1, k, d);
      } else if k > 1 {
        CloseCompose(s, i + 1, k - 1, d);
      }
    }
  }

  lemma {:induction false} NoBraces(s: string, i: nat, j: nat, d: nat)
    requires i <= j <= |s| && 1 <= d && forall k :: i <= k < j ==> s[k] != '{' && s[k] != '}'
    ensures Close(s, i, d) == Close(s, j, d)
    decreases j - i
  {
    if i < j { NoBraces(s, i + 1, j, d); }
  }

  // ----- The scopes of a text -----

  datatype Span = Span(start: nat, end: nat, children: seq<Span>)

  /** The outermost matched braces of `s[i..j]`, each with those inside it. */
  function Spans(s: string, i: nat, j: nat): seq<Span>
    requires i <= j <= |s|
    decreases j - i
  {
    if i == j then []
    else if s[i] == '{' && Match(s, i).Some? && Match(s, i).value < j then
      var m := Match(s, i).value;
      [Span(i, m, Spans(s, i + 1, m))] + Spans(s, m + 1, j)
    else Spans(s, i + 1, j)
  }

  /** Every brace of a forest of scopes, with the brace recorded as its end. */
  function Pairs(spans: seq<Span>): set<(nat, nat)> {
    if spans == [] then {} else {(spans[0].start, spans[0].end)} + Pairs(spans[0].children) + Pairs(spans[1..])
  }

  lemma PairsCons(x: Span, rest: seq<Span>)
    ensures Pairs([x] + rest) == {(x.start, x.end)} + Pairs(x.children) + Pairs(rest)
  {
    assert ([x] + rest)[1..] == rest;
  }

  /** `m` closes the brace at `b`, both between `i` and `j`. */
  ghost predicate ClosedIn(s: string, i: nat, j: nat, b: nat, m: nat) {
    i <= b < j <= |s| && s[b] == '{' && Match(s, b) == Some(m) && m < j
  }

  /** The scopes of a stretch of text are exactly its braces that are closed in it, each with its closing brace. */
  lemma {:induction false} PairsAreMatches(s: string, i: nat, j: nat, b: nat, m: nat)
    requires i <= j <= |s|
    ensures (b, m) in Pairs(Spans(s, i, j)) <==> ClosedIn(s, i, j, b, m)
    decreases j - i
  {
    if i < j {
      if s[i] == '{' && Match(s, i).Some? && Match(s, i).value < j {
        var e := Match(s, i).value;
        PairsCons(Span(i, e, Spans(s, i + 1, e)), Spans(s, e + 1, j));
        PairsAreMatches(s, i + 1, e, b, m);
        PairsAreMatches(s, e + 1, j, b, m);
        ClosedSplits(s, i, e, j, b, m);
      } else {
        PairsAreMatches(s, i + 1, j, b, m);
      }
    }
  }

  /** Scopes one after the other between `i` and `j`, each around its children. */
  predicate Nested(spans: seq<Span>, i: nat, j: nat) {
    spans == [] ||
    var x := spans[0];
    && i <= x.start < x.end < j
    && Nested(x.children, x.start + 1, x.end) && Nested(spans[1..], x.end + 1, j)
  }

  /** So the tree of scopes is fixed: children lie inside their scope, and scopes next to each other are in order. */
  lemma {:induction false} SpansNested(s: string, i: nat, j: nat)
    requires i <= j <= |s|
    ensures Nested(Spans(s, i, j), i, j)
    decreases j - i
  {
    if i < j {
      if s[i] == '{' && Match(s, i).Some? && Match(s, i).value < j {
        var e := Match(s, i).value;
        SpansNested(s, i + 1, e);
        SpansNested(s, e + 1, j);
        assert ([Span(i, e, Spans(s, i + 1, e))] + Spans(s, e + 1, j))[1..] == Spans(s, e + 1, j);
      } else {
        SpansNested(s, i + 1, j);
        NestedWithin(Spans(s, i + 1, j), i + 1, i, j);
      }
    }
  }

  lemma NestedWithin(spans: seq<Span>, i: nat, k: nat, j: nat)
    requires Nested(spans, i, j) && k <= i
    ensures Nested(spans, k, j)
  {
  }

  lemma ClosedSplits(s: string, i: nat, e: nat, j: nat, b: nat, m: nat)
    requires i < e < j <= |s| && s[i] == '{' && Match(s, i) == Some(e)
    ensures ClosedIn(s, i, j, b, m) <==>
              (b == i && m == e) || ClosedIn(s, i + 1, e, b, m) || ClosedIn(s, e + 1, j, b, m)
  {
    if i < b < e && s[b] == '{' { MatchInside(s, i, e, b); }
  }

  /** A brace inside a closed scope is closed inside it. */
  lemma MatchInside(s: string, p: nat, e: nat, b: nat)
    requires p < |s| && Match(s, p) == Some(e) && p < b < e && s[b] == '{'
    ensures Match(s, b).Some? && Match(s, b).value < e
  {
    CloseInside(s, p + 1, 1, e, b);
  }

  lemma {:induction false} CloseInside(s: string, i: nat, d: nat, e: nat, b: nat)
    requires i <= |s| && 1 <= d && Close(s, i, d) == Some(e) && i <= b < e && s[b] == '{'
    ensures Match(s, b).Some? && Match(s, b).value < e
    decreases |s| - i
  {
    if i == b {
      CloseCompose(s, b + 1, 1, d);
    } else if s[i] == '{' {
      CloseInside(s, i + 1, d + 1, e, b);
    } else if s[i] == '}' {
      CloseInside(s, i + 1, d - 1, e, b);
    } else {
      CloseInside(s, i + 1, d, e, b);
    }
  }

  // ----- Searching -----

  /** The first `c` in `s[i..hi]`. */
  function Find(s: string, c: char, i: nat, hi: nat): (r: Option<nat>)
    requires hi <= |s|
    ensures r.Some? ==> i <= r.value < hi && s[r.value] == c && forall k :: i <= k < r.value ==> s[k] != c
    ensures r.None? ==> forall k :: i <= k < hi ==> s[k] != c
    decreases hi - i
  {
    if i >= hi then None else if s[i] == c then Some(i) else Find(s, c, i + 1, hi)
  }

  predicate IsSpace(c: char) { c in " \t\n\r" || c == '\U{000B}' || c == '\U{000C}' }

  function SkipSpace(s: string, i: nat): (r: nat)
    requires i <= |s|
    ensures i <= r <= |s|
    decreases |s| - i
  {
    if i < |s| && IsSpace(s[i]) then SkipSpace(s, i + 1) else i
  }

  /** From inside an initializer, the end of its closing brace, unless a `;` comes first. */
  function InitializerBody(s: string, i: nat): (r: Option<nat>)
    requires i <= |s|
    ensures r.Some? ==> i < r.value <= |s|
    decreases |s| - i
  {
    if i == |s| || s[i] == ';' then None else if s[i] == '}' then Some(i + 1) else InitializerBody(s, i + 1)
  }

  /** The end of a field initializer `{...};` that starts at `i`. */
  function InitializerAt(s: string, i: nat): (r: Option<nat>)
    requires i < |s|
    ensures r.Some? ==> i < r.value <= |s| && s[i] == '{'
  {
    if s[i] != '{' || InitializerBody(s, i + 1).None? then None
    else
      var k := SkipSpace(s, InitializerBody(s, i + 1).value);
      if k < |s| && s[k] == ';' then Some(k + 1) else None
  }

  /** The first field initializer at or after `i`. */
  function FirstInitializer(s: string, i: nat): (r: Option<nat>)
    requires i <= |s|
    ensures r.Some? ==> i <= r.value < |s| && InitializerAt(s, r.value).Some?
    decreases |s| - i
  {
    if i == |s| then None else if InitializerAt(s, i).Some? then Some(i) else FirstInitializer(s, i + 1)
  }

  /** `find_possible_end`: the next closing brace, or the one after an initializer that encloses it. */
  function PossibleEnd(s: string, current: nat): (r: Option<nat>)
    requires current <= |s|
    ensures r.Some? ==> current <= r.value < |s|
  {
    var possible := Find(s, '}', current, |s|);
    var skip := FirstInitializer(s, current);
    if possible.Some? && skip.Some? && skip.value < possible.value < InitializerAt(s, skip.value).value
    then Find(s, '}', InitializerAt(s, skip.value).value + 1, |s|)
    else possible
  }

  /** How far the text is searched for the next scope: without a possible end, all but its last character. */
  function Bound(s: string, end: Option<nat>): (r: nat)
    requires end.Some? ==> end.value < |s|
    ensures r <= |s|
  {
    if end.Some? then end.value else if |s| == 0 then 0 else |s| - 1
  }

  /** The brace of the next scope. */
  function NextOpen(s: string, current: nat): (r: Option<nat>)
    requires current <= |s|
    ensures r.Some? ==> current <= r.value < |s| && s[r.value] == '{'
  {
    Find(s, '{', current, Bound(s, PossibleEnd(s, current)))
  }

  lemma {:induction false} FindAgrees(s: string, c: char, i: nat, hi: nat, r: nat)
    requires hi <= |s| && i <= r < hi && s[r] == c && forall k :: i <= k < r ==> s[k] != c
    ensures Find(s, c, i, hi) == Some(r)
    decreases hi - i
  {
    if i < r { FindAgrees(s, c, i + 1, hi, r); }
  }

  /** Skipping initializers never changes which scope is entered: while there is a closing brace ahead, the
      next scope is the first opening brace before it. */
  lemma SkipIsHarmless(s: string, current: nat)
    requires current <= |s| && Find(s, '}', current, |s|).Some?
    ensures NextOpen(s, current) == Find(s, '{', current, Find(s, '}', current, |s|).value)
  {
    var possible := Find(s, '}', current, |s|).value;
    var skip := FirstInitializer(s, current);
    if skip.Some? && skip.value < possible < InitializerAt(s, skip.value).value {
      var bound := Bound(s, PossibleEnd(s, current));
      var first := Find(s, '{', current, possible);
      assert first.Some? && first.value <= skip.value;
      BoundPast(s, current, possible);
      FindAgrees(s, '{', current, bound, first.value);
    }
  }

  lemma BoundPast(s: string, current: nat, possible: nat)
    requires current <= |s| && Find(s, '}', current, |s|) == Some(possible)
    requires var skip := FirstInitializer(s, current);
             skip.Some? && skip.value < possible < InitializerAt(s, skip.value).value
    ensures possible <= Bound(s, PossibleEnd(s, current))
  {
  }

  // ----- Reading -----

  /** Where reading from `i` stops: at the brace that closes the enclosing scope, or at the end of the text. */
  function Stop(s: string, i: nat): (r: nat)
    requires i <= |s|
    ensures i <= r <= |s|
  {
    if Close(s, i, 1).Some? then Close(s, i, 1).value else |s|
  }

  lemma {:induction false} SpansSkip(s: string, i: nat, j: nat, x: nat)
    requires i <= j <= x <= |s| && forall k :: i <= k < j ==> s[k] != '{'
    ensures Spans(s, i, x) == Spans(s, j, x)
    decreases j - i
  {
    if i < j { SpansSkip(s, i + 1, j, x); }
  }

  lemma {:induction false} NeverClosed(s: string, i: nat, d: nat)
    requires i <= |s| && 1 <= d && forall k :: i <= k < |s| ==> s[k] != '}'
    ensures Close(s, i, d).None?
    decreases |s| - i
  {
    if i < |s| { NeverClosed(s, i + 1, if s[i] == '{' then d + 1 else d); }
  }

  /** The next scope is entered at the first brace, which is an opening one. */
  lemma NextIsFirst(s: string, current: nat, c: nat)
    requires current <= |s| && NextOpen(s, current) == Some(c)
    ensures forall k :: current <= k < c ==> s[k] != '{' && s[k] != '}'
  {
    if Find(s, '}', current, |s|).Some? { SkipIsHarmless(s, current); }
  }

  /** Its closing brace decides how reading goes on. */
  lemma NextScopeIs(s: string, current: nat, c: nat)
    requires current <= |s| && NextOpen(s, current) == Some(c)
    ensures Match(s, c).None? ==> Close(s, current, 1).None?
    ensures Match(s, c).Some? ==>
              var m := Match(s, c).value;
              && Close(s, m + 1, 1) == Close(s, current, 1) && m < Stop(s, current)
  {
    NextIsFirst(s, current, c);
    NoBraces(s, current, c, 1);
    CloseCompose(s, c + 1, 1, 1);
  }

  lemma NextSpan(s: string, current: nat, c: nat, m: nat, x: nat)
    requires current <= |s| && NextOpen(s, current) == Some(c) && Match(s, c) == Some(m) && m < x <= |s|
    ensures Spans(s, current, x) == [Span(c, m, Spans(s, c + 1, m))] + Spans(s, m + 1, x)
  {
    NextIsFirst(s, current, c);
    SpansSkip(s, current, c, x);
  }

  /** Without a next scope, the first closing brace closes the enclosing scope. */
  lemma NoNextScope(s: string, current: nat)
    requires current <= |s| && (NextOpen(s, current).None? || |s| <= current + 1)
    ensures Close(s, current, 1) == Find(s, '}', current, |s|)
    ensures Spans(s, current, Stop(s, current)) == []
  {
    var f := Find(s, '}', current, |s|);
    if f.Some? {
      SkipIsHarmless(s, current);
      NoBraces(s, current, f.value, 1);
      SpansSkip(s, current, f.value, f.value);
    } else {
      NeverClosed(s, current, 1);
      var last := if current < |s| then |s| - 1 else current;
      SpansSkip(s, current, last, |s|);
    }
  }

  /** Whether the next scope, if any, is closed. */
  predicate NextIsClosed(s: string, current: nat)
    requires current <= |s|
  {
    NextOpen(s, current).None? || Match(s, NextOpen(s, current).value).Some?
  }

  function NextSpanOf(s: string, current: nat): Option<Span>
    requires current <= |s| && NextIsClosed(s, current)
  {
    if NextOpen(s, current).None? then None
    else
      var c := NextOpen(s, current).value;
      var m := Match(s, c).value;
      Some(Span(c, m, Spans(s, c + 1, m)))
  }

  /** Reading from `i` to `x` has got to `current`, with `children` so far. */
  ghost predicate Reading(s: string, i: nat, current: nat, children: seq<Span>, x: nat) {
    && i <= current <= x <= |s| && Close(s, current, 1) == Close(s, i, 1) && x == Stop(s, i)
    && Spans(s, i, x) == children + Spans(s, current, x)
  }

  /** Every opening brace from `i` up to `j` is closed somewhere. */
  ghost predicate ClosedUpTo(s: string, i: nat, j: nat) {
    j <= |s| && forall b :: i <= b < j && s[b] == '{' ==> Match(s, b).Some?
  }

  lemma ClosedThrough(s: string, i: nat, current: nat, next: Span)
    requires ClosedUpTo(s, i, current) && NextIsClosed(s, current) && NextSpanOf(s, current) == Some(next)
    ensures ClosedUpTo(s, i, next.end + 1)
  {
    var c, m := next.start, next.end;
    NextIsFirst(s, current, c);
    forall b | i <= b < m + 1 && s[b] == '{' ensures Match(s, b).Some? {
      if c < b < m { MatchInside(s, c, m, b); }
    }
  }

  /** Some brace at or after `i`, other than the last character, is never closed. */
  ghost predicate HasUnclosed(s: string, i: nat) {
    exists b :: i <= b < |s| - 1 && s[b] == '{' && Match(s, b).None?
  }

  lemma ReadingStarts(s: string, i: nat)
    requires i <= |s|
    ensures Reading(s, i, i, [], Stop(s, i))
  {
  }

  lemma ReadingFails(s: string, i: nat, current: nat, children: seq<Span>, x: nat)
    requires Reading(s, i, current, children, x) && !NextIsClosed(s, current)
    ensures Close(s, i, 1).None? && HasUnclosed(s, i)
  {
    var c := NextOpen(s, current).value;
    NextScopeIs(s, current, c);
    assert c < |s| - 1;
  }

  lemma StepPosition(s: string, i: nat, current: nat, x: nat, next: Span)
    requires i <= current <= x <= |s| && Close(s, current, 1) == Close(s, i, 1) && x == Stop(s, i)
    requires NextIsClosed(s, current) && NextSpanOf(s, current) == Some(next)
    ensures current < next.end + 1 <= x && Close(s, next.end + 1, 1) == Close(s, i, 1)
  {
    NextScopeIs(s, current, next.start);
  }

  lemma StepSpans(s: string, current: nat, x: nat, next: Span)
    requires current <= next.end < x <= |s| && NextIsClosed(s, current) && NextSpanOf(s, current) == Some(next)
    ensures Spans(s, current, x) == [next] + Spans(s, next.end + 1, x)
  {
    NextSpan(s, current, next.start, next.end, x);
  }

  lemma ReadingStep(s: string, i: nat, current: nat, children: seq<Span>, x: nat, next: Span)
    requires Reading(s, i, current, children, x) && NextIsClosed(s, current) && NextSpanOf(s, current) == Some(next)
    ensures Reading(s, i, next.end + 1, children + [next], x) && current < next.end + 1
  {
    StepPosition(s, i, current, x, next);
    StepSpans(s, current, x, next);
    Reassociate(children, next, Spans(s, next.end + 1, x), Spans(s, current, x), Spans(s, i, x));
  }

  lemma Reassociate(a: seq<Span>, b: Span, c: seq<Span>, bc: seq<Span>, abc: seq<Span>)
    requires bc == [b] + c && abc == a + bc
    ensures abc == (a + [b]) + c
  {
  }

  lemma ReadingEnds(s: string, i: nat, current: nat, children: seq<Span>, x: nat)
    requires Reading(s, i, current, children, x) && ClosedUpTo(s, i, current)
             && (NextOpen(s, current).None? || |s| <= current + 1)
    ensures Find(s, '}', current, |s|) == Close(s, i, 1) && children == Spans(s, i, x)
    ensures Close(s, i, 1).Some? || !HasUnclosed(s, i)
  {
    NoNextScope(s, current);
    if Find(s, '}', current, |s|).None? && |s| > current + 1 {
      assert forall b :: current <= b < |s| - 1 ==> s[b] != '{';
    }
  }

  /** The loop of `read`: what was read, and that nothing read was left open. */
  ghost predicate ReadTo(s: string, i: nat, current: nat, children: seq<Span>) {
    i <= |s| && Reading(s, i, current, children, Stop(s, i)) && ClosedUpTo(s, i, current)
  }

  lemma ReadToStep(s: string, i: nat, current: nat, children: seq<Span>)
    requires ReadTo(s, i, current, children)
    ensures if !NextIsClosed(s, current) then Close(s, i, 1).None? && HasUnclosed(s, i)
            else NextSpanOf(s, current).Some? ==>
                   var next := NextSpanOf(s, current).value;
                   ReadTo(s, i, next.end + 1, children + [next]) && current < next.end + 1
  {
    if !NextIsClosed(s, current) {
      ReadingFails(s, i, current, children, Stop(s, i));
    } else if NextSpanOf(s, current).Some? {
      ReadingStep(s, i, current, children, Stop(s, i), NextSpanOf(s, current).value);
      ClosedThrough(s, i, current, NextSpanOf(s, current).value);
    }
  }

  lemma ReadToNext(s: string, i: nat, from: nat, before: seq<Span>, next: Span, current: nat, children: seq<Span>)
    requires ReadTo(s, i, from, before) && NextIsClosed(s, from) && NextSpanOf(s, from) == Some(next)
    requires current == next.end + 1 && children == before + [next]
    ensures ReadTo(s, i, current, children) && from < current
  {
    ReadToStep(s, i, from, before);
  }

  /** A scope being read.  The scope that starts at position 0 stands for the whole text. */
  class Scope {
    const content: string
    const start: nat
    var current: nat
    var end: Option<int>
    var children: seq<Span>

    constructor (content: string, start: nat)
      ensures this.content == content && this.start == start && Unread()
    {
      this.content, this.start, current, children := content, start, start + 1, [];
      end := if start == 0 then Some(|content| - 1) else None;
    }

    predicate Unread()
      reads this
    {
      current == start + 1 && children == [] && end == if start == 0 then Some(|content| - 1) else None
    }

    /** Enters and reads the next scope, if there is one before the possible end. */
    method NextScope() returns (r: Option<Span>, ok: bool)
      requires start < current <= |content|
      modifies this`current
      ensures ok == NextIsClosed(content, old(current))
      ensures ok ==> r == NextSpanOf(content, old(current)) && current == if r.Some? then r.value.end + 1
              else old(current)
      decreases |content| - current, 2
    {
      var open := NextOpen(content, current);
      if open.None? { return None, true; }
      var scope := new Scope(content, open.value);
      ok := scope.Read();
      if !ok { return None, false; }
      current := scope.end.value + 1;
      r := Some(Span(open.value, scope.end.value, scope.children));
    }

    /** Reads the scopes inside, until there is none before the possible end. */
    method ReadChildren() returns (ok: bool)
      requires Unread() && start < |content|
      modifies this`current, this`children
      ensures ok <==> Close(content, start + 1, 1).Some? || !HasUnclosed(content, start + 1)
      ensures ok ==> start < current <= |content| && children == Spans(content, start + 1, Stop(content, start + 1))
      ensures ok ==> Find(content, '}', current, |content|) == Close(content, start + 1, 1)
      decreases |content| - start, 0
    {
      ReadingStarts(content, start + 1);
      while current + 1 < |content|
        invariant start < current && ReadTo(content, start + 1, current, children)
        decreases |content| - current
      {
        ghost var from, before := current, children;
        var next, found := NextScope();
        if !found {
          ReadToStep(content, start + 1, from, before);
          return false;
        }
        if next.None? { break; }
        children := children + [next.value];
        ReadToNext(content, start + 1, from, before, next.value, current, children);
      }
      ReadingEnds(content, start + 1, current, children, Stop(content, start + 1));
      return true;
    }

    /** Reads a scope that starts with a brace: it succeeds exactly when that brace is closed, and then `end` is
        the brace that closes it and the children are the scopes inside.  Reading the whole text stops at
        the first closing brace that nothing opens, or at its end, and fails exactly when it goes to the end
        and some brace before the last character is never closed. */
    method Read() returns (ok: bool)
      requires Unread() && (start == 0 || (start < |content| && content[start] == '{'))
      modifies this
      ensures start > 0 ==> ok == Match(content, start).Some?
      ensures start > 0 && ok ==>
                && end == Some(Match(content, start).value)
                && children == Spans(content, start + 1, Match(content, start).value)
      ensures start == 0 && content != [] && ok ==> children == Spans(content, 1, Stop(content, 1))
      ensures start == 0 && content != [] ==> (ok <==> Close(content, 1, 1).Some? || !HasUnclosed(content, 1))
      decreases |content| - start, 1
    {
      if content == "" { return true; }
      ok := ReadChildren();
      if ok && end.None? {
        var close := Find(content, '}', current, |content|);
        if close.None? { return false; }
        end := Some(close.value);
      }
    }
  }
}
