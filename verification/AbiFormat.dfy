/** The wire format, stated on bytes without packing anything, and that packing gives exactly it. */
module AbiFormat {
  import opened Wrappers
  import opened AbiSerializer
  import opened AbiValues
  import opened AbiNumbers

  function Concat(parts: seq<seq<Byte>>): seq<Byte> {
    if parts == [] then [] else parts[0] + Concat(parts[1..])
  }

  // ----- The layout of a struct -----

  /** A place for a field: `own` tells the fields of the struct itself from those of its bases, and `last` marks
      the last field of a struct. */
  datatype Slot = Slot(field: Field, depth: nat, own: bool, last: bool)

  function Slots(fields: seq<Field>, depth: nat): (r: seq<Slot>)
    ensures |r| == |fields|
    ensures forall i :: 0 <= i < |r| ==> r[i] == Slot(fields[i], depth, true, i == |fields| - 1)
  {
    seq(|fields|, i requires 0 <= i < |fields| => Slot(fields[i], depth, true, i == |fields| - 1))
  }

  function Inherited(slots: seq<Slot>): (r: seq<Slot>)
    ensures |r| == |slots| && forall i :: 0 <= i < |r| ==> r[i] == slots[i].(own := false)
  {
    seq(|slots|, i requires 0 <= i < |slots| => slots[i].(own := false))
  }

  predicate Fit(slots: seq<Slot>, depth: nat) { forall i :: 0 <= i < |slots| ==> slots[i].depth <= depth }

  /** The fields of the bases, then those of the struct; `None` if a base is missing or too deep. */
  function Layout(abi: Abi, depth: nat, name: Name): (r: Option<seq<Slot>>)
    requires name in abi.structs
    ensures r.Some? ==> Fit(r.value, depth)
    decreases depth
  {
    var s := abi.structs[name];
    if s.base.None? then Some(Slots(s.fields, depth))
    else if depth == 0 || s.base.value !in abi.structs then None
    else
      var base := Layout(abi, depth - 1, s.base.value);
      if base.None? then None else Some(Inherited(base.value) + Slots(s.fields, depth))
  }

  // ----- The format -----

  /** Texts have at most 20 MiB, arrays of built-in types at most 2^20 items and others as many as a size can tell. */
  predicate FitsText(n: nat) { n <= 0x140_0000 }

  predicate FitsArray(elem: Type, n: nat) { if elem.UInt? || elem.Text? then n <= 0x10_0000 else n < 0x1_0000_0000 }

  ghost predicate StartsWithSize(b: seq<Byte>, k: nat, n: nat) { k <= |b| && IsSize(b[..k], n) }

  predicate FirstWithTag(alternatives: seq<Alternative>, tag: Name, i: nat) {
    && i < |alternatives| && alternatives[i].tag == tag
    && forall j :: 0 <= j < i ==> alternatives[j].tag != tag
  }

  /** `b` is the encoding of `v`; `ext` says whether trailing binary extensions may be left out. */
  ghost predicate Encodes(abi: Abi, depth: nat, t: Type, v: Value, ext: bool, b: seq<Byte>)
    decreases depth, 1
  {
    depth > 0 &&
    match t
    case UInt(w) => v.Num? && IsInt(b, w, v.n)
    case Text => v.Str? && FitsText(|v.s|) && exists k: nat :: StartsWithSize(b, k, |v.s|) && b[k..] == v.s
    case FixedArray(n, e) => v.Arr? && |v.items| == n && EncodesItems(abi, depth - 1, e, v.items, b)
    case Array(e) =>
      && v.Arr? && FitsArray(e, |v.items|)
      && exists k: nat :: StartsWithSize(b, k, |v.items|) && EncodesItems(abi, depth - 1, e, v.items, b[k..])
    case Optional(e) =>
      b != [] && if v.Null? then b == [0] else b[0] == 1 && Encodes(abi, depth - 1, e, v, ext, b[1..])
    case Named(name) =>
      if name in abi.variants then EncodesVariant(abi, depth, abi.variants[name], v, ext, b)
      else && name in abi.structs
           && if v.Obj? then EncodesObject(abi, depth - 1, name, v.members, ext, b)
              else v.Arr? && abi.structs[name].base.None?
                   && EncodesArray(abi, depth - 1, abi.structs[name].fields, v.items, ext, b)
  }

  /** The index of the first alternative with the tag, then the value. */
  ghost predicate EncodesVariant(abi: Abi, depth: nat, alternatives: seq<Alternative>, v: Value, ext: bool,
                                 b: seq<Byte>)
    requires depth > 0
    decreases depth, 0
  {
    && v.Arr? && |v.items| == 2 && v.items[0].Str?
    && exists i: nat, k: nat ::
         && FirstWithTag(alternatives, v.items[0].s, i) && StartsWithSize(b, k, i)
         && Encodes(abi, depth - 1, alternatives[i].typ, v.items[1], ext, b[k..])
  }

  ghost predicate EncodesItems(abi: Abi, depth: nat, t: Type, items: seq<Value>, b: seq<Byte>)
    decreases depth, 4
  {
    exists parts :: ItemParts(abi, depth, t, items, parts) && Concat(parts) == b
  }

  ghost predicate ItemParts(abi: Abi, depth: nat, t: Type, items: seq<Value>, parts: seq<seq<Byte>>)
    decreases depth, 3
  {
    |parts| == |items| && forall i :: ItemPart(abi, depth, t, items, parts, i)
  }

  ghost predicate ItemPart(abi: Abi, depth: nat, t: Type, items: seq<Value>, parts: seq<seq<Byte>>, i: int)
    requires |parts| == |items|
    decreases depth, 2
  {
    0 <= i < |items| ==> Encodes(abi, depth, t, items[i], false, parts[i])
  }

  /** A part for each place of the layout, and no field given after one that is left out. */
  ghost predicate EncodesObject(abi: Abi, depth: nat, name: Name, o: seq<Member>, ext: bool, b: seq<Byte>)
    requires name in abi.structs
    decreases depth, 4
  {
    var slots := Layout(abi, depth, name);
    && slots.Some? && OmittedLast(slots.value, o)
    && exists parts :: SlotParts(abi, depth, slots.value, o, ext, parts) && Concat(parts) == b
  }

  ghost predicate OmittedLast(slots: seq<Slot>, o: seq<Member>) {
    forall i, j :: 0 <= i < j < |slots| && !Kept(o, slots[i].field) ==> !Kept(o, slots[j].field)
  }

  ghost predicate SlotParts(abi: Abi, depth: nat, slots: seq<Slot>, o: seq<Member>, ext: bool, parts: seq<seq<Byte>>)
    requires Fit(slots, depth)
    decreases depth, 3
  {
    |parts| == |slots| && forall i :: 0 <= i < |slots| ==> SlotPart(abi, slots[i], o, ext, parts[i])
  }

  /** A given or optional field is encoded; only an extension of the struct itself can be left out. */
  ghost predicate SlotPart(abi: Abi, slot: Slot, o: seq<Member>, ext: bool, part: seq<Byte>)
    decreases slot.depth, 2
  {
    if Kept(o, slot.field) then
      Encodes(abi, slot.depth, slot.field.typ, Given(o, slot.field), ext && slot.own && slot.last, part)
    else slot.field.extension && ext && slot.own && part == []
  }

  /** The items are the fields in order; what is missing at the end starts with an extension. */
  ghost predicate EncodesArray(abi: Abi, depth: nat, fields: seq<Field>, items: seq<Value>, ext: bool, b: seq<Byte>)
    decreases depth, 3
  {
    && (|items| < |fields| ==> fields[|items|].extension && ext)
    && exists parts :: ArrayParts(abi, depth, fields, items, ext, parts) && Concat(parts) == b
  }

  ghost predicate ArrayParts(abi: Abi, depth: nat, fields: seq<Field>, items: seq<Value>, ext: bool,
                             parts: seq<seq<Byte>>)
    decreases depth, 2
  {
    && |parts| == (if |items| < |fields| then |items| else |fields|)
    && forall i :: 0 <= i < |parts| ==>
         Encodes(abi, depth, fields[i].typ, items[i], ext && i == |fields| - 1, parts[i])
  }

  // ----- Parts -----

  lemma {:induction false} ConcatJoin(a: seq<seq<Byte>>, b: seq<seq<Byte>>)
    ensures Concat(a + b) == Concat(a) + Concat(b)
  {
    if a == [] {
      assert a + b == b;
    } else {
      assert (a + b)[1..] == a[1..] + b;
      ConcatJoin(a[1..], b);
    }
  }

  lemma ConcatCons(first: seq<Byte>, others: seq<seq<Byte>>)
    ensures Concat([first] + others) == first + Concat(others)
  {
    assert ([first] + others)[1..] == others;
  }

  lemma {:induction false} ConcatEmpty(parts: seq<seq<Byte>>)
    requires forall i :: 0 <= i < |parts| ==> parts[i] == []
    ensures Concat(parts) == []
  {
    if parts != [] { ConcatEmpty(parts[1..]); }
  }

  /** A size and what follows it. */
  lemma SizeStarts(n: nat, b: seq<Byte>, rest: seq<Byte>)
    ensures b == PackVar(n) + rest ==>
              StartsWithSize(b, |PackVar(n)|, n) && b[|PackVar(n)|..] == rest
    ensures forall k: nat :: StartsWithSize(b, k, n) && b[k..] == rest ==> b == PackVar(n) + rest
  {
    if b == PackVar(n) + rest {
      assert b[..|PackVar(n)|] == PackVar(n);
      SizeIff(PackVar(n), n);
    }
    forall k: nat | StartsWithSize(b, k, n) && b[k..] == rest ensures b == PackVar(n) + rest {
      SizeIff(b[..k], n);
      assert b == b[..k] + b[k..];
    }
  }

  lemma {:induction false} IndexIff(alternatives: seq<Alternative>, tag: Name, i: nat)
    ensures IndexOf(alternatives, tag) == Some(i) <==> FirstWithTag(alternatives, tag, i)
    decreases |alternatives|
  {
    if alternatives != [] {
      var others := alternatives[1..];
      if i > 0 {
        IndexIff(others, tag, i - 1);
        assert FirstWithTag(alternatives, tag, i) <==>
                 alternatives[0].tag != tag && FirstWithTag(others, tag, i - 1) by {
          if alternatives[0].tag != tag && FirstWithTag(others, tag, i - 1) {
            forall j | 0 <= j < i ensures alternatives[j].tag != tag {
              if j > 0 { assert others[j - 1] == alternatives[j]; }
            }
          }
          forall j | 0 <= j < |others| ensures others[j] == alternatives[j + 1] { }
        }
      }
    }
  }
}
