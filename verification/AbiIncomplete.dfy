/** Incomplete bytes: what fails, and what binary extensions still allow to be read. */
module AbiIncomplete {
  import opened Wrappers
  import opened AbiSerializer
  import opened AbiValues
  import opened AbiRoundTrip
  import opened AbiLimits
  import opened AbiFormat
  import opened AbiPacking
  import opened AbiReading
  import opened AbiCuts

  // ----- Without extensions -----

  ghost predicate NoExtensions(abi: Abi) {
    forall name :: name in abi.structs ==> AllPlain(abi.structs[name].fields)
  }

  predicate AllPlain(fields: seq<Field>) { forall i :: 0 <= i < |fields| ==> !fields[i].extension }

  predicate PlainSlots(slots: seq<Slot>) { forall i :: 0 <= i < |slots| ==> !slots[i].field.extension }

  lemma {:induction false} LayoutPlain(abi: Abi, depth: nat, name: Name)
    requires NoExtensions(abi) && name in abi.structs && Layout(abi, depth, name).Some?
    ensures PlainSlots(Layout(abi, depth, name).value)
    decreases depth
  {
    var s := abi.structs[name];
    assert AllPlain(s.fields);
    if s.base.Some? { LayoutPlain(abi, depth - 1, s.base.value); }
  }

  lemma {:induction false} NothingLeftOf(abi: Abi, depth: nat, t: Type, v: Value, ext: bool, b: seq<Byte>, k: nat)
    requires NoExtensions(abi) && Encodes(abi, depth, t, v, ext, b) && k < |b|
    ensures Left(abi, depth, t, v, ext, k, false) == None
    decreases depth, 1, 0
  {
    LengthIs(abi, depth, t, v, ext, b);
    match t
    case UInt(_) =>
    case Text =>
    case FixedArray(_, e) =>
      var parts :| ItemParts(abi, depth - 1, e, v.items, parts) && Concat(parts) == b;
      NoItemsLeft(abi, depth - 1, e, v.items, parts, k);
    case Array(e) => NoArrayLeft(abi, depth, e, v, ext, b, k);
    case Optional(e) => if k > 0 { NothingLeftOf(abi, depth - 1, e, v, ext, b[1..], k - 1); }
    case Named(name) =>
      if name in abi.variants {
        NoVariantLeft(abi, depth, abi.variants[name], v, ext, b, k);
      } else {
        var parts := StructParts(abi, depth, name, v, ext, b);
        var slots := Layout(abi, depth - 1, name).value;
        LayoutPlain(abi, depth - 1, name);
        LayoutFlagged(abi, depth - 1, name);
        NoSlotsLeft(abi, depth - 1, slots, GivenTo(slots, v), ext, parts, k, []);
      }
  }

  lemma {:induction false} NoArrayLeft(abi: Abi, depth: nat, e: Type, v: Value, ext: bool, b: seq<Byte>, k: nat)
    requires depth > 0 && NoExtensions(abi) && Encodes(abi, depth, Array(e), v, ext, b) && k < |b|
    ensures Left(abi, depth, Array(e), v, ext, k, false) == None
    decreases depth, 0, 0
  {
    var j: nat :| StartsWithSize(b, j, |v.items|) && EncodesItems(abi, depth - 1, e, v.items, b[j..]);
    var parts :| ItemParts(abi, depth - 1, e, v.items, parts) && Concat(parts) == b[j..];
    SizeStarts(|v.items|, b, b[j..]);
    var a := PackVar(|v.items|);
    if |a| <= k { NoItemsLeft(abi, depth - 1, e, v.items, parts, k - |a|); }
  }

  lemma {:induction false} NoVariantLeft(abi: Abi, depth: nat, alternatives: seq<Alternative>, v: Value, ext: bool,
                                         b: seq<Byte>, k: nat)
    requires depth > 0 && NoExtensions(abi) && EncodesVariant(abi, depth, alternatives, v, ext, b) && k < |b|
    ensures LeftVariant(abi, depth, alternatives, v, ext, k, false) == None
    decreases depth, 0, 0
  {
    var i: nat, j: nat :| && FirstWithTag(alternatives, v.items[0].s, i) && StartsWithSize(b, j, i)
                          && Encodes(abi, depth - 1, alternatives[i].typ, v.items[1], ext, b[j..]);
    IndexIff(alternatives, v.items[0].s, i);
    SizeStarts(i, b, b[j..]);
    var a := PackVar(i);
    if |a| <= k { NothingLeftOf(abi, depth - 1, alternatives[i].typ, v.items[1], ext, b[j..], k - |a|); }
  }

  lemma {:induction false} NoItemsLeft(abi: Abi, depth: nat, t: Type, items: seq<Value>, parts: seq<seq<Byte>>, k: nat)
    requires NoExtensions(abi) && ItemParts(abi, depth, t, items, parts) && k < |Concat(parts)|
    ensures LeftItems(abi, depth, t, items, k, false) == None
    decreases depth, 2, |items|
  {
    MoreItemParts(abi, depth, t, items, parts);
    LengthIs(abi, depth, t, items[0], false, parts[0]);
    if k < |parts[0]| { NothingLeftOf(abi, depth, t, items[0], false, parts[0], k); }
    else { NoItemsLeft(abi, depth, t, items[1..], parts[1..], k - |parts[0]|); }
  }

  lemma {:induction false} NoSlotsLeft(abi: Abi, depth: nat, slots: seq<Slot>, values: seq<Value>, ext: bool,
                                       parts: seq<seq<Byte>>, k: nat, m: seq<Member>)
    requires NoExtensions(abi) && Fit(slots, depth) && FlaggedLast(slots) && PlainSlots(slots)
    requires ValueParts(abi, slots, values, ext, parts) && k < |Concat(parts)|
    ensures LeftSlots(abi, depth, slots, values, ext, k, false, m) == None
    decreases depth, 2, |slots|
  {
    var slot := slots[0];
    assert !slot.field.extension;
    if k > 0 {
      TailParts(abi, slots, values, ext, parts);
      LengthIs(abi, slot.depth, slot.field.typ, values[0], Flag(slot, ext), parts[0]);
      if k < |parts[0]| {
        NothingLeftOf(abi, slot.depth, slot.field.typ, values[0], Flag(slot, ext), parts[0], k);
      } else {
        forall i | 0 <= i < |slots| - 1 ensures !slots[1..][i].field.extension { assert slots[1..][i] == slots[i + 1]; }
        var p := |parts[0]|;
        var w := Left(abi, slot.depth, slot.field.typ, values[0], Flag(slot, ext), p, p < k);
        if w.Some? {
          NoSlotsLeft(abi, depth, slots[1..], values[1..], ext, parts[1..], k - p, Put(m, slot.field.name, w.value));
        }
      }
    }
  }

  /** Without extensions in the ABI, packed bytes that are cut short anywhere are refused. */
  lemma CutFails(abi: Abi, depth: nat, t: Type, v: Value, ext: bool, b: seq<Byte>, k: nat)
    requires SmallVariants(abi) && NoExtensions(abi) && Pack(abi, depth, t, v, ext) == Some(b) && k < |b|
    ensures Unpack(abi, depth, t, b[..k]) == Fail
  {
    PackEncodes(abi, depth, t, v, ext, b);
    assert b[..k] + [] == b[..k];
    CutReads(abi, depth, t, v, ext, b, k, b[..k], []);
    NothingLeftOf(abi, depth, t, v, ext, b, k);
  }

  // ----- With extensions -----

  /** Complete bytes give the canonical value if and only if the value is readable. */
  lemma WholeIff(abi: Abi, depth: nat, t: Type, v: Value, ext: bool, b: seq<Byte>, more: bool)
    requires SmallVariants(abi) && Sound(abi, depth, t, v) && Pack(abi, depth, t, v, ext) == Some(b) && (ext ==> !more)
    ensures Left(abi, depth, t, v, ext, |b|, more) == Some(Canon(abi, depth, t, v)) <==>
              Readable(abi, depth, t, v, ext, more)
  {
    var rest: seq<Byte> := if more then [0] else [];
    PackEncodes(abi, depth, t, v, ext, b);
    assert b[..|b|] == b;
    CutReads(abi, depth, t, v, ext, b, |b|, b + rest, rest);
    UnpackPacked(abi, depth, t, v, ext, b, rest);
  }

  /** An ABI in which every value that packs can be read back. */
  ghost predicate Reliable(abi: Abi) { Good(abi) && AllDistinct(abi) }

  lemma WholeLeft(abi: Abi, depth: nat, t: Type, v: Value, ext: bool, b: seq<Byte>, more: bool)
    requires Reliable(abi) && Encodes(abi, depth, t, v, ext, b) && (ext ==> !more)
    ensures SmallVariants(abi) && Left(abi, depth, t, v, ext, |b|, more) == Some(Canon(abi, depth, t, v))
  {
    forall name | name in abi.variants ensures |abi.variants[name]| <= MAX32 { assert DistinctAt(abi, name); }
    EncodedPacks(abi, depth, t, v, ext, b);
    AllReadable(abi, depth, t, v, ext, more);
    AllSound(abi, depth, t, v, ext);
    WholeIff(abi, depth, t, v, ext, b, more);
  }

  predicate AllExtensions(slots: seq<Slot>) { forall i :: 0 <= i < |slots| ==> slots[i].field.extension }

  /** Where the bytes end, everything that comes is left out or nothing is read. */
  lemma {:induction false} NoMoreBytes(abi: Abi, depth: nat, slots: seq<Slot>, values: seq<Value>, ext: bool,
                                       m: seq<Member>)
    requires Fit(slots, depth)
    ensures LeftSlots(abi, depth, slots, values, ext, 0, false, m) == if AllExtensions(slots) then Some(m) else None
    decreases |slots|
  {
    if slots != [] {
      NoMoreBytes(abi, depth, slots[1..], Tail(values), ext, m);
      assert AllExtensions(slots) <==> slots[0].field.extension && AllExtensions(slots[1..]) by {
        forall i | 0 <= i < |slots| - 1 ensures slots[1..][i] == slots[i + 1] { }
        forall i | 0 < i < |slots| ensures slots[i] == slots[1..][i - 1] { }
      }
    }
  }

  /** The canonical forms of the values of the first places. */
  function Canons(abi: Abi, slots: seq<Slot>, values: seq<Value>): (r: seq<Value>)
    requires |values| <= |slots|
    ensures |r| == |values|
    decreases |values|
  {
    if values == [] then []
    else [Canon(abi, slots[0].depth, slots[0].field.typ, values[0])] + Canons(abi, slots[1..], values[1..])
  }

  /** What a cut after `q` bytes of the value for place `j` leaves of the members: all before it, what is left of it
      unless nothing is, and only if extensions alone come after that. */
  function Trimmed(abi: Abi, slots: seq<Slot>, values: seq<Value>, ext: bool, j: nat, q: nat,
                   m: seq<Member>): Option<seq<Member>>
    requires j < |values| <= |slots|
  {
    var before := Canons(abi, slots[..j], values[..j]);
    if q == 0 then if AllExtensions(slots[j..]) then Some(PutAll(m, slots, before)) else None
    else
      var w := Left(abi, slots[j].depth, slots[j].field.typ, values[j], Flag(slots[j], ext), q, false);
      if w.Some? && AllExtensions(slots[j + 1..]) then Some(PutAll(m, slots, before + [w.value])) else None
  }

  lemma TrimmedLater(abi: Abi, slots: seq<Slot>, values: seq<Value>, ext: bool, j: nat, q: nat, m: seq<Member>)
    requires 0 < j < |values| <= |slots|
    ensures Trimmed(abi, slots, values, ext, j, q, m)
            == Trimmed(abi, slots[1..], values[1..], ext, j - 1, q,
                       Put(m, slots[0].field.name, Canon(abi, slots[0].depth, slots[0].field.typ, values[0])))
  {
    var a, c := slots[1..], values[1..];
    assert slots[..j][1..] == a[..j - 1] && values[..j][1..] == c[..j - 1];
    assert slots[j..] == a[j - 1..] && slots[j + 1..] == a[j..] && slots[j] == a[j - 1] && values[j] == c[j - 1];
    var first, later := Canon(abi, slots[0].depth, slots[0].field.typ, values[0]), Canons(abi, a[..j - 1], c[..j - 1]);
    assert Canons(abi, slots[..j], values[..j]) == [first] + later;
    assert ([first] + later)[1..] == later;
    forall w: Value ensures (([first] + later) + [w])[1..] == later + [w] { }
  }

  lemma OnePut(m: seq<Member>, slots: seq<Slot>, w: Option<Value>)
    requires slots != []
    ensures w.Some? ==> PutAll(m, slots, [] + [w.value]) == Put(m, slots[0].field.name, w.value)
  {
    if w.Some? { assert ([] + [w.value])[1..] == []; }
  }

  /** A cut in the value for the first place. */
  lemma FirstTrimmed(abi: Abi, depth: nat, slots: seq<Slot>, values: seq<Value>, ext: bool, n: nat, q: nat,
                     m: seq<Member>)
    requires Fit(slots, depth) && 0 < |values| <= |slots| && q < n
    requires n == Length(abi, slots[0].depth, slots[0].field.typ, values[0], Flag(slots[0], ext))
    ensures LeftSlots(abi, depth, slots, values, ext, q, false, m) == Trimmed(abi, slots, values, ext, 0, q, m)
  {
    var slot := slots[0];
    assert slots[0..] == slots && values[..0] == [] && slots[..0] == [];
    if q == 0 {
      NoMoreBytes(abi, depth, slots, values, ext, m);
    } else {
      var w := Left(abi, slot.depth, slot.field.typ, values[0], Flag(slot, ext), q, false);
      if w.Some? { NoMoreBytes(abi, depth, slots[1..], values[1..], ext, Put(m, slot.field.name, w.value)); }
      OnePut(m, slots, w);
    }
  }

  /** A whole value for the first place. */
  lemma FirstWhole(abi: Abi, depth: nat, slots: seq<Slot>, values: seq<Value>, ext: bool, n: nat, k: nat, left: nat,
                   c: Value, m: seq<Member>)
    requires Fit(slots, depth) && 0 < |values| <= |slots| && 0 < n && k == n + left
    requires n == Length(abi, slots[0].depth, slots[0].field.typ, values[0], Flag(slots[0], ext))
    requires Left(abi, slots[0].depth, slots[0].field.typ, values[0], Flag(slots[0], ext), n, n < k) == Some(c)
    ensures LeftSlots(abi, depth, slots, values, ext, k, false, m)
            == LeftSlots(abi, depth, slots[1..], values[1..], ext, left, false, Put(m, slots[0].field.name, c))
  {
  }

  lemma FirstCanonical(abi: Abi, depth: nat, slots: seq<Slot>, values: seq<Value>, ext: bool, part: seq<Byte>, k: nat,
                       left: nat, m: seq<Member>)
    requires Reliable(abi) && Fit(slots, depth) && FlaggedLast(slots) && 0 < |values| <= |slots|
    requires Encodes(abi, slots[0].depth, slots[0].field.typ, values[0], Flag(slots[0], ext), part)
    requires part != [] && k == |part| + left && (|slots| == 1 ==> left == 0)
    ensures LeftSlots(abi, depth, slots, values, ext, k, false, m)
            == LeftSlots(abi, depth, slots[1..], values[1..], ext, left, false,
                         Put(m, slots[0].field.name, Canon(abi, slots[0].depth, slots[0].field.typ, values[0])))
  {
    var slot := slots[0];
    var c := Canon(abi, slot.depth, slot.field.typ, values[0]);
    LengthIs(abi, slot.depth, slot.field.typ, values[0], Flag(slot, ext), part);
    WholeLeft(abi, slot.depth, slot.field.typ, values[0], Flag(slot, ext), part, |part| < k);
    FirstWhole(abi, depth, slots, values, ext, |part|, k, left, c, m);
  }

  lemma OffsetLater(parts: seq<seq<Byte>>, j: nat)
    requires 0 < j <= |parts|
    ensures |Concat(parts[..j])| == |parts[0]| + |Concat(parts[1..][..j - 1])|
  {
    assert parts[..j][1..] == parts[1..][..j - 1];
  }

  ghost predicate NoneEmpty(parts: seq<seq<Byte>>) { forall i :: 0 <= i < |parts| ==> parts[i] != [] }

  lemma {:induction false} SlotsTrimmed(abi: Abi, depth: nat, slots: seq<Slot>, values: seq<Value>, ext: bool,
                                        parts: seq<seq<Byte>>, j: nat, q: nat, m: seq<Member>)
    requires Reliable(abi) && Fit(slots, depth) && FlaggedLast(slots) && ValueParts(abi, slots, values, ext, parts)
    requires j < |parts| && q < |parts[j]| && NoneEmpty(parts)
    ensures LeftSlots(abi, depth, slots, values, ext, |Concat(parts[..j])| + q, false, m)
            == Trimmed(abi, slots, values, ext, j, q, m)
    decreases j
  {
    TailParts(abi, slots, values, ext, parts);
    if j == 0 {
      assert parts[..0] == [];
      LengthIs(abi, slots[0].depth, slots[0].field.typ, values[0], Flag(slots[0], ext), parts[0]);
      FirstTrimmed(abi, depth, slots, values, ext, |parts[0]|, q, m);
    } else {
      LaterTrimmed(abi, depth, slots, values, ext, parts, j, q, m);
    }
  }

  lemma {:induction false} LaterTrimmed(abi: Abi, depth: nat, slots: seq<Slot>, values: seq<Value>, ext: bool,
                                        parts: seq<seq<Byte>>, j: nat, q: nat, m: seq<Member>)
    requires Reliable(abi) && Fit(slots, depth) && FlaggedLast(slots) && |parts| == |values| <= |slots|
    requires 0 < j < |parts| && q < |parts[j]| && NoneEmpty(parts)
    requires Encodes(abi, slots[0].depth, slots[0].field.typ, values[0], Flag(slots[0], ext), parts[0])
    requires ValueParts(abi, slots[1..], values[1..], ext, parts[1..]) && FlaggedLast(slots[1..])
    ensures LeftSlots(abi, depth, slots, values, ext, |Concat(parts[..j])| + q, false, m)
            == Trimmed(abi, slots, values, ext, j, q, m)
    decreases j, 0
  {
    var n := Put(m, slots[0].field.name, Canon(abi, slots[0].depth, slots[0].field.typ, values[0]));
    OffsetLater(parts, j);
    FirstCanonical(abi, depth, slots, values, ext, parts[0], |Concat(parts[..j])| + q,
                   |Concat(parts[1..][..j - 1])| + q, m);
    NoneEmptyTail(parts, j);
    SlotsTrimmed(abi, depth, slots[1..], values[1..], ext, parts[1..], j - 1, q, n);
    TrimmedLater(abi, slots, values, ext, j, q, m);
  }

  lemma NoneEmptyTail(parts: seq<seq<Byte>>, j: nat)
    requires NoneEmpty(parts) && 0 < j < |parts|
    ensures NoneEmpty(parts[1..]) && parts[1..][j - 1] == parts[j]
  {
  }

  // ----- Which cuts are read -----

  lemma {:induction false} SizedFields(fields: seq<Field>, i: nat)
    requires AllSized(fields) && i < |fields|
    ensures Sized(fields[i].typ)
    decreases |fields|
  {
    if i > 0 { SizedFields(fields[1..], i - 1); }
  }

  lemma {:induction false} LayoutSized(abi: Abi, depth: nat, name: Name, i: nat)
    requires Good(abi) && name in abi.structs && Layout(abi, depth, name).Some? && i < |Layout(abi, depth, name).value|
    ensures Sized(Layout(abi, depth, name).value[i].field.typ)
    decreases depth
  {
    var s := abi.structs[name];
    assert GoodStruct(abi, name);
    var n := if s.base.None? then 0 else |Layout(abi, depth - 1, s.base.value).value|;
    if i < n { LayoutSized(abi, depth - 1, s.base.value, i); } else { SizedFields(s.fields, i - n); }
  }

  lemma {:induction false} CutPlace(parts: seq<seq<Byte>>, k: nat) returns (j: nat, q: nat)
    requires k < |Concat(parts)|
    ensures j < |parts| && q < |parts[j]| && k == |Concat(parts[..j])| + q
    decreases |parts|
  {
    if k < |parts[0]| {
      j, q := 0, k;
      assert parts[..0] == [];
    } else {
      j, q := CutPlace(parts[1..], k - |parts[0]|);
      j := j + 1;
      assert parts[..j][1..] == parts[1..][..j - 1];
    }
  }

  lemma PartsNotEmpty(abi: Abi, depth: nat, name: Name, values: seq<Value>, ext: bool, parts: seq<seq<Byte>>, i: nat)
    requires Good(abi) && name in abi.structs && Layout(abi, depth, name).Some? && i < |parts|
    requires ValueParts(abi, Layout(abi, depth, name).value, values, ext, parts)
    ensures parts[i] != []
  {
    var slots := Layout(abi, depth, name).value;
    assert ValuePart(abi, slots, values, ext, parts, i);
    EncodedPacks(abi, slots[i].depth, slots[i].field.typ, values[i], Flag(slots[i], ext), parts[i]);
    LayoutSized(abi, depth, name, i);
    PackedNonEmpty(abi, slots[i].depth, slots[i].field.typ, values[i], Flag(slots[i], ext));
  }

  /** In such an ABI, every cut of the bytes of a struct falls `q` bytes into those of some place `j`.  It is read if
      and only if those `q` bytes are, unless there are none, and everything after is an extension; and it is read
      as the members before the place and what those bytes give. */
  lemma WhichCutsRead(abi: Abi, depth: nat, name: Name, v: Value, ext: bool, b: seq<Byte>, k: nat)
      returns (slots: seq<Slot>, parts: seq<seq<Byte>>, j: nat, q: nat)
    requires Reliable(abi) && depth > 0 && name !in abi.variants && k < |b|
    requires Pack(abi, depth, Named(name), v, ext) == Some(b)
    ensures name in abi.structs && Layout(abi, depth - 1, name) == Some(slots)
    ensures ValueParts(abi, slots, GivenTo(slots, v), ext, parts) && Concat(parts) == b
    ensures j < |parts| && q < |parts[j]| && k == |Concat(parts[..j])| + q
    ensures Unpack(abi, slots[j].depth, slots[j].field.typ, parts[j][..q])
            == Result(Left(abi, slots[j].depth, slots[j].field.typ, GivenTo(slots, v)[j], Flag(slots[j], ext), q,
                           false), [])
    ensures var o := Trimmed(abi, slots, GivenTo(slots, v), ext, j, q, []);
            Unpack(abi, depth, Named(name), b[..k])
            == if o.None? || o.value == [] then Fail else Done(Obj(o.value), [])
  {
    PackEncodes(abi, depth, Named(name), v, ext, b);
    parts := StructParts(abi, depth, name, v, ext, b);
    slots := Layout(abi, depth - 1, name).value;
    j, q := CutPlace(parts, k);
    TrimmedRead(abi, depth, name, v, ext, b, slots, parts, j, q);
    assert ValuePart(abi, slots, GivenTo(slots, v), ext, parts, j);
    FieldCutRead(abi, slots[j], GivenTo(slots, v)[j], ext, parts[j], q);
  }

  lemma FewAlternatives(abi: Abi)
    requires Reliable(abi)
    ensures SmallVariants(abi)
  {
    forall n | n in abi.variants ensures |abi.variants[n]| <= MAX32 { assert DistinctAt(abi, n); }
  }

  lemma FieldCutRead(abi: Abi, slot: Slot, v: Value, ext: bool, part: seq<Byte>, q: nat)
    requires Reliable(abi) && Encodes(abi, slot.depth, slot.field.typ, v, Flag(slot, ext), part) && q < |part|
    ensures Unpack(abi, slot.depth, slot.field.typ, part[..q])
            == Result(Left(abi, slot.depth, slot.field.typ, v, Flag(slot, ext), q, false), [])
  {
    FewAlternatives(abi);
    assert part[..q] + [] == part[..q];
    CutReads(abi, slot.depth, slot.field.typ, v, Flag(slot, ext), part, q, part[..q], []);
  }

  lemma TrimmedRead(abi: Abi, depth: nat, name: Name, v: Value, ext: bool, b: seq<Byte>, slots: seq<Slot>,
                    parts: seq<seq<Byte>>, j: nat, q: nat)
    requires Reliable(abi) && depth > 0 && name in abi.structs && name !in abi.variants
             && Layout(abi, depth - 1, name) == Some(slots)
    requires ValueParts(abi, slots, GivenTo(slots, v), ext, parts) && Concat(parts) == b
    requires j < |parts| && q < |parts[j]| && |Concat(parts[..j])| + q < |b|
    ensures var o := Trimmed(abi, slots, GivenTo(slots, v), ext, j, q, []);
            Unpack(abi, depth, Named(name), b[..|Concat(parts[..j])| + q])
            == if o.None? || o.value == [] then Fail else Done(Obj(o.value), [])
  {
    var k := |Concat(parts[..j])| + q;
    TrimmedSlots(abi, depth - 1, name, v, ext, b, slots, parts, j, q);
    MembersRead(abi, depth, name, b[..k], slots, Trimmed(abi, slots, GivenTo(slots, v), ext, j, q, []));
  }

  lemma TrimmedSlots(abi: Abi, depth: nat, name: Name, v: Value, ext: bool, b: seq<Byte>, slots: seq<Slot>,
                     parts: seq<seq<Byte>>, j: nat, q: nat)
    requires Reliable(abi) && name in abi.structs && Layout(abi, depth, name) == Some(slots)
    requires ValueParts(abi, slots, GivenTo(slots, v), ext, parts) && Concat(parts) == b
    requires j < |parts| && q < |parts[j]| && |Concat(parts[..j])| + q < |b|
    ensures UnpackSlots(abi, slots, b[..|Concat(parts[..j])| + q], [])
            == Result(Trimmed(abi, slots, GivenTo(slots, v), ext, j, q, []), [])
  {
    var k := |Concat(parts[..j])| + q;
    forall i | 0 <= i < |parts| ensures parts[i] != [] {
      PartsNotEmpty(abi, depth, name, GivenTo(slots, v), ext, parts, i);
    }
    LayoutFlagged(abi, depth, name);
    SlotsTrimmed(abi, depth, slots, GivenTo(slots, v), ext, parts, j, q, []);
    FewAlternatives(abi);
    assert b[..k] + [] == b[..k];
    SlotsCut(abi, depth, slots, GivenTo(slots, v), ext, parts, k, b[..k], [], []);
  }

  lemma MembersRead(abi: Abi, depth: nat, name: Name, s: seq<Byte>, slots: seq<Slot>, o: Option<seq<Member>>)
    requires depth > 0 && name in abi.structs && name !in abi.variants && Layout(abi, depth - 1, name) == Some(slots)
    requires UnpackSlots(abi, slots, s, []) == Result(o, [])
    ensures Unpack(abi, depth, Named(name), s) == if o.None? || o.value == [] then Fail else Done(Obj(o.value), [])
  {
    ObjectIsLayout(abi, depth - 1, name, s, []);
  }
}
