/** Which bytes are read as which value, for all bytes. */
module AbiReading {
  import opened Wrappers
  import opened AbiSerializer
  import opened AbiNumbers
  import opened AbiFormat

  // ----- What reading accepts -----

  /** The reader takes `b` for `v`; `more` says whether bytes follow.  The format is that of packing, but sizes need
      not be minimal, any nonzero byte announces an optional value that is not built in, and wherever the bytes end,
      binary extensions may be missing. */
  ghost predicate Decodes(abi: Abi, depth: nat, t: Type, b: seq<Byte>, v: Value, more: bool)
    decreases depth, 1
  {
    depth > 0 &&
    match t
    case UInt(w) => v.Num? && IsInt(b, w, v.n)
    case Text =>
      v.Str? && FitsText(|v.s|) && exists k: nat :: StartsWithReadSize(b, k, |v.s|) && b[k..] == v.s
    case FixedArray(n, e) => v.Arr? && |v.items| == n && DecodesItems(abi, depth - 1, e, b, v.items, more)
    case Array(e) =>
      && v.Arr? && FitsArray(e, |v.items|)
      && exists k: nat ::
           StartsWithReadSize(b, k, |v.items|) && DecodesItems(abi, depth - 1, e, b[k..], v.items, more)
    case Optional(e) =>
      && b != []
      && if b[0] == 0 then v == Null && |b| == 1
         else (BuiltIn(e) ==> b[0] == 1) && Decodes(abi, depth - 1, e, b[1..], v, more)
    case Named(name) =>
      if name in abi.variants then DecodesVariant(abi, depth, abi.variants[name], b, v, more)
      else name in abi.structs && v.Obj? && v.members != []
           && DecodesObject(abi, depth - 1, name, b, v.members, more)
  }

  ghost predicate StartsWithReadSize(b: seq<Byte>, k: nat, n: nat) { k <= |b| && IsReadSize(b[..k], n) }

  ghost predicate DecodesVariant(abi: Abi, depth: nat, alternatives: seq<Alternative>, b: seq<Byte>, v: Value,
                                 more: bool)
    requires depth > 0
    decreases depth, 0
  {
    && v.Arr? && |v.items| == 2
    && exists i: nat, k: nat ::
         && StartsWithReadSize(b, k, i) && i < |alternatives| && v.items[0] == Str(alternatives[i].tag)
         && Decodes(abi, depth - 1, alternatives[i].typ, b[k..], v.items[1], more)
  }

  ghost predicate DecodesItems(abi: Abi, depth: nat, t: Type, b: seq<Byte>, items: seq<Value>, more: bool)
    decreases depth, 4
  {
    exists parts :: ItemsRead(abi, depth, t, parts, items, more) && Concat(parts) == b
  }

  /** Whether bytes follow part `i`. */
  predicate Follow(parts: seq<seq<Byte>>, i: nat, more: bool)
    requires i < |parts|
  {
    more || Concat(parts[i + 1..]) != []
  }

  ghost predicate ItemsRead(abi: Abi, depth: nat, t: Type, parts: seq<seq<Byte>>, items: seq<Value>, more: bool)
    decreases depth, 3
  {
    |parts| == |items| && forall i :: ItemRead(abi, depth, t, parts, items, more, i)
  }

  ghost predicate ItemRead(abi: Abi, depth: nat, t: Type, parts: seq<seq<Byte>>, items: seq<Value>, more: bool, i: int)
    requires |parts| == |items|
    decreases depth, 2
  {
    0 <= i < |parts| ==> Decodes(abi, depth, t, parts[i], items[i], Follow(parts, i, more))
  }

  /** Setting the members one after the other. */
  function PutAll(o: seq<Member>, slots: seq<Slot>, values: seq<Value>): seq<Member>
    requires |values| <= |slots|
    decreases |values|
  {
    if values == [] then o else PutAll(Put(o, slots[0].field.name, values[0]), slots[1..], values[1..])
  }

  ghost predicate DecodesObject(abi: Abi, depth: nat, name: Name, b: seq<Byte>, o: seq<Member>, more: bool)
    requires name in abi.structs
    decreases depth, 5
  {
    var slots := Layout(abi, depth, name);
    && slots.Some?
    && exists parts, values ::
         && SlotsRead(abi, depth, slots.value, parts, values, more) && Concat(parts) == b
         && o == PutAll([], slots.value, values)
  }

  /** The first places are read, each before the bytes end; if the bytes end early, only extensions are missing. */
  ghost predicate SlotsRead(abi: Abi, depth: nat, slots: seq<Slot>, parts: seq<seq<Byte>>, values: seq<Value>,
                            more: bool)
    requires Fit(slots, depth)
    decreases depth, 4
  {
    && |parts| == |values| <= |slots| && (|parts| < |slots| ==> !more)
    && (forall i :: SlotReadAt(abi, depth, slots, parts, values, more, i))
    && (forall i :: |parts| <= i < |slots| ==> slots[i].field.extension)
  }

  ghost predicate SlotReadAt(abi: Abi, depth: nat, slots: seq<Slot>, parts: seq<seq<Byte>>, values: seq<Value>,
                             more: bool, i: int)
    requires Fit(slots, depth) && |parts| == |values| <= |slots|
    decreases depth, 3
  {
    0 <= i < |parts| ==> SlotRead(abi, slots[i], parts[i], values[i], Follow(parts, i, more))
  }

  ghost predicate SlotRead(abi: Abi, slot: Slot, part: seq<Byte>, v: Value, follow: bool)
    decreases slot.depth, 2
  {
    (part != [] || follow) && Decodes(abi, slot.depth, slot.field.typ, part, v, follow)
  }

  // ----- Structs as their layout -----

  /** Reading place by place. */
  function UnpackSlots(abi: Abi, slots: seq<Slot>, s: seq<Byte>, o: seq<Member>): Parse<seq<Member>>
    decreases |slots|
  {
    if slots == [] then Done(o, s)
    else if s == [] then (if slots[0].field.extension then UnpackSlots(abi, slots[1..], s, o) else Fail)
    else
      match Unpack(abi, slots[0].depth, slots[0].field.typ, s)
      case Fail => Fail
      case Done(v, rest) => UnpackSlots(abi, slots[1..], rest, Put(o, slots[0].field.name, v))
  }

  function Then(p: Parse<seq<Member>>, abi: Abi, slots: seq<Slot>): Parse<seq<Member>> {
    match p case Fail => Fail case Done(o, rest) => UnpackSlots(abi, slots, rest, o)
  }

  lemma {:induction false} FieldsAreSlots(abi: Abi, depth: nat, fields: seq<Field>, s: seq<Byte>, o: seq<Member>)
    ensures UnpackFields(abi, depth, fields, s, o) == UnpackSlots(abi, Slots(fields, depth), s, o)
    decreases |fields|
  {
    if fields != [] {
      assert Slots(fields, depth)[1..] == Slots(fields[1..], depth);
      if s == [] {
        FieldsAreSlots(abi, depth, fields[1..], s, o);
      } else {
        var p := Unpack(abi, depth, fields[0].typ, s);
        if p.Done? { FieldsAreSlots(abi, depth, fields[1..], p.rest, Put(o, fields[0].name, p.value)); }
      }
    }
  }

  lemma {:induction false} SlotsThen(abi: Abi, a: seq<Slot>, b: seq<Slot>, s: seq<Byte>, o: seq<Member>)
    ensures UnpackSlots(abi, Inherited(a) + b, s, o) == Then(UnpackSlots(abi, a, s, o), abi, b)
    decreases |a|
  {
    var all := Inherited(a) + b;
    if a == [] {
      assert all == b;
    } else {
      assert all[0] == a[0].(own := false) && all[1..] == Inherited(a[1..]) + b;
      if s == [] {
        SlotsThen(abi, a[1..], b, s, o);
      } else {
        var p := Unpack(abi, a[0].depth, a[0].field.typ, s);
        if p.Done? { SlotsThen(abi, a[1..], b, p.rest, Put(o, a[0].field.name, p.value)); }
      }
    }
  }

  lemma {:induction false} ObjectIsLayout(abi: Abi, depth: nat, name: Name, s: seq<Byte>, o: seq<Member>)
    requires name in abi.structs
    ensures UnpackObject(abi, depth, name, s, o)
            == if Layout(abi, depth, name).None? then Fail else UnpackSlots(abi, Layout(abi, depth, name).value, s, o)
    decreases depth
  {
    var st := abi.structs[name];
    if st.base.None? {
      FieldsAreSlots(abi, depth, st.fields, s, o);
    } else if depth > 0 && st.base.value in abi.structs {
      ObjectIsLayout(abi, depth - 1, st.base.value, s, o);
      var base := UnpackObject(abi, depth - 1, st.base.value, s, o);
      if base.Done? { FieldsAreSlots(abi, depth, st.fields, base.rest, base.value); }
      if Layout(abi, depth - 1, st.base.value).Some? {
        SlotsThen(abi, Layout(abi, depth - 1, st.base.value).value, Slots(st.fields, depth), s, o);
      }
    }
  }

  // ----- Members -----

  ghost predicate FirstNamed(o: seq<Member>, name: Name, i: nat) {
    i < |o| && o[i].name == name && forall j :: 0 <= j < i ==> o[j].name != name
  }

  /** A member is found, and replaced, where its name first occurs; a new one comes last. */
  lemma {:induction false} MembersAre(o: seq<Member>, name: Name, v: Value, i: nat)
    ensures FirstNamed(o, name, i) ==>
              Contains(o, name) && Lookup(o, name) == o[i].value && Put(o, name, v) == o[i := Member(name, v)]
    ensures (forall j :: 0 <= j < |o| ==> o[j].name != name) ==>
              !Contains(o, name) && Put(o, name, v) == o + [Member(name, v)]
    decreases |o|
  {
    if o != [] && o[0].name != name {
      var rest := o[1..];
      forall j | 0 <= j < |rest| ensures rest[j] == o[j + 1] { }
      if i > 0 { MembersAre(rest, name, v, i - 1); } else { MembersAre(rest, name, v, 0); }
      if FirstNamed(o, name, i) {
        assert FirstNamed(rest, name, i - 1);
        assert o[i := Member(name, v)] == [o[0]] + rest[i - 1 := Member(name, v)];
      }
      if forall j :: 0 <= j < |o| ==> o[j].name != name {
        assert forall j :: 0 <= j < |rest| ==> rest[j].name != name;
      }
    }
  }
}
