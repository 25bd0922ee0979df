/** Unpacking reads a value from the front of any bytes if and only if they decode to it. */
module AbiUnpacking {
  import opened Wrappers
  import opened AbiSerializer
  import opened AbiNumbers
  import opened AbiFormat
  import opened AbiReading

  /** The bytes of `s` before `rest`. */
  ghost predicate Splits(s: seq<Byte>, b: seq<Byte>, rest: seq<Byte>) { s == b + rest }

  /** A size at the start, and the bytes after it. */
  lemma SizeRead(s: seq<Byte>) returns (a: seq<Byte>)
    requires UnpackSize(s).Done?
    ensures IsReadSize(a, UnpackSize(s).value) && Splits(s, a, UnpackSize(s).rest)
  {
    UnpackSizeIff(s, UnpackSize(s).value, UnpackSize(s).rest);
    a :| IsReadSize(a, UnpackSize(s).value) && s == a + UnpackSize(s).rest;
  }

  lemma SizedPart(a: seq<Byte>, n: nat, c: seq<Byte>)
    requires IsReadSize(a, n)
    ensures StartsWithReadSize(a + c, |a|, n) && (a + c)[|a|..] == c
  {
    assert (a + c)[..|a|] == a;
  }

  lemma Assoc3(s: seq<Byte>, a: seq<Byte>, t: seq<Byte>, c: seq<Byte>, rest: seq<Byte>)
    requires Splits(s, a, t) && Splits(t, c, rest)
    ensures Splits(s, a + c, rest)
  {
    assert a + (c + rest) == (a + c) + rest;
  }

  // ----- What is read decodes -----

  lemma {:induction false} UnpackDecodes(abi: Abi, depth: nat, t: Type, s: seq<Byte>) returns (b: seq<Byte>)
    requires Unpack(abi, depth, t, s).Done?
    ensures var p := Unpack(abi, depth, t, s);
            Splits(s, b, p.rest) && Decodes(abi, depth, t, b, p.value, p.rest != [])
    decreases depth, 1, 0
  {
    var p := Unpack(abi, depth, t, s);
    match t
    case UInt(w) =>
      UnpackIntIff(s, w, p.value.n, p.rest);
      b := s[..w];
    case Text => b := TextDecodes(abi, depth, s);
    case FixedArray(n, e) =>
      var parts := ItemsDecode(abi, depth - 1, e, n, s);
      b := Concat(parts);
    case Array(e) => b := SizedDecodes(abi, depth, e, s);
    case Optional(e) => b := OptionalDecodes(abi, depth, e, s);
    case Named(name) =>
      if name in abi.variants {
        b := VariantDecodes(abi, depth, abi.variants[name], s);
      } else {
        b := StructDecodes(abi, depth, name, s);
      }
  }

  lemma {:induction false} OptionalDecodes(abi: Abi, depth: nat, e: Type, s: seq<Byte>) returns (b: seq<Byte>)
    requires depth > 0 && Unpack(abi, depth, Optional(e), s).Done?
    ensures var p := Unpack(abi, depth, Optional(e), s);
            Splits(s, b, p.rest) && Decodes(abi, depth, Optional(e), b, p.value, p.rest != [])
    decreases depth, 0, 0
  {
    b := [s[0]];
    assert s == b + s[1..];
    if s[0] != 0 {
      var c := UnpackDecodes(abi, depth - 1, e, s[1..]);
      Assoc3(s, b, s[1..], c, Unpack(abi, depth, Optional(e), s).rest);
      b := b + c;
      assert b[1..] == c;
    }
  }

  lemma {:induction false} StructDecodes(abi: Abi, depth: nat, name: Name, s: seq<Byte>) returns (b: seq<Byte>)
    requires depth > 0 && name !in abi.variants && Unpack(abi, depth, Named(name), s).Done?
    ensures var p := Unpack(abi, depth, Named(name), s);
            Splits(s, b, p.rest) && Decodes(abi, depth, Named(name), b, p.value, p.rest != [])
    decreases depth, 0, 0
  {
    ObjectIsLayout(abi, depth - 1, name, s, []);
    var parts, values := SlotsDecode(abi, depth - 1, Layout(abi, depth - 1, name).value, s, []);
    b := Concat(parts);
  }

  lemma TextDecodes(abi: Abi, depth: nat, s: seq<Byte>) returns (b: seq<Byte>)
    requires Unpack(abi, depth, Text, s).Done?
    ensures var p := Unpack(abi, depth, Text, s);
            Splits(s, b, p.rest) && Decodes(abi, depth, Text, b, p.value, p.rest != [])
  {
    var p, n := Unpack(abi, depth, Text, s), UnpackSize(s);
    var a := SizeRead(s);
    b := a + p.value.s;
    SizedPart(a, n.value, p.value.s);
    assert n.rest == p.value.s + p.rest;
    Assoc3(s, a, n.rest, p.value.s, p.rest);
  }

  lemma {:induction false} SizedDecodes(abi: Abi, depth: nat, e: Type, s: seq<Byte>) returns (b: seq<Byte>)
    requires depth > 0 && Unpack(abi, depth, Array(e), s).Done?
    ensures var p := Unpack(abi, depth, Array(e), s);
            Splits(s, b, p.rest) && Decodes(abi, depth, Array(e), b, p.value, p.rest != [])
    decreases depth, 0, 0
  {
    var p, n := Unpack(abi, depth, Array(e), s), UnpackSize(s);
    var a := SizeRead(s);
    var parts := ItemsDecode(abi, depth - 1, e, n.value, n.rest);
    b := a + Concat(parts);
    SizedPart(a, n.value, Concat(parts));
    Assoc3(s, a, n.rest, Concat(parts), p.rest);
  }

  lemma {:induction false} VariantDecodes(abi: Abi, depth: nat, alternatives: seq<Alternative>, s: seq<Byte>)
      returns (b: seq<Byte>)
    requires depth > 0 && UnpackVariant(abi, depth, alternatives, s).Done?
    ensures var p := UnpackVariant(abi, depth, alternatives, s);
            Splits(s, b, p.rest) && DecodesVariant(abi, depth, alternatives, b, p.value, p.rest != [])
    decreases depth, 0, 0
  {
    var p, n := UnpackVariant(abi, depth, alternatives, s), UnpackSize(s);
    var a := SizeRead(s);
    var c := UnpackDecodes(abi, depth - 1, alternatives[n.value].typ, n.rest);
    b := a + c;
    SizedPart(a, n.value, c);
    Assoc3(s, a, n.rest, c, p.rest);
  }

  /** Whether bytes follow the first part, or a later one. */
  lemma FollowFirst(parts: seq<seq<Byte>>, rest: seq<Byte>, between: seq<Byte>)
    requires parts != [] && Splits(between, Concat(parts[1..]), rest)
    ensures Follow(parts, 0, rest != []) == (between != [])
  {
  }

  lemma FollowLater(parts: seq<seq<Byte>>, i: nat, more: bool)
    requires 0 < i < |parts|
    ensures Follow(parts, i, more) == Follow(parts[1..], i - 1, more)
  {
    assert parts[1..][i..] == parts[i + 1..];
  }

  lemma NoItems(abi: Abi, depth: nat, t: Type, more: bool)
    ensures ItemsRead(abi, depth, t, [], [], more)
  {
    forall i ensures ItemRead(abi, depth, t, [], [], more, i) { }
  }

  lemma NoSlots(abi: Abi, depth: nat, more: bool)
    ensures SlotsRead(abi, depth, [], [], [], more)
  {
    forall i ensures SlotReadAt(abi, depth, [], [], [], more, i) { }
  }

  lemma {:induction false} ItemsDecode(abi: Abi, depth: nat, t: Type, n: nat, s: seq<Byte>)
      returns (parts: seq<seq<Byte>>)
    requires UnpackItems(abi, depth, t, n, s).Done?
    ensures var p := UnpackItems(abi, depth, t, n, s);
            && |p.value| == n && ItemsRead(abi, depth, t, parts, p.value, p.rest != [])
            && Splits(s, Concat(parts), p.rest)
    decreases depth, 2, n
  {
    var p := UnpackItems(abi, depth, t, n, s);
    if n == 0 {
      parts := [];
      NoItems(abi, depth, t, p.rest != []);
    } else {
      var q := Unpack(abi, depth, t, s);
      var first := UnpackDecodes(abi, depth, t, s);
      var others := ItemsDecode(abi, depth, t, n - 1, q.rest);
      parts := [first] + others;
      ConcatCons(first, others);
      Assoc3(s, first, q.rest, Concat(others), p.rest);
      assert parts[1..] == others && p.value[1..] == UnpackItems(abi, depth, t, n - 1, q.rest).value;
      FollowFirst(parts, p.rest, q.rest);
      MoreItems(abi, depth, t, parts, p.value, p.rest != []);
    }
  }

  lemma MoreItems(abi: Abi, depth: nat, t: Type, parts: seq<seq<Byte>>, items: seq<Value>, more: bool)
    requires |parts| == |items| > 0
    ensures ItemsRead(abi, depth, t, parts, items, more) <==>
              && Decodes(abi, depth, t, parts[0], items[0], Follow(parts, 0, more))
              && ItemsRead(abi, depth, t, parts[1..], items[1..], more)
  {
    var b, c := parts[1..], items[1..];
    if ItemsRead(abi, depth, t, parts, items, more) {
      assert ItemRead(abi, depth, t, parts, items, more, 0);
      forall i ensures ItemRead(abi, depth, t, b, c, more, i) {
        assert ItemRead(abi, depth, t, parts, items, more, i + 1);
        if 0 <= i < |b| { FollowLater(parts, i + 1, more); }
      }
    }
    if Decodes(abi, depth, t, parts[0], items[0], Follow(parts, 0, more)) && ItemsRead(abi, depth, t, b, c, more) {
      forall i ensures ItemRead(abi, depth, t, parts, items, more, i) {
        assert ItemRead(abi, depth, t, b, c, more, i - 1);
        if 0 < i < |parts| { FollowLater(parts, i, more); }
      }
    }
  }

  lemma {:induction false} SlotsDecode(abi: Abi, depth: nat, slots: seq<Slot>, s: seq<Byte>, o: seq<Member>)
      returns (parts: seq<seq<Byte>>, values: seq<Value>)
    requires Fit(slots, depth) && UnpackSlots(abi, slots, s, o).Done?
    ensures var p := UnpackSlots(abi, slots, s, o);
            && SlotsRead(abi, depth, slots, parts, values, p.rest != []) && Splits(s, Concat(parts), p.rest)
            && p.value == PutAll(o, slots, values)
    ensures s == [] ==> parts == []
    decreases depth, 2, |slots|
  {
    var p := UnpackSlots(abi, slots, s, o);
    if slots == [] {
      parts, values := [], [];
      NoSlots(abi, depth, p.rest != []);
    } else if s == [] {
      parts, values := SlotsDecode(abi, depth, slots[1..], s, o);
      assert values == [];
      SkippedRead(abi, depth, slots);
    } else {
      var q := Unpack(abi, slots[0].depth, slots[0].field.typ, s);
      var first := UnpackDecodes(abi, slots[0].depth, slots[0].field.typ, s);
      var others, vs := SlotsDecode(abi, depth, slots[1..], q.rest, Put(o, slots[0].field.name, q.value));
      parts, values := [first] + others, [q.value] + vs;
      ConcatCons(first, others);
      Assoc3(s, first, q.rest, Concat(others), p.rest);
      assert parts[1..] == others && values[1..] == vs;
      FollowFirst(parts, p.rest, q.rest);
      MoreRead(abi, depth, slots, parts, values, p.rest != []);
    }
  }

  lemma SkippedRead(abi: Abi, depth: nat, slots: seq<Slot>)
    requires Fit(slots, depth) && slots != [] && slots[0].field.extension
    requires SlotsRead(abi, depth, slots[1..], [], [], false)
    ensures SlotsRead(abi, depth, slots, [], [], false)
  {
    forall i | 0 <= i < |slots| ensures slots[i].field.extension {
      if i > 0 { assert slots[i] == slots[1..][i - 1]; }
    }
    forall i ensures SlotReadAt(abi, depth, slots, [], [], false, i) { }
  }

  lemma MoreRead(abi: Abi, depth: nat, slots: seq<Slot>, parts: seq<seq<Byte>>, values: seq<Value>, more: bool)
    requires Fit(slots, depth) && slots != [] && |parts| == |values| && parts != []
    ensures SlotsRead(abi, depth, slots, parts, values, more) <==>
              && SlotRead(abi, slots[0], parts[0], values[0], Follow(parts, 0, more))
              && SlotsRead(abi, depth, slots[1..], parts[1..], values[1..], more)
  {
    var a, b, c := slots[1..], parts[1..], values[1..];
    forall i | 0 <= i < |a| ensures a[i] == slots[i + 1] { }
    forall i | 0 < i < |slots| ensures slots[i] == a[i - 1] { }
    if SlotsRead(abi, depth, a, b, c, more) && SlotRead(abi, slots[0], parts[0], values[0], Follow(parts, 0, more)) {
      forall i ensures SlotReadAt(abi, depth, slots, parts, values, more, i) {
        assert SlotReadAt(abi, depth, a, b, c, more, i - 1);
        if 0 < i < |parts| { FollowLater(parts, i, more); }
      }
    }
    if SlotsRead(abi, depth, slots, parts, values, more) {
      assert SlotReadAt(abi, depth, slots, parts, values, more, 0);
      forall i ensures SlotReadAt(abi, depth, a, b, c, more, i) {
        assert SlotReadAt(abi, depth, slots, parts, values, more, i + 1);
        if 0 <= i < |b| { FollowLater(parts, i + 1, more); }
      }
    }
  }

  // ----- What decodes is read -----

  lemma {:induction false} DecodedUnpacks(abi: Abi, depth: nat, t: Type, b: seq<Byte>, v: Value, rest: seq<Byte>)
    requires Decodes(abi, depth, t, b, v, rest != [])
    ensures Unpack(abi, depth, t, b + rest) == Done(v, rest)
    decreases depth, 1, 0
  {
    match t
    case UInt(w) =>
      assert (b + rest)[..w] == b && (b + rest)[w..] == rest;
      UnpackIntIff(b + rest, w, v.n, rest);
    case Text => DecodedText(abi, depth, b, v, rest);
    case FixedArray(_, e) =>
      var parts :| ItemsRead(abi, depth - 1, e, parts, v.items, rest != []) && Concat(parts) == b;
      DecodedItems(abi, depth - 1, e, parts, v.items, b + rest, rest);
    case Array(e) => DecodedSized(abi, depth, e, b, v, rest);
    case Optional(e) =>
      assert (b + rest)[0] == b[0] && (b + rest)[1..] == b[1..] + rest;
      if b[0] != 0 { DecodedUnpacks(abi, depth - 1, e, b[1..], v, rest); }
      else { assert b[1..] + rest == rest; }
    case Named(name) =>
      if name in abi.variants {
        DecodedVariant(abi, depth, abi.variants[name], b, v, rest);
      } else {
        DecodedStruct(abi, depth, name, b, v, rest);
      }
  }

  /** Reading a size from the start of the bytes. */
  lemma ReadSize(b: seq<Byte>, k: nat, n: nat, rest: seq<Byte>)
    requires StartsWithReadSize(b, k, n)
    ensures UnpackSize(b + rest) == Done(n, b[k..] + rest)
  {
    UnpackSizeIff(b + rest, n, b[k..] + rest);
    assert b + rest == b[..k] + (b[k..] + rest);
  }

  lemma DecodedText(abi: Abi, depth: nat, b: seq<Byte>, v: Value, rest: seq<Byte>)
    requires Decodes(abi, depth, Text, b, v, rest != [])
    ensures Unpack(abi, depth, Text, b + rest) == Done(v, rest)
  {
    var k: nat :| StartsWithReadSize(b, k, |v.s|) && b[k..] == v.s;
    ReadSize(b, k, |v.s|, rest);
    assert (v.s + rest)[..|v.s|] == v.s && (v.s + rest)[|v.s|..] == rest;
  }

  lemma {:induction false} DecodedSized(abi: Abi, depth: nat, e: Type, b: seq<Byte>, v: Value, rest: seq<Byte>)
    requires depth > 0 && Decodes(abi, depth, Array(e), b, v, rest != [])
    ensures Unpack(abi, depth, Array(e), b + rest) == Done(v, rest)
    decreases depth, 0, 0
  {
    var k: nat :| StartsWithReadSize(b, k, |v.items|) && DecodesItems(abi, depth - 1, e, b[k..], v.items, rest != []);
    ReadSize(b, k, |v.items|, rest);
    var parts :| ItemsRead(abi, depth - 1, e, parts, v.items, rest != []) && Concat(parts) == b[k..];
    DecodedItems(abi, depth - 1, e, parts, v.items, b[k..] + rest, rest);
  }

  lemma {:induction false} DecodedVariant(abi: Abi, depth: nat, alternatives: seq<Alternative>, b: seq<Byte>, v: Value,
                                          rest: seq<Byte>)
    requires depth > 0 && DecodesVariant(abi, depth, alternatives, b, v, rest != [])
    ensures UnpackVariant(abi, depth, alternatives, b + rest) == Done(v, rest)
    decreases depth, 0, 0
  {
    var i: nat, k: nat :| && StartsWithReadSize(b, k, i) && i < |alternatives|
                          && v.items[0] == Str(alternatives[i].tag)
                          && Decodes(abi, depth - 1, alternatives[i].typ, b[k..], v.items[1], rest != []);
    ReadSize(b, k, i, rest);
    DecodedUnpacks(abi, depth - 1, alternatives[i].typ, b[k..], v.items[1], rest);
    assert v.items == [v.items[0], v.items[1]];
  }

  /** The first part and the rest of the bytes. */
  lemma FirstPart(s: seq<Byte>, parts: seq<seq<Byte>>, rest: seq<Byte>) returns (between: seq<Byte>)
    requires parts != [] && Splits(s, Concat(parts), rest)
    ensures Splits(s, parts[0], between) && Splits(between, Concat(parts[1..]), rest)
    ensures Follow(parts, 0, rest != []) == (between != [])
  {
    between := Concat(parts[1..]) + rest;
    Assoc3(parts[0] + between, parts[0], between, Concat(parts[1..]), rest);
    FollowFirst(parts, rest, between);
  }

  lemma {:induction false} DecodedItems(abi: Abi, depth: nat, t: Type, parts: seq<seq<Byte>>, items: seq<Value>,
                                        s: seq<Byte>, rest: seq<Byte>)
    requires ItemsRead(abi, depth, t, parts, items, rest != []) && Splits(s, Concat(parts), rest)
    ensures UnpackItems(abi, depth, t, |items|, s) == Done(items, rest)
    decreases depth, 2, |items|
  {
    if items == [] {
      assert s == rest;
    } else {
      var between := FirstPart(s, parts, rest);
      MoreItems(abi, depth, t, parts, items, rest != []);
      DecodedUnpacks(abi, depth, t, parts[0], items[0], between);
      DecodedItems(abi, depth, t, parts[1..], items[1..], between, rest);
      assert items == [items[0]] + items[1..];
    }
  }

  lemma {:induction false} DecodedStruct(abi: Abi, depth: nat, name: Name, b: seq<Byte>, v: Value, rest: seq<Byte>)
    requires depth > 0 && name !in abi.variants && Decodes(abi, depth, Named(name), b, v, rest != [])
    ensures Unpack(abi, depth, Named(name), b + rest) == Done(v, rest)
    decreases depth, 0, 0
  {
    var slots := Layout(abi, depth - 1, name).value;
    var parts, values :| && SlotsRead(abi, depth - 1, slots, parts, values, rest != []) && Concat(parts) == b
                         && v.members == PutAll([], slots, values);
    DecodedMembers(abi, depth - 1, name, parts, values, rest);
  }

  lemma {:induction false} DecodedMembers(abi: Abi, depth: nat, name: Name, parts: seq<seq<Byte>>, values: seq<Value>,
                                          rest: seq<Byte>)
    requires name in abi.structs && Layout(abi, depth, name).Some?
    requires SlotsRead(abi, depth, Layout(abi, depth, name).value, parts, values, rest != [])
    ensures UnpackObject(abi, depth, name, Concat(parts) + rest, [])
            == Done(PutAll([], Layout(abi, depth, name).value, values), rest)
    decreases depth, 3, 0
  {
    DecodedSlots(abi, depth, Layout(abi, depth, name).value, parts, values, Concat(parts) + rest, rest, []);
    ObjectIsLayout(abi, depth, name, Concat(parts) + rest, []);
  }

  lemma {:induction false} SkipAll(abi: Abi, slots: seq<Slot>, o: seq<Member>)
    requires forall i :: 0 <= i < |slots| ==> slots[i].field.extension
    ensures UnpackSlots(abi, slots, [], o) == Done(o, [])
    decreases |slots|
  {
    if slots != [] {
      forall i | 0 <= i < |slots| - 1 ensures slots[1..][i].field.extension { assert slots[1..][i] == slots[i + 1]; }
      assert slots[0].field.extension;
      SkipAll(abi, slots[1..], o);
    }
  }

  lemma {:induction false} DecodedSlots(abi: Abi, depth: nat, slots: seq<Slot>, parts: seq<seq<Byte>>,
                                        values: seq<Value>, s: seq<Byte>, rest: seq<Byte>, o: seq<Member>)
    requires Fit(slots, depth) && SlotsRead(abi, depth, slots, parts, values, rest != [])
             && Splits(s, Concat(parts), rest)
    ensures UnpackSlots(abi, slots, s, o) == Done(PutAll(o, slots, values), rest)
    decreases depth, 2, |slots|
  {
    if parts == [] {
      assert s == rest;
      if slots != [] { SkipAll(abi, slots, o); }
    } else {
      var between := FirstPart(s, parts, rest);
      MoreRead(abi, depth, slots, parts, values, rest != []);
      assert s != [];
      DecodedUnpacks(abi, slots[0].depth, slots[0].field.typ, parts[0], values[0], between);
      DecodedSlots(abi, depth, slots[1..], parts[1..], values[1..], between, rest,
                   Put(o, slots[0].field.name, values[0]));
    }
  }

  /** For all bytes: a value is read and `rest` is left if and only if the bytes before it decode to the value. */
  lemma UnpackIff(abi: Abi, depth: nat, t: Type, s: seq<Byte>, v: Value, rest: seq<Byte>)
    ensures Unpack(abi, depth, t, s) == Done(v, rest) <==>
              exists b :: Splits(s, b, rest) && Decodes(abi, depth, t, b, v, rest != [])
  {
    if Unpack(abi, depth, t, s) == Done(v, rest) { var b := UnpackDecodes(abi, depth, t, s); }
    if b :| Splits(s, b, rest) && Decodes(abi, depth, t, b, v, rest != []) {
      DecodedUnpacks(abi, depth, t, b, v, rest);
    }
  }
}
