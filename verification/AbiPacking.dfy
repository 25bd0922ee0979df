/** Packing gives bytes if and only if they are the encoding of the value. */
module AbiPacking {
  import opened Wrappers
  import opened AbiSerializer
  import opened AbiNumbers
  import opened AbiValues
  import opened AbiFormat

  // ----- Packed bytes are the encoding -----

  lemma {:induction false} PackEncodes(abi: Abi, depth: nat, t: Type, v: Value, ext: bool, b: seq<Byte>)
    requires Pack(abi, depth, t, v, ext) == Some(b)
    ensures Encodes(abi, depth, t, v, ext, b)
    decreases depth, 1, 0
  {
    match t
    case UInt(w) => IntIff(b, w, v.n);
    case Text => SizeStarts(|v.s|, b, v.s);
    case FixedArray(_, e) =>
      var parts := ItemsEncode(abi, depth - 1, e, v.items, b);
    case Array(e) =>
      var items := PackItems(abi, depth - 1, e, v.items).value;
      SizeStarts(|v.items|, b, items);
      var parts := ItemsEncode(abi, depth - 1, e, v.items, items);
    case Optional(e) =>
      if v != Null {
        assert b[1..] == Pack(abi, depth - 1, e, v, ext).value;
        PackEncodes(abi, depth - 1, e, v, ext, b[1..]);
      }
    case Named(name) =>
      if name in abi.variants {
        VariantEncodes(abi, depth, abi.variants[name], v, ext, b);
      } else if v.Obj? {
        ObjectEncodes(abi, depth - 1, name, v.members, ext, b);
      } else {
        ArrayEncodes(abi, depth - 1, abi.structs[name].fields, v.items, ext, b);
      }
  }

  lemma {:induction false} VariantEncodes(abi: Abi, depth: nat, alternatives: seq<Alternative>, v: Value, ext: bool,
                                          b: seq<Byte>)
    requires depth > 0 && PackVariant(abi, depth, alternatives, v, ext) == Some(b)
    ensures EncodesVariant(abi, depth, alternatives, v, ext, b)
    decreases depth, 0, 0
  {
    var i := IndexOf(alternatives, v.items[0].s).value;
    var inner := Pack(abi, depth - 1, alternatives[i].typ, v.items[1], ext).value;
    IndexIff(alternatives, v.items[0].s, i);
    SizeStarts(i, b, inner);
    PackEncodes(abi, depth - 1, alternatives[i].typ, v.items[1], ext, inner);
  }

  lemma {:induction false} ItemsEncode(abi: Abi, depth: nat, t: Type, items: seq<Value>, b: seq<Byte>)
      returns (parts: seq<seq<Byte>>)
    requires PackItems(abi, depth, t, items) == Some(b)
    ensures ItemParts(abi, depth, t, items, parts) && Concat(parts) == b && EncodesItems(abi, depth, t, items, b)
    decreases depth, 2, |items|
  {
    if items == [] {
      parts := [];
      forall i ensures ItemPart(abi, depth, t, items, parts, i) { }
      assert ItemParts(abi, depth, t, items, parts);
    } else {
      var first, others := Pack(abi, depth, t, items[0], false).value, PackItems(abi, depth, t, items[1..]).value;
      PackEncodes(abi, depth, t, items[0], false, first);
      var rest := ItemsEncode(abi, depth, t, items[1..], others);
      parts := [first] + rest;
      ConcatCons(first, rest);
      assert parts[1..] == rest;
      MoreItemParts(abi, depth, t, items, parts);
    }
  }

  lemma MoreItemParts(abi: Abi, depth: nat, t: Type, items: seq<Value>, parts: seq<seq<Byte>>)
    requires |parts| == |items| > 0
    ensures ItemParts(abi, depth, t, items, parts) <==>
              Encodes(abi, depth, t, items[0], false, parts[0]) && ItemParts(abi, depth, t, items[1..], parts[1..])
  {
    var c, b := items[1..], parts[1..];
    if ItemParts(abi, depth, t, items, parts) {
      assert ItemPart(abi, depth, t, items, parts, 0);
      forall i ensures ItemPart(abi, depth, t, c, b, i) { assert ItemPart(abi, depth, t, items, parts, i + 1); }
    }
    if Encodes(abi, depth, t, items[0], false, parts[0]) && ItemParts(abi, depth, t, c, b) {
      forall i ensures ItemPart(abi, depth, t, items, parts, i) { assert ItemPart(abi, depth, t, c, b, i - 1); }
    }
  }

  /** After an extension that is left out, only such extensions. */
  lemma {:induction false} LeftOut(abi: Abi, depth: nat, fields: seq<Field>, o: seq<Member>, ext: bool, i: nat)
    requires PackFields(abi, depth, fields, o, ext, true).Some?
    ensures PackFields(abi, depth, fields, o, ext, true) == Some([])
    ensures i < |fields| ==> fields[i].extension && ext && !Kept(o, fields[i])
    decreases |fields|
  {
    if fields != [] { LeftOut(abi, depth, fields[1..], o, ext, if i == 0 then 0 else i - 1); }
  }

  lemma {:induction false} FieldsEncode(abi: Abi, depth: nat, fields: seq<Field>, o: seq<Member>, ext: bool,
                                        b: seq<Byte>) returns (parts: seq<seq<Byte>>)
    requires PackFields(abi, depth, fields, o, ext, false) == Some(b)
    ensures SlotParts(abi, depth, Slots(fields, depth), o, ext, parts) && Concat(parts) == b
    ensures OmittedLast(Slots(fields, depth), o)
    decreases depth, 2, |fields|
  {
    if fields == [] {
      parts := [];
    } else if !Kept(o, fields[0]) {
      parts := seq(|fields|, i => []);
      ConcatEmpty(parts);
      forall i | 0 <= i < |fields| ensures fields[i].extension && ext && !Kept(o, fields[i]) {
        LeftOut(abi, depth, fields[1..], o, ext, if i == 0 then 0 else i - 1);
      }
      LeftOut(abi, depth, fields[1..], o, ext, 0);
    } else {
      var last := ext && |fields| == 1;
      var first, others := Pack(abi, depth, fields[0].typ, Given(o, fields[0]), last).value,
                           PackFields(abi, depth, fields[1..], o, ext, false).value;
      PackEncodes(abi, depth, fields[0].typ, Given(o, fields[0]), last, first);
      var rest := FieldsEncode(abi, depth, fields[1..], o, ext, others);
      parts := [first] + rest;
      ConcatCons(first, rest);
      MoreSlots(abi, depth, fields, o, ext, parts);
    }
  }

  /** The slots of a list of fields are that of the first field and those of the others. */
  lemma MoreSlots(abi: Abi, depth: nat, fields: seq<Field>, o: seq<Member>, ext: bool, parts: seq<seq<Byte>>)
    requires fields != [] && |parts| == |fields|
    ensures Slots(fields, depth)[1..] == Slots(fields[1..], depth)
    ensures SlotParts(abi, depth, Slots(fields, depth), o, ext, parts) <==>
              && SlotPart(abi, Slots(fields, depth)[0], o, ext, parts[0])
              && SlotParts(abi, depth, Slots(fields[1..], depth), o, ext, parts[1..])
    ensures Kept(o, fields[0]) ==> (OmittedLast(Slots(fields, depth), o) <==> OmittedLast(Slots(fields[1..], depth), o))
  {
    var all, others := Slots(fields, depth), Slots(fields[1..], depth);
    assert all[1..] == others;
    forall i | 0 <= i < |others| ensures others[i] == all[i + 1] && parts[1..][i] == parts[i + 1] { }
    forall i | 0 < i < |all| ensures all[i] == others[i - 1] && parts[i] == parts[1..][i - 1] { }
  }

  lemma SlotsKept(abi: Abi, depth: nat, slots: seq<Slot>, o: seq<Member>, parts: seq<seq<Byte>>)
    requires Fit(slots, depth) && SlotParts(abi, depth, slots, o, false, parts)
    ensures forall i :: 0 <= i < |slots| ==> Kept(o, slots[i].field)
  {
  }

  lemma {:induction false} ObjectParts(abi: Abi, depth: nat, name: Name, o: seq<Member>, ext: bool, b: seq<Byte>)
      returns (parts: seq<seq<Byte>>)
    requires name in abi.structs && PackObject(abi, depth, name, o, ext) == Some(b)
    ensures Layout(abi, depth, name).Some? && OmittedLast(Layout(abi, depth, name).value, o)
    ensures SlotParts(abi, depth, Layout(abi, depth, name).value, o, ext, parts) && Concat(parts) == b
    decreases depth, 3, 0
  {
    var s := abi.structs[name];
    var own := PackFields(abi, depth, s.fields, o, ext, false).value;
    parts := FieldsEncode(abi, depth, s.fields, o, ext, own);
    if s.base.Some? {
      var base := ObjectParts(abi, depth - 1, s.base.value, o, false,
                              PackObject(abi, depth - 1, s.base.value, o, false).value);
      var slots := Layout(abi, depth - 1, s.base.value).value;
      SlotsKept(abi, depth - 1, slots, o, base);
      ConcatJoin(base, parts);
      BothParts(abi, depth, slots, Slots(s.fields, depth), o, ext, base, parts);
      parts := base + parts;
    }
  }

  /** The places of the bases, where nothing is left out, and those of the struct itself. */
  lemma BothParts(abi: Abi, depth: nat, base: seq<Slot>, own: seq<Slot>, o: seq<Member>, ext: bool,
                  a: seq<seq<Byte>>, b: seq<seq<Byte>>)
    requires Fit(base, depth) && Fit(own, depth) && |a| == |base| && |b| == |own|
    ensures SlotParts(abi, depth, Inherited(base) + own, o, ext, a + b) <==>
              SlotParts(abi, depth, base, o, false, a) && SlotParts(abi, depth, own, o, ext, b)
    ensures (forall i :: 0 <= i < |base| ==> Kept(o, base[i].field)) ==>
              (OmittedLast(Inherited(base) + own, o) <==> OmittedLast(own, o))
  {
    var all, parts := Inherited(base) + own, a + b;
    forall i | 0 <= i < |base| ensures all[i] == base[i].(own := false) && parts[i] == a[i] { }
    forall i | 0 <= i < |own| ensures all[|base| + i] == own[i] && parts[|base| + i] == b[i] { }
    forall i | |base| <= i < |all| ensures all[i] == own[i - |base|] && parts[i] == b[i - |base|] { }
  }

  lemma {:induction false} ObjectEncodes(abi: Abi, depth: nat, name: Name, o: seq<Member>, ext: bool, b: seq<Byte>)
    requires name in abi.structs && PackObject(abi, depth, name, o, ext) == Some(b)
    ensures EncodesObject(abi, depth, name, o, ext, b)
    decreases depth, 4, 0
  {
    var parts := ObjectParts(abi, depth, name, o, ext, b);
  }

  lemma {:induction false} ArrayEncodes(abi: Abi, depth: nat, fields: seq<Field>, items: seq<Value>, ext: bool,
                                        b: seq<Byte>)
    requires PackArray(abi, depth, fields, items, ext) == Some(b)
    ensures EncodesArray(abi, depth, fields, items, ext, b)
    decreases depth, 3, 0
  {
    var parts := ArrayPartsOf(abi, depth, fields, items, ext, b);
  }

  lemma {:induction false} ArrayPartsOf(abi: Abi, depth: nat, fields: seq<Field>, items: seq<Value>, ext: bool,
                                        b: seq<Byte>) returns (parts: seq<seq<Byte>>)
    requires PackArray(abi, depth, fields, items, ext) == Some(b)
    ensures |items| < |fields| ==> fields[|items|].extension && ext
    ensures ArrayParts(abi, depth, fields, items, ext, parts) && Concat(parts) == b
    decreases depth, 2, |fields|
  {
    if fields == [] || items == [] {
      parts := [];
    } else {
      var last := ext && |fields| == 1;
      var first, others := Pack(abi, depth, fields[0].typ, items[0], last).value,
                           PackArray(abi, depth, fields[1..], items[1..], ext).value;
      PackEncodes(abi, depth, fields[0].typ, items[0], last, first);
      var rest := ArrayPartsOf(abi, depth, fields[1..], items[1..], ext, others);
      parts := [first] + rest;
      ConcatCons(first, rest);
      MoreParts(abi, depth, fields, items, ext, parts);
    }
  }

  lemma MoreParts(abi: Abi, depth: nat, fields: seq<Field>, items: seq<Value>, ext: bool, parts: seq<seq<Byte>>)
    requires fields != [] && items != [] && parts != []
    ensures ArrayParts(abi, depth, fields, items, ext, parts) <==>
              && Encodes(abi, depth, fields[0].typ, items[0], ext && |fields| == 1, parts[0])
              && ArrayParts(abi, depth, fields[1..], items[1..], ext, parts[1..])
  {
    forall i | 0 < i < |parts| && i < |fields| && i < |items|
      ensures fields[1..][i - 1] == fields[i] && items[1..][i - 1] == items[i] && parts[1..][i - 1] == parts[i] { }
    forall i | 0 <= i < |parts| - 1 && i < |fields| - 1 && i < |items| - 1
      ensures fields[1..][i] == fields[i + 1] && items[1..][i] == items[i + 1] && parts[1..][i] == parts[i + 1] { }
  }

  // ----- The encoding is what packing gives -----

  lemma {:induction false} EncodedPacks(abi: Abi, depth: nat, t: Type, v: Value, ext: bool, b: seq<Byte>)
    requires Encodes(abi, depth, t, v, ext, b)
    ensures Pack(abi, depth, t, v, ext) == Some(b)
    decreases depth, 1, 0
  {
    match t
    case UInt(w) => IntIff(b, w, v.n);
    case Text => EncodedText(abi, depth, v, ext, b);
    case FixedArray(_, e) => EncodedItems(abi, depth - 1, e, v.items, b);
    case Array(e) => EncodedSized(abi, depth, e, v, ext, b);
    case Optional(e) =>
      if v != Null {
        EncodedPacks(abi, depth - 1, e, v, ext, b[1..]);
        assert b == [1] + b[1..];
      }
    case Named(name) =>
      if name in abi.variants {
        EncodedVariant(abi, depth, abi.variants[name], v, ext, b);
      } else {
        EncodedStruct(abi, depth, name, v, ext, b);
      }
  }

  lemma EncodedText(abi: Abi, depth: nat, v: Value, ext: bool, b: seq<Byte>)
    requires Encodes(abi, depth, Text, v, ext, b)
    ensures Pack(abi, depth, Text, v, ext) == Some(b)
  {
    var k: nat :| StartsWithSize(b, k, |v.s|) && b[k..] == v.s;
    SizeStarts(|v.s|, b, v.s);
  }

  lemma {:induction false} EncodedSized(abi: Abi, depth: nat, e: Type, v: Value, ext: bool, b: seq<Byte>)
    requires depth > 0 && Encodes(abi, depth, Array(e), v, ext, b)
    ensures Pack(abi, depth, Array(e), v, ext) == Some(b)
    decreases depth, 0, 0
  {
    var k: nat :| StartsWithSize(b, k, |v.items|) && EncodesItems(abi, depth - 1, e, v.items, b[k..]);
    SizeStarts(|v.items|, b, b[k..]);
    EncodedItems(abi, depth - 1, e, v.items, b[k..]);
  }

  lemma {:induction false} EncodedStruct(abi: Abi, depth: nat, name: Name, v: Value, ext: bool, b: seq<Byte>)
    requires depth > 0 && name !in abi.variants && Encodes(abi, depth, Named(name), v, ext, b)
    ensures Pack(abi, depth, Named(name), v, ext) == Some(b)
    decreases depth, 0, 0
  {
    if v.Obj? {
      var slots := Layout(abi, depth - 1, name).value;
      var parts :| SlotParts(abi, depth - 1, slots, v.members, ext, parts) && Concat(parts) == b;
      EncodedObject(abi, depth - 1, name, v.members, ext, parts);
    } else {
      var fields := abi.structs[name].fields;
      var parts :| ArrayParts(abi, depth - 1, fields, v.items, ext, parts) && Concat(parts) == b;
      EncodedArray(abi, depth - 1, fields, v.items, ext, parts);
    }
  }

  lemma {:induction false} EncodedVariant(abi: Abi, depth: nat, alternatives: seq<Alternative>, v: Value, ext: bool,
                                          b: seq<Byte>)
    requires depth > 0 && EncodesVariant(abi, depth, alternatives, v, ext, b)
    ensures PackVariant(abi, depth, alternatives, v, ext) == Some(b)
    decreases depth, 0, 0
  {
    var i: nat, k: nat :| && FirstWithTag(alternatives, v.items[0].s, i) && StartsWithSize(b, k, i)
                          && Encodes(abi, depth - 1, alternatives[i].typ, v.items[1], ext, b[k..]);
    IndexIff(alternatives, v.items[0].s, i);
    SizeStarts(i, b, b[k..]);
    EncodedPacks(abi, depth - 1, alternatives[i].typ, v.items[1], ext, b[k..]);
  }

  lemma {:induction false} EncodedItems(abi: Abi, depth: nat, t: Type, items: seq<Value>, b: seq<Byte>)
    requires EncodesItems(abi, depth, t, items, b)
    ensures PackItems(abi, depth, t, items) == Some(b)
    decreases depth, 2, |items|
  {
    var parts :| ItemParts(abi, depth, t, items, parts) && Concat(parts) == b;
    if items != [] {
      MoreItemParts(abi, depth, t, items, parts);
      EncodedPacks(abi, depth, t, items[0], false, parts[0]);
      EncodedItems(abi, depth, t, items[1..], Concat(parts[1..]));
    }
  }

  lemma {:induction false} NoneKept(abi: Abi, depth: nat, fields: seq<Field>, o: seq<Member>, ext: bool, omitted: bool)
    requires forall i :: 0 <= i < |fields| ==> fields[i].extension && ext && !Kept(o, fields[i])
    ensures PackFields(abi, depth, fields, o, ext, omitted) == Some([])
    decreases |fields|
  {
    if fields != [] {
      forall i | 0 <= i < |fields| - 1 ensures fields[1..][i].extension && ext && !Kept(o, fields[1..][i]) {
        assert fields[1..][i] == fields[i + 1];
      }
      assert !Kept(o, fields[0]);
      NoneKept(abi, depth, fields[1..], o, ext, true);
    }
  }

  lemma {:induction false} EncodedFields(abi: Abi, depth: nat, fields: seq<Field>, o: seq<Member>, ext: bool,
                                         parts: seq<seq<Byte>>)
    requires SlotParts(abi, depth, Slots(fields, depth), o, ext, parts) && OmittedLast(Slots(fields, depth), o)
    ensures PackFields(abi, depth, fields, o, ext, false) == Some(Concat(parts))
    decreases depth, 2, |fields|
  {
    if fields != [] {
      var slots := Slots(fields, depth);
      assert SlotPart(abi, slots[0], o, ext, parts[0]);
      if !Kept(o, fields[0]) {
        forall i | 0 <= i < |fields| ensures fields[i].extension && ext && !Kept(o, fields[i]) && parts[i] == [] {
          assert SlotPart(abi, slots[i], o, ext, parts[i]) && (i > 0 ==> !Kept(o, slots[i].field));
        }
        NoneKept(abi, depth, fields, o, ext, false);
        ConcatEmpty(parts);
      } else {
        MoreSlots(abi, depth, fields, o, ext, parts);
        EncodedPacks(abi, depth, fields[0].typ, Given(o, fields[0]), ext && |fields| == 1, parts[0]);
        EncodedFields(abi, depth, fields[1..], o, ext, parts[1..]);
      }
    }
  }

  lemma {:induction false} EncodedObject(abi: Abi, depth: nat, name: Name, o: seq<Member>, ext: bool,
                                         parts: seq<seq<Byte>>)
    requires name in abi.structs && Layout(abi, depth, name).Some? && OmittedLast(Layout(abi, depth, name).value, o)
    requires SlotParts(abi, depth, Layout(abi, depth, name).value, o, ext, parts)
    ensures PackObject(abi, depth, name, o, ext) == Some(Concat(parts))
    decreases depth, 3, 0
  {
    var s := abi.structs[name];
    if s.base.None? {
      EncodedFields(abi, depth, s.fields, o, ext, parts);
    } else {
      var slots, own := Layout(abi, depth - 1, s.base.value).value, Slots(s.fields, depth);
      var a, b := parts[..|slots|], parts[|slots|..];
      assert parts == a + b;
      BothParts(abi, depth, slots, own, o, ext, a, b);
      SlotsKept(abi, depth, slots, o, a);
      EncodedObject(abi, depth - 1, s.base.value, o, false, a);
      EncodedFields(abi, depth, s.fields, o, ext, b);
      ConcatJoin(a, b);
    }
  }

  lemma {:induction false} EncodedArray(abi: Abi, depth: nat, fields: seq<Field>, items: seq<Value>, ext: bool,
                                        parts: seq<seq<Byte>>)
    requires ArrayParts(abi, depth, fields, items, ext, parts)
    requires |items| < |fields| ==> fields[|items|].extension && ext
    ensures PackArray(abi, depth, fields, items, ext) == Some(Concat(parts))
    decreases depth, 2, |fields|
  {
    if fields != [] && items != [] {
      MoreParts(abi, depth, fields, items, ext, parts);
      EncodedPacks(abi, depth, fields[0].typ, items[0], ext && |fields| == 1, parts[0]);
      EncodedArray(abi, depth, fields[1..], items[1..], ext, parts[1..]);
    }
  }

  /** A value packs to exactly the bytes that encode it, and is refused if and only if there are none. */
  lemma PackIff(abi: Abi, depth: nat, t: Type, v: Value, ext: bool, b: seq<Byte>)
    ensures Pack(abi, depth, t, v, ext) == Some(b) <==> Encodes(abi, depth, t, v, ext, b)
    ensures Pack(abi, depth, t, v, ext).None? <==> forall c :: !Encodes(abi, depth, t, v, ext, c)
  {
    var p := Pack(abi, depth, t, v, ext);
    if p.Some? { PackEncodes(abi, depth, t, v, ext, p.value); }
    forall c | Encodes(abi, depth, t, v, ext, c) ensures p == Some(c) { EncodedPacks(abi, depth, t, v, ext, c); }
    assert p.Some? ==> Encodes(abi, depth, t, v, ext, p.value);
  }
}
