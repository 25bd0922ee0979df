/** Packed values that cannot be read back, ABIs without such values, and how binary extensions may be left out. */
module AbiLimits {
  import opened Wrappers
  import opened AbiSerializer
  import opened AbiValues
  import opened AbiRoundTrip
  import opened AbiCanonical

  // ----- Binary extensions -----

  /** Once a field is left out of a packed object, it and every later field is an extension that is left out. */
  lemma {:induction false} OmissionsAreTrailing(abi: Abi, depth: nat, fields: seq<Field>, o: seq<Member>, ext: bool,
                                                omitted: bool, i: nat, j: nat)
    requires PackFields(abi, depth, fields, o, ext, omitted).Some? && i <= j < |fields|
    requires omitted || !Kept(o, fields[i])
    ensures ext || omitted
    ensures fields[j].extension && !Kept(o, fields[j])
    decreases |fields|
  {
    if j > 0 {
      if i == 0 { OmissionsAreTrailing(abi, depth, fields[1..], o, ext, true, 0, j - 1); }
      else { OmissionsAreTrailing(abi, depth, fields[1..], o, ext, omitted || !Kept(o, fields[0]), i - 1, j - 1); }
    }
  }

  ghost predicate PackedAt(abi: Abi, depth: nat, fields: seq<Field>, o: seq<Member>, ext: bool, i: nat) {
    i < |fields| ==>
      Kept(o, fields[i]) && Pack(abi, depth, fields[i].typ, Given(o, fields[i]), ext && i == |fields| - 1).Some?
  }

  ghost predicate LeftOutAt(fields: seq<Field>, o: seq<Member>, i: nat) {
    i < |fields| ==> fields[i].extension && !Kept(o, fields[i])
  }

  /** The first `k` fields are kept and pack, and the others are extensions that are left out. */
  ghost predicate KeepsFirst(abi: Abi, depth: nat, fields: seq<Field>, o: seq<Member>, ext: bool, k: nat) {
    && k <= |fields| && (k < |fields| ==> ext)
    && (forall i: nat :: i < k ==> PackedAt(abi, depth, fields, o, ext, i))
    && (forall i: nat :: k <= i ==> LeftOutAt(fields, o, i))
  }

  /** Fields pack if and only if some number of leading ones is kept and packs and the others are left-out
      extensions: any number of leading extensions may be present. */
  lemma PacksIff(abi: Abi, depth: nat, fields: seq<Field>, o: seq<Member>, ext: bool)
    ensures PackFields(abi, depth, fields, o, ext, false).Some? <==>
              exists k :: KeepsFirst(abi, depth, fields, o, ext, k)
  {
    if PackFields(abi, depth, fields, o, ext, false).Some? {
      var k := PackedKeepsFirst(abi, depth, fields, o, ext);
    }
    if k :| KeepsFirst(abi, depth, fields, o, ext, k) { KeptFirstPacks(abi, depth, fields, o, ext, k); }
  }

  lemma {:induction false} PackedKeepsFirst(abi: Abi, depth: nat, fields: seq<Field>, o: seq<Member>, ext: bool)
      returns (k: nat)
    requires PackFields(abi, depth, fields, o, ext, false).Some?
    ensures KeepsFirst(abi, depth, fields, o, ext, k)
    decreases |fields|
  {
    if fields == [] || !Kept(o, fields[0]) {
      k := 0;
      forall i: nat ensures LeftOutAt(fields, o, i) {
        if i < |fields| { OmissionsAreTrailing(abi, depth, fields, o, ext, false, 0, i); }
      }
    } else {
      k := PackedKeepsFirst(abi, depth, fields[1..], o, ext);
      KeepsOneMore(abi, depth, fields, o, ext, k);
      k := k + 1;
    }
  }

  lemma KeepsOneMore(abi: Abi, depth: nat, fields: seq<Field>, o: seq<Member>, ext: bool, k: nat)
    requires fields != []
    ensures PackedAt(abi, depth, fields, o, ext, 0) && KeepsFirst(abi, depth, fields[1..], o, ext, k)
            <==> KeepsFirst(abi, depth, fields, o, ext, k + 1)
  {
    var others := fields[1..];
    forall i: nat ensures PackedAt(abi, depth, fields, o, ext, i + 1) == PackedAt(abi, depth, others, o, ext, i)
      ensures LeftOutAt(fields, o, i + 1) == LeftOutAt(others, o, i)
    {
      if i < |others| { assert others[i] == fields[i + 1]; }
    }
    if KeepsFirst(abi, depth, others, o, ext, k) && PackedAt(abi, depth, fields, o, ext, 0) {
      forall i: nat | i < k + 1 ensures PackedAt(abi, depth, fields, o, ext, i) {
        if i > 0 { assert PackedAt(abi, depth, others, o, ext, i - 1); }
      }
      forall i: nat | k + 1 <= i ensures LeftOutAt(fields, o, i) { assert LeftOutAt(others, o, i - 1); }
    }
    if KeepsFirst(abi, depth, fields, o, ext, k + 1) {
      forall i: nat | i < k ensures PackedAt(abi, depth, others, o, ext, i)
      { assert PackedAt(abi, depth, fields, o, ext, i + 1); }
      forall i: nat | k <= i ensures LeftOutAt(others, o, i) { assert LeftOutAt(fields, o, i + 1); }
    }
  }

  lemma {:induction false} KeptFirstPacks(abi: Abi, depth: nat, fields: seq<Field>, o: seq<Member>, ext: bool, k: nat)
    requires KeepsFirst(abi, depth, fields, o, ext, k)
    ensures PackFields(abi, depth, fields, o, ext, false).Some?
    decreases |fields|
  {
    if k == 0 {
      LeftOutPacks(abi, depth, fields, o, ext, false);
    } else {
      KeepsOneMore(abi, depth, fields, o, ext, k - 1);
      KeptFirstPacks(abi, depth, fields[1..], o, ext, k - 1);
    }
  }

  lemma {:induction false} LeftOutPacks(abi: Abi, depth: nat, fields: seq<Field>, o: seq<Member>, ext: bool,
                                        omitted: bool)
    requires (fields != [] ==> ext) && forall i: nat :: LeftOutAt(fields, o, i)
    ensures PackFields(abi, depth, fields, o, ext, omitted) == Some([])
    decreases |fields|
  {
    if fields != [] {
      assert LeftOutAt(fields, o, 0);
      forall i: nat ensures LeftOutAt(fields[1..], o, i) { assert LeftOutAt(fields, o, i + 1); }
      LeftOutPacks(abi, depth, fields[1..], o, ext, true);
    }
  }

  // ----- Values that pack and cannot be read back -----

  /** A struct without members packs to no bytes, and no bytes at all unpack to it. */
  lemma NoFields(abi: Abi, depth: nat, name: Name, o: seq<Member>, s: seq<Byte>)
    requires depth > 0 && name !in abi.variants && name in abi.structs && abi.structs[name] == Struct(None, [])
    ensures Pack(abi, depth, Named(name), Obj(o), true) == Some([]) && Unpack(abi, depth, Named(name), s) == Fail
  {
    var fields := abi.structs[name].fields;
    assert PackFields(abi, depth - 1, fields, o, true, false) == Some([]);
    assert UnpackFields(abi, depth - 1, fields, s, []) == Done([], s);
  }

  /** So does a struct of binary extensions, all left out. */
  lemma OnlyExtensions(abi: Abi, depth: nat, name: Name, o: seq<Member>)
    requires depth > 0 && name !in abi.variants && name in abi.structs && abi.structs[name].base.None?
    requires !HasPlainField(abi.structs[name].fields) && Absent(Names(abi.structs[name].fields), o)
    ensures Pack(abi, depth, Named(name), Obj(o), true) == Some([]) && Unpack(abi, depth, Named(name), []) == Fail
  {
    AllOmitted(abi, depth - 1, abi.structs[name].fields, o, false);
    NothingLeft(abi, depth - 1, abi.structs[name].fields, []);
  }

  /** The array form stops at the first missing extension, even if a required field comes after it. */
  lemma DroppedByArray(abi: Abi, depth: nat, name: Name)
    requires depth > 0 && name !in abi.variants && name in abi.structs && abi.structs[name].base.None?
    requires HasPlainField(abi.structs[name].fields) && abi.structs[name].fields[0].extension
    ensures Pack(abi, depth, Named(name), Arr([]), true) == Some([]) && Unpack(abi, depth, Named(name), []) == Fail
  {
    NothingLeft(abi, depth - 1, abi.structs[name].fields, []);
  }

  const SEVEN := Member([2], Num(7))

  lemma SevenPacks()
    ensures Power(1) == 256 && PackInt(7, 1) == [7] && UnpackInt([7], 1) == Done(7, [])
  {
    assert Power(0) == 1 && PackInt(0, 0) == [] && [7][1..] == [];
    assert UnpackInt([], 0) == Done(0, []);
  }

  /** A last field that packs to no bytes is an error when unpacking, or, if it is an extension, is lost. */
  lemma EmptyTail(extension: bool) returns (abi: Abi, v: Value)
    ensures Pack(abi, 3, Named([1]), v, true) == Some([7])
    ensures v == Obj([SEVEN, Member([3], Arr([]))])
    ensures Unpack(abi, 3, Named([1]), [7]) == if extension then Done(Obj([SEVEN]), []) else Fail
  {
    var a, b := Field([2], UInt(1), false), Field([3], FixedArray(0, UInt(1)), extension);
    abi := Abi(map[[1] := Struct(None, [a, b])], map[]);
    v := Obj([SEVEN, Member([3], Arr([]))]);
    assert [a, b][1..] == [b] && [b][1..] == [];
    TailPacks(abi, a, b);
    TailUnpacks(abi, a, b);
  }

  lemma TailPacks(abi: Abi, a: Field, b: Field)
    requires a == Field([2], UInt(1), false) && b == Field([3], FixedArray(0, UInt(1)), b.extension)
    ensures PackFields(abi, 2, [a, b], [SEVEN, Member([3], Arr([]))], true, false) == Some([7])
  {
    var o := [SEVEN, Member([3], Arr([]))];
    var none: seq<Byte> := [];
    SevenPacks();
    assert o[1..] == [Member([3], Arr([]))] && Contains(o, [2]) && Lookup(o, [2]) == Num(7);
    assert Contains(o[1..], [3]) && Contains(o, [3]) && Lookup(o, [3]) == Arr([]);
    assert [a, b][1..] == [b] && [b][1..] == [] && none + none == none && [7] + none == [7];
    assert PackFields(abi, 2, [], o, true, false) == Some(none);
    assert PackFields(abi, 2, [b], o, true, false) == Join(Some(none), Some(none));
  }

  lemma TailUnpacks(abi: Abi, a: Field, b: Field)
    requires a == Field([2], UInt(1), false) && b == Field([3], FixedArray(0, UInt(1)), b.extension)
    ensures UnpackFields(abi, 2, [a, b], [7], []) == if b.extension then Done([SEVEN], []) else Fail
  {
    SevenPacks();
    assert [a, b][1..] == [b] && [b][1..] == [] && Put([], [2], Num(7)) == [SEVEN];
    assert UnpackFields(abi, 2, [], [], [SEVEN]) == Done([SEVEN], []);
    assert Unpack(abi, 2, a.typ, [7]) == Done(Num(7), []);
    assert UnpackFields(abi, 2, [a, b], [7], []) == UnpackFields(abi, 2, [b], [], [SEVEN]);
  }

  /** Of two members with the same name only the last is read back. */
  lemma RepeatedName(abi: Abi, depth: nat, name: Name, x: Name)
    requires depth > 1 && name !in abi.variants && name in abi.structs
    requires abi.structs[name] == Struct(None, [Field(x, UInt(1), false), Field(x, UInt(1), false)])
    ensures Pack(abi, depth, Named(name), Arr([Num(7), Num(8)]), true) == Some([7, 8])
    ensures Unpack(abi, depth, Named(name), [7, 8]) == Done(Obj([Member(x, Num(8))]), [])
  {
    var f, d := Field(x, UInt(1), false), depth - 1;
    assert [f, f][1..] == [f] && [f][1..] == [] && [Num(7), Num(8)][1..] == [Num(8)];
    BytePacks(abi, d, 7, [8]);
    BytePacks(abi, d, 8, []);
    assert [7] + [8] == [7, 8] && [8] + [] == [8];
    assert PackArray(abi, d, [f], [Num(8)], true) == Some([8]);
    assert PackArray(abi, d, [f, f], [Num(7), Num(8)], true) == Some([7, 8]);
    assert Put([], x, Num(7)) == [Member(x, Num(7))] && Put([Member(x, Num(7))], x, Num(8)) == [Member(x, Num(8))];
    assert UnpackFields(abi, d, [f], [8], [Member(x, Num(7))]) == UnpackFields(abi, d, [], [], [Member(x, Num(8))]);
    assert UnpackFields(abi, d, [f, f], [7, 8], []) == UnpackFields(abi, d, [f], [8], [Member(x, Num(7))]);
  }

  lemma BytePacks(abi: Abi, depth: nat, n: Byte, rest: seq<Byte>)
    requires depth > 0
    ensures forall ext :: Pack(abi, depth, UInt(1), Num(n), ext) == Some([n])
    ensures Unpack(abi, depth, UInt(1), [n] + rest) == Done(Num(n), rest)
  {
    assert Power(0) == 1 && Power(1) == 256 && PackInt(n / 256, 0) == [] && PackInt(n, 1) == [n];
    assert ([n] + rest)[1..] == rest && UnpackInt(rest, 0) == Done(0, rest);
  }

  // ----- ABIs for which every packed value can be read back -----

  /** Every value of the type takes at least one byte. */
  predicate Sized(t: Type) {
    match t
    case UInt(w) => w > 0
    case FixedArray(n, e) => n > 0 && Sized(e)
    case _ => true
  }

  /** The struct or one of its bases has a field that is not a binary extension. */
  predicate HasRequired(abi: Abi, depth: nat, name: Name)
    requires name in abi.structs
    decreases depth
  {
    var s := abi.structs[name];
    HasPlainField(s.fields) || (s.base.Some? && (depth == 0 || s.base.value !in abi.structs
                                                 || HasRequired(abi, depth - 1, s.base.value)))
  }

  predicate AllSized(fields: seq<Field>) { fields == [] || (Sized(fields[0].typ) && AllSized(fields[1..])) }

  predicate ExtensionsLast(fields: seq<Field>) {
    fields == [] || ((fields[0].extension ==> !HasPlainField(fields[1..])) && ExtensionsLast(fields[1..]))
  }

  ghost predicate GoodStruct(abi: Abi, name: Name) {
    name in abi.structs ==>
      && AllSized(abi.structs[name].fields) && ExtensionsLast(abi.structs[name].fields)
      && (forall depth :: HasRequired(abi, depth, name))
  }

  /** Field types take at least one byte, every struct has a required field, and binary extensions come last. */
  ghost predicate Good(abi: Abi) {
    forall name :: GoodStruct(abi, name)
  }

  // ----- Packed values of sized types take at least one byte -----

  lemma {:induction false} PackedNonEmpty(abi: Abi, depth: nat, t: Type, v: Value, ext: bool)
    requires Good(abi) && Sized(t) && Pack(abi, depth, t, v, ext).Some?
    ensures Pack(abi, depth, t, v, ext).value != []
    decreases depth, 1, 0
  {
    match t
    case FixedArray(n, e) =>
      assert v.items != [];
      PackedNonEmpty(abi, depth - 1, e, v.items[0], false);
    case Named(name) =>
      if name !in abi.variants {
        assert GoodStruct(abi, name);
        if v.Obj? { ObjectNonEmpty(abi, depth - 1, name, v.members, ext); }
        else {
          assert HasRequired(abi, 0, name);
          ArrayNonEmpty(abi, depth - 1, abi.structs[name].fields, v.items, ext);
        }
      }
    case _ =>
  }

  lemma {:induction false} ObjectNonEmpty(abi: Abi, depth: nat, name: Name, o: seq<Member>, ext: bool)
    requires Good(abi) && name in abi.structs && HasRequired(abi, depth, name)
             && PackObject(abi, depth, name, o, ext).Some?
    ensures PackObject(abi, depth, name, o, ext).value != []
    decreases depth, 3, 0
  {
    var s := abi.structs[name];
    assert GoodStruct(abi, name);
    if HasPlainField(s.fields) {
      FieldsNonEmpty(abi, depth, s.fields, o, ext, false);
    } else {
      ObjectNonEmpty(abi, depth - 1, s.base.value, o, false);
    }
  }

  lemma {:induction false} FieldsNonEmpty(abi: Abi, depth: nat, fields: seq<Field>, o: seq<Member>, ext: bool,
                                          omitted: bool)
    requires Good(abi) && AllSized(fields) && HasPlainField(fields)
             && PackFields(abi, depth, fields, o, ext, omitted).Some?
    ensures PackFields(abi, depth, fields, o, ext, omitted).value != []
    decreases depth, 2, |fields|
  {
    if Kept(o, fields[0]) {
      PackedNonEmpty(abi, depth, fields[0].typ, Given(o, fields[0]), ext && |fields| == 1);
    } else {
      FieldsNonEmpty(abi, depth, fields[1..], o, ext, true);
    }
  }

  lemma {:induction false} ArrayNonEmpty(abi: Abi, depth: nat, fields: seq<Field>, items: seq<Value>, ext: bool)
    requires Good(abi) && AllSized(fields) && ExtensionsLast(fields) && HasPlainField(fields)
    requires PackArray(abi, depth, fields, items, ext).Some?
    ensures PackArray(abi, depth, fields, items, ext).value != []
    decreases depth, 2, |fields|
  {
    if items != [] { PackedNonEmpty(abi, depth, fields[0].typ, items[0], ext && |fields| == 1); }
  }

  lemma {:induction false} RequiredKept(abi: Abi, depth: nat, name: Name, o: seq<Member>, ext: bool)
    requires name in abi.structs && HasRequired(abi, depth, name) && PackObject(abi, depth, name, o, ext).Some?
    ensures KeepsMember(abi, depth, name, o)
    decreases depth
  {
    var s := abi.structs[name];
    if HasPlainField(s.fields) { PlainKept(abi, depth, s.fields, o, ext, false); }
    else { RequiredKept(abi, depth - 1, s.base.value, o, false); }
  }

  lemma {:induction false} PlainKept(abi: Abi, depth: nat, fields: seq<Field>, o: seq<Member>, ext: bool, omitted: bool)
    requires HasPlainField(fields) && PackFields(abi, depth, fields, o, ext, omitted).Some?
    ensures KeepsField(fields, o)
    decreases |fields|
  {
    if !Kept(o, fields[0]) { PlainKept(abi, depth, fields[1..], o, ext, true); }
  }

  /** With such an ABI every value that packs can be read back. */
  lemma {:induction false} AllReadable(abi: Abi, depth: nat, t: Type, v: Value, ext: bool, more: bool)
    requires Good(abi) && Pack(abi, depth, t, v, ext).Some?
    ensures Readable(abi, depth, t, v, ext, more)
    decreases depth, 1, 0
  {
    match t
    case UInt(_) =>
    case Text =>
    case FixedArray(_, e) => ItemsReadable(abi, depth - 1, e, v.items, more);
    case Array(e) => ItemsReadable(abi, depth - 1, e, v.items, more);
    case Optional(e) => if !v.Null? { AllReadable(abi, depth - 1, e, v, ext, more); }
    case Named(name) =>
      if name in abi.variants {
        var i := IndexOf(abi.variants[name], v.items[0].s).value;
        AllReadable(abi, depth - 1, abi.variants[name][i].typ, v.items[1], ext, more);
      } else {
        StructReadable(abi, depth, name, v, ext, more);
      }
  }

  lemma {:induction false} StructReadable(abi: Abi, depth: nat, name: Name, v: Value, ext: bool, more: bool)
    requires Good(abi) && depth > 0 && name !in abi.variants && Pack(abi, depth, Named(name), v, ext).Some?
    ensures Readable(abi, depth, Named(name), v, ext, more)
    decreases depth, 0, 1
  {
    assert GoodStruct(abi, name);
    assert HasRequired(abi, depth - 1, name) && HasRequired(abi, 0, name);
    if v.Obj? {
      RequiredKept(abi, depth - 1, name, v.members, ext);
      ObjectReadable(abi, depth - 1, name, v.members, ext, more);
    } else {
      ArrayReadable(abi, depth - 1, abi.structs[name].fields, v.items, ext, more);
    }
  }

  lemma {:induction false} ItemsReadable(abi: Abi, depth: nat, t: Type, items: seq<Value>, more: bool)
    requires Good(abi) && PackItems(abi, depth, t, items).Some?
    ensures ReadableItems(abi, depth, t, items, more)
    decreases depth, 2, |items|
  {
    if items != [] {
      AllReadable(abi, depth, t, items[0], false, more || SomeBytes(PackItems(abi, depth, t, items[1..])));
      ItemsReadable(abi, depth, t, items[1..], more);
    }
  }

  lemma {:induction false} ObjectReadable(abi: Abi, depth: nat, name: Name, o: seq<Member>, ext: bool, more: bool)
    requires Good(abi) && name in abi.structs && PackObject(abi, depth, name, o, ext).Some?
    ensures ReadableObject(abi, depth, name, o, ext, more)
    decreases depth, 3, 0
  {
    var s := abi.structs[name];
    assert GoodStruct(abi, name);
    FieldsReadable(abi, depth, s.fields, o, ext, more);
    if s.base.Some? {
      ObjectReadable(abi, depth - 1, s.base.value, o, false, more
                     || SomeBytes(PackFields(abi, depth, s.fields, o, ext, false)));
    }
  }

  lemma {:induction false} FieldsReadable(abi: Abi, depth: nat, fields: seq<Field>, o: seq<Member>, ext: bool,
                                          more: bool)
    requires Good(abi) && AllSized(fields) && PackFields(abi, depth, fields, o, ext, false).Some?
    ensures ReadableFields(abi, depth, fields, o, ext, more)
    decreases depth, 2, |fields|
  {
    if fields != [] && Kept(o, fields[0]) {
      var v, last := Given(o, fields[0]), ext && |fields| == 1;
      PackedNonEmpty(abi, depth, fields[0].typ, v, last);
      AllReadable(abi, depth, fields[0].typ, v, last, more
                  || SomeBytes(PackFields(abi, depth, fields[1..], o, ext, false)));
      FieldsReadable(abi, depth, fields[1..], o, ext, more);
    }
  }

  lemma {:induction false} ArrayReadable(abi: Abi, depth: nat, fields: seq<Field>, items: seq<Value>, ext: bool,
                                         more: bool)
    requires Good(abi) && AllSized(fields) && ExtensionsLast(fields) && PackArray(abi, depth, fields, items, ext).Some?
    ensures ReadableArray(abi, depth, fields, items, ext, more)
    decreases depth, 2, |fields|
  {
    if fields != [] && items != [] {
      var last := ext && |fields| == 1;
      PackedNonEmpty(abi, depth, fields[0].typ, items[0], last);
      AllReadable(abi, depth, fields[0].typ, items[0], last, more
                  || SomeBytes(PackArray(abi, depth, fields[1..], items[1..], ext)));
      ArrayReadable(abi, depth, fields[1..], items[1..], ext, more);
    }
  }

  // ----- ABIs in which no value meets a repeated name -----

  ghost predicate DistinctAt(abi: Abi, name: Name) {
    && (name in abi.structs ==> forall depth :: NoRepeats(ChainNames(abi, depth, name)))
    && (name in abi.variants ==> |abi.variants[name]| <= MAX32)
  }

  ghost predicate AllDistinct(abi: Abi) { forall name :: DistinctAt(abi, name) }

  /** With distinct member names in every struct the law is about every value. */
  lemma {:induction false} AllSound(abi: Abi, depth: nat, t: Type, v: Value, ext: bool)
    requires AllDistinct(abi) && Pack(abi, depth, t, v, ext).Some?
    ensures Sound(abi, depth, t, v)
    decreases depth, 1, 0
  {
    match t
    case UInt(_) =>
    case Text =>
    case FixedArray(_, e) => ItemsSound(abi, depth - 1, e, v.items);
    case Array(e) => ItemsSound(abi, depth - 1, e, v.items);
    case Optional(e) => if !v.Null? { AllSound(abi, depth - 1, e, v, ext); }
    case Named(name) =>
      assert DistinctAt(abi, name);
      if name in abi.variants {
        var i := IndexOf(abi.variants[name], v.items[0].s).value;
        AllSound(abi, depth - 1, abi.variants[name][i].typ, v.items[1], ext);
      } else if v.Obj? {
        ObjectSound(abi, depth - 1, name, v.members, ext);
      } else {
        assert NoRepeats(ChainNames(abi, 0, name));
        ArraySound(abi, depth - 1, abi.structs[name].fields, v.items, ext);
      }
  }

  lemma {:induction false} ItemsSound(abi: Abi, depth: nat, t: Type, items: seq<Value>)
    requires AllDistinct(abi) && PackItems(abi, depth, t, items).Some?
    ensures SoundItems(abi, depth, t, items)
    decreases depth, 2, |items|
  {
    if items != [] {
      AllSound(abi, depth, t, items[0], false);
      ItemsSound(abi, depth, t, items[1..]);
    }
  }

  lemma {:induction false} ObjectSound(abi: Abi, depth: nat, name: Name, o: seq<Member>, ext: bool)
    requires AllDistinct(abi) && name in abi.structs && PackObject(abi, depth, name, o, ext).Some?
    ensures SoundObject(abi, depth, name, o)
    decreases depth, 3, 0
  {
    var s := abi.structs[name];
    FieldsSound(abi, depth, s.fields, o, ext, false);
    if s.base.Some? { ObjectSound(abi, depth - 1, s.base.value, o, false); }
  }

  lemma {:induction false} FieldsSound(abi: Abi, depth: nat, fields: seq<Field>, o: seq<Member>, ext: bool,
                                       omitted: bool)
    requires AllDistinct(abi) && PackFields(abi, depth, fields, o, ext, omitted).Some?
    ensures SoundFields(abi, depth, fields, o)
    decreases depth, 2, |fields|
  {
    if fields != [] {
      if Kept(o, fields[0]) { AllSound(abi, depth, fields[0].typ, Given(o, fields[0]), ext && |fields| == 1); }
      FieldsSound(abi, depth, fields[1..], o, ext, !Kept(o, fields[0]));
    }
  }

  lemma {:induction false} ArraySound(abi: Abi, depth: nat, fields: seq<Field>, items: seq<Value>, ext: bool)
    requires AllDistinct(abi) && PackArray(abi, depth, fields, items, ext).Some?
    ensures SoundArray(abi, depth, fields, items)
    decreases depth, 2, |fields|
  {
    if fields != [] && items != [] {
      AllSound(abi, depth, fields[0].typ, items[0], ext && |fields| == 1);
      ArraySound(abi, depth, fields[1..], items[1..], ext);
    }
  }

  /** With both, the round trip law holds for every value that packs. */
  lemma GoodRoundTrip(abi: Abi, depth: nat, t: Type, v: Value, bytes: seq<Byte>)
    requires Good(abi) && AllDistinct(abi) && Pack(abi, depth, t, v, true) == Some(bytes)
    ensures Unpack(abi, depth, t, bytes) == Done(Canon(abi, depth, t, v), [])
    ensures Pack(abi, depth, t, Canon(abi, depth, t, v), true) == Some(bytes)
  {
    AllReadable(abi, depth, t, v, true, false);
    AllSound(abi, depth, t, v, true);
    RoundTrip(abi, depth, t, v, bytes);
  }
}
