/** Unpacking what was packed gives the canonical value if and only if the value is readable. */
module AbiRoundTrip {
  import opened Wrappers
  import opened AbiSerializer
  import opened AbiValues
  import opened AbiNumbers

  // ----- Integers -----

  lemma {:induction false} VarRoundTrip(n: nat, left: nat, rest: seq<Byte>)
    requires 1 <= left && n < Power128(left)
    ensures UnpackVar(PackVar(n) + rest, left) == Done(n, rest)
    decreases left
  {
    var s := PackVar(n) + rest;
    if n < 128 {
      assert s == [n] + rest && s[1..] == rest;
    } else {
      assert s == [n % 128 + 128] + (PackVar(n / 128) + rest);
      assert s[1..] == PackVar(n / 128) + rest;
      assert left > 1;
      VarRoundTrip(n / 128, left - 1, rest);
      assert (n % 128 + 128) % 128 == n % 128;
    }
  }

  lemma FiveBytes(left: nat)
    requires left == 5
    ensures MAX32 < Power128(left)
  {
    assert Power128(0) == 1;
    assert Power128(1) == 128;
    assert Power128(2) == 16384;
    assert Power128(3) == 2097152;
    assert Power128(4) == 268435456;
  }

  lemma SizeRoundTrip(n: nat, rest: seq<Byte>)
    requires n < MAX32
    ensures UnpackSize(PackVar(n) + rest) == Done(n, rest)
  {
    FiveBytes(5);
    VarRoundTrip(n, 5, rest);
    RemainderOfSmall(n);
  }

  lemma RemainderOfSmall(n: nat)
    requires n < MAX32
    ensures n % MAX32 == n
  {
  }

  lemma IntRoundTrip(n: nat, width: nat, rest: seq<Byte>)
    requires n < Power(width)
    ensures UnpackInt(PackInt(n, width) + rest, width) == Done(n, rest)
  {
    var b := PackInt(n, width);
    IntIff(b, width, n);
    assert (b + rest)[..width] == b && (b + rest)[width..] == rest;
    UnpackIntIff(b + rest, width, n, rest);
  }

  // ----- What unpacking makes of packed bytes -----

  /** Unpacking fails or leaves exactly `rest`, and it gives `v` if and only if `readable`. */
  ghost predicate Reads<T>(p: Parse<T>, v: T, rest: seq<Byte>, readable: bool) {
    (p.Done? ==> p.rest == rest) && (readable <==> p == Done(v, rest))
  }

  ghost predicate NamedFrom(o: seq<Member>, from: nat, names: seq<Name>) {
    forall i :: from <= i < |o| ==> o[i].name in names
  }

  /** The same for members that are added to `m`, their names taken from `names`. */
  ghost predicate ReadsMembers(p: Parse<seq<Member>>, m: seq<Member>, names: seq<Name>, c: seq<Member>, rest: seq<Byte>,
                               readable: bool) {
    Reads(p, m + c, rest, readable) && (p.Done? ==> m <= p.value && NamedFrom(p.value, |m|, names))
  }

  lemma Assoc(a: seq<Byte>, b: seq<Byte>, c: seq<Byte>)
    ensures (a + b) + c == a + (b + c)
  {
  }

  /** At the end of the bytes nothing more is read. */
  lemma {:induction false} NothingLeft(abi: Abi, depth: nat, fields: seq<Field>, m: seq<Member>)
    ensures UnpackFields(abi, depth, fields, [], m) == if HasPlainField(fields) then Fail else Done(m, [])
    decreases |fields|
  {
    if fields != [] { NothingLeft(abi, depth, fields[1..], m); }
  }

  /** A left-out binary extension leaves nothing to pack after it. */
  lemma {:induction false} OmittedRest(abi: Abi, depth: nat, fields: seq<Field>, o: seq<Member>, ext: bool)
    requires PackFields(abi, depth, fields, o, ext, true).Some?
    ensures PackFields(abi, depth, fields, o, ext, true).value == [] && CanonFields(abi, depth, fields, o) == []
    ensures !HasPlainField(fields)
    decreases |fields|
  {
    if fields != [] { OmittedRest(abi, depth, fields[1..], o, ext); }
  }

  lemma NoMembers(m: seq<Member>, names: seq<Name>)
    ensures ReadsMembers(Done(m, []), m, names, [], [], true)
  {
    assert m + [] == m;
  }

  /** Skipping a kept member loses it. */
  lemma MemberLost(p: Parse<seq<Member>>, m: seq<Member>, names: seq<Name>, c: seq<Member>)
    requires (p.Fail? || p == Done(m, [])) && c != []
    ensures ReadsMembers(p, m, names, c, [], false)
  {
    assert |m + c| > |m|;
  }

  lemma FailsMembers(m: seq<Member>, names: seq<Name>, c: seq<Member>, rest: seq<Byte>)
    ensures ReadsMembers(Fail, m, names, c, rest, false)
  {
  }

  /** One member is read as `w`, which should be `c`, then the others. */
  lemma MemberRead(p: Parse<seq<Member>>, m: seq<Member>, name: Name, w: Value, names: seq<Name>, c: Value,
                   cs: seq<Member>, rest: seq<Byte>, others: bool)
    requires ReadsMembers(p, m + [Member(name, w)], names, cs, rest, others)
    ensures ReadsMembers(p, m, [name] + names, [Member(name, c)] + cs, rest, w == c && others)
  {
    var n := m + [Member(name, w)];
    assert m + ([Member(name, c)] + cs) == (m + [Member(name, c)]) + cs;
    assert (m + ([Member(name, c)] + cs))[|m|] == Member(name, c);
    if p.Done? {
      assert p.value[|m|] == n[|m|] && m <= n;
      forall i | |m| <= i < |p.value| ensures p.value[i].name in [name] + names { }
    }
  }

  // ----- Struct bases -----

  ghost predicate Disjoint(a: seq<Name>, b: seq<Name>) { forall n :: n in a ==> n !in b }

  lemma Border(w: seq<Member>, x: seq<Member>, y: seq<Member>, a: seq<Name>, b: seq<Name>, i: nat)
    requires w == x + y && NamedFrom(x, 0, a) && NamedFrom(y, 0, b) && Disjoint(a, b) && i < |w|
    ensures w[i].name in a <==> i < |x|
  {
  }

  /** Members named from disjoint lists split in one way only. */
  lemma SplitUnique(w: seq<Member>, x: seq<Member>, y: seq<Member>, c: seq<Member>, d: seq<Member>, a: seq<Name>,
                    b: seq<Name>)
    requires NamedFrom(x, 0, a) && NamedFrom(c, 0, a) && NamedFrom(y, 0, b) && NamedFrom(d, 0, b) && Disjoint(a, b)
    requires w == x + y && w == c + d
    ensures x == c
  {
    if |x| != |c| {
      var i := if |x| < |c| then |x| else |c|;
      Border(w, x, y, a, b, i);
      Border(w, c, d, a, b, i);
    }
    assert x == w[..|x|] && c == w[..|c|];
  }

  /** The members of the base, then those of the struct itself. */
  lemma BaseRead(p: Parse<seq<Member>>, m: seq<Member>, base: seq<Member>, a: seq<Name>, b: seq<Name>,
                 c: seq<Member>, d: seq<Member>, rest: seq<Byte>, own: bool)
    requires m <= base && NamedFrom(base, |m|, a) && ReadsMembers(p, base, b, d, rest, own)
    requires NamedFrom(c, 0, a) && NamedFrom(d, 0, b) && Disjoint(a, b)
    ensures ReadsMembers(p, m, a + b, c + d, rest, base == m + c && own)
  {
    assert m + (c + d) == (m + c) + d;
    if p.Done? {
      var x, y := base[|m|..], p.value[|base|..];
      assert base == m + x && p.value == m + (x + y) && p.value == base + y;
      forall i | |m| <= i < |p.value| ensures p.value[i].name in a + b {
        if i < |base| { assert p.value[i] == base[i]; }
      }
      if p.value == m + (c + d) {
        assert x + y == p.value[|m|..] && c + d == (m + (c + d))[|m|..];
        SplitUnique(x + y, x, y, c, d, a, b);
      }
    }
  }

  lemma CanonNamed(abi: Abi, depth: nat, name: Name, o: seq<Member>)
    requires name in abi.structs
    ensures NamedFrom(CanonObject(abi, depth, name, o), 0, ChainNames(abi, depth, name))
    ensures NamedFrom(CanonFields(abi, depth, abi.structs[name].fields, o), 0, Names(abi.structs[name].fields))
  {
    var c, d := CanonObject(abi, depth, name, o), CanonFields(abi, depth, abi.structs[name].fields, o);
    forall i | 0 <= i < |c| ensures c[i].name in ChainNames(abi, depth, name) {
      ContainsAt(c, c[i].name);
      CanonNames(abi, depth, name, o, c[i].name);
    }
    forall i | 0 <= i < |d| ensures d[i].name in Names(abi.structs[name].fields) {
      ContainsAt(d, d[i].name);
      CanonFieldNames(abi, depth, abi.structs[name].fields, o, d[i].name);
    }
  }

  lemma NamesApart(all: seq<Name>, a: seq<Name>, b: seq<Name>, m: seq<Member>)
    requires all == a + b && NoRepeats(all) && Absent(all, m)
    ensures NoRepeats(a) && NoRepeats(b) && Absent(a, m) && Absent(b, m) && Disjoint(a, b)
  {
    forall i | 0 <= i < |a| ensures !Contains(m, a[i]) { assert all[i] == a[i]; }
    forall i | 0 <= i < |b| ensures !Contains(m, b[i]) { assert all[|a| + i] == b[i]; }
    forall i, j | 0 <= i < j < |a| ensures a[i] != a[j] { assert all[i] == a[i] && all[j] == a[j]; }
    forall i, j | 0 <= i < j < |b| ensures b[i] != b[j] { assert all[|a| + i] == b[i] && all[|a| + j] == b[j]; }
    forall i, j | 0 <= i < |a| && 0 <= j < |b| ensures a[i] != b[j] { assert all[i] == a[i] && all[|a| + j] == b[j]; }
  }

  lemma AbsentFromBase(a: seq<Name>, b: seq<Name>, m: seq<Member>, base: seq<Member>)
    requires m <= base && NamedFrom(base, |m|, a) && Disjoint(a, b) && Absent(b, m)
    ensures Absent(b, base)
  {
    forall i | 0 <= i < |b| ensures !Contains(base, b[i]) {
      ContainsAt(base, b[i]);
      ContainsAt(m, b[i]);
      forall j | 0 <= j < |base| ensures base[j].name != b[i] {
        if j < |m| { assert base[j] == m[j]; }
      }
    }
  }

  // ----- The law -----

  /** Unpacking a packed value gives its canonical form and the bytes that follow it if and only if the
      value is readable.  Where trailing extensions may have been left out, nothing may follow. */
  lemma {:induction false} UnpackPacked(abi: Abi, depth: nat, t: Type, v: Value, ext: bool, bs: seq<Byte>,
                                        rest: seq<Byte>)
    requires Sound(abi, depth, t, v) && Pack(abi, depth, t, v, ext) == Some(bs) && (ext ==> rest == [])
    ensures Reads(Unpack(abi, depth, t, bs + rest), Canon(abi, depth, t, v), rest,
                  Readable(abi, depth, t, v, ext, rest != []))
    decreases depth, 1, 0
  {
    match t
    case UInt(w) => IntRoundTrip(v.n, w, rest);
    case Text =>
      Assoc(PackVar(|v.s|), v.s, rest);
      SizeRoundTrip(|v.s|, v.s + rest);
    case FixedArray(n, e) => ItemsUnpack(abi, depth - 1, e, v.items, bs, rest);
    case Array(e) => SizedUnpack(abi, depth, e, v, ext, bs, rest);
    case Optional(e) => OptionalUnpack(abi, depth, e, v, ext, bs, rest);
    case Named(name) =>
      if name in abi.variants {
        VariantUnpack(abi, depth, name, v, ext, bs, rest);
      } else {
        StructUnpack(abi, depth, name, v, ext, bs, rest);
      }
  }

  lemma {:induction false} SizedUnpack(abi: Abi, depth: nat, e: Type, v: Value, ext: bool, bs: seq<Byte>,
                                       rest: seq<Byte>)
    requires depth > 0 && Sound(abi, depth, Array(e), v) && Pack(abi, depth, Array(e), v, ext) == Some(bs)
    ensures Reads(Unpack(abi, depth, Array(e), bs + rest), Canon(abi, depth, Array(e), v), rest,
                  Readable(abi, depth, Array(e), v, ext, rest != []))
    decreases depth, 0, 1
  {
    var items := PackItems(abi, depth - 1, e, v.items).value;
    Assoc(PackVar(|v.items|), items, rest);
    SizeRoundTrip(|v.items|, items + rest);
    ItemsUnpack(abi, depth - 1, e, v.items, items, rest);
  }

  lemma {:induction false} OptionalUnpack(abi: Abi, depth: nat, e: Type, v: Value, ext: bool, bs: seq<Byte>,
                                          rest: seq<Byte>)
    requires depth > 0 && Sound(abi, depth, Optional(e), v) && Pack(abi, depth, Optional(e), v, ext) == Some(bs)
    requires ext ==> rest == []
    ensures Reads(Unpack(abi, depth, Optional(e), bs + rest), Canon(abi, depth, Optional(e), v), rest,
                  Readable(abi, depth, Optional(e), v, ext, rest != []))
    decreases depth, 0, 1
  {
    if v.Null? {
      assert (bs + rest)[1..] == rest;
    } else {
      var inner := Pack(abi, depth - 1, e, v, ext).value;
      assert (bs + rest)[1..] == inner + rest;
      UnpackPacked(abi, depth - 1, e, v, ext, inner, rest);
    }
  }

  lemma {:induction false} VariantUnpack(abi: Abi, depth: nat, name: Name, v: Value, ext: bool, bs: seq<Byte>,
                                         rest: seq<Byte>)
    requires depth > 0 && name in abi.variants && |abi.variants[name]| <= MAX32
             && SoundVariant(abi, depth, abi.variants[name], v) && (ext ==> rest == [])
    requires PackVariant(abi, depth, abi.variants[name], v, ext) == Some(bs)
    ensures Reads(UnpackVariant(abi, depth, abi.variants[name], bs + rest),
                  CanonVariant(abi, depth, abi.variants[name], v), rest,
                  ReadableVariant(abi, depth, abi.variants[name], v, ext, rest != []))
    decreases depth, 0, 1
  {
    var alternatives := abi.variants[name];
    var i := IndexOf(alternatives, v.items[0].s).value;
    var inner := Pack(abi, depth - 1, alternatives[i].typ, v.items[1], ext).value;
    Assoc(PackVar(i), inner, rest);
    SizeRoundTrip(i, inner + rest);
    UnpackPacked(abi, depth - 1, alternatives[i].typ, v.items[1], ext, inner, rest);
    SameTag(v.items[0], Canon(abi, depth - 1, alternatives[i].typ, v.items[1]));
  }

  lemma SameTag(tag: Value, c: Value)
    ensures forall w :: Arr([tag, w]) == Arr([tag, c]) <==> w == c
  {
    forall w ensures Arr([tag, w]) == Arr([tag, c]) <==> w == c {
      assert Arr([tag, w]).items[1] == w && Arr([tag, c]).items[1] == c;
    }
  }

  lemma {:induction false} ItemsUnpack(abi: Abi, depth: nat, t: Type, items: seq<Value>, bs: seq<Byte>, rest: seq<Byte>)
    requires SoundItems(abi, depth, t, items) && PackItems(abi, depth, t, items) == Some(bs)
    ensures Reads(UnpackItems(abi, depth, t, |items|, bs + rest), CanonItems(abi, depth, t, items), rest,
                  ReadableItems(abi, depth, t, items, rest != []))
    decreases depth, 2, |items|
  {
    if items == [] {
      assert bs + rest == rest;
    } else {
      var first, others := Pack(abi, depth, t, items[0], false).value, PackItems(abi, depth, t, items[1..]).value;
      Assoc(first, others, rest);
      UnpackPacked(abi, depth, t, items[0], false, first, others + rest);
      ItemsUnpack(abi, depth, t, items[1..], others, rest);
      ItemRead(Unpack(abi, depth, t, first + (others + rest)), UnpackItems(abi, depth, t, |items| - 1, others + rest),
               Canon(abi, depth, t, items[0]), CanonItems(abi, depth, t, items[1..]), others + rest, rest,
               Readable(abi, depth, t, items[0], false, others + rest != []),
               ReadableItems(abi, depth, t, items[1..], rest != []));
    }
  }

  lemma ItemRead(p: Parse<Value>, q: Parse<seq<Value>>, c: Value, cs: seq<Value>, between: seq<Byte>, rest: seq<Byte>,
                 first: bool, others: bool)
    requires Reads(p, c, between, first) && Reads(q, cs, rest, others)
    ensures Reads(if p.Fail? || q.Fail? then Fail else Done([p.value] + q.value, q.rest), [c] + cs, rest,
                  first && others)
  {
    if p.Done? && q.Done? {
      var v, vs := p.value, q.value;
      assert ([v] + vs)[0] == v && ([c] + cs)[0] == c && ([v] + vs)[1..] == vs && ([c] + cs)[1..] == cs;
    }
  }

  lemma {:induction false} StructUnpack(abi: Abi, depth: nat, name: Name, v: Value, ext: bool, bs: seq<Byte>,
                                        rest: seq<Byte>)
    requires Sound(abi, depth, Named(name), v) && depth > 0 && name !in abi.variants && (ext ==> rest == [])
    requires Pack(abi, depth, Named(name), v, ext) == Some(bs)
    ensures Reads(Unpack(abi, depth, Named(name), bs + rest), Canon(abi, depth, Named(name), v), rest,
                  Readable(abi, depth, Named(name), v, ext, rest != []))
    decreases depth, 0, 1
  {
    if v.Obj? {
      var c := CanonObject(abi, depth - 1, name, v.members);
      ObjectUnpack(abi, depth - 1, name, v.members, ext, bs, rest, []);
      CanonKeepsMember(abi, depth - 1, name, v.members);
      assert [] + c == c;
    } else {
      var c := CanonArray(abi, depth - 1, abi.structs[name].fields, v.items);
      ArrayUnpack(abi, depth - 1, abi.structs[name].fields, v.items, ext, bs, rest, []);
      assert [] + c == c;
    }
  }

  lemma {:induction false} ObjectUnpack(abi: Abi, depth: nat, name: Name, o: seq<Member>, ext: bool, bs: seq<Byte>,
                                        rest: seq<Byte>, m: seq<Member>)
    requires name in abi.structs && SoundObject(abi, depth, name, o) && PackObject(abi, depth, name, o, ext) == Some(bs)
             && (ext ==> rest == [])
    requires NoRepeats(ChainNames(abi, depth, name)) && Absent(ChainNames(abi, depth, name), m)
    ensures ReadsMembers(UnpackObject(abi, depth, name, bs + rest, m), m, ChainNames(abi, depth, name),
                         CanonObject(abi, depth, name, o), rest,
                         ReadableObject(abi, depth, name, o, ext, rest != []))
    decreases depth, 3, 0
  {
    var s := abi.structs[name];
    if s.base.None? {
      FieldsUnpack(abi, depth, s.fields, o, ext, bs, rest, m);
    } else {
      var b := s.base.value;
      var first, own := PackObject(abi, depth - 1, b, o, false).value,
                        PackFields(abi, depth, s.fields, o, ext, false).value;
      NamesApart(ChainNames(abi, depth, name), ChainNames(abi, depth - 1, b), Names(s.fields), m);
      Assoc(first, own, rest);
      ObjectUnpack(abi, depth - 1, b, o, false, first, own + rest, m);
      OwnUnpack(abi, depth, name, o, ext, own, rest, m, UnpackObject(abi, depth - 1, b, first + (own + rest), m));
    }
  }

  /** After the base, whatever was read of it, come the fields of the struct itself. */
  lemma {:induction false} OwnUnpack(abi: Abi, depth: nat, name: Name, o: seq<Member>, ext: bool, own: seq<Byte>,
                                     rest: seq<Byte>, m: seq<Member>,
                                     p: Parse<seq<Member>>)
    requires name in abi.structs && SoundFields(abi, depth, abi.structs[name].fields, o) && depth > 0
             && (ext ==> rest == [])
    requires PackFields(abi, depth, abi.structs[name].fields, o, ext, false) == Some(own)
    requires abi.structs[name].base.Some? && abi.structs[name].base.value in abi.structs
    requires var b, names := abi.structs[name].base.value, Names(abi.structs[name].fields);
             && NoRepeats(names) && Absent(names, m) && Disjoint(ChainNames(abi, depth - 1, b), names)
             && ReadsMembers(p, m, ChainNames(abi, depth - 1, b), CanonObject(abi, depth - 1, b, o), own + rest,
                             ReadableObject(abi, depth - 1, b, o, false, own + rest != []))
    ensures ReadsMembers(if p.Fail? then Fail else UnpackFields(abi, depth, abi.structs[name].fields, p.rest, p.value),
                         m,
                         ChainNames(abi, depth, name), CanonObject(abi, depth, name, o), rest,
                         ReadableObject(abi, depth, name, o, ext, rest != []))
    decreases depth, 2, |abi.structs[name].fields| + 1
  {
    var s := abi.structs[name];
    var a, b := ChainNames(abi, depth - 1, s.base.value), Names(s.fields);
    var c, d := CanonObject(abi, depth - 1, s.base.value, o), CanonFields(abi, depth, s.fields, o);
    if p.Done? {
      AbsentFromBase(a, b, m, p.value);
      FieldsUnpack(abi, depth, s.fields, o, ext, own, rest, p.value);
      CanonNamed(abi, depth - 1, s.base.value, o);
      CanonNamed(abi, depth, name, o);
      BaseRead(UnpackFields(abi, depth, s.fields, own + rest, p.value), m, p.value, a, b, c, d, rest,
               ReadableFields(abi, depth, s.fields, o, ext, rest != []));
    } else {
      FailsMembers(m, ChainNames(abi, depth, name), CanonObject(abi, depth, name, o), rest);
    }
  }

  /** One packed field is read and added to the object, then the others. */
  lemma {:induction false} FieldUnpack(abi: Abi, depth: nat, fields: seq<Field>, v: Value, last: bool, bs: seq<Byte>,
                                       rest: seq<Byte>, m: seq<Member>)
    requires fields != [] && Sound(abi, depth, fields[0].typ, v) && Pack(abi, depth, fields[0].typ, v, last) == Some(bs)
             && (last ==> rest == [])
    requires NoRepeats(Names(fields)) && Absent(Names(fields), m) && bs + rest != []
    ensures var p := Unpack(abi, depth, fields[0].typ, bs + rest);
            && Reads(p, Canon(abi, depth, fields[0].typ, v), rest,
                     Readable(abi, depth, fields[0].typ, v, last, rest != []))
            && if p.Fail? then UnpackFields(abi, depth, fields, bs + rest, m) == Fail
               else var n := m + [Member(fields[0].name, p.value)];
                 && UnpackFields(abi, depth, fields, bs + rest, m) == UnpackFields(abi, depth, fields[1..], rest, n)
                 && NoRepeats(Names(fields[1..])) && Absent(Names(fields[1..]), n)
    decreases depth, 2, 0
  {
    UnpackPacked(abi, depth, fields[0].typ, v, last, bs, rest);
    var p := Unpack(abi, depth, fields[0].typ, bs + rest);
    if p.Done? {
      AbsentAfter(fields[0].name, Names(fields[1..]), m, p.value);
      PutNew(m, fields[0].name, p.value);
    }
  }

  lemma {:induction false} FieldsUnpack(abi: Abi, depth: nat, fields: seq<Field>, o: seq<Member>, ext: bool,
                                        bs: seq<Byte>, rest: seq<Byte>, m: seq<Member>)
    requires SoundFields(abi, depth, fields, o) && PackFields(abi, depth, fields, o, ext, false) == Some(bs)
             && (ext ==> rest == [])
    requires NoRepeats(Names(fields)) && Absent(Names(fields), m)
    ensures ReadsMembers(UnpackFields(abi, depth, fields, bs + rest, m), m, Names(fields),
                         CanonFields(abi, depth, fields, o), rest,
                         ReadableFields(abi, depth, fields, o, ext, rest != []))
    decreases depth, 2, |fields|
  {
    if fields == [] {
      assert bs + rest == rest && m + [] == m;
    } else if !Kept(o, fields[0]) {
      OmittedRest(abi, depth, fields[1..], o, ext);
      NothingLeft(abi, depth, fields, m);
      NoMembers(m, Names(fields));
    } else if bs + rest == [] {
      NothingLeft(abi, depth, fields, m);
      MemberLost(UnpackFields(abi, depth, fields, [], m), m, Names(fields), CanonFields(abi, depth, fields, o));
    } else {
      var v, last := Given(o, fields[0]), ext && |fields| == 1;
      var first, others := Pack(abi, depth, fields[0].typ, v, last).value,
                           PackFields(abi, depth, fields[1..], o, ext, false).value;
      Assoc(first, others, rest);
      FieldUnpack(abi, depth, fields, v, last, first, others + rest, m);
      var p := Unpack(abi, depth, fields[0].typ, bs + rest);
      if p.Fail? {
        FailsMembers(m, Names(fields), CanonFields(abi, depth, fields, o), rest);
      } else {
        FieldsUnpack(abi, depth, fields[1..], o, ext, others, rest, m + [Member(fields[0].name, p.value)]);
        MemberRead(UnpackFields(abi, depth, fields, bs + rest, m), m, fields[0].name, p.value, Names(fields[1..]),
                   Canon(abi, depth, fields[0].typ, v), CanonFields(abi, depth, fields[1..], o), rest,
                   ReadableFields(abi, depth, fields[1..], o, ext, rest != []));
      }
    }
  }

  lemma {:induction false} ArrayUnpack(abi: Abi, depth: nat, fields: seq<Field>, items: seq<Value>, ext: bool,
                                       bs: seq<Byte>, rest: seq<Byte>, m: seq<Member>)
    requires SoundArray(abi, depth, fields, items) && PackArray(abi, depth, fields, items, ext) == Some(bs)
             && (ext ==> rest == [])
    requires NoRepeats(Names(fields)) && Absent(Names(fields), m)
    ensures ReadsMembers(UnpackFields(abi, depth, fields, bs + rest, m), m, Names(fields),
                         CanonArray(abi, depth, fields, items), rest,
                         ReadableArray(abi, depth, fields, items, ext, rest != []))
    decreases depth, 2, |fields|
  {
    if fields == [] {
      assert bs + rest == rest && m + [] == m;
    } else if items == [] {
      NothingLeft(abi, depth, fields, m);
      NoMembers(m, Names(fields));
    } else if bs + rest == [] {
      NothingLeft(abi, depth, fields, m);
      MemberLost(UnpackFields(abi, depth, fields, [], m), m, Names(fields), CanonArray(abi, depth, fields, items));
    } else {
      var v, last := items[0], ext && |fields| == 1;
      var first, others := Pack(abi, depth, fields[0].typ, v, last).value,
                           PackArray(abi, depth, fields[1..], items[1..], ext).value;
      Assoc(first, others, rest);
      FieldUnpack(abi, depth, fields, v, last, first, others + rest, m);
      var p := Unpack(abi, depth, fields[0].typ, bs + rest);
      if p.Fail? {
        FailsMembers(m, Names(fields), CanonArray(abi, depth, fields, items), rest);
      } else {
        ArrayUnpack(abi, depth, fields[1..], items[1..], ext, others, rest, m + [Member(fields[0].name, p.value)]);
        MemberRead(UnpackFields(abi, depth, fields, bs + rest, m), m, fields[0].name, p.value, Names(fields[1..]),
                   Canon(abi, depth, fields[0].typ, v), CanonArray(abi, depth, fields[1..], items[1..]), rest,
                   ReadableArray(abi, depth, fields[1..], items[1..], ext, rest != []));
      }
    }
  }
}
