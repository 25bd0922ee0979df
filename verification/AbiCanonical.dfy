/** The canonical form of a readable value packs to the same bytes as the value. */
module AbiCanonical {
  import opened Wrappers
  import opened AbiSerializer
  import opened AbiValues
  import opened AbiRoundTrip

  lemma {:induction false} CanonNotNull(abi: Abi, depth: nat, t: Type, v: Value, ext: bool)
    requires Pack(abi, depth, t, v, ext).Some? && v != Null
    ensures Canon(abi, depth, t, v) != Null
    decreases depth
  {
    if t.Optional? { CanonNotNull(abi, depth - 1, t.elem, v, ext); }
  }

  lemma {:induction false} CanonPacks(abi: Abi, depth: nat, t: Type, v: Value, ext: bool, more: bool)
    requires Sound(abi, depth, t, v) && Pack(abi, depth, t, v, ext).Some? && Readable(abi, depth, t, v, ext, more)
    ensures Pack(abi, depth, t, Canon(abi, depth, t, v), ext) == Pack(abi, depth, t, v, ext)
    decreases depth, 1, 0
  {
    match t
    case UInt(_) =>
    case Text =>
    case FixedArray(_, e) => ItemsPack(abi, depth - 1, e, v.items, more);
    case Array(e) => ItemsPack(abi, depth - 1, e, v.items, more);
    case Optional(e) =>
      if v != Null {
        CanonNotNull(abi, depth - 1, e, v, ext);
        CanonPacks(abi, depth - 1, e, v, ext, more);
      }
    case Named(name) =>
      if name in abi.variants {
        var i := IndexOf(abi.variants[name], v.items[0].s).value;
        CanonPacks(abi, depth - 1, abi.variants[name][i].typ, v.items[1], ext, more);
      } else {
        StructPacks(abi, depth, name, v, ext, more);
      }
  }

  lemma {:induction false} ItemsPack(abi: Abi, depth: nat, t: Type, items: seq<Value>, more: bool)
    requires SoundItems(abi, depth, t, items) && PackItems(abi, depth, t, items).Some?
             && ReadableItems(abi, depth, t, items, more)
    ensures PackItems(abi, depth, t, CanonItems(abi, depth, t, items)) == PackItems(abi, depth, t, items)
    decreases depth, 2, |items|
  {
    if items != [] {
      CanonPacks(abi, depth, t, items[0], false, more || SomeBytes(PackItems(abi, depth, t, items[1..])));
      ItemsPack(abi, depth, t, items[1..], more);
      var c := CanonItems(abi, depth, t, items);
      assert c[1..] == CanonItems(abi, depth, t, items[1..]);
    }
  }

  lemma {:induction false} StructPacks(abi: Abi, depth: nat, name: Name, v: Value, ext: bool, more: bool)
    requires Sound(abi, depth, Named(name), v) && depth > 0 && name !in abi.variants
             && Pack(abi, depth, Named(name), v, ext).Some?
    requires Readable(abi, depth, Named(name), v, ext, more)
    ensures Pack(abi, depth, Named(name), Canon(abi, depth, Named(name), v), ext)
            == Pack(abi, depth, Named(name), v, ext)
    decreases depth, 0, 1
  {
    if v.Obj? {
      ObjectPacks(abi, depth - 1, name, v.members, ext, more, []);
      var c := CanonObject(abi, depth - 1, name, v.members);
      assert c + [] == c;
    } else {
      var fields := abi.structs[name].fields;
      ArrayPacks(abi, depth - 1, fields, v.items, ext, more, []);
      var c := CanonArray(abi, depth - 1, fields, v.items);
      assert [] + c == c;
    }
  }

  // ----- Looking members up in the canonical object -----

  lemma FindsKept(pre: seq<Member>, m: Member, rest: seq<Member>, post: seq<Member>)
    requires !Contains(pre, m.name)
    ensures Contains(pre + ([m] + rest) + post, m.name) && Lookup(pre + ([m] + rest) + post, m.name) == m.value
    ensures (pre + [m]) + rest + post == pre + ([m] + rest) + post
  {
    ContainsConcat(pre + ([m] + rest), post, m.name);
    ContainsConcat(pre, [m] + rest, m.name);
  }

  lemma MissesOmitted(abi: Abi, depth: nat, fields: seq<Field>, o: seq<Member>, pre: seq<Member>, post: seq<Member>,
                      name: Name)
    requires !Contains(pre, name) && !Contains(post, name) && name !in Names(fields)
    ensures !Contains(pre + CanonFields(abi, depth, fields, o) + post, name)
  {
    ContainsConcat(pre + CanonFields(abi, depth, fields, o), post, name);
    ContainsConcat(pre, CanonFields(abi, depth, fields, o), name);
    if Contains(CanonFields(abi, depth, fields, o), name) { CanonFieldNames(abi, depth, fields, o, name); }
  }

  lemma NoneReadable(abi: Abi, depth: nat, fields: seq<Field>, o: seq<Member>, ext: bool, more: bool)
    requires PackFields(abi, depth, fields, o, ext, true).Some?
    ensures ReadableFields(abi, depth, fields, o, ext, more)
  {
  }

  lemma {:induction false} FieldsPack(abi: Abi, depth: nat, fields: seq<Field>, o: seq<Member>, ext: bool,
                                      omitted: bool, more: bool,
                                      pre: seq<Member>, post: seq<Member>)
    requires SoundFields(abi, depth, fields, o) && PackFields(abi, depth, fields, o, ext, omitted).Some?
             && ReadableFields(abi, depth, fields, o, ext, more)
    requires NoRepeats(Names(fields)) && Absent(Names(fields), pre) && Absent(Names(fields), post)
    ensures PackFields(abi, depth, fields, pre + CanonFields(abi, depth, fields, o) + post, ext, omitted)
            == PackFields(abi, depth, fields, o, ext, omitted)
    decreases depth, 2, |fields|
  {
    if fields != [] {
      var f, others := fields[0], fields[1..];
      NamesSplit(f.name, Names(others), pre);
      NamesSplit(f.name, Names(others), post);
      if Kept(o, f) {
        var m := Member(f.name, Canon(abi, depth, f.typ, Given(o, f)));
        FindsKept(pre, m, CanonFields(abi, depth, others, o), post);
        CanonPacks(abi, depth, f.typ, Given(o, f), ext && |fields| == 1, more
                   || SomeBytes(PackFields(abi, depth, others, o, ext, false)));
        AbsentAfter(f.name, Names(others), pre, m.value);
        FieldsPack(abi, depth, others, o, ext, false, more, pre + [m], post);
      } else {
        MissesOmitted(abi, depth, others, o, pre, post, f.name);
        NoneReadable(abi, depth, others, o, ext, more);
        FieldsPack(abi, depth, others, o, ext, true, more, pre, post);
      }
    }
  }

  lemma {:induction false} ObjectPacks(abi: Abi, depth: nat, name: Name, o: seq<Member>, ext: bool, more: bool,
                                       post: seq<Member>)
    requires name in abi.structs && SoundObject(abi, depth, name, o) && PackObject(abi, depth, name, o, ext).Some?
             && ReadableObject(abi, depth, name, o, ext, more)
    requires NoRepeats(ChainNames(abi, depth, name)) && Absent(ChainNames(abi, depth, name), post)
    ensures PackObject(abi, depth, name, CanonObject(abi, depth, name, o) + post, ext)
            == PackObject(abi, depth, name, o, ext)
    decreases depth, 3, 0
  {
    var s := abi.structs[name];
    var own := CanonFields(abi, depth, s.fields, o);
    if s.base.None? {
      FieldsPack(abi, depth, s.fields, o, ext, false, more, [], post);
      assert [] + own + post == own + post;
    } else {
      var b := s.base.value;
      var base := CanonObject(abi, depth - 1, b, o);
      BaseNames(abi, depth, name, o, post);
      ObjectPacks(abi, depth - 1, b, o, false, more || SomeBytes(PackFields(abi, depth, s.fields, o, ext, false)),
                  own + post);
      assert base + (own + post) == base + own + post;
      FieldsPack(abi, depth, s.fields, o, ext, false, more, base, post);
    }
  }

  /** Members of the struct itself are not found among those of its base, nor the other way round. */
  lemma BaseNames(abi: Abi, depth: nat, name: Name, o: seq<Member>, post: seq<Member>)
    requires name in abi.structs && depth > 0
    requires abi.structs[name].base.Some? && abi.structs[name].base.value in abi.structs
    requires NoRepeats(ChainNames(abi, depth, name)) && Absent(ChainNames(abi, depth, name), post)
    ensures var base, fields := abi.structs[name].base.value, abi.structs[name].fields;
            && NoRepeats(ChainNames(abi, depth - 1, base)) && NoRepeats(Names(fields))
            && Absent(ChainNames(abi, depth - 1, base), CanonFields(abi, depth, fields, o) + post)
            && Absent(Names(fields), CanonObject(abi, depth - 1, base, o)) && Absent(Names(fields), post)
  {
    var base, fields := abi.structs[name].base.value, abi.structs[name].fields;
    var a, b := ChainNames(abi, depth - 1, base), Names(fields);
    NamesApart(ChainNames(abi, depth, name), a, b, post);
    CanonNamed(abi, depth - 1, base, o);
    CanonNamed(abi, depth, name, o);
    AbsentFromBase(a, b, [], CanonObject(abi, depth - 1, base, o));
    AbsentFromBase(b, a, [], CanonFields(abi, depth, fields, o));
    forall i | 0 <= i < |a| ensures !Contains(CanonFields(abi, depth, fields, o) + post, a[i]) {
      ContainsConcat(CanonFields(abi, depth, fields, o), post, a[i]);
    }
  }

  // ----- From the array form -----

  lemma {:induction false} AllOmitted(abi: Abi, depth: nat, fields: seq<Field>, o: seq<Member>, omitted: bool)
    requires !HasPlainField(fields) && Absent(Names(fields), o)
    ensures PackFields(abi, depth, fields, o, true, omitted) == Some([])
    decreases |fields|
  {
    if fields != [] {
      assert Names(fields)[0] == fields[0].name;
      forall i | 0 <= i < |Names(fields[1..])| ensures !Contains(o, Names(fields[1..])[i]) {
        assert Names(fields)[i + 1] == Names(fields[1..])[i];
      }
      AllOmitted(abi, depth, fields[1..], o, true);
    }
  }

  lemma {:induction false} ArrayPacks(abi: Abi, depth: nat, fields: seq<Field>, items: seq<Value>, ext: bool,
                                      more: bool, pre: seq<Member>)
    requires SoundArray(abi, depth, fields, items) && PackArray(abi, depth, fields, items, ext).Some?
             && ReadableArray(abi, depth, fields, items, ext, more)
    requires NoRepeats(Names(fields)) && Absent(Names(fields), pre)
    ensures PackFields(abi, depth, fields, pre + CanonArray(abi, depth, fields, items), ext, false)
            == PackArray(abi, depth, fields, items, ext)
    decreases depth, 2, |fields|
  {
    if fields != [] {
      var f, others := fields[0], fields[1..];
      if items != [] {
        var m, rest := Member(f.name, Canon(abi, depth, f.typ, items[0])), CanonArray(abi, depth, others, items[1..]);
        NamesSplit(f.name, Names(others), pre);
        FindsKept(pre, m, rest, []);
        assert pre + ([m] + rest) + [] == pre + ([m] + rest) && (pre + [m]) + rest + [] == (pre + [m]) + rest;
        CanonPacks(abi, depth, f.typ, items[0], ext && |fields| == 1, more
                   || SomeBytes(PackArray(abi, depth, others, items[1..], ext)));
        AbsentAfter(f.name, Names(others), pre, m.value);
        ArrayPacks(abi, depth, others, items[1..], ext, more, pre + [m]);
      } else {
        assert pre + [] == pre;
        AllOmitted(abi, depth, fields, pre, false);
      }
    }
  }

  // ----- The law -----

  /** Unpacking packed bytes gives the canonical value, and packing that gives the same bytes again, if and only
      if the value is readable. */
  lemma RoundTrip(abi: Abi, depth: nat, t: Type, v: Value, bytes: seq<Byte>)
    requires Sound(abi, depth, t, v) && Pack(abi, depth, t, v, true) == Some(bytes)
    ensures Readable(abi, depth, t, v, true, false) <==>
              && Unpack(abi, depth, t, bytes) == Done(Canon(abi, depth, t, v), [])
              && Pack(abi, depth, t, Canon(abi, depth, t, v), true) == Some(bytes)
  {
    UnpackPacked(abi, depth, t, v, true, bytes, []);
    assert bytes + [] == bytes;
    if Readable(abi, depth, t, v, true, false) { CanonPacks(abi, depth, t, v, true, false); }
  }
}
