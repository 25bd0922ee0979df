/** The canonical form of a value, and which packed values can be read back. */
module AbiValues {
  import opened Wrappers
  import opened AbiSerializer

  // ----- Canonical values -----

  /** What unpacking returns for a packed value: structs in object form, absent optional fields null,
      unknown members dropped. */
  function Canon(abi: Abi, depth: nat, t: Type, v: Value): Value
    decreases depth, 1, 0
  {
    if depth == 0 then v
    else
      match t
      case UInt(_) => v
      case Text => v
      case FixedArray(_, e) => if v.Arr? then Arr(CanonItems(abi, depth - 1, e, v.items)) else v
      case Array(e) => if v.Arr? then Arr(CanonItems(abi, depth - 1, e, v.items)) else v
      case Optional(e) => if v.Null? then v else Canon(abi, depth - 1, e, v)
      case Named(name) =>
        if name in abi.variants then CanonVariant(abi, depth, abi.variants[name], v)
        else if name !in abi.structs then v
        else if v.Obj? then Obj(CanonObject(abi, depth - 1, name, v.members))
        else if v.Arr? then Obj(CanonArray(abi, depth - 1, abi.structs[name].fields, v.items))
        else v
  }

  function CanonVariant(abi: Abi, depth: nat, alternatives: seq<Alternative>, v: Value): Value
    requires depth > 0
    decreases depth, 0, 0
  {
    if !v.Arr? || |v.items| != 2 || !v.items[0].Str? then v
    else
      var i := IndexOf(alternatives, v.items[0].s);
      if i.None? then v else Arr([v.items[0], Canon(abi, depth - 1, alternatives[i.value].typ, v.items[1])])
  }

  function CanonItems(abi: Abi, depth: nat, t: Type, items: seq<Value>): (r: seq<Value>)
    ensures |r| == |items|
    decreases depth, 2, |items|
  {
    if items == [] then [] else [Canon(abi, depth, t, items[0])] + CanonItems(abi, depth, t, items[1..])
  }

  function CanonObject(abi: Abi, depth: nat, name: Name, o: seq<Member>): seq<Member>
    requires name in abi.structs
    decreases depth, 3, 0
  {
    var s := abi.structs[name];
    var own := CanonFields(abi, depth, s.fields, o);
    if s.base.None? || depth == 0 || s.base.value !in abi.structs then own
    else CanonObject(abi, depth - 1, s.base.value, o) + own
  }

  /** The value a field is packed from. */
  function Given(o: seq<Member>, f: Field): Value { if Contains(o, f.name) then Lookup(o, f.name) else Null }

  predicate Kept(o: seq<Member>, f: Field) { Contains(o, f.name) || f.IsOptional() }

  function CanonFields(abi: Abi, depth: nat, fields: seq<Field>, o: seq<Member>): seq<Member>
    decreases depth, 2, |fields|
  {
    if fields == [] then []
    else if Kept(o, fields[0]) then
      [Member(fields[0].name, Canon(abi, depth, fields[0].typ, Given(o, fields[0])))]
        + CanonFields(abi, depth, fields[1..], o)
    else CanonFields(abi, depth, fields[1..], o)
  }

  function CanonArray(abi: Abi, depth: nat, fields: seq<Field>, items: seq<Value>): seq<Member>
    decreases depth, 2, |fields|
  {
    if fields == [] || items == [] then []
    else [Member(fields[0].name, Canon(abi, depth, fields[0].typ, items[0]))]
         + CanonArray(abi, depth, fields[1..], items[1..])
  }

  // ----- Struct members -----

  function Names(fields: seq<Field>): seq<Name> { if fields == [] then [] else [fields[0].name] + Names(fields[1..]) }

  /** The names of all the members of a struct, those of its bases first. */
  function ChainNames(abi: Abi, depth: nat, name: Name): seq<Name>
    requires name in abi.structs
    decreases depth
  {
    var s := abi.structs[name];
    if s.base.None? || depth == 0 || s.base.value !in abi.structs then Names(s.fields)
    else ChainNames(abi, depth - 1, s.base.value) + Names(s.fields)
  }

  predicate NoRepeats(s: seq<Name>) { forall i, j :: 0 <= i < j < |s| ==> s[i] != s[j] }

  /** In every struct met in the value, no member name is used twice, its bases included; and in every variant met
      the index of an alternative fits into 32 bits. */
  predicate Sound(abi: Abi, depth: nat, t: Type, v: Value)
    decreases depth, 1, 0
  {
    depth == 0 ||
    match t
    case UInt(_) => true
    case Text => true
    case FixedArray(_, e) => !v.Arr? || SoundItems(abi, depth - 1, e, v.items)
    case Array(e) => !v.Arr? || SoundItems(abi, depth - 1, e, v.items)
    case Optional(e) => v.Null? || Sound(abi, depth - 1, e, v)
    case Named(name) =>
      if name in abi.variants then |abi.variants[name]| <= MAX32 && SoundVariant(abi, depth, abi.variants[name], v)
      else if name !in abi.structs then true
      else if v.Obj? then NoRepeats(ChainNames(abi, depth - 1, name)) && SoundObject(abi, depth - 1, name, v.members)
      else if v.Arr? then
        NoRepeats(Names(abi.structs[name].fields)) && SoundArray(abi, depth - 1, abi.structs[name].fields, v.items)
      else true
  }

  predicate SoundVariant(abi: Abi, depth: nat, alternatives: seq<Alternative>, v: Value)
    requires depth > 0
    decreases depth, 0, 0
  {
    v.Arr? && |v.items| == 2 && v.items[0].Str? ==>
      var i := IndexOf(alternatives, v.items[0].s);
      i.Some? ==> Sound(abi, depth - 1, alternatives[i.value].typ, v.items[1])
  }

  predicate SoundItems(abi: Abi, depth: nat, t: Type, items: seq<Value>)
    decreases depth, 2, |items|
  {
    items != [] ==> Sound(abi, depth, t, items[0]) && SoundItems(abi, depth, t, items[1..])
  }

  predicate SoundObject(abi: Abi, depth: nat, name: Name, o: seq<Member>)
    requires name in abi.structs
    decreases depth, 3, 0
  {
    var s := abi.structs[name];
    && SoundFields(abi, depth, s.fields, o)
    && (s.base.Some? && depth > 0 && s.base.value in abi.structs ==> SoundObject(abi, depth - 1, s.base.value, o))
  }

  predicate SoundFields(abi: Abi, depth: nat, fields: seq<Field>, o: seq<Member>)
    decreases depth, 2, |fields|
  {
    fields != [] ==>
      && (Kept(o, fields[0]) ==> Sound(abi, depth, fields[0].typ, Given(o, fields[0])))
      && SoundFields(abi, depth, fields[1..], o)
  }

  predicate SoundArray(abi: Abi, depth: nat, fields: seq<Field>, items: seq<Value>)
    decreases depth, 2, |fields|
  {
    fields != [] && items != [] ==>
      Sound(abi, depth, fields[0].typ, items[0]) && SoundArray(abi, depth, fields[1..], items[1..])
  }

  predicate HasPlainField(fields: seq<Field>) { fields != [] && (!fields[0].extension || HasPlainField(fields[1..])) }

  // ----- Values that can be read back -----

  predicate SomeBytes(p: Option<seq<Byte>>) { p.Some? && p.value != [] }

  /** Every struct met in the value keeps at least one member, at least one byte is left for every kept
      field, its own or a later one, and a struct given as an array leaves out only binary extensions.
      `more` says whether bytes follow the value. */
  predicate Readable(abi: Abi, depth: nat, t: Type, v: Value, ext: bool, more: bool)
    decreases depth, 1, 0
  {
    depth == 0 ||
    match t
    case UInt(_) => true
    case Text => true
    case FixedArray(_, e) => !v.Arr? || ReadableItems(abi, depth - 1, e, v.items, more)
    case Array(e) => !v.Arr? || ReadableItems(abi, depth - 1, e, v.items, more)
    case Optional(e) => v.Null? || Readable(abi, depth - 1, e, v, ext, more)
    case Named(name) =>
      if name in abi.variants then ReadableVariant(abi, depth, abi.variants[name], v, ext, more)
      else if name !in abi.structs then true
      else if v.Obj? then
        KeepsMember(abi, depth - 1, name, v.members) && ReadableObject(abi, depth - 1, name, v.members, ext, more)
      else if v.Arr? then
        v.items != [] && abi.structs[name].fields != []
          && ReadableArray(abi, depth - 1, abi.structs[name].fields, v.items, ext, more)
      else true
  }

  predicate ReadableVariant(abi: Abi, depth: nat, alternatives: seq<Alternative>, v: Value, ext: bool, more: bool)
    requires depth > 0
    decreases depth, 0, 0
  {
    v.Arr? && |v.items| == 2 && v.items[0].Str? ==>
      var i := IndexOf(alternatives, v.items[0].s);
      i.Some? ==> Readable(abi, depth - 1, alternatives[i.value].typ, v.items[1], ext, more)
  }

  predicate ReadableItems(abi: Abi, depth: nat, t: Type, items: seq<Value>, more: bool)
    decreases depth, 2, |items|
  {
    items != [] ==>
      && Readable(abi, depth, t, items[0], false, more || SomeBytes(PackItems(abi, depth, t, items[1..])))
      && ReadableItems(abi, depth, t, items[1..], more)
  }

  predicate KeepsField(fields: seq<Field>, o: seq<Member>) {
    fields != [] && (Kept(o, fields[0]) || KeepsField(fields[1..], o))
  }

  /** The struct or one of its bases keeps a field. */
  predicate KeepsMember(abi: Abi, depth: nat, name: Name, o: seq<Member>)
    requires name in abi.structs
    decreases depth
  {
    var s := abi.structs[name];
    KeepsField(s.fields, o) || (s.base.Some? && depth > 0 && s.base.value in abi.structs
                                && KeepsMember(abi, depth - 1, s.base.value, o))
  }

  predicate ReadableObject(abi: Abi, depth: nat, name: Name, o: seq<Member>, ext: bool, more: bool)
    requires name in abi.structs
    decreases depth, 3, 0
  {
    var s := abi.structs[name];
    && ReadableFields(abi, depth, s.fields, o, ext, more)
    && (s.base.Some? && depth > 0 && s.base.value in abi.structs ==>
          ReadableObject(abi, depth - 1, s.base.value, o, false, more
                         || SomeBytes(PackFields(abi, depth, s.fields, o, ext, false))))
  }

  predicate ReadableFields(abi: Abi, depth: nat, fields: seq<Field>, o: seq<Member>, ext: bool, more: bool)
    decreases depth, 2, |fields|
  {
    fields != [] && Kept(o, fields[0]) ==>
      var after := more || SomeBytes(PackFields(abi, depth, fields[1..], o, ext, false));
      && (more || SomeBytes(PackFields(abi, depth, fields, o, ext, false)))
      && Readable(abi, depth, fields[0].typ, Given(o, fields[0]), ext && |fields| == 1, after)
      && ReadableFields(abi, depth, fields[1..], o, ext, more)
  }

  predicate ReadableArray(abi: Abi, depth: nat, fields: seq<Field>, items: seq<Value>, ext: bool, more: bool)
    decreases depth, 2, |fields|
  {
    if fields == [] then true
    else if items == [] then !HasPlainField(fields)
    else
      var after := more || SomeBytes(PackArray(abi, depth, fields[1..], items[1..], ext));
      && (more || SomeBytes(PackArray(abi, depth, fields, items, ext)))
      && Readable(abi, depth, fields[0].typ, items[0], ext && |fields| == 1, after)
      && ReadableArray(abi, depth, fields[1..], items[1..], ext, more)
  }

  // ----- Objects with distinct names -----

  ghost predicate Absent(names: seq<Name>, o: seq<Member>) {
    forall i :: 0 <= i < |names| ==> !Contains(o, names[i])
  }

  lemma {:induction false} ContainsConcat(a: seq<Member>, b: seq<Member>, name: Name)
    ensures Contains(a + b, name) <==> Contains(a, name) || Contains(b, name)
    ensures Contains(a, name) ==> Lookup(a + b, name) == Lookup(a, name)
    ensures !Contains(a, name) && Contains(b, name) ==> Lookup(a + b, name) == Lookup(b, name)
  {
    if a == [] {
      assert a + b == b;
    } else {
      assert (a + b)[1..] == a[1..] + b;
      ContainsConcat(a[1..], b, name);
    }
  }

  lemma {:induction false} PutNew(o: seq<Member>, name: Name, v: Value)
    requires !Contains(o, name)
    ensures Put(o, name, v) == o + [Member(name, v)]
  {
    if o != [] { PutNew(o[1..], name, v); }
  }

  lemma NamesSplit(name: Name, names: seq<Name>, o: seq<Member>)
    requires NoRepeats([name] + names) && Absent([name] + names, o)
    ensures NoRepeats(names) && Absent(names, o) && !Contains(o, name) && name !in names
  {
    var all := [name] + names;
    assert all[0] == name;
    forall i | 0 <= i < |names| ensures !Contains(o, names[i]) && names[i] != name { assert all[i + 1] == names[i]; }
    forall i, j | 0 <= i < j < |names| ensures names[i] != names[j] {
      assert all[i + 1] == names[i] && all[j + 1] == names[j];
    }
  }

  lemma AbsentAfter(name: Name, names: seq<Name>, o: seq<Member>, v: Value)
    requires NoRepeats([name] + names) && Absent([name] + names, o)
    ensures NoRepeats(names) && Absent(names, o + [Member(name, v)]) && !Contains(o, name)
  {
    NamesSplit(name, names, o);
    forall i | 0 <= i < |names| ensures !Contains(o + [Member(name, v)], names[i]) {
      ContainsConcat(o, [Member(name, v)], names[i]);
    }
  }

  lemma {:induction false} CanonNames(abi: Abi, depth: nat, name: Name, o: seq<Member>, n: Name)
    requires name in abi.structs && Contains(CanonObject(abi, depth, name, o), n)
    ensures n in ChainNames(abi, depth, name)
    decreases depth
  {
    var s := abi.structs[name];
    if s.base.None? || depth == 0 || s.base.value !in abi.structs {
      CanonFieldNames(abi, depth, s.fields, o, n);
    } else {
      var base := CanonObject(abi, depth - 1, s.base.value, o);
      ContainsConcat(base, CanonFields(abi, depth, s.fields, o), n);
      if Contains(base, n) { CanonNames(abi, depth - 1, s.base.value, o, n); }
      else { CanonFieldNames(abi, depth, s.fields, o, n); }
    }
  }

  lemma {:induction false} CanonFieldNames(abi: Abi, depth: nat, fields: seq<Field>, o: seq<Member>, n: Name)
    requires Contains(CanonFields(abi, depth, fields, o), n)
    ensures n in Names(fields)
    decreases |fields|
  {
    if fields != [] {
      if !(Kept(o, fields[0]) && fields[0].name == n) { CanonFieldNames(abi, depth, fields[1..], o, n); }
    }
  }

  lemma {:induction false} CanonKeepsField(abi: Abi, depth: nat, fields: seq<Field>, o: seq<Member>)
    ensures CanonFields(abi, depth, fields, o) != [] <==> KeepsField(fields, o)
    decreases |fields|
  {
    if fields != [] { CanonKeepsField(abi, depth, fields[1..], o); }
  }

  lemma {:induction false} CanonKeepsMember(abi: Abi, depth: nat, name: Name, o: seq<Member>)
    requires name in abi.structs
    ensures CanonObject(abi, depth, name, o) != [] <==> KeepsMember(abi, depth, name, o)
    decreases depth
  {
    var s := abi.structs[name];
    CanonKeepsField(abi, depth, s.fields, o);
    if s.base.Some? && depth > 0 && s.base.value in abi.structs { CanonKeepsMember(abi, depth - 1, s.base.value, o); }
  }

  lemma {:induction false} ContainsAt(o: seq<Member>, name: Name)
    ensures Contains(o, name) <==> exists i :: 0 <= i < |o| && o[i].name == name
  {
    if o != [] {
      ContainsAt(o[1..], name);
      if Contains(o[1..], name) {
        var i :| 0 <= i < |o[1..]| && o[1..][i].name == name;
        assert o[i + 1].name == name;
      }
      forall i | 0 <= i < |o| && o[i].name == name ensures Contains(o, name) {
        if i > 0 { assert o[1..][i - 1].name == name; }
      }
    }
  }
}
