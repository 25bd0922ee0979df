/** Packing values into bytes and back, as directed by an ABI. */
module AbiSerializer {
  import opened Wrappers

  type Byte = n: nat | n < 256

  type Name = seq<Byte>

  /** `UInt(w)` is an unsigned integer of `w` bytes; `Text` is a string or a byte array. */
  datatype Type =
    | UInt(width: nat) | Text | Array(elem: Type) | FixedArray(size: nat, elem: Type) | Optional(elem: Type)
    | Named(name: Name)

  datatype Field = Field(name: Name, typ: Type, extension: bool) {
    predicate IsOptional() { typ.Optional? && !extension }
  }

  datatype Struct = Struct(base: Option<Name>, fields: seq<Field>)

  /** An alternative of a variant, with the name under which a value selects it. */
  datatype Alternative = Alternative(tag: Name, typ: Type)

  datatype Abi = Abi(structs: map<Name, Struct>, variants: map<Name, seq<Alternative>>)

  /** A dynamically typed value; the members of an object are kept in order. */
  datatype Value = Null | Num(n: nat) | Str(s: seq<Byte>) | Arr(items: seq<Value>) | Obj(members: seq<Member>)

  datatype Member = Member(name: Name, value: Value)

  datatype Parse<T> = Fail | Done(value: T, rest: seq<Byte>)

  const MAX32 := 0x1_0000_0000
  const MAX_BYTES := 20 * 1024 * 1024
  const MAX_ELEMENTS := 1024 * 1024

  /** Types that the serializer has its own functions for, also for arrays and optional values of them. */
  predicate BuiltIn(t: Type) { t.UInt? || t.Text? }

  /** How many items an array can have. */
  function Limit(elem: Type): nat { if BuiltIn(elem) then MAX_ELEMENTS else MAX32 - 1 }

  // ----- Objects -----

  predicate Contains(o: seq<Member>, name: Name) {
    o != [] && (o[0].name == name || Contains(o[1..], name))
  }

  function Lookup(o: seq<Member>, name: Name): Value
    requires Contains(o, name)
  {
    if o[0].name == name then o[0].value else Lookup(o[1..], name)
  }

  /** Setting a member replaces an earlier one of the same name. */
  function Put(o: seq<Member>, name: Name, v: Value): seq<Member> {
    if o == [] then [Member(name, v)]
    else if o[0].name == name then [Member(name, v)] + o[1..]
    else [o[0]] + Put(o[1..], name, v)
  }

  // ----- Integers -----

  /** The variable-length form of a 32-bit unsigned integer: seven bits a byte, lowest first. */
  function PackVar(n: nat): seq<Byte> {
    if n < 128 then [n] else [n % 128 + 128] + PackVar(n / 128)
  }

  /** At most `left` more bytes are read. */
  function UnpackVar(s: seq<Byte>, left: nat): Parse<nat> {
    if s == [] || left == 0 then Fail
    else if s[0] < 128 || left == 1 then Done(s[0] % 128, s[1..])
    else
      match UnpackVar(s[1..], left - 1)
      case Fail => Fail
      case Done(n, rest) => Done(s[0] % 128 + 128 * n, rest)
  }

  function UnpackSize(s: seq<Byte>): Parse<nat> {
    match UnpackVar(s, 5)
    case Fail => Fail
    case Done(n, rest) => Done(n % MAX32, rest)
  }

  function PackInt(n: nat, width: nat): seq<Byte> {
    if width == 0 then [] else [n % 256] + PackInt(n / 256, width - 1)
  }

  function UnpackInt(s: seq<Byte>, width: nat): Parse<nat> {
    if width == 0 then Done(0, s)
    else if s == [] then Fail
    else
      match UnpackInt(s[1..], width - 1)
      case Fail => Fail
      case Done(n, rest) => Done(s[0] + 256 * n, rest)
  }

  function Power(width: nat): nat { if width == 0 then 1 else 256 * Power(width - 1) }

  // ----- Packing; `None` is an exception -----

  function Join(a: Option<seq<Byte>>, b: Option<seq<Byte>>): Option<seq<Byte>> {
    if a.Some? && b.Some? then Some(a.value + b.value) else None
  }

  function IndexOf(alternatives: seq<Alternative>, tag: Name): (r: Option<nat>)
    ensures r.Some? ==> r.value < |alternatives| && alternatives[r.value].tag == tag
  {
    if alternatives == [] then None
    else if alternatives[0].tag == tag then Some(0)
    else
      var r := IndexOf(alternatives[1..], tag);
      if r.Some? then Some(r.value + 1) else None
  }

  /** `depth` bounds the nesting; `ext` says whether trailing binary extensions may be left out here. */
  function Pack(abi: Abi, depth: nat, t: Type, v: Value, ext: bool): Option<seq<Byte>>
    decreases depth, 1, 0
  {
    if depth == 0 then None
    else
      match t
      case UInt(w) => if v.Num? && v.n < Power(w) then Some(PackInt(v.n, w)) else None
      case Text => if v.Str? && |v.s| <= MAX_BYTES then Some(PackVar(|v.s|) + v.s) else None
      case FixedArray(n, e) => if v.Arr? && |v.items| == n then PackItems(abi, depth - 1, e, v.items) else None
      case Array(e) =>
        if v.Arr? && |v.items| <= Limit(e) then
          Join(Some(PackVar(|v.items|)), PackItems(abi, depth - 1, e, v.items))
        else None
      case Optional(e) =>
        if v.Null? then Some([0]) else Join(Some([1]), Pack(abi, depth - 1, e, v, ext))
      case Named(name) =>
        if name in abi.variants then PackVariant(abi, depth, abi.variants[name], v, ext)
        else if name !in abi.structs then None
        else if v.Obj? then PackObject(abi, depth - 1, name, v.members, ext)
        else if v.Arr? && abi.structs[name].base.None? then
          PackArray(abi, depth - 1, abi.structs[name].fields, v.items, ext)
        else None
  }

  function PackVariant(abi: Abi, depth: nat, alternatives: seq<Alternative>, v: Value, ext: bool): Option<seq<Byte>>
    requires depth > 0
    decreases depth, 0, 0
  {
    if !v.Arr? || |v.items| != 2 || !v.items[0].Str? then None
    else
      var i := IndexOf(alternatives, v.items[0].s);
      if i.None? then None
      else Join(Some(PackVar(i.value)), Pack(abi, depth - 1, alternatives[i.value].typ, v.items[1], ext))
  }

  function PackItems(abi: Abi, depth: nat, t: Type, items: seq<Value>): Option<seq<Byte>>
    decreases depth, 2, |items|
  {
    if items == [] then Some([]) else Join(Pack(abi, depth, t, items[0], false), PackItems(abi, depth, t, items[1..]))
  }

  /** The members of the base first, then the fields of the struct itself. */
  function PackObject(abi: Abi, depth: nat, name: Name, o: seq<Member>, ext: bool): Option<seq<Byte>>
    requires name in abi.structs
    decreases depth, 3, 0
  {
    var s := abi.structs[name];
    var own := PackFields(abi, depth, s.fields, o, ext, false);
    if s.base.None? then own
    else if depth == 0 || s.base.value !in abi.structs then None
    else Join(PackObject(abi, depth - 1, s.base.value, o, false), own)
  }

  /** `omitted` is set once a binary extension has been left out. */
  function PackFields(abi: Abi, depth: nat, fields: seq<Field>, o: seq<Member>, ext: bool,
                      omitted: bool): Option<seq<Byte>>
    decreases depth, 2, |fields|
  {
    if fields == [] then Some([])
    else
      var f := fields[0];
      var present := Contains(o, f.name);
      if present || f.IsOptional() then
        if omitted then None
        else
          var packed := Pack(abi, depth, f.typ, if present then Lookup(o, f.name) else Null, ext && |fields| == 1);
          Join(packed, PackFields(abi, depth, fields[1..], o, ext, false))
      else if f.extension && ext then PackFields(abi, depth, fields[1..], o, ext, true)
      else None
  }

  /** The fields given in order, for a struct without a base. */
  function PackArray(abi: Abi, depth: nat, fields: seq<Field>, items: seq<Value>, ext: bool): Option<seq<Byte>>
    decreases depth, 2, |fields|
  {
    if fields == [] then Some([])
    else if items != [] then
      Join(Pack(abi, depth, fields[0].typ, items[0], ext && |fields| == 1),
           PackArray(abi, depth, fields[1..], items[1..], ext))
    else if fields[0].extension && ext then Some([])
    else None
  }

  // ----- Unpacking -----

  function Unpack(abi: Abi, depth: nat, t: Type, s: seq<Byte>): Parse<Value>
    decreases depth, 1, 0
  {
    if depth == 0 then Fail
    else
      match t
      case UInt(w) => (match UnpackInt(s, w) case Fail => Fail case Done(n, rest) => Done(Num(n), rest))
      case Text =>
        (match UnpackSize(s) case Fail => Fail
         case Done(n, rest) => if n <= MAX_BYTES && n <= |rest| then Done(Str(rest[..n]), rest[n..]) else Fail)
      case FixedArray(n, e) => ToArray(UnpackItems(abi, depth - 1, e, n, s))
      case Array(e) =>
        (match UnpackSize(s) case Fail => Fail
         case Done(n, rest) => if n <= Limit(e) then ToArray(UnpackItems(abi, depth - 1, e, n, rest)) else Fail)
      case Optional(e) =>
        if s == [] then Fail
        else if s[0] == 0 then Done(Null, s[1..])
        else if BuiltIn(e) && s[0] != 1 then Fail
        else Unpack(abi, depth - 1, e, s[1..])
      case Named(name) =>
        if name in abi.variants then UnpackVariant(abi, depth, abi.variants[name], s)
        else if name !in abi.structs then Fail
        else
          match UnpackObject(abi, depth - 1, name, s, [])
          case Fail => Fail
          case Done(o, rest) => if o == [] then Fail else Done(Obj(o), rest)
  }

  function ToArray(p: Parse<seq<Value>>): Parse<Value> {
    match p case Fail => Fail case Done(items, rest) => Done(Arr(items), rest)
  }

  function UnpackVariant(abi: Abi, depth: nat, alternatives: seq<Alternative>, s: seq<Byte>): Parse<Value>
    requires depth > 0
    decreases depth, 0, 0
  {
    match UnpackSize(s)
    case Fail => Fail
    case Done(i, rest) =>
      if |alternatives| <= i then Fail
      else
        match Unpack(abi, depth - 1, alternatives[i].typ, rest)
        case Fail => Fail
        case Done(v, after) => Done(Arr([Str(alternatives[i].tag), v]), after)
  }

  function UnpackItems(abi: Abi, depth: nat, t: Type, n: nat, s: seq<Byte>): Parse<seq<Value>>
    decreases depth, 2, n
  {
    if n == 0 then Done([], s)
    else
      match Unpack(abi, depth, t, s)
      case Fail => Fail
      case Done(v, rest) =>
        match UnpackItems(abi, depth, t, n - 1, rest)
        case Fail => Fail
        case Done(items, after) => Done([v] + items, after)
  }

  function UnpackObject(abi: Abi, depth: nat, name: Name, s: seq<Byte>, o: seq<Member>): Parse<seq<Member>>
    requires name in abi.structs
    decreases depth, 3, 0
  {
    var st := abi.structs[name];
    if st.base.None? then UnpackFields(abi, depth, st.fields, s, o)
    else if depth == 0 || st.base.value !in abi.structs then Fail
    else
      match UnpackObject(abi, depth - 1, st.base.value, s, o)
      case Fail => Fail
      case Done(base, rest) => UnpackFields(abi, depth, st.fields, rest, base)
  }

  /** At the end of the bytes, binary extensions are skipped and any other field is an error. */
  function UnpackFields(abi: Abi, depth: nat, fields: seq<Field>, s: seq<Byte>, o: seq<Member>): Parse<seq<Member>>
    decreases depth, 2, |fields|
  {
    if fields == [] then Done(o, s)
    else if s == [] then (if fields[0].extension then UnpackFields(abi, depth, fields[1..], s, o) else Fail)
    else
      match Unpack(abi, depth, fields[0].typ, s)
      case Fail => Fail
      case Done(v, rest) => UnpackFields(abi, depth, fields[1..], rest, Put(o, fields[0].name, v))
  }
}
