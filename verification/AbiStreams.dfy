/** Packing to and unpacking from a stream, field by field. */
module AbiStreams {
  import opened Wrappers
  import opened AbiSerializer

  /** What is left to pack after `packed` has been written. */
  ghost predicate Writes(whole: Option<seq<Byte>>, packed: seq<Byte>, rest: Option<seq<Byte>>) {
    whole == Join(Some(packed), rest)
  }

  lemma WritesNothing(whole: Option<seq<Byte>>)
    ensures Writes(whole, [], whole)
  {
    if whole.Some? { assert [] + whole.value == whole.value; }
  }

  lemma WritesMore(whole: Option<seq<Byte>>, packed: seq<Byte>, next: seq<Byte>, rest: Option<seq<Byte>>)
    requires Writes(whole, packed, Join(Some(next), rest))
    ensures Writes(whole, packed + next, rest)
  {
    if rest.Some? { assert packed + (next + rest.value) == (packed + next) + rest.value; }
  }

  class Packer {
    const abi: Abi
    var out: seq<Byte>

    constructor (abi: Abi)
      ensures this.abi == abi && out == []
    {
      this.abi, out := abi, [];
    }

    method Write(bytes: seq<Byte>)
      modifies this
      ensures out == old(out) + bytes
    {
      out := out + bytes;
    }

    method Size(n: nat)
      modifies this
      ensures out == old(out) + PackVar(n)
    {
      var k := n;
      ghost var done: seq<Byte> := [];
      while k >= 128
        invariant out == old(out) + done && done + PackVar(k) == PackVar(n)
      {
        out := out + [k % 128 + 128];
        assert (done + [k % 128 + 128]) + PackVar(k / 128) == done + PackVar(k);
        done := done + [k % 128 + 128];
        k := k / 128;
      }
      out := out + [k];
    }

    method Value(depth: nat, t: Type, v: AbiSerializer.Value, ext: bool) returns (ok: bool)
      modifies this
      ensures ok == Pack(abi, depth, t, v, ext).Some?
      ensures ok ==> out == old(out) + Pack(abi, depth, t, v, ext).value
      decreases depth, 1, 0
    {
      if depth == 0 { return false; }
      match t {
        case UInt(w) =>
          ok := v.Num? && v.n < Power(w);
          if ok { Write(PackInt(v.n, w)); }
        case Text =>
          ok := v.Str? && |v.s| <= MAX_BYTES;
          if ok {
            Size(|v.s|);
            Write(v.s);
          }
        case FixedArray(n, e) =>
          ok := v.Arr? && |v.items| == n;
          if ok { ok := Items(depth - 1, e, v.items); }
        case Array(e) =>
          ok := v.Arr? && |v.items| <= Limit(e);
          if ok {
            Size(|v.items|);
            ok := Items(depth - 1, e, v.items);
          }
        case Optional(e) =>
          Write([if v.Null? then 0 else 1]);
          ok := true;
          if !v.Null? { ok := Value(depth - 1, e, v, ext); }
        case Named(name) =>
          if name in abi.variants {
            ok := Variant(depth, abi.variants[name], v, ext);
          } else if name !in abi.structs {
            ok := false;
          } else if v.Obj? {
            ok := Object(depth - 1, name, v.members, ext);
          } else if v.Arr? && abi.structs[name].base.None? {
            ok := ArrayForm(depth - 1, abi.structs[name].fields, v.items, ext);
          } else {
            ok := false;
          }
      }
    }

    method Variant(depth: nat, alternatives: seq<Alternative>, v: AbiSerializer.Value, ext: bool) returns (ok: bool)
      requires depth > 0
      modifies this
      ensures ok == PackVariant(abi, depth, alternatives, v, ext).Some?
      ensures ok ==> out == old(out) + PackVariant(abi, depth, alternatives, v, ext).value
      decreases depth, 0, 0
    {
      if !v.Arr? || |v.items| != 2 || !v.items[0].Str? { return false; }
      var i := IndexOf(alternatives, v.items[0].s);
      if i.None? { return false; }
      Size(i.value);
      ok := Value(depth - 1, alternatives[i.value].typ, v.items[1], ext);
    }

    method Items(depth: nat, t: Type, items: seq<AbiSerializer.Value>) returns (ok: bool)
      modifies this
      ensures ok == PackItems(abi, depth, t, items).Some?
      ensures ok ==> out == old(out) + PackItems(abi, depth, t, items).value
      decreases depth, 2, |items|
    {
      ghost var whole, packed: seq<Byte> := PackItems(abi, depth, t, items), [];
      WritesNothing(whole);
      var rest := items;
      while rest != []
        invariant |rest| <= |items| && out == old(out) + packed && Writes(whole, packed, PackItems(abi, depth, t, rest))
        decreases |rest|
      {
        ok := Value(depth, t, rest[0], false);
        if !ok { return; }
        ghost var next := Pack(abi, depth, t, rest[0], false).value;
        WritesMore(whole, packed, next, PackItems(abi, depth, t, rest[1..]));
        packed := packed + next;
        rest := rest[1..];
      }
      ok := true;
    }

    method Object(depth: nat, name: Name, o: seq<Member>, ext: bool) returns (ok: bool)
      requires name in abi.structs
      modifies this
      ensures ok == PackObject(abi, depth, name, o, ext).Some?
      ensures ok ==> out == old(out) + PackObject(abi, depth, name, o, ext).value
      decreases depth, 3, 0
    {
      var s := abi.structs[name];
      if s.base.Some? {
        if depth == 0 || s.base.value !in abi.structs { return false; }
        ok := Object(depth - 1, s.base.value, o, false);
        if !ok { return; }
      }
      ok := Fields(depth, s.fields, o, ext);
    }

    /** The loop over the fields of an object, with its flag for a binary extension that was left out. */
    method Fields(depth: nat, fields: seq<Field>, o: seq<Member>, ext: bool) returns (ok: bool)
      modifies this
      ensures ok == PackFields(abi, depth, fields, o, ext, false).Some?
      ensures ok ==> out == old(out) + PackFields(abi, depth, fields, o, ext, false).value
      decreases depth, 2, |fields|
    {
      ghost var whole, packed: seq<Byte> := PackFields(abi, depth, fields, o, ext, false), [];
      WritesNothing(whole);
      var rest, omitted := fields, false;
      while rest != []
        invariant |rest| <= |fields| && out == old(out) + packed
        invariant Writes(whole, packed, PackFields(abi, depth, rest, o, ext, omitted))
        decreases |rest|
      {
        var f := rest[0];
        var present := Contains(o, f.name);
        if present || f.IsOptional() {
          if omitted { return false; }
          var v, last := if present then Lookup(o, f.name) else Null, ext && |rest| == 1;
          ok := Value(depth, f.typ, v, last);
          if !ok { return; }
          ghost var next := Pack(abi, depth, f.typ, v, last).value;
          WritesMore(whole, packed, next, PackFields(abi, depth, rest[1..], o, ext, false));
          packed := packed + next;
        } else if f.extension && ext {
          omitted := true;
        } else {
          return false;
        }
        rest := rest[1..];
      }
      ok := true;
    }

    method ArrayForm(depth: nat, fields: seq<Field>, items: seq<AbiSerializer.Value>, ext: bool) returns (ok: bool)
      modifies this
      ensures ok == PackArray(abi, depth, fields, items, ext).Some?
      ensures ok ==> out == old(out) + PackArray(abi, depth, fields, items, ext).value
      decreases depth, 2, |fields|
    {
      ghost var whole, packed: seq<Byte> := PackArray(abi, depth, fields, items, ext), [];
      WritesNothing(whole);
      var rest, left := fields, items;
      while rest != []
        invariant |rest| <= |fields| && out == old(out) + packed
                  && Writes(whole, packed, PackArray(abi, depth, rest, left, ext))
        decreases |rest|
      {
        if left == [] { return rest[0].extension && ext; }
        ok := Value(depth, rest[0].typ, left[0], ext && |rest| == 1);
        if !ok { return; }
        ghost var next := Pack(abi, depth, rest[0].typ, left[0], ext && |rest| == 1).value;
        WritesMore(whole, packed, next, PackArray(abi, depth, rest[1..], left[1..], ext));
        packed := packed + next;
        rest, left := rest[1..], left[1..];
      }
      ok := true;
    }
  }

  /** The bytes still to be read; a method that returns failure stands for a thrown exception. */
  class Unpacker {
    const abi: Abi
    var bytes: seq<Byte>

    constructor (abi: Abi, bytes: seq<Byte>)
      ensures this.abi == abi && this.bytes == bytes
    {
      this.abi, this.bytes := abi, bytes;
    }

    /** Whether a read ended as the specification says. */
    ghost predicate Read<T>(p: Parse<T>, r: Option<T>)
      reads this
    {
      match p case Fail => r.None? case Done(v, rest) => r == Some(v) && bytes == rest
    }

    /** Up to five groups of seven bits, the lowest first. */
    method Size() returns (r: Option<nat>)
      modifies this
      ensures Read(UnpackSize(old(bytes)), r)
    {
      ghost var whole := UnpackVar(bytes, 5);
      var n: nat, scale: nat, left: nat := 0, 1, 5;
      while left > 0
        invariant left <= 5 && (left > 0 ==> Adds(whole, n, scale, UnpackVar(bytes, left)))
        invariant left == 0 ==> whole == Done(n, bytes)
      {
        if bytes == [] { return None; }
        var byte := bytes[0];
        AddsGroup(whole, n, scale, bytes, left);
        bytes, n := bytes[1..], n + byte % 128 * scale;
        scale, left := scale * 128, if byte < 128 then 0 else left - 1;
      }
      return Some(n % MAX32);
    }

    method Value(depth: nat, t: Type) returns (r: Option<AbiSerializer.Value>)
      modifies this
      ensures Read(Unpack(abi, depth, t, old(bytes)), r)
      decreases depth, 1, 0
    {
      if depth == 0 { return None; }
      match t {
        case UInt(w) =>
          var p := UnpackInt(bytes, w);
          if p.Fail? { return None; }
          bytes := p.rest;
          return Some(Num(p.value));
        case Text =>
          var n := Size();
          if n.None? || n.value > MAX_BYTES || n.value > |bytes| { return None; }
          r := Some(Str(bytes[..n.value]));
          bytes := bytes[n.value..];
        case FixedArray(n, e) =>
          var items := Items(depth - 1, e, n);
          r := if items.None? then None else Some(Arr(items.value));
        case Array(e) =>
          var n := Size();
          if n.None? || n.value > Limit(e) { return None; }
          var items := Items(depth - 1, e, n.value);
          r := if items.None? then None else Some(Arr(items.value));
        case Optional(e) =>
          if bytes == [] { return None; }
          var flag := bytes[0];
          bytes := bytes[1..];
          if flag == 0 { return Some(Null); }
          if BuiltIn(e) && flag != 1 { return None; }
          r := Value(depth - 1, e);
        case Named(name) =>
          if name in abi.variants {
            r := Variant(depth, abi.variants[name]);
          } else if name !in abi.structs {
            r := None;
          } else {
            var o := Object(depth - 1, name, []);
            r := if o.None? || o.value == [] then None else Some(Obj(o.value));
          }
      }
    }

    method Variant(depth: nat, alternatives: seq<Alternative>) returns (r: Option<AbiSerializer.Value>)
      requires depth > 0
      modifies this
      ensures Read(UnpackVariant(abi, depth, alternatives, old(bytes)), r)
      decreases depth, 0, 0
    {
      var i := Size();
      if i.None? || i.value >= |alternatives| { return None; }
      var v := Value(depth - 1, alternatives[i.value].typ);
      r := if v.None? then None else Some(Arr([Str(alternatives[i.value].tag), v.value]));
    }

    method Items(depth: nat, t: Type, n: nat) returns (r: Option<seq<AbiSerializer.Value>>)
      modifies this
      ensures Read(UnpackItems(abi, depth, t, n, old(bytes)), r)
      decreases depth, 2, n
    {
      var items, left := [], n;
      ghost var whole := UnpackItems(abi, depth, t, n, bytes);
      ReadsNothing(whole);
      while left > 0
        invariant 0 <= left <= n && Reads(whole, items, UnpackItems(abi, depth, t, left, bytes))
      {
        ghost var before := bytes;
        var v := Value(depth, t);
        if v.None? { return None; }
        ReadsMore(whole, items, v.value, UnpackItems(abi, depth, t, left - 1, bytes),
                  UnpackItems(abi, depth, t, left, before));
        items, left := items + [v.value], left - 1;
      }
      assert items + [] == items;
      return Some(items);
    }

    method Object(depth: nat, name: Name, o: seq<Member>) returns (r: Option<seq<Member>>)
      requires name in abi.structs
      modifies this
      ensures Read(UnpackObject(abi, depth, name, old(bytes), o), r)
      decreases depth, 3, 0
    {
      var s, members := abi.structs[name], o;
      if s.base.Some? {
        if depth == 0 || s.base.value !in abi.structs { return None; }
        var base := Object(depth - 1, s.base.value, o);
        if base.None? { return None; }
        members := base.value;
      }
      r := Fields(depth, s.fields, members);
    }

    method Fields(depth: nat, fields: seq<Field>, o: seq<Member>) returns (r: Option<seq<Member>>)
      modifies this
      ensures Read(UnpackFields(abi, depth, fields, old(bytes), o), r)
      decreases depth, 2, |fields|
    {
      var rest, members := fields, o;
      ghost var whole := UnpackFields(abi, depth, fields, bytes, o);
      while rest != []
        invariant |rest| <= |fields| && UnpackFields(abi, depth, rest, bytes, members) == whole
        decreases |rest|
      {
        if bytes == [] {
          if !rest[0].extension { return None; }
        } else {
          var v := Value(depth, rest[0].typ);
          if v.None? { return None; }
          members := Put(members, rest[0].name, v.value);
        }
        rest := rest[1..];
      }
      return Some(members);
    }
  }

  /** With `items` read so far, the whole is them followed by what the rest gives. */
  ghost predicate Reads(whole: Parse<seq<AbiSerializer.Value>>, items: seq<AbiSerializer.Value>,
                        rest: Parse<seq<AbiSerializer.Value>>) {
    whole == match rest case Fail => Fail case Done(more, after) => Done(items + more, after)
  }

  lemma ReadsNothing(whole: Parse<seq<AbiSerializer.Value>>)
    ensures Reads(whole, [], whole)
  {
    if whole.Done? { assert [] + whole.value == whole.value; }
  }

  lemma ReadsMore(whole: Parse<seq<AbiSerializer.Value>>, items: seq<AbiSerializer.Value>, v: AbiSerializer.Value,
                  rest: Parse<seq<AbiSerializer.Value>>, before: Parse<seq<AbiSerializer.Value>>)
    requires Reads(whole, items, before)
    requires before == match rest case Fail => Fail case Done(more, after) => Done([v] + more, after)
    ensures Reads(whole, items + [v], rest)
  {
    if rest.Done? { assert items + ([v] + rest.value) == (items + [v]) + rest.value; }
  }

  /** With `n` read so far, the whole is it and `scale` times what the rest gives. */
  ghost predicate Adds(whole: Parse<nat>, n: nat, scale: nat, rest: Parse<nat>) {
    whole == match rest case Fail => Fail case Done(m, after) => Done(n + scale * m, after)
  }

  lemma AddsGroup(whole: Parse<nat>, n: nat, scale: nat, s: seq<Byte>, left: nat)
    requires left > 0 && Adds(whole, n, scale, UnpackVar(s, left))
    ensures s == [] ==> whole == Fail
    ensures s != [] ==>
              if s[0] < 128 || left == 1 then whole == Done(n + s[0] % 128 * scale, s[1..])
              else Adds(whole, n + s[0] % 128 * scale, scale * 128, UnpackVar(s[1..], left - 1))
  {
    if s != [] && 128 <= s[0] && left > 1 && UnpackVar(s[1..], left - 1).Done? {
      var m, x := UnpackVar(s[1..], left - 1).value, s[0] % 128;
      assert scale * (x + 128 * m) == x * scale + scale * 128 * m;
    }
  }
}
