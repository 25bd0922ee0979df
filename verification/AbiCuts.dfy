/** What reading makes of packed bytes that are cut short. */
module AbiCuts {
  import opened Wrappers
  import opened AbiSerializer
  import opened AbiNumbers
  import opened AbiValues
  import opened AbiRoundTrip
  import opened AbiFormat
  import opened AbiPacking
  import opened AbiReading
  import opened AbiUnpacking

  // ----- What is left of a value -----

  /** How many bytes a value takes. */
  function Length(abi: Abi, depth: nat, t: Type, v: Value, ext: bool): nat {
    if Pack(abi, depth, t, v, ext).Some? then |Pack(abi, depth, t, v, ext).value| else 0
  }

  function Least(a: nat, b: nat): nat { if a < b then a else b }

  function ToArr(items: Option<seq<Value>>): Option<Value> {
    if items.None? then None else Some(Arr(items.value))
  }

  /** What is left of `v` in the first `k` of its bytes; `more` says whether other bytes follow them. */
  function Left(abi: Abi, depth: nat, t: Type, v: Value, ext: bool, k: nat, more: bool): Option<Value>
    decreases depth, 1, 0
  {
    if depth == 0 then None
    else
      match t
      case UInt(w) => if k < w then None else Some(v)
      case Text => if k < Length(abi, depth, t, v, ext) then None else Some(v)
      case FixedArray(_, e) => if v.Arr? then ToArr(LeftItems(abi, depth - 1, e, v.items, k, more)) else None
      case Array(e) =>
        if !v.Arr? || k < |PackVar(|v.items|)| then None
        else ToArr(LeftItems(abi, depth - 1, e, v.items, k - |PackVar(|v.items|)|, more))
      case Optional(e) =>
        if k == 0 then None else if v.Null? then Some(v) else Left(abi, depth - 1, e, v, ext, k - 1, more)
      case Named(name) =>
        if name in abi.variants then LeftVariant(abi, depth, abi.variants[name], v, ext, k, more)
        else if name !in abi.structs || Layout(abi, depth - 1, name).None? then None
        else
          var slots := Layout(abi, depth - 1, name).value;
          var o := LeftSlots(abi, depth - 1, slots, GivenTo(slots, v), ext, k, more, []);
          if o.None? || o.value == [] then None else Some(Obj(o.value))
  }

  function LeftVariant(abi: Abi, depth: nat, alternatives: seq<Alternative>, v: Value, ext: bool, k: nat,
                       more: bool): Option<Value>
    requires depth > 0
    decreases depth, 0, 0
  {
    if !v.Arr? || |v.items| != 2 || !v.items[0].Str? then None
    else
      var i := IndexOf(alternatives, v.items[0].s);
      if i.None? || k < |PackVar(i.value)| then None
      else
        var w := Left(abi, depth - 1, alternatives[i.value].typ, v.items[1], ext, k - |PackVar(i.value)|, more);
        if w.None? then None else Some(Arr([v.items[0], w.value]))
  }

  /** Items one after the other, as far as the bytes go. */
  function LeftItems(abi: Abi, depth: nat, t: Type, items: seq<Value>, k: nat, more: bool): Option<seq<Value>>
    decreases depth, 2, |items|
  {
    if items == [] then Some([])
    else
      var p := Least(k, Length(abi, depth, t, items[0], false));
      var w, others := Left(abi, depth, t, items[0], false, p, more || p < k),
                       LeftItems(abi, depth, t, items[1..], k - p, more);
      if w.None? || others.None? then None else Some([w.value] + others.value)
  }

  /** The values for the places of a layout, as far as they are given. */
  function GivenTo(slots: seq<Slot>, v: Value): (r: seq<Value>)
    ensures |r| <= |slots|
  {
    if v.Obj? then GivenBy(slots, v.members) else if v.Arr? then v.items[..Least(|v.items|, |slots|)] else []
  }

  function GivenBy(slots: seq<Slot>, o: seq<Member>): (r: seq<Value>)
    ensures |r| <= |slots|
  {
    if slots == [] || !Kept(o, slots[0].field) then [] else [Given(o, slots[0].field)] + GivenBy(slots[1..], o)
  }

  predicate Flag(slot: Slot, ext: bool) { ext && slot.own && slot.last }

  function Tail<T>(s: seq<T>): seq<T> { if s == [] then [] else s[1..] }

  /** Where the bytes end before a place, the place has to be an extension and is left out. */
  function LeftSlots(abi: Abi, depth: nat, slots: seq<Slot>, values: seq<Value>, ext: bool, k: nat, more: bool,
                     m: seq<Member>): Option<seq<Member>>
    requires Fit(slots, depth)
    decreases depth, 2, |slots|
  {
    if slots == [] then Some(m)
    else if k == 0 && !more then
      if slots[0].field.extension then LeftSlots(abi, depth, slots[1..], Tail(values), ext, k, more, m) else None
    else if values == [] then None
    else
      var slot := slots[0];
      var p := Least(k, Length(abi, slot.depth, slot.field.typ, values[0], Flag(slot, ext)));
      var w := Left(abi, slot.depth, slot.field.typ, values[0], Flag(slot, ext), p, more || p < k);
      if w.None? then None
      else LeftSlots(abi, depth, slots[1..], values[1..], ext, k - p, more, Put(m, slot.field.name, w.value))
  }

  function Result<T>(left: Option<T>, rest: seq<Byte>): Parse<T> {
    if left.None? then Fail else Done(left.value, rest)
  }

  lemma LengthIs(abi: Abi, depth: nat, t: Type, v: Value, ext: bool, b: seq<Byte>)
    requires Encodes(abi, depth, t, v, ext, b)
    ensures Length(abi, depth, t, v, ext) == |b|
  {
    EncodedPacks(abi, depth, t, v, ext, b);
  }

  // ----- Sizes -----

  lemma {:induction false} VarLength(n: nat, left: nat)
    requires 1 <= left && n < Power128(left)
    ensures 1 <= |PackVar(n)| <= left
    decreases left
  {
    if n >= 128 { VarLength(n / 128, left - 1); }
  }

  lemma NoSizeIn(c: seq<Byte>, a: seq<Byte>, n: nat, rest: seq<Byte>)
    requires |c| < 5 && forall i :: 0 <= i < |c| ==> 128 <= c[i]
    ensures !(IsReadSize(a, n) && c == a + rest)
  {
    if a != [] && c == a + rest { assert a[|a| - 1] == c[|a| - 1]; }
  }

  /** A size that is cut short is not read. */
  lemma SizeCut(n: nat, k: nat)
    requires n < MAX32 && k < |PackVar(n)|
    ensures UnpackSize(PackVar(n)[..k]) == Fail
  {
    var c := PackVar(n)[..k];
    FiveBytes(5);
    VarLength(n, 5);
    SizeIff(PackVar(n), n);
    forall a, m, rest ensures !(IsReadSize(a, m) && c == a + rest) { NoSizeIn(c, a, m, rest); }
    if UnpackSize(c).Done? { UnpackSizeIff(c, UnpackSize(c).value, UnpackSize(c).rest); }
  }

  lemma SizePrefix(n: nat, b: seq<Byte>, c: seq<Byte>, k: nat, rest: seq<Byte>)
    requires n < MAX32 && b == PackVar(n) + c && k <= |b|
    ensures k < |PackVar(n)| ==> UnpackSize(b[..k]) == Fail
    ensures |PackVar(n)| <= k ==> UnpackSize(b[..k] + rest) == Done(n, c[..k - |PackVar(n)|] + rest)
  {
    var a := PackVar(n);
    if k < |a| {
      assert b[..k] == a[..k];
      SizeCut(n, k);
    } else {
      assert b[..k] + rest == a + (c[..k - |a|] + rest);
      SizeRoundTrip(n, c[..k - |a|] + rest);
    }
  }

  // ----- Cuts -----

  /** The index of every alternative fits into 32 bits, as the number of alternatives in a serialized ABI does. */
  ghost predicate SmallVariants(abi: Abi) {
    forall name :: name in abi.variants ==> |abi.variants[name]| <= MAX32
  }

  /** The first `k` of the bytes `b` and then `rest`; nothing follows bytes that are cut short, or bytes from which
      extensions may be missing. */
  ghost predicate Cut(b: seq<Byte>, ext: bool, k: nat, s: seq<Byte>, rest: seq<Byte>) {
    k <= |b| && s == b[..k] + rest && (k < |b| || ext ==> rest == [])
  }

  /** For all packed values and all cuts: what is read is what is left of the value. */
  lemma {:induction false} CutReads(abi: Abi, depth: nat, t: Type, v: Value, ext: bool, b: seq<Byte>, k: nat,
                                    s: seq<Byte>, rest: seq<Byte>)
    requires SmallVariants(abi) && Encodes(abi, depth, t, v, ext, b) && Cut(b, ext, k, s, rest)
    ensures Unpack(abi, depth, t, s) == Result(Left(abi, depth, t, v, ext, k, rest != []), rest)
    decreases depth, 1, 0
  {
    match t
    case UInt(w) => IntCut(abi, depth, w, v, ext, b, k, s, rest);
    case Text => TextCut(abi, depth, v, ext, b, k, s, rest);
    case FixedArray(_, e) =>
      var parts :| ItemParts(abi, depth - 1, e, v.items, parts) && Concat(parts) == b;
      ItemsCut(abi, depth - 1, e, v.items, parts, k, s, rest);
    case Array(e) => SizedCut(abi, depth, e, v, ext, b, k, s, rest);
    case Optional(e) => OptionalCut(abi, depth, e, v, ext, b, k, s, rest);
    case Named(name) =>
      if name in abi.variants {
        VariantCut(abi, depth, abi.variants[name], v, ext, b, k, s, rest);
      } else {
        StructCut(abi, depth, name, v, ext, b, k, s, rest);
      }
  }

  lemma IntCut(abi: Abi, depth: nat, w: nat, v: Value, ext: bool, b: seq<Byte>, k: nat, s: seq<Byte>, rest: seq<Byte>)
    requires Encodes(abi, depth, UInt(w), v, ext, b) && Cut(b, ext, k, s, rest)
    ensures Unpack(abi, depth, UInt(w), s) == Result(Left(abi, depth, UInt(w), v, ext, k, rest != []), rest)
  {
    if k < w {
      var p := UnpackInt(s, w);
      if p.Done? { UnpackIntIff(s, w, p.value, p.rest); }
    } else {
      assert s[..w] == b && s[w..] == rest;
      UnpackIntIff(s, w, v.n, rest);
    }
  }

  lemma TextCut(abi: Abi, depth: nat, v: Value, ext: bool, b: seq<Byte>, k: nat, s: seq<Byte>, rest: seq<Byte>)
    requires Encodes(abi, depth, Text, v, ext, b) && Cut(b, ext, k, s, rest)
    ensures Unpack(abi, depth, Text, s) == Result(Left(abi, depth, Text, v, ext, k, rest != []), rest)
  {
    EncodedPacks(abi, depth, Text, v, ext, b);
    var a := PackVar(|v.s|);
    SizePrefix(|v.s|, b, v.s, k, rest);
    if k < |a| {
      assert s == b[..k];
    } else {
      var c := v.s[..k - |a|] + rest;
      if k == |b| { assert c[..|v.s|] == v.s && c[|v.s|..] == rest; }
    }
  }

  lemma {:induction false} OptionalCut(abi: Abi, depth: nat, e: Type, v: Value, ext: bool, b: seq<Byte>, k: nat,
                                       s: seq<Byte>, rest: seq<Byte>)
    requires depth > 0 && SmallVariants(abi) && Encodes(abi, depth, Optional(e), v, ext, b) && Cut(b, ext, k, s, rest)
    ensures Unpack(abi, depth, Optional(e), s) == Result(Left(abi, depth, Optional(e), v, ext, k, rest != []), rest)
    decreases depth, 0, 0
  {
    if k > 0 {
      assert s[0] == b[0] && s[1..] == b[1..][..k - 1] + rest;
      if v != Null { CutReads(abi, depth - 1, e, v, ext, b[1..], k - 1, s[1..], rest); }
      else { assert s[1..] == rest; }
    } else {
      assert s == [];
    }
  }

  lemma {:induction false} SizedCut(abi: Abi, depth: nat, e: Type, v: Value, ext: bool, b: seq<Byte>, k: nat,
                                    s: seq<Byte>, rest: seq<Byte>)
    requires depth > 0 && SmallVariants(abi) && Encodes(abi, depth, Array(e), v, ext, b) && Cut(b, ext, k, s, rest)
    ensures Unpack(abi, depth, Array(e), s) == Result(Left(abi, depth, Array(e), v, ext, k, rest != []), rest)
    decreases depth, 0, 1
  {
    var j: nat :| StartsWithSize(b, j, |v.items|) && EncodesItems(abi, depth - 1, e, v.items, b[j..]);
    var c := b[j..];
    var parts :| ItemParts(abi, depth - 1, e, v.items, parts) && Concat(parts) == c;
    SizeStarts(|v.items|, b, c);
    AfterSizeCut(abi, depth, e, v, ext, b, parts, k, s, rest);
  }

  lemma {:induction false} AfterSizeCut(abi: Abi, depth: nat, e: Type, v: Value, ext: bool, b: seq<Byte>,
                                        parts: seq<seq<Byte>>, k: nat, s: seq<Byte>, rest: seq<Byte>)
    requires depth > 0 && SmallVariants(abi) && v.Arr? && |v.items| <= Limit(e) && Cut(b, ext, k, s, rest)
    requires ItemParts(abi, depth - 1, e, v.items, parts) && b == PackVar(|v.items|) + Concat(parts)
    ensures Unpack(abi, depth, Array(e), s) == Result(Left(abi, depth, Array(e), v, ext, k, rest != []), rest)
    decreases depth, 0, 0
  {
    var a, c := PackVar(|v.items|), Concat(parts);
    SizePrefix(|v.items|, b, c, k, rest);
    if k < |a| {
      assert s == b[..k];
    } else {
      var tail := c[..k - |a|] + rest;
      ItemsCut(abi, depth - 1, e, v.items, parts, k - |a|, tail, rest);
      SizedJoin(abi, depth, e, v, ext, k, rest != [], s, tail, rest);
    }
  }

  lemma SizedJoin(abi: Abi, depth: nat, e: Type, v: Value, ext: bool, k: nat, more: bool, s: seq<Byte>,
                  tail: seq<Byte>, rest: seq<Byte>)
    requires depth > 0 && v.Arr? && |v.items| <= Limit(e) && |PackVar(|v.items|)| <= k
    requires UnpackSize(s) == Done(|v.items|, tail)
    requires UnpackItems(abi, depth - 1, e, |v.items|, tail)
             == Result(LeftItems(abi, depth - 1, e, v.items, k - |PackVar(|v.items|)|, more), rest)
    ensures Unpack(abi, depth, Array(e), s) == Result(Left(abi, depth, Array(e), v, ext, k, more), rest)
  {
  }

  lemma {:induction false} VariantCut(abi: Abi, depth: nat, alternatives: seq<Alternative>, v: Value, ext: bool,
                                      b: seq<Byte>, k: nat, s: seq<Byte>, rest: seq<Byte>)
    requires depth > 0 && SmallVariants(abi) && |alternatives| <= MAX32 && Cut(b, ext, k, s, rest)
    requires EncodesVariant(abi, depth, alternatives, v, ext, b)
    ensures UnpackVariant(abi, depth, alternatives, s)
            == Result(LeftVariant(abi, depth, alternatives, v, ext, k, rest != []), rest)
    decreases depth, 0, 1
  {
    var i: nat, j: nat :| && FirstWithTag(alternatives, v.items[0].s, i) && StartsWithSize(b, j, i)
                          && Encodes(abi, depth - 1, alternatives[i].typ, v.items[1], ext, b[j..]);
    IndexIff(alternatives, v.items[0].s, i);
    SizeStarts(i, b, b[j..]);
    AfterTagCut(abi, depth, alternatives, v, ext, i, b, b[j..], k, s, rest);
  }

  lemma {:induction false} AfterTagCut(abi: Abi, depth: nat, alternatives: seq<Alternative>, v: Value, ext: bool,
                                       i: nat, b: seq<Byte>, c: seq<Byte>, k: nat, s: seq<Byte>, rest: seq<Byte>)
    requires depth > 0 && SmallVariants(abi) && |alternatives| <= MAX32 && Cut(b, ext, k, s, rest)
    requires v.Arr? && |v.items| == 2 && v.items[0].Str? && IndexOf(alternatives, v.items[0].s) == Some(i)
    requires Encodes(abi, depth - 1, alternatives[i].typ, v.items[1], ext, c) && b == PackVar(i) + c
    ensures UnpackVariant(abi, depth, alternatives, s)
            == Result(LeftVariant(abi, depth, alternatives, v, ext, k, rest != []), rest)
    decreases depth, 0, 0
  {
    var a := PackVar(i);
    SizePrefix(i, b, c, k, rest);
    if k < |a| {
      assert s == b[..k];
    } else {
      var tail := c[..k - |a|] + rest;
      CutReads(abi, depth - 1, alternatives[i].typ, v.items[1], ext, c, k - |a|, tail, rest);
      TagJoin(abi, depth, alternatives, v, ext, i, k, rest != [], s, tail, rest);
    }
  }

  lemma TagJoin(abi: Abi, depth: nat, alternatives: seq<Alternative>, v: Value, ext: bool, i: nat, k: nat, more: bool,
                s: seq<Byte>, tail: seq<Byte>, rest: seq<Byte>)
    requires depth > 0 && v.Arr? && |v.items| == 2 && v.items[0].Str?
    requires IndexOf(alternatives, v.items[0].s) == Some(i) && |PackVar(i)| <= k && UnpackSize(s) == Done(i, tail)
    requires Unpack(abi, depth - 1, alternatives[i].typ, tail)
             == Result(Left(abi, depth - 1, alternatives[i].typ, v.items[1], ext, k - |PackVar(i)|, more), rest)
    ensures UnpackVariant(abi, depth, alternatives, s)
            == Result(LeftVariant(abi, depth, alternatives, v, ext, k, more), rest)
  {
  }

  /** The first part, or what is there of it, and the bytes after it. */
  lemma FirstCut(parts: seq<seq<Byte>>, k: nat, s: seq<Byte>, rest: seq<Byte>) returns (p: nat, between: seq<Byte>)
    requires parts != [] && Cut(Concat(parts), false, k, s, rest)
    ensures p == Least(k, |parts[0]|) && Cut(parts[0], false, p, s, between)
    ensures Cut(Concat(parts[1..]), false, k - p, between, rest)
    ensures (between != []) == (rest != [] || p < k)
  {
    var f, others := parts[0], Concat(parts[1..]);
    p := Least(k, |f|);
    between := others[..k - p] + rest;
    if k < |f| {
      assert s == f[..k] && between == [];
    } else {
      assert (f + others)[..k] == f + others[..k - |f|];
      assert f + (others[..k - |f|] + rest) == (f + others[..k - |f|]) + rest;
      assert f[..p] == f;
    }
  }

  lemma {:induction false} ItemsCut(abi: Abi, depth: nat, t: Type, items: seq<Value>, parts: seq<seq<Byte>>, k: nat,
                                    s: seq<Byte>, rest: seq<Byte>)
    requires SmallVariants(abi) && ItemParts(abi, depth, t, items, parts) && Cut(Concat(parts), false, k, s, rest)
    ensures UnpackItems(abi, depth, t, |items|, s) == Result(LeftItems(abi, depth, t, items, k, rest != []), rest)
    decreases depth, 2, |items|
  {
    if items == [] {
      assert s == rest;
    } else {
      var p, between := FirstCut(parts, k, s, rest);
      MoreItemParts(abi, depth, t, items, parts);
      LengthIs(abi, depth, t, items[0], false, parts[0]);
      CutReads(abi, depth, t, items[0], false, parts[0], p, s, between);
      ItemsCut(abi, depth, t, items[1..], parts[1..], k - p, between, rest);
      ItemsJoin(abi, depth, t, items, k, rest != [], s, between, rest, p, between != []);
    }
  }

  lemma ItemsJoin(abi: Abi, depth: nat, t: Type, items: seq<Value>, k: nat, more: bool, s: seq<Byte>,
                  between: seq<Byte>, rest: seq<Byte>, p: nat, follow: bool)
    requires items != [] && p == Least(k, Length(abi, depth, t, items[0], false)) && follow == (more || p < k)
    requires Unpack(abi, depth, t, s) == Result(Left(abi, depth, t, items[0], false, p, follow), between)
    requires UnpackItems(abi, depth, t, |items| - 1, between)
             == Result(LeftItems(abi, depth, t, items[1..], k - p, more), rest)
    ensures UnpackItems(abi, depth, t, |items|, s) == Result(LeftItems(abi, depth, t, items, k, more), rest)
  {
  }

  // ----- Structs, place by place -----

  /** The values given to the first places, each with its bytes; the other places may only be left out at an end. */
  ghost predicate ValueParts(abi: Abi, slots: seq<Slot>, values: seq<Value>, ext: bool, parts: seq<seq<Byte>>) {
    && |parts| == |values| <= |slots| && (|values| < |slots| ==> ext)
    && forall i :: ValuePart(abi, slots, values, ext, parts, i)
  }

  ghost predicate ValuePart(abi: Abi, slots: seq<Slot>, values: seq<Value>, ext: bool, parts: seq<seq<Byte>>, i: int)
    requires |parts| == |values| <= |slots|
  {
    0 <= i < |parts| ==>
      Encodes(abi, slots[i].depth, slots[i].field.typ, values[i], Flag(slots[i], ext), parts[i])
  }

  /** Extensions inside a field can be missing only in the very last one. */
  ghost predicate FlaggedLast(slots: seq<Slot>) {
    forall i :: 0 <= i < |slots| && slots[i].own && slots[i].last ==> i == |slots| - 1
  }

  lemma LayoutFlagged(abi: Abi, depth: nat, name: Name)
    requires name in abi.structs && Layout(abi, depth, name).Some?
    ensures FlaggedLast(Layout(abi, depth, name).value)
  {
  }

  lemma {:induction false} GivenByIs(slots: seq<Slot>, o: seq<Member>, i: nat)
    ensures i < |GivenBy(slots, o)| ==>
              Kept(o, slots[i].field) && GivenBy(slots, o)[i] == Given(o, slots[i].field)
    ensures |GivenBy(slots, o)| < |slots| ==> !Kept(o, slots[|GivenBy(slots, o)|].field)
    decreases |slots|
  {
    if slots != [] && Kept(o, slots[0].field) { GivenByIs(slots[1..], o, if i == 0 then 0 else i - 1); }
  }

  lemma ObjectValues(abi: Abi, depth: nat, slots: seq<Slot>, o: seq<Member>, ext: bool, all: seq<seq<Byte>>)
      returns (parts: seq<seq<Byte>>)
    requires Fit(slots, depth) && SlotParts(abi, depth, slots, o, ext, all) && OmittedLast(slots, o)
    ensures ValueParts(abi, slots, GivenBy(slots, o), ext, parts) && Concat(parts) == Concat(all)
  {
    var values := GivenBy(slots, o);
    var n := |values|;
    parts := all[..n];
    GivenByIs(slots, o, 0);
    forall i ensures ValuePart(abi, slots, values, ext, parts, i) {
      if 0 <= i < n {
        GivenByIs(slots, o, i);
        assert SlotPart(abi, slots[i], o, ext, all[i]);
      }
    }
    forall i | 0 <= i < |all[n..]| ensures all[n..][i] == [] && ext {
      assert !Kept(o, slots[n + i].field) && SlotPart(abi, slots[n + i], o, ext, all[n + i]);
    }
    assert all == parts + all[n..];
    assert n < |slots| ==> 0 < |all[n..]|;
    ConcatJoin(parts, all[n..]);
    ConcatEmpty(all[n..]);
  }

  lemma ArrayValues(abi: Abi, depth: nat, fields: seq<Field>, items: seq<Value>, ext: bool, parts: seq<seq<Byte>>)
    requires ArrayParts(abi, depth, fields, items, ext, parts) && (|items| < |fields| ==> ext)
    ensures ValueParts(abi, Slots(fields, depth), items[..Least(|items|, |fields|)], ext, parts)
  {
    var slots, values := Slots(fields, depth), items[..Least(|items|, |fields|)];
    forall i ensures ValuePart(abi, slots, values, ext, parts, i) {
      if 0 <= i < |parts| {
        assert Encodes(abi, depth, fields[i].typ, items[i], ext && i == |fields| - 1, parts[i]);
      }
    }
  }

  lemma {:induction false} StructCut(abi: Abi, depth: nat, name: Name, v: Value, ext: bool, b: seq<Byte>, k: nat,
                                     s: seq<Byte>, rest: seq<Byte>)
    requires depth > 0 && SmallVariants(abi) && name !in abi.variants && Cut(b, ext, k, s, rest)
    requires Encodes(abi, depth, Named(name), v, ext, b)
    ensures Unpack(abi, depth, Named(name), s) == Result(Left(abi, depth, Named(name), v, ext, k, rest != []), rest)
    decreases depth, 0, 0
  {
    var parts := StructParts(abi, depth, name, v, ext, b);
    var slots := Layout(abi, depth - 1, name).value;
    LayoutFlagged(abi, depth - 1, name);
    SlotsCut(abi, depth - 1, slots, GivenTo(slots, v), ext, parts, k, s, rest, []);
    ObjectIsLayout(abi, depth - 1, name, s, []);
    StructJoin(abi, depth, name, v, ext, k, rest != [], s, rest, slots);
  }

  lemma StructJoin(abi: Abi, depth: nat, name: Name, v: Value, ext: bool, k: nat, more: bool, s: seq<Byte>,
                   rest: seq<Byte>, slots: seq<Slot>)
    requires depth > 0 && name !in abi.variants && name in abi.structs && Layout(abi, depth - 1, name) == Some(slots)
    requires UnpackObject(abi, depth - 1, name, s, [])
             == Result(LeftSlots(abi, depth - 1, slots, GivenTo(slots, v), ext, k, more, []), rest)
    ensures Unpack(abi, depth, Named(name), s) == Result(Left(abi, depth, Named(name), v, ext, k, more), rest)
  {
  }

  lemma StructParts(abi: Abi, depth: nat, name: Name, v: Value, ext: bool, b: seq<Byte>)
      returns (parts: seq<seq<Byte>>)
    requires depth > 0 && name !in abi.variants && Encodes(abi, depth, Named(name), v, ext, b)
    ensures name in abi.structs && Layout(abi, depth - 1, name).Some?
    ensures var slots := Layout(abi, depth - 1, name).value;
            ValueParts(abi, slots, GivenTo(slots, v), ext, parts) && Concat(parts) == b
  {
    if v.Obj? {
      var slots := Layout(abi, depth - 1, name).value;
      var all :| SlotParts(abi, depth - 1, slots, v.members, ext, all) && Concat(all) == b;
      parts := ObjectValues(abi, depth - 1, slots, v.members, ext, all);
    } else {
      var fields := abi.structs[name].fields;
      parts :| ArrayParts(abi, depth - 1, fields, v.items, ext, parts) && Concat(parts) == b;
      ArrayValues(abi, depth - 1, fields, v.items, ext, parts);
    }
  }

  lemma TailParts(abi: Abi, slots: seq<Slot>, values: seq<Value>, ext: bool, parts: seq<seq<Byte>>)
    requires slots != [] && ValueParts(abi, slots, values, ext, parts) && FlaggedLast(slots)
    ensures ValueParts(abi, slots[1..], Tail(values), ext, Tail(parts)) && FlaggedLast(slots[1..])
    ensures values != [] ==>
              Encodes(abi, slots[0].depth, slots[0].field.typ, values[0], Flag(slots[0], ext), parts[0])
  {
    assert ValuePart(abi, slots, values, ext, parts, 0);
    forall i ensures ValuePart(abi, slots[1..], Tail(values), ext, Tail(parts), i) {
      assert ValuePart(abi, slots, values, ext, parts, i + 1);
    }
    forall i | 0 <= i < |slots| - 1 ensures slots[1..][i] == slots[i + 1] { }
  }

  lemma {:induction false} SlotsCut(abi: Abi, depth: nat, slots: seq<Slot>, values: seq<Value>, ext: bool,
                                    parts: seq<seq<Byte>>, k: nat, s: seq<Byte>, rest: seq<Byte>, m: seq<Member>)
    requires SmallVariants(abi) && Fit(slots, depth) && FlaggedLast(slots) && ValueParts(abi, slots, values, ext, parts)
    requires Cut(Concat(parts), ext, k, s, rest)
    ensures UnpackSlots(abi, slots, s, m)
            == Result(LeftSlots(abi, depth, slots, values, ext, k, rest != [], m), rest)
    decreases depth, 2, |slots|
  {
    if slots == [] {
      assert s == rest;
    } else {
      TailParts(abi, slots, values, ext, parts);
      if s == [] {
        assert k == 0 && rest == [];
        SlotsCut(abi, depth, slots[1..], Tail(values), ext, Tail(parts), 0, s, rest, m);
      } else {
        assert values != [];
        FirstSlotCut(abi, depth, slots, values, ext, parts, k, s, rest, m);
      }
    }
  }

  lemma {:induction false} FirstSlotCut(abi: Abi, depth: nat, slots: seq<Slot>, values: seq<Value>, ext: bool,
                                        parts: seq<seq<Byte>>, k: nat, s: seq<Byte>, rest: seq<Byte>, m: seq<Member>)
    requires SmallVariants(abi) && Fit(slots, depth) && FlaggedLast(slots) && ValueParts(abi, slots, values, ext, parts)
    requires Cut(Concat(parts), ext, k, s, rest) && s != [] && values != []
    ensures UnpackSlots(abi, slots, s, m)
            == Result(LeftSlots(abi, depth, slots, values, ext, k, rest != [], m), rest)
    decreases depth, 2, |slots|, 0
  {
    var slot := slots[0];
    var flag := Flag(slot, ext);
    TailParts(abi, slots, values, ext, parts);
    var p, between := FlaggedCut(abi, slots, values, ext, parts, k, s, rest);
    LengthIs(abi, slot.depth, slot.field.typ, values[0], flag, parts[0]);
    CutReads(abi, slot.depth, slot.field.typ, values[0], flag, parts[0], p, s, between);
    var w := Left(abi, slot.depth, slot.field.typ, values[0], flag, p, between != []);
    var n := if w.Some? then Put(m, slot.field.name, w.value) else m;
    SlotsCut(abi, depth, slots[1..], values[1..], ext, parts[1..], k - p, between, rest, n);
    SlotsJoin(abi, depth, slots, values, ext, k, rest != [], s, between, rest, p, between != [], m, n, w);
  }

  /** The bytes for the first place, after which nothing comes if extensions may be missing in it. */
  lemma FlaggedCut(abi: Abi, slots: seq<Slot>, values: seq<Value>, ext: bool, parts: seq<seq<Byte>>, k: nat,
                   s: seq<Byte>, rest: seq<Byte>) returns (p: nat, between: seq<Byte>)
    requires FlaggedLast(slots) && ValueParts(abi, slots, values, ext, parts) && parts != []
    requires Cut(Concat(parts), ext, k, s, rest)
    ensures p == Least(k, |parts[0]|) && Cut(parts[0], Flag(slots[0], ext), p, s, between)
    ensures Cut(Concat(parts[1..]), ext, k - p, between, rest)
    ensures (between != []) == (rest != [] || p < k)
  {
    p, between := FirstCut(parts, k, s, rest);
    if Flag(slots[0], ext) { assert parts[1..] == []; }
  }

  lemma SlotsJoin(abi: Abi, depth: nat, slots: seq<Slot>, values: seq<Value>, ext: bool, k: nat, more: bool,
                  s: seq<Byte>, between: seq<Byte>, rest: seq<Byte>, p: nat, follow: bool, m: seq<Member>,
                  n: seq<Member>, w: Option<Value>)
    requires Fit(slots, depth) && slots != [] && values != [] && s != [] && (k > 0 || more)
    requires p == Least(k, Length(abi, slots[0].depth, slots[0].field.typ, values[0], Flag(slots[0], ext)))
    requires follow == (more || p < k)
    requires w == Left(abi, slots[0].depth, slots[0].field.typ, values[0], Flag(slots[0], ext), p, follow)
    requires Unpack(abi, slots[0].depth, slots[0].field.typ, s) == Result(w, between)
    requires n == if w.Some? then Put(m, slots[0].field.name, w.value) else m
    requires UnpackSlots(abi, slots[1..], between, n)
             == Result(LeftSlots(abi, depth, slots[1..], values[1..], ext, k - p, more, n), rest)
    ensures UnpackSlots(abi, slots, s, m) == Result(LeftSlots(abi, depth, slots, values, ext, k, more, m), rest)
  {
  }
}
