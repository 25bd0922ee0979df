/** Numbers on the wire, stated on their bytes, and that packing and unpacking agree with it exactly. */
module AbiNumbers {
  import opened AbiSerializer

  function Power128(n: nat): nat { if n == 0 then 1 else 128 * Power128(n - 1) }

  /** The sum of `b[i] * 256^i`. */
  function Little(b: seq<Byte>): nat {
    if b == [] then 0 else var n := |b| - 1; Little(b[..n]) + b[n] * Power(n)
  }

  /** The sum of `b[i] % 128 * 128^i`. */
  function Groups(b: seq<Byte>): nat {
    if b == [] then 0 else var n := |b| - 1; Groups(b[..n]) + b[n] % 128 * Power128(n)
  }

  predicate IsInt(b: seq<Byte>, width: nat, n: nat) { |b| == width && Little(b) == n }

  /** Every byte but the last has its high bit set. */
  predicate Continued(b: seq<Byte>) { forall i :: 0 <= i < |b| - 1 ==> 128 <= b[i] }

  /** As few groups of seven bits as possible. */
  predicate IsSize(b: seq<Byte>, n: nat) {
    && b != [] && Continued(b) && b[|b| - 1] < 128 && (|b| > 1 ==> b[|b| - 1] != 0)
    && Groups(b) == n
  }

  lemma {:induction false} LittleHead(b: seq<Byte>)
    requires b != []
    ensures Little(b) == b[0] + 256 * Little(b[1..])
  {
    var n := |b| - 1;
    if n == 0 {
      assert b[..0] == [] && b[1..] == [];
    } else {
      LittleHead(b[..n]);
      assert b[..n][1..] == b[1..][..n - 1] && b[1..][n - 1] == b[n];
      assert b[n] * Power(n) == 256 * (b[n] * Power(n - 1));
    }
  }

  lemma {:induction false} GroupsHead(b: seq<Byte>)
    requires b != []
    ensures Groups(b) == b[0] % 128 + 128 * Groups(b[1..])
  {
    var n := |b| - 1;
    if n == 0 {
      assert b[..0] == [] && b[1..] == [];
    } else {
      GroupsHead(b[..n]);
      assert b[..n][1..] == b[1..][..n - 1] && b[1..][n - 1] == b[n];
      assert b[n] % 128 * Power128(n) == 128 * (b[n] % 128 * Power128(n - 1));
    }
  }

  lemma {:induction false} IntIff(b: seq<Byte>, width: nat, n: nat)
    ensures n < Power(width) && PackInt(n, width) == b <==> IsInt(b, width, n)
    decreases width
  {
    if width > 0 && b != [] {
      LittleHead(b);
      IntIff(b[1..], width - 1, n / 256);
      assert b == [b[0]] + b[1..];
      assert n / 256 < Power(width - 1) <==> n < Power(width);
    }
  }

  lemma {:induction false} SizeIff(b: seq<Byte>, n: nat)
    ensures PackVar(n) == b <==> IsSize(b, n)
    decreases |b|
  {
    if b != [] {
      GroupsHead(b);
      assert b == [b[0]] + b[1..];
      if |b| > 1 {
        SizeIff(b[1..], n / 128);
        TailSize(b, n);
      } else {
        assert b[1..] == [] && Groups([]) == 0;
        if n >= 128 { assert |PackVar(n / 128)| > 0; }
      }
    }
  }

  lemma {:induction false} Power128Positive(n: nat)
    ensures Power128(n) > 0
  {
    if n > 0 { Power128Positive(n - 1); }
  }

  /** A number has a nonzero last group only if it is not zero. */
  lemma NotZero(b: seq<Byte>)
    requires b != [] && b[|b| - 1] < 128
    ensures b[|b| - 1] != 0 ==> Groups(b) > 0
    ensures |b| == 1 ==> Groups(b) == b[0]
  {
    var n := |b| - 1;
    Power128Positive(n);
    if b[n] != 0 { assert b[n] % 128 * Power128(n) > 0; }
    if n == 0 { assert b[..0] == []; }
  }

  lemma TailContinued(b: seq<Byte>)
    requires |b| > 1
    ensures Continued(b) <==> 128 <= b[0] && Continued(b[1..])
  {
    forall i | 0 <= i < |b| - 2 ensures b[1..][i] == b[i + 1] { }
    if 128 <= b[0] && Continued(b[1..]) {
      forall i | 0 <= i < |b| - 1 ensures 128 <= b[i] { if i > 0 { assert b[1..][i - 1] == b[i]; } }
    }
    if Continued(b) { assert forall i :: 0 <= i < |b[1..]| - 1 ==> 128 <= b[1..][i]; }
  }

  lemma TailSize(b: seq<Byte>, n: nat)
    requires |b| > 1 && Groups(b) == b[0] % 128 + 128 * Groups(b[1..])
    ensures IsSize(b, n) <==> b[0] == n % 128 + 128 && IsSize(b[1..], n / 128) && n >= 128
  {
    var tail := b[1..];
    assert tail[|tail| - 1] == b[|b| - 1];
    TailContinued(b);
    if b[|b| - 1] < 128 { NotZero(tail); }
    Digit(b[0], Groups(tail), n);
  }

  lemma Digit(x: Byte, g: nat, n: nat)
    ensures 128 <= x ==> (x % 128 + 128 * g == n <==> x == n % 128 + 128 && g == n / 128)
  {
  }

  // ----- Reading -----

  /** What is read as a size: up to five groups, the fifth whatever its high bit, cut off at 32 bits. */
  predicate IsReadSize(b: seq<Byte>, n: nat) {
    && 1 <= |b| <= 5 && Continued(b) && (b[|b| - 1] < 128 || |b| == 5)
    && n == Groups(b) % MAX32
  }

  /** The first `k` bytes are the groups of `n`, of at most `left`. */
  predicate ReadsGroups(s: seq<Byte>, left: nat, k: nat, n: nat) {
    && 1 <= k <= left && k <= |s| && Continued(s[..k]) && (s[k - 1] < 128 || k == left)
    && n == Groups(s[..k])
  }

  lemma {:induction false} VarReads(s: seq<Byte>, left: nat) returns (k: nat)
    ensures UnpackVar(s, left).Done? ==>
              ReadsGroups(s, left, k, UnpackVar(s, left).value) && UnpackVar(s, left).rest == s[k..]
    decreases left
  {
    k := 1;
    if s != [] && left > 0 {
      if s[0] < 128 || left == 1 {
        assert s[..1] == [s[0]] && Groups([]) == 0 && [s[0]][1..] == [];
        GroupsHead(s[..1]);
      } else if UnpackVar(s[1..], left - 1).Done? {
        k := VarReads(s[1..], left - 1);
        GroupsMore(s, left, k, UnpackVar(s[1..], left - 1).value);
        assert s[1..][k..] == s[k + 1..];
        k := k + 1;
      }
    }
  }

  lemma GroupsMore(s: seq<Byte>, left: nat, k: nat, n: nat)
    requires s != [] && left > 1 && k > 0
    ensures 128 <= s[0] && ReadsGroups(s[1..], left - 1, k, n) ==> ReadsGroups(s, left, k + 1, s[0] % 128 + 128 * n)
    ensures ReadsGroups(s, left, k + 1, s[0] % 128 + 128 * n) ==> 128 <= s[0] && ReadsGroups(s[1..], left - 1, k, n)
  {
    if k + 1 <= |s| {
      var b := s[..k + 1];
      assert b[1..] == s[1..][..k] && s[1..][k - 1] == s[k];
      TailContinued(b);
      GroupsHead(b);
    }
  }

  lemma {:induction false} ReadsVar(s: seq<Byte>, left: nat, k: nat, n: nat)
    requires ReadsGroups(s, left, k, n)
    ensures UnpackVar(s, left) == Done(n, s[k..])
    decreases left
  {
    if k == 1 {
      assert s[..1] == [s[0]] && Groups([]) == 0 && [s[0]][1..] == [];
      GroupsHead(s[..1]);
    } else {
      var b := s[..k];
      GroupsHead(b);
      assert b[0] == s[0] && b[1..] == s[1..][..k - 1];
      var m := Groups(b[1..]);
      GroupsMore(s, left, k - 1, m);
      ReadsVar(s[1..], left - 1, k - 1, m);
      assert s[1..][k - 1..] == s[k..];
    }
  }

  /** Exactly the bytes of a size in the reader's sense are read as that size. */
  lemma UnpackSizeIff(s: seq<Byte>, n: nat, rest: seq<Byte>)
    ensures UnpackSize(s) == Done(n, rest) <==> exists b :: IsReadSize(b, n) && s == b + rest
  {
    if UnpackSize(s) == Done(n, rest) {
      var k := VarReads(s, 5);
      assert IsReadSize(s[..k], n) && s == s[..k] + rest;
    }
    if b :| IsReadSize(b, n) && s == b + rest {
      assert s[..|b|] == b && s[|b|..] == rest;
      ReadsVar(s, 5, |b|, Groups(b));
    }
  }

  lemma {:induction false} UnpackIntIff(s: seq<Byte>, width: nat, n: nat, rest: seq<Byte>)
    ensures UnpackInt(s, width) == Done(n, rest) <==>
              width <= |s| && IsInt(s[..width], width, n) && rest == s[width..]
    decreases width
  {
    if width == 0 {
      assert s[..0] == [] && s[0..] == s;
    } else if s != [] {
      var tail := UnpackInt(s[1..], width - 1);
      if width <= |s| {
        LittleHead(s[..width]);
        assert s[..width][1..] == s[1..][..width - 1] && s[1..][width - 1..] == s[width..];
        UnpackIntIff(s[1..], width - 1, Little(s[1..][..width - 1]), s[width..]);
      } else if tail.Done? {
        UnpackIntIff(s[1..], width - 1, tail.value, tail.rest);
      }
    }
  }
}
