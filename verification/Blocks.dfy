/** Values shared by the consensus modules: finalizer policies, quorum-certificate claims and
    the tree of blocks.  A block identifier is the hash of a header that itself contains the
    parent's identifier; hashing is taken to be injective, so a `Block` value (the header with
    the whole chain behind it) plays the role of its own identifier and of its finality digest. */
module Blocks {
  import opened Wrappers

  /** An opaque finalizer public key. */
  type Key = nat

  datatype FinalizerAuthority = FinalizerAuthority(weight: nat, key: Key)

  datatype FinalizerPolicy = FinalizerPolicy(generation: nat, threshold: nat, finalizers: seq<FinalizerAuthority>)

  /** Claims are compared by block number first, a strong claim beating a weak one. */
  datatype QcClaim = QcClaim(num: nat, strong: bool) {
    predicate AtMost(other: QcClaim) {
      num < other.num || (num == other.num && (strong ==> other.strong))
    }
  }

  /** `body` stands for everything in a header that consensus does not look at. */
  datatype Block =
    | Genesis(num: nat, time: nat, policy: FinalizerPolicy)
    | Child(previous: Block, time: nat, claim: QcClaim, proposal: Option<FinalizerPolicy>, body: nat)

  function Num(b: Block): nat {
    match b
    case Genesis(n, _, _) => n
    case Child(p, _, _, _, _) => Num(p) + 1
  }

  function Root(b: Block): (g: Block)
    ensures g.Genesis? && Num(g) <= Num(b)
  {
    if b.Genesis? then b else Root(b.previous)
  }

  /** The claim a block makes; the genesis block claims itself, weakly. */
  function ClaimOf(b: Block): QcClaim {
    match b
    case Genesis(n, _, _) => QcClaim(n, false)
    case Child(_, _, c, _, _) => c
  }

  /** The greatest policy generation proposed up to and including `b`. */
  function Generation(b: Block): nat {
    match b
    case Genesis(_, _, p) => p.generation
    case Child(p, _, _, proposal, _) => if proposal.Some? then proposal.value.generation else Generation(p)
  }

  /** What header validation demands of every block on a chain: increasing timestamps, a claim no
      weaker than the parent's that names an ancestor, and fresh policy generations. */
  predicate WellFormed(b: Block) {
    match b
    case Genesis(_, _, p) => p.generation == 1
    case Child(p, t, c, proposal, _) =>
      && WellFormed(p)
      && p.time < t
      && ClaimOf(p).AtMost(c) && c.num <= Num(p)
      && (proposal.Some? ==> Generation(p) < proposal.value.generation)
  }

  /** The ancestor of `b` with block number `n` (`b` itself counts). */
  function Anc(b: Block, n: nat): Block {
    if b.Genesis? || Num(b) <= n then b else Anc(b.previous, n)
  }

  predicate IsAncestor(a: Block, b: Block) {
    Num(a) <= Num(b) && Anc(b, Num(a)) == a
  }

  /** The block that `b`'s claim refers to. */
  function ClaimBlock(b: Block): Block {
    Anc(b, ClaimOf(b).num)
  }

  /** The last irreversible block number as the two-chain rule defines it: a strong claim on an
      ancestor finalizes what that ancestor claims; a weak claim finalizes nothing new. */
  function Lib(b: Block): nat {
    match b
    case Genesis(n, _, _) => n
    case Child(p, _, c, _, _) => if c.strong then ClaimOf(Anc(p, c.num)).num else Lib(p)
  }

  /** The block whose strong quorum certificate made `Lib(b)` final. */
  function LibSource(b: Block): nat {
    match b
    case Genesis(n, _, _) => n
    case Child(p, _, c, _, _) => if c.strong then c.num else LibSource(p)
  }

  lemma {:induction false} AncNum(b: Block, n: nat)
    requires Num(Root(b)) <= n <= Num(b)
    ensures Num(Anc(b, n)) == n && Root(Anc(b, n)) == Root(b)
    ensures WellFormed(b) ==> WellFormed(Anc(b, n))
  {
    if b.Child? && n < Num(b) { AncNum(b.previous, n); }
  }

  lemma {:induction false} AncAnc(b: Block, m: nat, n: nat)
    requires Num(Root(b)) <= n <= m <= Num(b)
    ensures Anc(Anc(b, m), n) == Anc(b, n)
  {
    if b.Child? && m < Num(b) { AncAnc(b.previous, m, n); }
  }

  lemma {:induction false} AncestorFacts(a: Block, b: Block)
    requires IsAncestor(a, b)
    ensures Num(Root(b)) <= Num(a) && Root(a) == Root(b)
    ensures WellFormed(b) ==> WellFormed(a)
  {
    if b.Child? && Num(a) < Num(b) { AncestorFacts(a, b.previous); }
  }

  lemma AncestorOfParent(a: Block, b: Block)
    requires b.Child? && IsAncestor(a, b.previous)
    ensures IsAncestor(a, b) && Num(a) < Num(b)
  {
  }

  lemma AncestorTransitive(a: Block, b: Block, c: Block)
    requires IsAncestor(a, b) && IsAncestor(b, c)
    ensures IsAncestor(a, c)
  {
    AncestorFacts(b, c);
    AncestorFacts(a, b);
    AncAnc(c, Num(b), Num(a));
  }

  /** Two ancestors of one block lie on one chain. */
  lemma AncestorsComparable(a: Block, b: Block, c: Block)
    requires IsAncestor(a, c) && IsAncestor(b, c) && Num(a) <= Num(b)
    ensures IsAncestor(a, b)
  {
    AncestorFacts(a, c);
    AncestorFacts(b, c);
    AncAnc(c, Num(b), Num(a));
  }

  lemma {:induction false} TimeIncreases(a: Block, b: Block)
    requires WellFormed(b) && IsAncestor(a, b)
    ensures a.time <= b.time
    ensures a != b ==> Num(a) < Num(b) && a.time < b.time
  {
    if Num(a) < Num(b) {
      AncestorFacts(a, b);
      TimeIncreases(a, b.previous);
    }
  }

  lemma {:induction false} ClaimsIncrease(a: Block, b: Block)
    requires WellFormed(b) && IsAncestor(a, b)
    ensures ClaimOf(a).num <= ClaimOf(b).num
    ensures Num(Root(b)) <= ClaimOf(b).num <= Num(b)
    ensures b.Child? ==> ClaimOf(b).num < Num(b)
  {
    AncestorFacts(a, b);
    if b.Child? {
      ClaimsIncrease(if a == b then b.previous else a, b.previous);
    }
  }

  lemma ClaimBlockFacts(b: Block)
    requires WellFormed(b)
    ensures WellFormed(ClaimBlock(b)) && IsAncestor(ClaimBlock(b), b) && Num(ClaimBlock(b)) == ClaimOf(b).num
    ensures Root(ClaimBlock(b)) == Root(b)
    ensures b.Child? ==> ClaimBlock(b).time < b.time
  {
    ClaimsIncrease(b, b);
    AncNum(b, ClaimOf(b).num);
    TimeIncreases(ClaimBlock(b), b);
  }

  /** Invariant 2 of the finality core, on chains. */
  lemma {:induction false} LibFacts(b: Block)
    requires WellFormed(b)
    ensures Num(Root(b)) <= Lib(b) <= LibSource(b) <= ClaimOf(b).num
    ensures ClaimOf(Anc(b, LibSource(b))).num == Lib(b)
    ensures Lib(b) < ClaimOf(b).num || Lib(b) == Num(Root(b))
  {
    ClaimsIncrease(b, b);
    match b
    case Genesis(_, _, _) =>
    case Child(p, _, c, _, _) =>
      LibFacts(p);
      ClaimsIncrease(p, p);
      AncNum(p, LibSource(b));
      ClaimsIncrease(Anc(p, LibSource(b)), p);
      ClaimsIncrease(Anc(p, LibSource(b)), Anc(p, LibSource(b)));
  }

  /** Irreversibility never moves backwards along a chain. */
  lemma {:induction false} LibIncreases(a: Block, b: Block)
    requires WellFormed(b) && IsAncestor(a, b)
    ensures Lib(a) <= Lib(b) && LibSource(a) <= LibSource(b)
  {
    if a != b && b.Child? {
      AncestorFacts(a, b);
      LibIncreases(a, b.previous);
      var p := b.previous;
      if b.claim.strong {
        LibFacts(p);
        ClaimsIncrease(p, p);
        AncNum(p, LibSource(p));
        AncNum(p, b.claim.num);
        AncAnc(p, b.claim.num, LibSource(p));
        ClaimsIncrease(Anc(p, LibSource(p)), Anc(p, b.claim.num));
      }
    }
  }

  /** A last irreversible block past genesis is always the claim of a block that some block on the
      chain claims strongly: the witness `y` makes the strong claim, and `A` is its target. */
  lemma {:induction false} LibWitness(b: Block) returns (y: Block, A: Block)
    requires WellFormed(b) && Lib(b) != Num(Root(b))
    ensures y.Child? && y.claim.strong && IsAncestor(y, b) && WellFormed(y)
    ensures A == ClaimBlock(y) && IsAncestor(A, b) && A.Child? && A.time < b.time
    ensures ClaimBlock(A) == Anc(b, Lib(b)) && WellFormed(A)
  {
    if b.claim.strong {
      y, A := b, ClaimBlock(b);
      ClaimBlockFacts(b);
      LibFacts(b);
      AncestorFacts(A, b);
      AncAnc(b, Num(A), Lib(b));
      assert A == Anc(b.previous, b.claim.num);
    } else {
      y, A := LibWitness(b.previous);
      LibFacts(b.previous);
      AncestorFacts(y, b.previous);
      AncestorFacts(A, b.previous);
      TimeIncreases(b.previous, b);
      assert IsAncestor(b.previous, b);
      AncestorTransitive(y, b.previous, b);
      AncestorTransitive(A, b.previous, b);
    }
  }
}
