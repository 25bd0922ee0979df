/** No two conflicting blocks become final, across changes of finalizer policy. */
module Safety {
  import opened Blocks
  import opened PolicyHistory
  import opened QuorumCertificates
  import opened VotingHistory
  import opened Network

  /** Two blocks with certificates under one policy have a common honest voter. */
  lemma CommonVoter(n: Net, p: FinalizerPolicy, a: Block, strong: bool, x: Block) returns (k: Key, i: nat, j: nat)
    requires Tolerates(p, n.log.Keys) && HasQuorum(n, p, a, strong) && HasQuorum(n, p, x, false)
    ensures k in n.log && i < |n.log[k]| && j < |n.log[k]|
    ensures n.log[k][i].block == a && (strong ==> n.log[k][i].strong) && n.log[k][j].block == x
  {
    k := HonestInBoth(p, n.log.Keys, Endorsers(n, p, a, strong), Endorsers(n, p, x, false));
    var v :| v in n.log[k] && v.block == a && (strong ==> v.strong);
    var w :| w in n.log[k] && w.block == x;
    i :| 0 <= i < |n.log[k]| && n.log[k][i] == v;
    j :| 0 <= j < |n.log[k]| && n.log[k][j] == w;
  }

  /** The greatest common ancestor of two blocks. */
  ghost predicate Fork(f: Block, x: Block, y: Block) {
    && IsAncestor(f, x) && IsAncestor(f, y)
    && (forall e :: IsAncestor(e, x) && IsAncestor(e, y) ==> Num(e) <= Num(f))
  }

  lemma {:induction false} ForkPoint(x: Block, y: Block) returns (f: Block)
    requires Root(x) == Root(y)
    ensures Fork(f, x, y)
    decreases x
  {
    if IsAncestor(x, y) {
      f := x;
    } else {
      if x.Genesis? {
        AncNum(y, Num(x));
        AncestorFacts(Anc(y, Num(x)), y);
        assert false;
      }
      f := ForkPoint(x.previous, y);
      AncestorOfParent(f, x);
      forall e | IsAncestor(e, x) && IsAncestor(e, y) ensures Num(e) <= Num(f) {
        assert e != x;
        assert IsAncestor(e, x.previous);
      }
    }
  }

  /** The policy every block past the fork shares with it, until finality passes the fork. */
  ghost function Shared(f: Block): FinalizerPolicy {
    if Pending(f).Some? then Pending(f).value.policy else Active(f)
  }

  lemma SharedQuorum(n: Net, f: Block, y: Block, strong: bool)
    requires WellFormed(y) && IsAncestor(f, y) && Lib(y) <= Num(f) && HasQc(n, y, strong)
    ensures HasQuorum(n, Shared(f), y, strong)
  {
    PolicyPersistence(f, y);
  }

  /** `a` has a strong certificate, so what it claims may be final; `x`, not older than that, has any certificate. */
  ghost predicate Certified(n: Net, a: Block, x: Block) {
    && Inv(n) && FaultBound(n)
    && a in n.blocks && HasQc(n, a, true)
    && x in n.blocks && HasQc(n, x, false)
    && ClaimBlock(a).time <= x.time
  }

  /** A block finalized on the chain of `b` is the claim of some certified `a` on that chain. */
  lemma FinalizedBy(n: Net, b: Block) returns (a: Block)
    requires Inv(n) && b in n.blocks && Lib(b) != Num(n.genesis)
    ensures a in n.blocks && HasQc(n, a, true) && a.time < b.time
    ensures Root(b) == n.genesis && WellFormed(b) && ClaimBlock(a) == Anc(b, Lib(b)) && IsAncestor(ClaimBlock(a), b)
    ensures ClaimBlock(a) in n.blocks && HasQc(n, ClaimBlock(a), false) && ClaimBlock(a).time < b.time
    ensures Num(ClaimBlock(a)) == Lib(b)
  {
    assert GoodBlock(n, b);
    var y;
    y, a := LibWitness(b);
    AncestorInNet(n, y, b);
    ClaimInNet(n, y);
    ClaimInNet(n, a);
    ClaimBlockFacts(a);
    LibFacts(b);
    AncNum(b, Lib(b));
    AncestorTransitive(ClaimBlock(a), a, b);
    assert GoodBlock(n, ClaimBlock(a));
    WeakQc(n, ClaimBlock(a));
  }

  /** On the side of `a`, finality has not passed the fork: otherwise it would have on the side of `x` too. */
  lemma {:induction false} FinalBeforeFork(n: Net, a: Block, x: Block, f: Block)
    requires Certified(n, a, x) && ClaimBlock(a) != n.genesis && Fork(f, ClaimBlock(a), x)
    ensures Lib(a) <= Num(f)
    decreases ClaimBlock(a).time, x.time, 1
  {
    var d := ClaimBlock(a);
    ClaimInNet(n, a);
    ClaimBlockFacts(a);
    LibFacts(a);
    if Lib(a) == Num(n.genesis) {
      AncestorFacts(f, x);
      assert GoodBlock(n, x);
    } else {
      var e := FinalizedBy(n, a);
      AncestorsComparable(ClaimBlock(e), d, a);
      TimeIncreases(ClaimBlock(e), d);
      Agreement(n, e, x);
    }
  }

  /** On the side of `x` likewise, unless the finalized block itself descends from the claim of `a`. */
  lemma {:induction false} FinalBeforeForkOnOther(n: Net, a: Block, x: Block, f: Block)
    requires Certified(n, a, x) && ClaimBlock(a) != n.genesis && Fork(f, ClaimBlock(a), x)
    ensures Lib(x) <= Num(f) || IsAncestor(ClaimBlock(a), x)
    decreases ClaimBlock(a).time, x.time, 1
  {
    var d := ClaimBlock(a);
    ClaimInNet(n, a);
    assert GoodBlock(n, x);
    if Lib(x) == Num(n.genesis) {
      AncestorFacts(f, x);
    } else {
      var e := FinalizedBy(n, x);
      if ClaimBlock(e).time < d.time {
        WeakQc(n, d);
        Agreement(n, e, d);
      } else {
        Agreement(n, a, ClaimBlock(e));
        AncestorTransitive(d, ClaimBlock(e), x);
      }
    }
  }

  /** No honest finalizer votes for two blocks of one timestamp. */
  lemma OneVotePerTime(n: Net, k: Key, i: nat, j: nat)
    requires Inv(n) && k in n.log && i < |n.log[k]| && j < |n.log[k]|
    requires n.log[k][i].block.time == n.log[k][j].block.time
    ensures i == j
  {
    assert GoodFinalizer(n, k);
    assert Monotone(n.log[k], i, j) && Monotone(n.log[k], j, i);
  }

  /** A finalizer that voted for `x` and later strongly for `a` vouched that `x` is on the branch of `a`. */
  lemma VotedBefore(n: Net, k: Key, a: Block, x: Block, i: nat, j: nat)
    requires Certified(n, a, x) && ClaimBlock(a).time < x.time
    requires k in n.log && j < i < |n.log[k]|
    requires n.log[k][i] == Vote(a, true) && n.log[k][j].block == x
    ensures IsAncestor(ClaimBlock(a), x)
  {
    assert GoodFinalizer(n, k);
    assert Vouches(n.log[k], j, i);
    var d := ClaimBlock(a);
    ClaimInNet(n, a);
    if Num(d) <= Num(x) {
      AncestorsComparable(d, x, a);
    } else {
      AncestorsComparable(x, d, a);
      AncestorFacts(d, a);
      TimeIncreases(x, d);
    }
  }

  /** The lock respected by a vote for `x` after a strong vote for `a`: the genesis block or a certified one. */
  lemma LockRespected(n: Net, k: Key, i: nat, j: nat) returns (l: Block)
    requires Inv(n) && k in n.log && i < j < |n.log[k]| && n.log[k][i].strong
    ensures n.log[k][j].block.Child? && RespectsLock(n.log[k][i].block, n.log[k][j].block, l)
    ensures l in n.blocks && (l == n.genesis || HasQc(n, l, true) || HasQc(n, l, false))
  {
    assert GoodFinalizer(n, k);
    var log := n.log[k];
    assert Respects(n.genesis, log, i, j) && log[j] in log;
    l :| LockCandidate(n.genesis, log, j, l) && RespectsLock(log[i].block, log[j].block, l);
    if l != n.genesis {
      var m :| 0 <= m < j && m < |log| && log[m].strong && ClaimBlock(log[m].block) == l;
      assert log[m] in log;
      ClaimInNet(n, log[m].block);
    }
  }

  /** A finalizer that voted for `x` after voting strongly for `a` respected its lock. */
  lemma {:induction false} VotedAfter(n: Net, k: Key, a: Block, x: Block, i: nat, j: nat)
    requires Certified(n, a, x) && ClaimBlock(a) != n.genesis
    requires k in n.log && i < j < |n.log[k]|
    requires n.log[k][i] == Vote(a, true) && n.log[k][j].block == x
    ensures IsAncestor(ClaimBlock(a), x)
    decreases ClaimBlock(a).time, x.time, 2
  {
    var l := LockRespected(n, k, i, j);
    ClaimInNet(n, x);
    ClaimBlockFacts(x);
    if l.time < ClaimBlock(x).time {
      AgreementBelow(n, a, x, ClaimBlock(x));
    } else {
      AgreementBelow(n, a, x, l);
    }
  }

  lemma GenesisIsOldest(n: Net, d: Block)
    requires Inv(n) && d in n.blocks && d != n.genesis
    ensures n.genesis.time < d.time
  {
    assert GoodBlock(n, d);
    AncNum(d, Num(n.genesis));
    AncestorOfRoot(d);
    TimeIncreases(n.genesis, d);
  }

  lemma {:induction false} AncestorOfRoot(b: Block)
    ensures IsAncestor(Root(b), b)
  {
    if b.Child? { AncestorOfRoot(b.previous); }
  }

  /** Agreement on a certified strict ancestor `c` of `x` carries over to `x`. */
  lemma {:induction false} AgreementBelow(n: Net, a: Block, x: Block, c: Block)
    requires Certified(n, a, x) && ClaimBlock(a) != n.genesis
    requires c in n.blocks && IsAncestor(c, x) && c != x && ClaimBlock(a).time <= c.time
    requires c == n.genesis || HasQc(n, c, true) || HasQc(n, c, false)
    ensures IsAncestor(ClaimBlock(a), x)
    decreases ClaimBlock(a).time, x.time, 1
  {
    assert GoodBlock(n, x);
    ClaimInNet(n, a);
    GenesisIsOldest(n, ClaimBlock(a));
    WeakQc(n, c);
    TimeIncreases(c, x);
    Agreement(n, a, c);
    AncestorTransitive(ClaimBlock(a), c, x);
  }

  /** Once `a` has a strong certificate, every certified block not older than `a`'s claim descends from it. */
  lemma {:induction false} Agreement(n: Net, a: Block, x: Block)
    requires Certified(n, a, x)
    ensures IsAncestor(ClaimBlock(a), x)
    decreases ClaimBlock(a).time, x.time, 4
  {
    var d := ClaimBlock(a);
    ClaimInNet(n, a);
    assert GoodBlock(n, x) && GoodBlock(n, d);
    if d == n.genesis {
      AncestorOfRoot(x);
      return;
    }
    var f := ForkPoint(d, x);
    FinalBeforeFork(n, a, x, f);
    FinalBeforeForkOnOther(n, a, x, f);
    if !IsAncestor(d, x) {
      SharedPolicy(n, a, x, f);
      Collision(n, a, x, Shared(f));
    }
  }

  /** A policy that tolerates the faults and governs both blocks past their fork. */
  lemma SharedPolicy(n: Net, a: Block, x: Block, f: Block)
    requires Certified(n, a, x) && ClaimBlock(a) != n.genesis && Fork(f, ClaimBlock(a), x)
    requires Lib(a) <= Num(f) && Lib(x) <= Num(f)
    ensures Tolerates(Shared(f), n.log.Keys)
    ensures HasQuorum(n, Shared(f), x, false) && HasQuorum(n, Shared(f), a, true)
            && HasQuorum(n, Shared(f), ClaimBlock(a), false)
  {
    var d := ClaimBlock(a);
    ClaimInNet(n, a);
    assert GoodBlock(n, x);
    AncestorInNet(n, f, x);
    assert FaultBoundAt(n, f);
    SharedQuorum(n, f, x, false);
    AncestorTransitive(f, d, a);
    SharedQuorum(n, f, a, true);
    LibIncreases(d, a);
    AncestorFacts(d, a);
    WeakQc(n, d);
    SharedQuorum(n, f, d, false);
  }

  lemma {:induction false} Collision(n: Net, a: Block, x: Block, p: FinalizerPolicy)
    requires Certified(n, a, x) && ClaimBlock(a) != n.genesis && Tolerates(p, n.log.Keys)
    requires HasQuorum(n, p, x, false) && HasQuorum(n, p, a, true) && HasQuorum(n, p, ClaimBlock(a), false)
    ensures IsAncestor(ClaimBlock(a), x)
    decreases ClaimBlock(a).time, x.time, 3
  {
    if x.time == ClaimBlock(a).time {
      var k, i, j := CommonVoter(n, p, ClaimBlock(a), false, x);
      OneVotePerTime(n, k, i, j);
    } else {
      var k, i, j := CommonVoter(n, p, a, true, x);
      if i < j { VotedAfter(n, k, a, x, i, j); }
      else if j < i { VotedBefore(n, k, a, x, i, j); }
      else { ClaimInNet(n, a); }
    }
  }

  /** The block that `b` makes irreversible. */
  function LibBlock(b: Block): Block { Anc(b, Lib(b)) }

  /** Whatever two blocks regard as irreversible lies on one chain. */
  lemma FinalityIsConsistent(n: Net, b: Block, c: Block)
    requires Inv(n) && FaultBound(n) && b in n.blocks && c in n.blocks
    ensures IsAncestor(LibBlock(b), LibBlock(c)) || IsAncestor(LibBlock(c), LibBlock(b))
  {
    assert GoodBlock(n, b) && GoodBlock(n, c);
    if Lib(b) == Num(n.genesis) {
      FinalGenesis(n, b, c);
    } else if Lib(c) == Num(n.genesis) {
      FinalGenesis(n, c, b);
    } else {
      var x := FinalizedBy(n, b);
      var y := FinalizedBy(n, c);
      if LibBlock(b).time <= LibBlock(c).time { Agreement(n, x, LibBlock(c)); }
      else { Agreement(n, y, LibBlock(b)); }
    }
  }

  lemma FinalGenesis(n: Net, b: Block, c: Block)
    requires Inv(n) && b in n.blocks && c in n.blocks && Lib(b) == Num(n.genesis)
    ensures IsAncestor(LibBlock(b), LibBlock(c))
  {
    assert GoodBlock(n, b) && GoodBlock(n, c);
    AncestorOfRoot(b);
    LibFacts(c);
    AncNum(c, Lib(c));
    AncestorOfRoot(LibBlock(c));
  }

  /** A block in the net never contradicts an irreversible one that is older than what it claims. */
  lemma FinalityIsRespected(n: Net, b: Block, x: Block)
    requires Inv(n) && FaultBound(n) && b in n.blocks && x in n.blocks && LibBlock(b).time <= ClaimBlock(x).time
    ensures IsAncestor(LibBlock(b), x)
  {
    assert GoodBlock(n, b) && GoodBlock(n, x);
    if Lib(b) == Num(n.genesis) {
      AncestorOfRoot(b);
      AncestorOfRoot(x);
    } else {
      var a := FinalizedBy(n, b);
      ClaimInNet(n, x);
      if ClaimBlock(x) == n.genesis {
        FinalPastGenesis(n, b);
      } else {
        WeakQc(n, ClaimBlock(x));
        Agreement(n, a, ClaimBlock(x));
        AncestorTransitive(LibBlock(b), ClaimBlock(x), x);
      }
    }
  }

  lemma FinalPastGenesis(n: Net, b: Block)
    requires Inv(n) && b in n.blocks && Lib(b) != Num(n.genesis)
    ensures n.genesis.time < LibBlock(b).time
  {
    var a := FinalizedBy(n, b);
    GenesisIsOldest(n, LibBlock(b));
  }
}
