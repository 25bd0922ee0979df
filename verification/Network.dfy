/** Finalizers exchanging blocks, votes and quorum certificates. */
module Network {
  import opened Blocks
  import opened PolicyHistory
  import opened QuorumCertificates
  import opened Voting
  import opened VotingHistory

  /** Everything in existence: all blocks any node has accepted, and for each honest finalizer its
      safety information and the votes it has cast.  Every key without a log may behave arbitrarily. */
  datatype Net = Net(genesis: Block, blocks: set<Block>, safety: map<Key, SafetyInformation>, log: map<Key, seq<Vote>>)

  /** Whether a signature of `k` over `x` can exist; `strong` asks for one over the strong digest. */
  ghost predicate Endorses(n: Net, k: Key, x: Block, strong: bool) {
    k in n.log ==> exists v :: v in n.log[k] && v.block == x && (strong ==> v.strong)
  }

  ghost function Endorsers(n: Net, p: FinalizerPolicy, x: Block, strong: bool): set<Key> {
    set f | f in p.finalizers && Endorses(n, f.key, x, strong) :: f.key
  }

  ghost predicate HasQuorum(n: Net, p: FinalizerPolicy, x: Block, strong: bool) {
    p.threshold <= WeightOf(p.finalizers, Endorsers(n, p, x, strong))
  }

  /** Signatures for a certificate on `x` can exist, under every policy in force at `x`. */
  ghost predicate HasQc(n: Net, x: Block, strong: bool) {
    HasQuorum(n, Active(x), x, strong) && (Pending(x).Some? ==> HasQuorum(n, Pending(x).value.policy, x, strong))
  }

  ghost predicate Justified(n: Net, b: Block) {
    ClaimOf(b) == ClaimOf(n.genesis) || HasQc(n, ClaimBlock(b), ClaimOf(b).strong)
  }

  ghost predicate GoodBlock(n: Net, b: Block) {
    && WellFormed(b) && Root(b) == n.genesis && Justified(n, b)
    && (b.Child? ==> b.previous in n.blocks)
  }

  ghost predicate GoodFinalizer(n: Net, k: Key) {
    && k in n.log && k in n.safety
    && SafeHistory(n.genesis, n.log[k]) && Summarises(n.genesis, n.safety[k], n.log[k])
    && (forall v :: v in n.log[k] ==> v.block in n.blocks)
  }

  ghost predicate Inv(n: Net) {
    && n.genesis.Genesis? && n.genesis in n.blocks
    && (forall b :: b in n.blocks ==> GoodBlock(n, b))
    && n.log.Keys == n.safety.Keys
    && (forall k :: k in n.log.Keys ==> GoodFinalizer(n, k))
  }

  /** In every policy that is in force somewhere, dishonest keys hold less weight than any two quorums share. */
  ghost predicate FaultBound(n: Net) {
    forall b :: b in n.blocks ==> FaultBoundAt(n, b)
  }

  ghost predicate FaultBoundAt(n: Net, b: Block) {
    Tolerates(Active(b), n.log.Keys) && (Pending(b).Some? ==> Tolerates(Pending(b).value.policy, n.log.Keys))
  }

  lemma {:induction false} AncestorInNet(n: Net, a: Block, b: Block)
    requires Inv(n) && b in n.blocks && IsAncestor(a, b)
    ensures a in n.blocks
    decreases b
  {
    assert GoodBlock(n, b);
    if a != b {
      TimeIncreases(a, b);
      AncestorFacts(a, b);
      AncestorInNet(n, a, b.previous);
    }
  }

  /** What a block claims is in the net, and has a certificate unless it is the genesis block. */
  lemma ClaimInNet(n: Net, b: Block)
    requires Inv(n) && b in n.blocks
    ensures WellFormed(b) && Root(b) == n.genesis
    ensures IsAncestor(ClaimBlock(b), b) && ClaimBlock(b) in n.blocks
    ensures ClaimBlock(b) == n.genesis || HasQc(n, ClaimBlock(b), ClaimOf(b).strong)
  {
    assert GoodBlock(n, b);
    ClaimBlockFacts(b);
    AncestorInNet(n, ClaimBlock(b), b);
    assert GoodBlock(n, ClaimBlock(b));
  }

  /** Strong endorsement is endorsement, and endorsements are never lost. */
  lemma QuorumGrows(n: Net, m: Net, p: FinalizerPolicy, x: Block, strong: bool, stronger: bool)
    requires forall k :: Endorses(n, k, x, stronger) ==> Endorses(m, k, x, strong)
    requires HasQuorum(n, p, x, stronger)
    ensures HasQuorum(m, p, x, strong)
  {
    var u, v := Endorsers(n, p, x, stronger), Endorsers(m, p, x, strong);
    forall f | f in p.finalizers && f.key in u ensures f.key in v {
      var g :| g in p.finalizers && Endorses(n, g.key, x, stronger) && g.key == f.key;
      assert Endorses(m, g.key, x, strong);
    }
    WeightMonotone(p.finalizers, u, v);
  }

  lemma QcGrows(n: Net, m: Net, x: Block, strong: bool, stronger: bool)
    requires forall k :: Endorses(n, k, x, stronger) ==> Endorses(m, k, x, strong)
    requires HasQc(n, x, stronger)
    ensures HasQc(m, x, strong)
  {
    QuorumGrows(n, m, Active(x), x, strong, stronger);
    if Pending(x).Some? { QuorumGrows(n, m, Pending(x).value.policy, x, strong, stronger); }
  }

  lemma WeakQc(n: Net, x: Block)
    requires HasQc(n, x, true) || HasQc(n, x, false)
    ensures HasQc(n, x, false)
  {
    if HasQc(n, x, true) { QcGrows(n, n, x, false, true); }
  }
}
