/** The finality core carried by every block header state: the reversible quorum-certificate links
    and the references of the blocks back to the last irreversible one. */
module FinalityCores {
  import opened Blocks

  datatype BlockRef = BlockRef(id: Block, timestamp: nat, activeGeneration: nat, pendingGeneration: nat)

  datatype QcLink = QcLink(source: nat, target: nat, strong: bool)

  datatype FinalityCore = FinalityCore(links: seq<QcLink>, refs: seq<BlockRef>, genesisTimestamp: nat) {

    function CurrentBlockNum(): nat requires links != [] { links[|links| - 1].source }

    function LastFinalBlockNum(): nat requires links != [] { links[0].target }

    function LatestQcClaim(): QcClaim
      requires links != []
    {
      QcClaim(links[|links| - 1].target, links[|links| - 1].strong)
    }

    predicate IsGenesisCore() { refs == [] }

    /** Invariants 1 to 7 of the source, in its numbering. */
    ghost predicate Valid() {
      && links != []                                                          // 1
      && LastFinalBlockNum() <= links[0].source <= LatestQcClaim().num        // 2
      && (refs == [] ==> |links| == 1 && links[0].target == links[0].source)  // 3
      && (refs != [] ==> Num(refs[0].id) == LastFinalBlockNum())              // 4
      && (refs != [] ==> Num(refs[|refs| - 1].id) + 1 == CurrentBlockNum())   // 5
      && RefsOrdered(refs)                                                    // 6
      && LinksOrdered(links)                                                  // 7
    }

    /** The reference of block `num`. */
    function GetBlockReference(num: nat): BlockRef
      requires links != [] && 0 <= num - LastFinalBlockNum() < |refs|
    {
      refs[num - LastFinalBlockNum()]
    }

    /** The link made by block `num`. */
    function GetQcLinkFrom(num: nat): QcLink
      requires links != [] && 0 <= num - links[0].source < |links|
    {
      links[num - links[0].source]
    }

    function LatestQcBlockTimestamp(): nat
      requires links != [] && (refs != [] ==> 0 <= LatestQcClaim().num - LastFinalBlockNum() < |refs|)
    {
      if IsGenesisCore() then genesisTimestamp else GetBlockReference(LatestQcClaim().num).timestamp
    }

    /** Is `id` an ancestor that is still referenced? */
    predicate Extends(id: Block)
      requires links != [] && CurrentBlockNum() - LastFinalBlockNum() <= |refs|
    {
      LastFinalBlockNum() <= Num(id) < CurrentBlockNum() && GetBlockReference(Num(id)).id == id
    }

    // `get_new_block_numbers` of the source returns two numbers, given here by two functions.

    /** The source of the first link kept after a new claim; the link made by block `claim.num` has
        that number as its source. */
    function NewLinkSource(claim: QcClaim): nat
      requires links != []
    {
      if claim.strong then claim.num else links[0].source
    }

    /** The last final block number after a new claim: two-chain finality. */
    function NewLastFinal(claim: QcClaim): nat
      requires links != [] && (claim.strong ==> 0 <= claim.num - links[0].source < |links|)
    {
      if claim.strong then GetQcLinkFrom(claim.num).target else LastFinalBlockNum()
    }

    /** Every index `Next` uses is in range. */
    predicate NextDefined(claim: QcClaim) {
      && links != [] && (claim.strong ==> 0 <= claim.num - links[0].source < |links|)
      && 0 <= NewLinkSource(claim) - links[0].source < |links|
      && 0 <= NewLastFinal(claim) - LastFinalBlockNum() <= |refs|
    }

    function NextLinks(claim: QcClaim): seq<QcLink>
      requires NextDefined(claim)
    {
      links[NewLinkSource(claim) - links[0].source..] + [QcLink(CurrentBlockNum() + 1, claim.num, claim.strong)]
    }

    function NextRefs(current: BlockRef, claim: QcClaim): seq<BlockRef>
      requires NextDefined(claim)
    {
      refs[NewLastFinal(claim) - LastFinalBlockNum()..] + [current]
    }

    /** Garbage-collects links and references that are no longer needed and adds the new ones. */
    function Next(current: BlockRef, claim: QcClaim): FinalityCore
      requires NextDefined(claim)
    {
      FinalityCore(NextLinks(claim), NextRefs(current, claim), genesisTimestamp)
    }
  }

  // Invariants 6 and 7 are stated for every pair of positions rather than for neighbours only; a
  // link points strictly backwards unless it is the genesis link.

  ghost predicate RefsOrdered(refs: seq<BlockRef>) {
    && (forall i :: Consecutive(refs, i))
    && (forall i, j :: Earlier(refs, i, j))
  }

  ghost predicate Consecutive(refs: seq<BlockRef>, i: int) {
    0 <= i < |refs| ==> Num(refs[i].id) == Num(refs[0].id) + i
  }

  ghost predicate Earlier(refs: seq<BlockRef>, i: int, j: int) {
    0 <= i < j < |refs| ==> refs[i].timestamp < refs[j].timestamp
  }

  ghost predicate LinksOrdered(links: seq<QcLink>) {
    && (forall i :: LinkInPlace(links, i))
    && (forall i, j :: Nondecreasing(links, i, j))
  }

  ghost predicate LinkInPlace(links: seq<QcLink>, i: int) {
    0 <= i < |links| ==>
      && links[i].source == links[0].source + i
      && links[i].target <= links[i].source && (i > 0 ==> links[i].target < links[i].source)
  }

  ghost predicate Nondecreasing(links: seq<QcLink>, i: int, j: int) {
    0 <= i <= j < |links| ==> links[i].target <= links[j].target
  }

  function CreateCoreForGenesisBlock(b: Block): (c: FinalityCore)
    requires b.Genesis?
    ensures c.Valid() && c.IsGenesisCore()
    ensures c.CurrentBlockNum() == Num(b) && c.LastFinalBlockNum() == Num(b)
    ensures c.LatestQcClaim() == QcClaim(Num(b), false)
  {
    FinalityCore([QcLink(b.num, b.num, false)], [], b.time)
  }

  /** Invariants 8 and 9 of the source follow from the first seven. */
  lemma CoreSizes(c: FinalityCore)
    requires c.Valid()
    ensures c.CurrentBlockNum() - c.LastFinalBlockNum() == |c.refs|
    ensures c.CurrentBlockNum() - c.links[0].source == |c.links| - 1
  {
    assert LinkInPlace(c.links, |c.links| - 1) && Consecutive(c.refs, |c.refs| - 1);
  }

  /** `get_block_reference` returns the block with the requested number. */
  lemma BlockReferenceHasNum(c: FinalityCore, num: nat)
    requires c.Valid() && c.LastFinalBlockNum() <= num < c.CurrentBlockNum()
    ensures 0 <= num - c.LastFinalBlockNum() < |c.refs| && Num(c.GetBlockReference(num).id) == num
  {
    CoreSizes(c);
    assert Consecutive(c.refs, num - c.LastFinalBlockNum());
  }

  /** The preconditions the source states for `next`. */
  ghost predicate NextRequires(c: FinalityCore, current: BlockRef, claim: QcClaim) {
    && c.Valid()
    && Num(current.id) == c.CurrentBlockNum()
    && (c.refs != [] ==> c.refs[|c.refs| - 1].timestamp < current.timestamp)
    && c.LatestQcClaim().AtMost(claim) && claim.num <= c.CurrentBlockNum()
  }

  /** The postconditions of `get_new_block_numbers`, and that both numbers index into the core. */
  lemma NewNumbersInRange(c: FinalityCore, claim: QcClaim)
    requires c.Valid() && c.LatestQcClaim().num <= claim.num <= c.CurrentBlockNum()
    ensures c.NextDefined(claim)
    ensures c.LastFinalBlockNum() <= c.NewLastFinal(claim) <= c.NewLinkSource(claim) <= claim.num
    ensures c.links[c.NewLinkSource(claim) - c.links[0].source].target == c.NewLastFinal(claim)
    ensures c.links[c.NewLinkSource(claim) - c.links[0].source].source == c.NewLinkSource(claim)
    ensures c.refs != [] ==> c.NewLastFinal(claim) - c.LastFinalBlockNum() < |c.refs|
  {
    CoreSizes(c);
    var i := claim.num - c.links[0].source;
    assert LinkInPlace(c.links, i) && Nondecreasing(c.links, 0, i);
  }

  lemma LinksAdvance(links: seq<QcLink>, cut: nat, link: QcLink)
    requires LinksOrdered(links) && cut < |links|
    requires link.source == links[|links| - 1].source + 1
    requires links[|links| - 1].target <= link.target < link.source
    ensures LinksOrdered(links[cut..] + [link])
  {
    var n, m := links[cut..] + [link], |links| - 1;
    forall i ensures LinkInPlace(n, i) {
      assert LinkInPlace(links, cut) && LinkInPlace(links, cut + i) && LinkInPlace(links, m);
    }
    forall i, j ensures Nondecreasing(n, i, j) {
      assert Nondecreasing(links, cut + i, cut + j) && Nondecreasing(links, cut + i, m);
    }
  }

  lemma RefsAdvance(refs: seq<BlockRef>, drop: nat, ref: BlockRef)
    requires RefsOrdered(refs) && drop <= |refs|
    requires refs != [] ==>
               Num(refs[|refs| - 1].id) + 1 == Num(ref.id) && refs[|refs| - 1].timestamp < ref.timestamp
    ensures RefsOrdered(refs[drop..] + [ref])
  {
    var n, m := refs[drop..] + [ref], |refs| - 1;
    forall i ensures Consecutive(n, i) {
      assert Consecutive(refs, drop) && Consecutive(refs, drop + i) && Consecutive(refs, m);
    }
    forall i, j ensures Earlier(n, i, j) {
      assert Earlier(refs, drop + i, drop + j) && Earlier(refs, drop + i, m);
    }
  }

  lemma NextLinksOrdered(c: FinalityCore, claim: QcClaim)
    requires c.Valid() && c.NextDefined(claim) && c.LatestQcClaim().num <= claim.num <= c.CurrentBlockNum()
    ensures LinksOrdered(c.NextLinks(claim))
  {
    LinksAdvance(c.links, c.NewLinkSource(claim) - c.links[0].source,
                 QcLink(c.CurrentBlockNum() + 1, claim.num, claim.strong));
  }

  lemma NextLinkEnds(c: FinalityCore, current: BlockRef, claim: QcClaim)
    requires NextRequires(c, current, claim)
    ensures c.NextDefined(claim)
    ensures var n := c.NextLinks(claim);
            && |n| > 1
            && n[0].target == c.NewLastFinal(claim) && n[0].source == c.NewLinkSource(claim)
            && n[|n| - 1] == QcLink(c.CurrentBlockNum() + 1, claim.num, claim.strong)
  {
    NewNumbersInRange(c, claim);
  }

  lemma NextRefsOrdered(c: FinalityCore, current: BlockRef, claim: QcClaim)
    requires NextRequires(c, current, claim)
    ensures c.NextDefined(claim)
    ensures RefsOrdered(c.NextRefs(current, claim))
    ensures var n := c.NextRefs(current, claim);
            |n| > 0 && Num(n[0].id) == c.NewLastFinal(claim) && n[|n| - 1] == current
  {
    NewNumbersInRange(c, claim);
    var drop := c.NewLastFinal(claim) - c.LastFinalBlockNum();
    RefsAdvance(c.refs, drop, current);
    assert Consecutive(c.refs, drop);
  }

  /** The next core has exactly the links from the new link source on, and the new one. */
  lemma NextLinkMembers(c: FinalityCore, claim: QcClaim, l: QcLink)
    requires c.Valid() && c.NextDefined(claim)
    ensures l in c.NextLinks(claim) <==>
              (l in c.links && c.NewLinkSource(claim) <= l.source)
                || l == QcLink(c.CurrentBlockNum() + 1, claim.num, claim.strong)
  {
    LinkKept(c.links, c.NewLinkSource(claim) - c.links[0].source, l);
  }

  /** And exactly the references from the new last final block on, and the new one. */
  lemma NextRefMembers(c: FinalityCore, current: BlockRef, claim: QcClaim, r: BlockRef)
    requires c.Valid() && c.NextDefined(claim)
    ensures r in c.NextRefs(current, claim) <==> (r in c.refs && c.NewLastFinal(claim) <= Num(r.id)) || r == current
  {
    RefKept(c.refs, c.NewLastFinal(claim) - c.LastFinalBlockNum(), r);
  }

  lemma LinkKept(links: seq<QcLink>, cut: nat, l: QcLink)
    requires LinksOrdered(links) && cut < |links|
    ensures l in links[cut..] <==> l in links && links[0].source + cut <= l.source
  {
    if l in links {
      var i :| 0 <= i < |links| && links[i] == l;
      assert LinkInPlace(links, i);
      if cut <= i { assert links[cut..][i - cut] == l; }
    }
    if l in links[cut..] {
      var i :| 0 <= i < |links| - cut && links[cut..][i] == l;
      assert LinkInPlace(links, cut + i);
    }
  }

  lemma RefKept(refs: seq<BlockRef>, drop: nat, r: BlockRef)
    requires RefsOrdered(refs) && drop <= |refs|
    ensures r in refs[drop..] <==> r in refs && Num(refs[0].id) + drop <= Num(r.id)
  {
    if r in refs {
      var i :| 0 <= i < |refs| && refs[i] == r;
      assert Consecutive(refs, i);
      if drop <= i { assert refs[drop..][i - drop] == r; }
    }
    if r in refs[drop..] {
      var i :| 0 <= i < |refs| - drop && refs[drop..][i] == r;
      assert Consecutive(refs, drop + i);
    }
  }

  /** Every invariant survives `next`, and its documented postconditions hold. */
  lemma NextKeepsInvariants(c: FinalityCore, current: BlockRef, claim: QcClaim)
    requires NextRequires(c, current, claim)
    ensures c.NextDefined(claim)
    ensures var n := c.Next(current, claim);
            && n.Valid() && !n.IsGenesisCore()
            && n.CurrentBlockNum() == c.CurrentBlockNum() + 1
            && n.LatestQcClaim() == claim
            && c.LastFinalBlockNum() <= n.LastFinalBlockNum() <= n.LatestQcClaim().num
            && n.refs[|n.refs| - 1] == current
            && n.LastFinalBlockNum() == c.NewLastFinal(claim) && n.links[0].source == c.NewLinkSource(claim)
  {
    NextLinkEnds(c, current, claim);
    NextLinksOrdered(c, claim);
    NextRefsOrdered(c, current, claim);
    NewNumbersInRange(c, claim);
  }
}
