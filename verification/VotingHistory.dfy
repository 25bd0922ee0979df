/** What an honest finalizer's whole voting history satisfies. */
module VotingHistory {
  import opened Blocks
  import opened HeaderStates
  import opened Voting

  datatype Vote = Vote(block: Block, strong: bool)

  /** The proposal a validated block puts to the finalizers. */
  function ProposalOf(b: Block): Proposal
    requires WellFormed(b)
  {
    Proposal(StateOf(b).core, MakeBlockRef(b, StateOf(b)))
  }

  /** What `extends` finds: a proper ancestor that is not older than the last irreversible block. */
  ghost predicate Extended(a: Block, b: Block) { IsAncestor(a, b) && a != b && Lib(b) <= Num(a) }

  /** The checks `decide_vote` makes on the core, restated on the chain. */
  lemma ProposalFacts(b: Block, id: Block)
    requires WellFormed(b) && b.Child?
    ensures ProposalOf(b).Defined()
    ensures ProposalOf(b).ref.id == b && ProposalOf(b).ref.timestamp == b.time
    ensures ProposalOf(b).QcTime() == ClaimBlock(b).time
    ensures ProposalOf(b).core.Extends(id) <==> Extended(id, b)
    ensures var r := ProposalOf(b).core.GetBlockReference(ProposalOf(b).core.LatestQcClaim().num);
            r.id == ClaimBlock(b) && r.timestamp == ClaimBlock(b).time
  {
    var c := StateOf(b).core;
    QcTimestampIs(b, c);
    ExtendsIsAncestor(b, c, id);
    CoreRanges(b, c);
    ReferenceIsAncestor(b, c, ClaimOf(b).num);
  }

  ghost predicate Newer(fsi: SafetyInformation, b: Block) {
    fsi.lastVote.Some? ==> TimeOf(fsi.lastVote) < b.time
  }

  ghost predicate ClaimPassesLock(fsi: SafetyInformation, b: Block) {
    fsi.lock.Some? && TimeOf(fsi.lock) < ClaimBlock(b).time
  }

  ghost predicate OnLock(fsi: SafetyInformation, b: Block) { fsi.lock.Some? && Extended(fsi.lock.value.id, b) }

  ghost predicate OnLastVote(fsi: SafetyInformation, b: Block) {
    fsi.lastVote.Some? && Extended(fsi.lastVote.value.id, b)
  }

  /** A block is voted on if it is newer than the last vote and claims a block newer than the lock or extends it. */
  ghost predicate MayVote(fsi: SafetyInformation, b: Block) {
    Newer(fsi, b) && (ClaimPassesLock(fsi, b) || OnLock(fsi, b))
  }

  /** A vote is strong if the claimed block is not older than the last vote, or than the last vote elsewhere. */
  ghost predicate MayBeStrong(fsi: SafetyInformation, b: Block) {
    var q := ClaimBlock(b);
    TimeOf(fsi.lastVote) <= q.time || (OnLastVote(fsi, b) && fsi.otherBranchLatestTime <= q.time)
  }

  /** The effect of casting a vote, restated on the chain; `q` is the claimed block. */
  ghost predicate VoteEffect(fsi: SafetyInformation, b: Block, strong: bool, after: SafetyInformation) {
    var q := ClaimBlock(b);
    && MayVote(fsi, b) && strong == MayBeStrong(fsi, b)
    && after.lastVote.Some? && after.lastVote.value.id == b && after.lastVote.value.timestamp == b.time
    && if strong then
         && after.otherBranchLatestTime == 0
         && if TimeOf(fsi.lock) < q.time
            then after.lock.Some? && after.lock.value.id == q && after.lock.value.timestamp == q.time
            else after.lock == fsi.lock
       else
         && after.lock == fsi.lock
         && after.otherBranchLatestTime == if OnLastVote(fsi, b) then fsi.otherBranchLatestTime
            else TimeOf(fsi.lastVote)
  }

  /** The answer of `decide_vote`, on the chain. */
  ghost predicate DecidesAs(fsi: SafetyInformation, b: Block, r: VoteResult) {
    && r.monotonyCheck == Newer(fsi, b)
    && r.livenessCheck == (Newer(fsi, b) && ClaimPassesLock(fsi, b))
    && r.safetyCheck == (Newer(fsi, b) && !ClaimPassesLock(fsi, b) && OnLock(fsi, b))
    && r.decision == if !MayVote(fsi, b) then NoVote else if MayBeStrong(fsi, b) then StrongVote else WeakVote
  }

  lemma DecideEffectOf(fsi: SafetyInformation, b: Block, p: Proposal)
    requires p.Defined() && p.ref.id == b && p.ref.timestamp == b.time && p.QcTime() == ClaimBlock(b).time
    requires fsi.lock.Some? ==> (p.core.Extends(fsi.lock.value.id) <==> Extended(fsi.lock.value.id, b))
    requires fsi.lastVote.Some? ==> (p.core.Extends(fsi.lastVote.value.id) <==> Extended(fsi.lastVote.value.id, b))
    requires p.core.GetBlockReference(p.core.LatestQcClaim().num).id == ClaimBlock(b)
    ensures DecidesAs(fsi, b, Decide(fsi, p))
    ensures if MayVote(fsi, b) then VoteEffect(fsi, b, Decide(fsi, p).decision == StrongVote, AfterVote(fsi, p))
            else AfterVote(fsi, p) == fsi
  {
  }

  /** Whether a vote is cast, which vote, and what the safety information is then: exactly, for any safety
      information. */
  lemma DecideEffect(fsi: SafetyInformation, b: Block)
    requires WellFormed(b) && b.Child?
    ensures ProposalOf(b).Defined() && DecidesAs(fsi, b, Decide(fsi, ProposalOf(b)))
    ensures var after := AfterVote(fsi, ProposalOf(b));
            if MayVote(fsi, b) then VoteEffect(fsi, b, Decide(fsi, ProposalOf(b)).decision == StrongVote, after)
            else after == fsi
  {
    ProposalFacts(b, if fsi.lock.Some? then fsi.lock.value.id else b);
    ProposalFacts(b, if fsi.lastVote.Some? then fsi.lastVote.value.id else b);
    DecideEffectOf(fsi, b, ProposalOf(b));
  }

  // ----- Properties of a history -----

  /** At most one vote for each timestamp, in increasing order. */
  ghost predicate Monotone(log: seq<Vote>, i: int, j: int) {
    0 <= i < j < |log| ==> log[i].block.time < log[j].block.time
  }

  /** A strong vote vouches that every earlier vote since the claimed block is on the same branch. */
  ghost predicate Vouches(log: seq<Vote>, i: int, j: int) {
    0 <= i < j < |log| && log[j].strong && ClaimBlock(log[j].block).time < log[i].block.time ==>
      IsAncestor(log[i].block, log[j].block)
  }

  /** Vote `i` came before vote `j`, is newer than what `j` claims, and is on another branch. */
  ghost predicate Conflicts(log: seq<Vote>, i: int, j: int) {
    0 <= i < j < |log| && ClaimBlock(log[j].block).time < log[i].block.time && !IsAncestor(log[i].block, log[j].block)
  }

  /** A vote is weak only because of such an earlier vote. */
  ghost predicate WeakForCause(log: seq<Vote>, j: int) {
    0 <= j < |log| && !log[j].strong ==> exists i :: Conflicts(log, i, j)
  }

  /** A block a finalizer can be locked on when it casts vote `j`. */
  ghost predicate LockCandidate(g: Block, log: seq<Vote>, j: int, l: Block) {
    l == g || exists m :: 0 <= m < j && m < |log| && log[m].strong && ClaimBlock(log[m].block) == l
  }

  /** A vote after a strong one respects a lock at least as recent as what the strong vote's block claimed. */
  ghost predicate Respects(g: Block, log: seq<Vote>, i: int, j: int) {
    0 <= i < j < |log| && log[i].strong ==>
      exists l :: LockCandidate(g, log, j, l) && RespectsLock(log[i].block, log[j].block, l)
  }

  ghost predicate RespectsLock(a: Block, x: Block, l: Block) {
    && ClaimBlock(a).time <= l.time
    && (l.time < ClaimBlock(x).time || (IsAncestor(l, x) && l != x))
  }

  ghost predicate ValidVotes(g: Block, log: seq<Vote>) {
    forall v :: v in log ==> WellFormed(v.block) && v.block.Child? && Root(v.block) == g
  }

  ghost predicate SafeHistory(g: Block, log: seq<Vote>) {
    && ValidVotes(g, log)
    && (forall i, j :: Monotone(log, i, j))
    && (forall i, j :: Vouches(log, i, j))
    && (forall j :: WeakForCause(log, j))
    && (forall i, j :: Respects(g, log, i, j))
  }

  // ----- How the safety information summarises the history -----

  ghost predicate LastVoteIs(g: Block, fsi: SafetyInformation, log: seq<Vote>) {
    if log == [] then fsi.lastVote.None? || fsi.lastVote.value.timestamp <= g.time
    else fsi.lastVote.Some? && fsi.lastVote.value.id == log[|log| - 1].block
         && fsi.lastVote.value.timestamp == log[|log| - 1].block.time
  }

  ghost predicate LockIs(g: Block, fsi: SafetyInformation, log: seq<Vote>) {
    && fsi.lock.Some? && fsi.lock.value.timestamp == fsi.lock.value.id.time
    && LockCandidate(g, log, |log|, fsi.lock.value.id)
    && (forall v :: v in log && v.strong ==> ClaimBlock(v.block).time <= fsi.lock.value.timestamp)
  }

  /** Votes newer than both the recorded other-branch time and the last voted block's claim are on
      the last voted block's branch. */
  ghost predicate OtherBranchIs(fsi: SafetyInformation, log: seq<Vote>) {
    forall v :: v in log ==> OnLastBranch(fsi, log[|log| - 1].block, v.block)
  }

  ghost predicate OnLastBranch(fsi: SafetyInformation, last: Block, x: Block) {
    fsi.otherBranchLatestTime < x.time && ClaimBlock(last).time < x.time ==> IsAncestor(x, last)
  }

  /** A recorded other-branch time is that of a vote off the last voted block's branch. */
  ghost predicate OtherVoteIs(fsi: SafetyInformation, log: seq<Vote>) {
    log != [] && fsi.otherBranchLatestTime > 0 ==> exists i :: OtherVoteAt(fsi, log, i)
  }

  ghost predicate OtherVoteAt(fsi: SafetyInformation, log: seq<Vote>, i: int) {
    0 <= i < |log| - 1 && log[i].block.time == fsi.otherBranchLatestTime
      && !IsAncestor(log[i].block, log[|log| - 1].block)
  }

  ghost predicate Summarises(g: Block, fsi: SafetyInformation, log: seq<Vote>) {
    LastVoteIs(g, fsi, log) && LockIs(g, fsi, log) && OtherBranchIs(fsi, log) && OtherVoteIs(fsi, log)
  }

  /** The safety information a finalizer starts with, from the genesis block or with no vote at all. */
  lemma InitialHistory(g: Block, fsi: SafetyInformation)
    requires g.Genesis? && fsi.lock.Some? && fsi.lock.value.id == g && fsi.lock.value.timestamp == g.time
    requires fsi.lastVote.None? || fsi.lastVote == fsi.lock
    ensures SafeHistory(g, []) && Summarises(g, fsi, [])
  {
    forall i, j ensures Monotone([], i, j) && Vouches([], i, j) && Respects(g, [], i, j) && WeakForCause([], j) { }
  }

  // ----- One vote -----

  lemma LastIsNewest(g: Block, fsi: SafetyInformation, log: seq<Vote>, v: Vote)
    requires SafeHistory(g, log) && LastVoteIs(g, fsi, log) && v in log
    ensures v.block.time <= TimeOf(fsi.lastVote)
  {
    var i :| 0 <= i < |log| && log[i] == v;
    assert Monotone(log, i, |log| - 1);
  }

  lemma ClaimTimesIncrease(a: Block, b: Block)
    requires WellFormed(b) && IsAncestor(a, b)
    ensures WellFormed(a) && ClaimBlock(a).time <= ClaimBlock(b).time
  {
    AncestorFacts(a, b);
    ClaimsIncrease(a, b);
    ClaimBlockFacts(a);
    ClaimBlockFacts(b);
    AncestorTransitive(ClaimBlock(a), a, b);
    AncestorsComparable(ClaimBlock(a), ClaimBlock(b), b);
    TimeIncreases(ClaimBlock(a), ClaimBlock(b));
  }

  /** Every earlier vote not on the new block's branch is accounted for by the decision. */
  lemma EarlierVote(g: Block, fsi: SafetyInformation, log: seq<Vote>, b: Block, strong: bool, after: SafetyInformation,
                    v: Vote)
    requires SafeHistory(g, log) && Summarises(g, fsi, log) && v in log
    requires WellFormed(b) && VoteEffect(fsi, b, strong, after)
    ensures v.block.time < b.time
    ensures OnLastBranch(after, b, v.block)
    ensures strong && ClaimBlock(b).time < v.block.time ==> IsAncestor(v.block, b)
  {
    LastIsNewest(g, fsi, log, v);
    var last := log[|log| - 1].block;
    assert OnLastBranch(fsi, last, v.block);
    if IsAncestor(last, b) {
      ClaimTimesIncrease(last, b);
      if IsAncestor(v.block, last) { AncestorTransitive(v.block, last, b); }
    }
  }

  lemma NewLock(g: Block, fsi: SafetyInformation, log: seq<Vote>, b: Block, strong: bool, after: SafetyInformation)
    requires LockIs(g, fsi, log) && VoteEffect(fsi, b, strong, after)
    ensures LockIs(g, after, log + [Vote(b, strong)])
  {
    var n := log + [Vote(b, strong)];
    if after.lock == fsi.lock {
      ExtendCandidate(g, log, Vote(b, strong), |log|, fsi.lock.value.id);
    } else {
      assert n[|log|].strong && ClaimBlock(n[|log|].block) == after.lock.value.id;
    }
    forall v | v in n && v.strong ensures ClaimBlock(v.block).time <= after.lock.value.timestamp {
      assert v in log || v == Vote(b, strong);
    }
  }

  lemma ExtendCandidate(g: Block, log: seq<Vote>, v: Vote, j: int, l: Block)
    requires LockCandidate(g, log, j, l) && j <= |log|
    ensures LockCandidate(g, log + [v], j, l)
  {
    if l != g {
      var m :| 0 <= m < j && m < |log| && log[m].strong && ClaimBlock(log[m].block) == l;
      assert (log + [v])[m] == log[m];
    }
  }

  lemma AppendPair(g: Block, fsi: SafetyInformation, log: seq<Vote>, b: Block, strong: bool, after: SafetyInformation,
                   i: int, j: int)
    requires SafeHistory(g, log) && Summarises(g, fsi, log) && WellFormed(b) && VoteEffect(fsi, b, strong, after)
    ensures var n := log + [Vote(b, strong)]; Monotone(n, i, j) && Vouches(n, i, j) && Respects(g, n, i, j)
  {
    var v := Vote(b, strong);
    var n := log + [v];
    if 0 <= i < j < |n| {
      assert n[i] == log[i] && n[i] in log;
      if j < |log| {
        assert n[j] == log[j] && Monotone(log, i, j) && Vouches(log, i, j) && Respects(g, log, i, j);
        if log[i].strong {
          var l :| LockCandidate(g, log, j, l) && RespectsLock(log[i].block, log[j].block, l);
          ExtendCandidate(g, log, v, j, l);
        }
      } else {
        EarlierVote(g, fsi, log, b, strong, after, log[i]);
        var l := fsi.lock.value.id;
        ExtendCandidate(g, log, v, j, l);
        assert log[i].strong ==> RespectsLock(log[i].block, b, l);
      }
    }
  }

  /** An ancestor not older than the claimed block is reversible. */
  lemma IsReversible(a: Block, b: Block)
    requires WellFormed(b) && IsAncestor(a, b) && ClaimBlock(b).time <= a.time
    ensures Lib(b) <= Num(a)
  {
    ClaimBlockFacts(b);
    LibFacts(b);
    if Num(a) < ClaimOf(b).num {
      AncestorsComparable(a, ClaimBlock(b), b);
      TimeIncreases(a, ClaimBlock(b));
    }
  }

  lemma RootIsOldest(b: Block)
    requires WellFormed(b)
    ensures Root(b).time <= ClaimBlock(b).time
  {
    ClaimBlockFacts(b);
    AncNum(ClaimBlock(b), Num(Root(b)));
    TimeIncreases(Root(b), ClaimBlock(b));
  }

  /** A vote off the branch of the last one stays off the branch of what extends the last one. */
  lemma StaysOff(u: Block, last: Block, b: Block)
    requires WellFormed(b) && IsAncestor(last, b) && u.time < last.time && !IsAncestor(u, last)
    ensures !IsAncestor(u, b)
  {
    if IsAncestor(u, b) {
      if Num(u) <= Num(last) {
        AncestorsComparable(u, last, b);
      } else {
        AncestorsComparable(last, u, b);
        AncestorFacts(u, b);
        TimeIncreases(last, u);
      }
    }
  }

  /** The earlier vote on account of which a vote is weak. */
  lemma WeakCause(g: Block, fsi: SafetyInformation, log: seq<Vote>, b: Block, after: SafetyInformation) returns (i: nat)
    requires SafeHistory(g, log) && Summarises(g, fsi, log) && WellFormed(b) && Root(b) == g
    requires VoteEffect(fsi, b, false, after)
    ensures i < |log| && ClaimBlock(b).time < log[i].block.time == after.otherBranchLatestTime
    ensures !IsAncestor(log[i].block, b)
  {
    RootIsOldest(b);
    var last := log[|log| - 1].block;
    if OnLastVote(fsi, b) {
      i :| OtherVoteAt(fsi, log, i);
      assert Monotone(log, i, |log| - 1);
      StaysOff(log[i].block, last, b);
    } else {
      i := |log| - 1;
      if IsAncestor(last, b) { IsReversible(last, b); }
    }
  }

  lemma CauseKept(log: seq<Vote>, v: Vote, j: int)
    requires WeakForCause(log, j) && j < |log|
    ensures WeakForCause(log + [v], j)
  {
    if 0 <= j && !log[j].strong {
      var i :| Conflicts(log, i, j);
      assert Conflicts(log + [v], i, j);
    }
  }

  lemma EffectKeepsCause(g: Block, fsi: SafetyInformation, log: seq<Vote>, b: Block, strong: bool,
                         after: SafetyInformation)
    requires SafeHistory(g, log) && Summarises(g, fsi, log)
    requires WellFormed(b) && Root(b) == g && VoteEffect(fsi, b, strong, after)
    ensures forall j :: WeakForCause(log + [Vote(b, strong)], j)
    ensures OtherVoteIs(after, log + [Vote(b, strong)])
  {
    var v := Vote(b, strong);
    var n := log + [v];
    if !strong {
      var i := WeakCause(g, fsi, log, b, after);
      assert n[i] == log[i];
      assert Conflicts(n, i, |log|) && OtherVoteAt(after, n, i);
    }
    forall j ensures WeakForCause(n, j) {
      if j < |log| {
        assert WeakForCause(log, j);
        CauseKept(log, v, j);
      }
    }
  }

  lemma EffectKeepsHistory(g: Block, fsi: SafetyInformation, log: seq<Vote>, b: Block, strong: bool,
                           after: SafetyInformation)
    requires SafeHistory(g, log) && Summarises(g, fsi, log)
    requires WellFormed(b) && b.Child? && Root(b) == g && VoteEffect(fsi, b, strong, after)
    ensures SafeHistory(g, log + [Vote(b, strong)]) && Summarises(g, after, log + [Vote(b, strong)])
  {
    var n := log + [Vote(b, strong)];
    forall i, j ensures Monotone(n, i, j) && Vouches(n, i, j) && Respects(g, n, i, j) {
      AppendPair(g, fsi, log, b, strong, after, i, j);
    }
    EffectKeepsCause(g, fsi, log, b, strong, after);
    NewLock(g, fsi, log, b, strong, after);
    forall v | v in n ensures OnLastBranch(after, b, v.block) {
      if v in log { EarlierVote(g, fsi, log, b, strong, after, v); }
    }
  }

  /** Any vote `decide_vote` casts keeps the history safe and its summary accurate. */
  lemma VoteKeepsHistory(g: Block, fsi: SafetyInformation, log: seq<Vote>, b: Block)
    requires SafeHistory(g, log) && Summarises(g, fsi, log)
    requires WellFormed(b) && b.Child? && Root(b) == g
    ensures ProposalOf(b).Defined()
    ensures var d := Decide(fsi, ProposalOf(b)).decision;
            d != NoVote ==>
              var n := log + [Vote(b, d == StrongVote)];
              SafeHistory(g, n) && Summarises(g, AfterVote(fsi, ProposalOf(b)), n)
  {
    DecideEffect(fsi, b);
    var d := Decide(fsi, ProposalOf(b)).decision;
    if d != NoVote { EffectKeepsHistory(g, fsi, log, b, d == StrongVote, AfterVote(fsi, ProposalOf(b))); }
  }

  /** A vote is strong if and only if every earlier vote newer than the claimed block is on the voted block's branch. */
  lemma StrongIff(g: Block, log: seq<Vote>, j: nat)
    requires SafeHistory(g, log) && j < |log|
    ensures log[j].strong <==>
              forall i :: 0 <= i < j && ClaimBlock(log[j].block).time < log[i].block.time ==>
                IsAncestor(log[i].block, log[j].block)
  {
    if log[j].strong {
      forall i | 0 <= i < j && ClaimBlock(log[j].block).time < log[i].block.time
        ensures IsAncestor(log[i].block, log[j].block)
      {
        assert Vouches(log, i, j);
      }
    } else {
      assert WeakForCause(log, j);
      var i :| Conflicts(log, i, j);
    }
  }

  /** With a history behind it, a finalizer votes on a block if and only if the block is newer than every vote cast, and
      claims a block newer than the lock or descends from the lock. */
  lemma VotesIff(g: Block, fsi: SafetyInformation, log: seq<Vote>, b: Block)
    requires SafeHistory(g, log) && Summarises(g, fsi, log)
    requires WellFormed(b) && b.Child? && Root(b) == g
    ensures ProposalOf(b).Defined()
    ensures Decide(fsi, ProposalOf(b)).decision != NoVote <==>
              && (forall v :: v in log ==> v.block.time < b.time)
              && (fsi.lock.value.id.time < ClaimBlock(b).time || IsAncestor(fsi.lock.value.id, b))
  {
    DecideEffect(fsi, b);
    forall v | v in log ensures v.block.time <= TimeOf(fsi.lastVote) { LastIsNewest(g, fsi, log, v); }
    ClaimBlockFacts(b);
    RootIsOldest(b);
    var l := fsi.lock.value.id;
    if log != [] { assert log[|log| - 1] in log; }
    if ClaimBlock(b).time <= l.time && IsAncestor(l, b) { IsReversible(l, b); }
    if (forall v :: v in log ==> v.block.time < b.time) { LockIsOlder(g, fsi, log, b); }
  }

  lemma LockIsOlder(g: Block, fsi: SafetyInformation, log: seq<Vote>, b: Block)
    requires SafeHistory(g, log) && Summarises(g, fsi, log) && b.Child? && WellFormed(b) && Root(b) == g
    requires forall v :: v in log ==> v.block.time < b.time
    ensures fsi.lock.value.id != b
  {
    var l := fsi.lock.value.id;
    if l != g {
      var m :| 0 <= m < |log| && log[m].strong && ClaimBlock(log[m].block) == l;
      assert log[m] in log;
      ClaimBlockFacts(log[m].block);
    }
  }

  /** On intact safety information, evidence of one's own earlier vote changes nothing. */
  lemma EvidenceIsRedundant(g: Block, fsi: SafetyInformation, log: seq<Vote>, v: Vote)
    requires SafeHistory(g, log) && Summarises(g, fsi, log) && v in log
    ensures WellFormed(v.block) && ProposalOf(v.block).Defined() && AfterEvidence(fsi, ProposalOf(v.block)) == fsi
  {
    LastIsNewest(g, fsi, log, v);
    ProposalFacts(v.block, v.block);
  }

  /** Safety information that has fallen behind, as after a restart, and evidence of a strong vote cast since: if the
      vote's claim is not newer than the lock nothing changes; otherwise the safety information is up to date with
      that vote again if and only if no strong vote before it claimed anything newer. */
  lemma EvidenceRecovers(g: Block, fsi: SafetyInformation, log: seq<Vote>, m: nat, j: nat)
    requires SafeHistory(g, log) && m <= j < |log| && log[j].strong && Summarises(g, fsi, log[..m])
    ensures WellFormed(log[j].block) && ProposalOf(log[j].block).Defined()
    ensures var after, claimed := AfterEvidence(fsi, ProposalOf(log[j].block)), ClaimBlock(log[j].block);
            if claimed.time <= TimeOf(fsi.lock) then after == fsi
            else Summarises(g, after, log[..j + 1]) <==>
                   forall i :: 0 <= i < j && log[i].strong ==> ClaimBlock(log[i].block).time <= claimed.time
  {
    var b := log[j].block;
    assert log[j] in log;
    ProposalFacts(b, b);
    StaleIsOlder(g, fsi, log, m, j);
    if TimeOf(fsi.lock) < ClaimBlock(b).time { Recovered(g, log, j, AfterEvidence(fsi, ProposalOf(b))); }
  }

  lemma StaleIsOlder(g: Block, fsi: SafetyInformation, log: seq<Vote>, m: nat, j: nat)
    requires SafeHistory(g, log) && m <= j < |log| && LastVoteIs(g, fsi, log[..m])
    ensures TimeOf(fsi.lastVote) < log[j].block.time
  {
    if m > 0 {
      assert Monotone(log, m - 1, j) && log[..m][m - 1] == log[m - 1];
    } else {
      assert log[j] in log;
      RootIsOldest(log[j].block);
      ClaimBlockFacts(log[j].block);
    }
  }

  lemma Recovered(g: Block, log: seq<Vote>, j: nat, after: SafetyInformation)
    requires SafeHistory(g, log) && j < |log| && log[j].strong && after.otherBranchLatestTime == 0
    requires after.lastVote.Some? && after.lastVote.value.id == log[j].block
             && after.lastVote.value.timestamp == log[j].block.time
    requires after.lock.Some? && after.lock.value.id == ClaimBlock(log[j].block)
             && after.lock.value.timestamp == after.lock.value.id.time
    ensures Summarises(g, after, log[..j + 1]) <==>
              forall i :: 0 <= i < j && log[i].strong ==>
                ClaimBlock(log[i].block).time <= ClaimBlock(log[j].block).time
  {
    var n, claimed := log[..j + 1], ClaimBlock(log[j].block);
    assert n[j].strong && ClaimBlock(n[j].block) == claimed;
    forall v | v in n ensures OnLastBranch(after, n[j].block, v.block) {
      var i :| 0 <= i <= j && n[i] == v;
      if i < j { assert Vouches(log, i, j); }
    }
    forall i | 0 <= i < j ensures log[i] in n { assert n[i] == log[i]; }
  }
}
