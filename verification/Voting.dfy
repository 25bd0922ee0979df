/** A finalizer's voting rule and the safety information it keeps between votes. */
module Voting {
  import opened Wrappers
  import opened FinalityCores

  datatype VoteDecision = NoVote | StrongVote | WeakVote

  datatype VoteResult = VoteResult(decision: VoteDecision, safetyCheck: bool, livenessCheck: bool, monotonyCheck: bool)

  /** `None` is an empty block reference; its timestamp reads as slot zero. */
  datatype SafetyInformation = SafetyInformation(lastVote: Option<BlockRef>, lock: Option<BlockRef>,
                                                 otherBranchLatestTime: nat)

  function TimeOf(r: Option<BlockRef>): nat { if r.None? then 0 else r.value.timestamp }

  /** What is being voted on: the proposal's core and its own block reference. */
  datatype Proposal = Proposal(core: FinalityCore, ref: BlockRef) {
    predicate Defined() {
      && core.links != [] && core.CurrentBlockNum() - core.LastFinalBlockNum() <= |core.refs|
      && core.refs != [] && 0 <= core.LatestQcClaim().num - core.LastFinalBlockNum() < |core.refs|
    }

    /** When the block with the latest claimed quorum certificate was produced. */
    function QcTime(): nat requires Defined() { core.LatestQcBlockTimestamp() }
  }

  predicate LivenessCheck(fsi: SafetyInformation, p: Proposal)
    requires p.Defined()
  {
    fsi.lock.Some? && TimeOf(fsi.lock) < p.QcTime()
  }

  predicate SafetyCheck(fsi: SafetyInformation, p: Proposal)
    requires p.Defined()
  {
    fsi.lock.Some? && !LivenessCheck(fsi, p) && p.core.Extends(fsi.lock.value.id)
  }

  /** The decision of `decide_vote`. */
  function Decide(fsi: SafetyInformation, p: Proposal): VoteResult
    requires p.Defined()
  {
    if fsi.lastVote.Some? && p.ref.timestamp <= TimeOf(fsi.lastVote) then VoteResult(NoVote, false, false, false)
    else
      var liveness, safety := LivenessCheck(fsi, p), SafetyCheck(fsi, p);
      if !liveness && !safety then VoteResult(NoVote, false, false, true)
      else if TimeOf(fsi.lastVote) <= p.QcTime() then VoteResult(StrongVote, safety, liveness, true)
      else if fsi.lastVote.Some? && p.core.Extends(fsi.lastVote.value.id) then
        VoteResult(if fsi.otherBranchLatestTime <= p.QcTime() then StrongVote else WeakVote, safety, liveness, true)
      else VoteResult(WeakVote, safety, liveness, true)
  }

  /** The safety information `decide_vote` leaves behind. */
  function AfterVote(fsi: SafetyInformation, p: Proposal): SafetyInformation
    requires p.Defined()
  {
    match Decide(fsi, p).decision
    case NoVote => fsi
    case StrongVote =>
      SafetyInformation(Some(p.ref),
                        if TimeOf(fsi.lock) < p.QcTime() then Some(p.core.GetBlockReference(p.core.LatestQcClaim().num))
                        else fsi.lock,
                        0)
    case WeakVote =>
      SafetyInformation(Some(p.ref), fsi.lock,
                        if fsi.lastVote.Some? && p.core.Extends(fsi.lastVote.value.id) then fsi.otherBranchLatestTime
                        else TimeOf(fsi.lastVote))
  }

  /** The safety information after evidence of one's own strong vote on `p`, found in a quorum certificate. */
  function AfterEvidence(fsi: SafetyInformation, p: Proposal): SafetyInformation
    requires p.Defined()
  {
    var claimed := p.core.GetBlockReference(p.core.LatestQcClaim().num);
    if TimeOf(fsi.lock) < claimed.timestamp && TimeOf(fsi.lastVote) < p.ref.timestamp
    then SafetyInformation(Some(p.ref), Some(claimed), 0)
    else fsi
  }

  /** The finalizer object: its safety information is updated in place, branch by branch. */
  class Finalizer {
    var lastVote: Option<BlockRef>
    var lock: Option<BlockRef>
    var otherBranchLatestTime: nat

    constructor (fsi: SafetyInformation)
      ensures Fsi() == fsi
    {
      lastVote, lock, otherBranchLatestTime := fsi.lastVote, fsi.lock, fsi.otherBranchLatestTime;
    }

    function Fsi(): SafetyInformation
      reads this
    {
      SafetyInformation(lastVote, lock, otherBranchLatestTime)
    }

    method DecideVote(p: Proposal) returns (res: VoteResult)
      requires p.Defined()
      modifies this
      ensures res == Decide(old(Fsi()), p)
      ensures Fsi() == AfterVote(old(Fsi()), p)
    {
      res := VoteResult(NoVote, false, false, lastVote.None? || TimeOf(lastVote) < p.ref.timestamp);
      if !res.monotonyCheck { return; }
      if lock.Some? {
        res := res.(livenessCheck := TimeOf(lock) < p.QcTime());
        if !res.livenessCheck {
          res := res.(safetyCheck := p.core.Extends(lock.value.id));
        }
      }
      if res.livenessCheck || res.safetyCheck {
        if TimeOf(lastVote) <= p.QcTime() {
          res := res.(decision := StrongVote);
        } else if lastVote.Some? && p.core.Extends(lastVote.value.id) {
          res := res.(decision := if otherBranchLatestTime <= p.QcTime() then StrongVote else WeakVote);
        } else {
          res := res.(decision := WeakVote);
          otherBranchLatestTime := TimeOf(lastVote);
        }
        if res.decision == StrongVote {
          otherBranchLatestTime := 0;
          if TimeOf(lock) < p.QcTime() {
            lock := Some(p.core.GetBlockReference(p.core.LatestQcClaim().num));
          }
        }
        lastVote := Some(p.ref);
      }
    }

    method MaybeUpdateFsi(p: Proposal) returns (updated: bool)
      requires p.Defined()
      modifies this
      ensures Fsi() == AfterEvidence(old(Fsi()), p)
      ensures !updated ==> Fsi() == old(Fsi())
      ensures updated ==> TimeOf(old(lock)) < TimeOf(lock) && TimeOf(old(lastVote)) < TimeOf(lastVote)
    {
      var claimed := p.core.GetBlockReference(p.core.LatestQcClaim().num);
      updated := TimeOf(lock) < claimed.timestamp && TimeOf(lastVote) < p.ref.timestamp;
      if updated {
        lock, lastVote, otherBranchLatestTime := Some(claimed), Some(p.ref), 0;
      }
    }
  }
}
