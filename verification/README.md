# Consensus, scheduling and serialization of The Channel, in Dafny

This project models the parts of The Channel (a blockchain node in the Antelope family) whose
correctness is hardest to see from the code, and proves properties of them for all inputs and all runs.

**Consensus (Savanna).** Every block claims a quorum certificate on an ancestor; a strong claim makes
final whatever the claimed block claims. `Blocks` holds the chain of headers and the two-chain rule,
`FinalityCores` the garbage-collected core a header state carries, `HeaderStates` the header state that
follows a block, `PolicyPromotion` and `PolicyHistory` the way of a finalizer policy from proposed over
pending to active, and `PolicyRetrieval` the recovery of the policies of an older block. `Voting` and
`VotingHistory` are a finalizer's voting rule and its whole history; `QuorumCertificates`,
`VoteAggregation`, `DualAggregation` and `OfferedCertificates` count votes, and make and check certificates.
`Network`, `Safety` and `Runs` put these together into a state machine of blocks, votes and certificates in
which every key without a vote log may sign anything. The main result, `Runs.NoConflictingFinality`, says that in every run, as long
as dishonest keys hold less than `2 * threshold - total` weight in each policy in force, no two blocks ever
make conflicting blocks irreversible, across any number of policy changes. `Progress` shows that the premises
can be met: runs within the fault bound make blocks of every height irreversible, through any number of
changes of the active policy. `Liveness.EveryRunCanGoOn` says that no run within the bound is stuck: as long as
honest finalizers reach every threshold in force, some continuation makes a further block irreversible.

**Action scheduler.** `ActionScheduler` is the execution of a transaction for arbitrary contract behaviour,
`ActionContexts` the objects that do it, `ActionOrder`, `ActionRuns`, `ActionTheorems` and `ActionFailures` the
proof that the execution order is the recursive one read off the trace, that receipts are consecutive, that everything
scheduled runs unless something throws, and that a failing run is a prefix of the failure-free one.
`ActionRequests` ties the trace to the contracts: each execution leaves exactly the traces its code asked for.

**ABI serializer.** `AbiSerializer` packs and unpacks, and `AbiStreams` does so on a stream. `AbiValues` defines
the canonical form of a value and which packed values are readable; `AbiRoundTrip` and `AbiCanonical` prove
that the round-trip law holds for exactly those. `AbiLimits` has the families for which it fails, and ABIs
for which it never does. `AbiNumbers` and `AbiFormat` state the wire format on bytes alone and `AbiReading` what
a reader accepts beyond it; `AbiPacking` and `AbiUnpacking` prove that packing and unpacking agree with them exactly,
for all values and all bytes. `AbiCuts` and `AbiIncomplete` say what becomes of bytes that are cut short.

**Reflection validator.** `ReflectionMatcher` is the two-index matcher with its exact acceptance condition,
`ReflectionSwaps` says which swap annotations could be dropped and which of those it finds, `ScopeReader` is the
recursive reader of brace scopes.

**Permissions and policy differences.** `Permissions` is the permission tree with its links, `PermissionEffects`
what each operation accepts and leaves behind; `OrderedDiff` the difference format in which a new finalizer policy is
published.

A hash or signature is not modelled: a `Block` value contains the whole chain behind it and stands for its
own identifier and digest, and a signature is taken to exist exactly when an honest key cast that vote, or
the key is not honest. Exceptions are `Option`, `Result` or status values. Contract code is an arbitrary stream
of behaviours. Clocks, the network and the database appear only as parameters and steps.

## Where the code differs from what it promises

- `aggregating_qc_sig_t` documents `weak_final` as "strong not possible anymore", but in state
  `weak_achieved` it compares the weak weight with `>=`. `VoteAggregation.StrongQuorumMissed` gives votes that
  reach a strong quorum which is never reported; `VoteAggregation.StrongMissedIff` gives the exact condition for
  every policy that `set_finalizers` accepts.
- A certificate offered by the aggregator can fail the node's own dual-finalizer check, because a strong side
  drops its weak votes, or because one side was received in a block and the other aggregated.
  `OfferedCertificates.RejectedOffer` and `OfferedCertificates.RejectedMix` are examples,
  `OfferedCertificates.OfferedQcIsValid` the exact condition.
- `max_weak_sum_before_weak_final` accumulates 64-bit weights in an `int`.
  `VoteAggregation.MaxWeakSumIsSpareWeight` says for which totals the result is right, and that it is otherwise
  too large, so that no quorum is lost by it. The states `restricted` and `weak_final`, documented to mean that
  a strong quorum is ruled out, are then entered too late: `VoteAggregation.RestrictionMissed` is an example, and
  `VoteAggregation.DocumentedIff` says exactly when the state is the documented one.
- Some values pack and cannot be read back: a struct without members, or with all of them left out
  (`AbiLimits.NoFields`, `AbiLimits.OnlyExtensions`); a struct in array form that ends at an extension before a
  required field (`AbiLimits.DroppedByArray`); a last field that packs to no bytes (`AbiLimits.EmptyTail`).
  `AbiRoundTrip.UnpackPacked` and `AbiCanonical.RoundTrip` give the exact condition for every type and every value
  that meets no repeated member name; what becomes of repeated names is shown by `AbiLimits.RepeatedName`.
- A swap annotation that could be dropped, because the lists agree without it, is meant to be rejected, and is not
  always: `ReflectionSwaps.NeedlessSwapAccepted` and `ReflectionSwaps.InPlaceSwapAccepted` are examples.
  `ReflectionSwaps.RejectedIff` says exactly which droppable annotations are found: those on a field with no field
  or an unswapped one reflected right before it, and only swapped fields reflected later between the two in the class.
- Links may name permissions the account does not have while the protocol feature that forbids it is
  inactive: `Permissions.LooseLink`; `Permissions.LinkKeepsLinks` gives the exact condition.

## Model

| member | source | states |
|---|---|---|
| `Blocks.LibFacts` | libraries/chain/include/eosio/chain/finality_core.hpp:73-87 | on every well-formed chain the last irreversible block is at most the block whose strong certificate made it so, which is at most the latest claim |
| `Blocks.LibIncreases` | libraries/chain/finality_core.cpp:205-207 | irreversibility never moves backwards along a chain |
| `Blocks.LibWitness` | libraries/chain/finality_core.cpp:250-251 | a last irreversible block past genesis is the claim of a block that some block of the chain claims strongly |
| `FinalityCores.CreateCoreForGenesisBlock` | libraries/chain/finality_core.cpp:22-40 | the genesis core satisfies the seven invariants and is final at itself |
| `FinalityCores.CoreSizes` | libraries/chain/include/eosio/chain/finality_core.hpp:86-87 | invariants 8 and 9 follow from 1 to 7 |
| `FinalityCores.BlockReferenceHasNum` | libraries/chain/finality_core.cpp:131-150 | the reference found for a number is in range and has that number |
| `FinalityCores.NewNumbersInRange` | libraries/chain/finality_core.cpp:209-252 | the new link source and last final number are ordered and in range for any admissible claim |
| `FinalityCores.NextLinkMembers` | libraries/chain/finality_core.cpp:282-383 | the next core has exactly the links from the new link source on, and the new link |
| `FinalityCores.NextRefMembers` | libraries/chain/finality_core.cpp:282-383 | the next core has exactly the references from the new last final block on, and the new reference |
| `FinalityCores.NextKeepsInvariants` | libraries/chain/finality_core.cpp:282-383 | `next` keeps all invariants, advances the block number by one and takes over the claim |
| `PolicyPromotion.FirstReversibleIs` | libraries/chain/block_header_state.cpp:269-272 | the split found in the proposals is the one between irreversible and reversible ones, if and only if |
| `PolicyPromotion.FindFirstReversible` | libraries/chain/block_header_state.cpp:271 | the search loop returns that split |
| `PolicyPromotion.NextHeaderState.EvaluateForPromotion` | libraries/chain/block_header_state.cpp:237-297 | updating the header state in place computes the promotion function |
| `PolicyPromotion.NewPendingTarget` | libraries/chain/block_header_state.cpp:269-285 | a newly pending policy was proposed irreversibly, and among proposals in block order it is the newest such |
| `PolicyPromotion.PromoteKeepsOrder` | unittests/block_header_state_tests.cpp:58-308 | promotion keeps the order of blocks and generations from active over pending to proposed |
| `PolicyPromotion.StepKeepsOrder` | unittests/block_header_state_tests.cpp:58-308 | so does a block with its own proposal, whatever the advance of the last irreversible block |
| `PolicyPromotion.StepSimulates` | unittests/block_header_state_tests.cpp:135-274 | one step agrees with a machine that never discards a proposal |
| `PolicyPromotion.GarbageCollectionInvisible` | unittests/block_header_state_tests.cpp:135-274 | over every run, active and pending policies equal those of that machine |
| `HeaderStates.ReferenceIsAncestor` | libraries/chain/finality_core.cpp:131-150 | the core's reference for a number is the ancestor with that number |
| `HeaderStates.ExtendsIsAncestor` | libraries/chain/finality_core.cpp:104-116 | `extends` holds if and only if the block is an ancestor that is not older than the last irreversible one |
| `HeaderStates.QcTimestampIs` | libraries/chain/finality_core.cpp:93-102 | the latest certificate's timestamp is that of the claimed ancestor |
| `HeaderStates.NextCoreOf` | libraries/chain/finality_core.cpp:282-383 | the next core describes exactly the next block's chain |
| `HeaderStates.FinishNextDefined` | libraries/chain/block_header_state.cpp:329-405 | no index used for the next header state is out of range |
| `HeaderStates.StateOf` | libraries/chain/block_header_state.cpp:329-405 | the header state built block by block has the core its chain calls for |
| `PolicyHistory.StatePolicies` | libraries/chain/block_header_state.cpp:362-390 | the tracked policies are determined by the chain |
| `PolicyHistory.PoliciesOrdered` | unittests/block_header_state_tests.cpp:58-308 | in every block's state proposals are in block order with at most the first irreversible, and generations increase |
| `PolicyHistory.PolicyPersistence` | libraries/chain/block_header_state.cpp:237-297 | until finality passes a block, its descendants have its policies, except that its pending one may have become active |
| `PolicyHistory.ForkAgreement` | unittests/block_header_state_tests.cpp:310-451 | on every branch from a block with a pending policy, all blocks keep its active and pending policies until the active one changes to exactly the pending one |
| `PolicyHistory.BranchesAgree` | unittests/block_header_state_tests.cpp:310-451 | so on any two branches the first change of the active policy is the same, to the policy pending at the fork |
| `PolicyHistory.PendingHistory` | unittests/block_header_state_tests.cpp:370-387 | a pending policy was proposed at p and became pending at q with p <= LIB(q) < q |
| `PolicyHistory.ActiveHistory` | unittests/block_header_state_tests.cpp:370-387 | an active policy went through p <= LIB(q) < q <= LIB(r) < r |
| `PolicyRetrieval.RefsAreBlocks` | libraries/chain/finality_core.cpp:282-383 | every reference in a core is the one its block makes of itself, policy generations included |
| `PolicyRetrieval.AtMostOneActivation` | libraries/chain/block_header_state.cpp:391-405 | since the claimed block at most one policy was activated |
| `PolicyRetrieval.RetrievalIsExact` | libraries/chain/block_header_state.cpp:148-189 | for every block from the latest claim on, retrieval never hits its logic error and returns that block's own policies |
| `PolicyRetrieval.ClaimedActiveIs` | libraries/chain/block_header_state.cpp:391-405 | the extra policy kept in the header state is the one active at the claimed block |
| `Voting.Finalizer.DecideVote` | libraries/chain/finalizer.cpp:8-95 | the decision, its three checks and the updated safety information are those of the voting rule that `VotingHistory` describes on chains |
| `Voting.Finalizer.MaybeUpdateFsi` | libraries/chain/finalizer.cpp:118-127 | safety information moves forward or stays |
| `VotingHistory.DecideEffect` | libraries/chain/finalizer.cpp:8-95 | on chains and for any safety information: exactly when a vote is cast, exactly when it is strong, the three checks, and the safety information then |
| `VotingHistory.VoteKeepsHistory` | libraries/chain/finalizer.cpp:8-95 | over all histories: one vote per timestamp, strong votes vouch for one branch, weak votes are owed to an earlier vote elsewhere, later votes respect the lock; three fields summarise all of it |
| `VotingHistory.StrongIff` | libraries/chain/finalizer.cpp:64-95 | in every history a vote is strong if and only if every earlier vote newer than the claimed block is on the voted block's branch |
| `VotingHistory.VotesIff` | libraries/chain/finalizer.cpp:11-59 | with a history behind it, a finalizer votes if and only if the block is newer than every vote cast and claims a block newer than the lock or descends from it |
| `VotingHistory.InitialHistory` | libraries/chain/controller.cpp:1541-1553 | the default safety information starts such a history |
| `VotingHistory.EvidenceIsRedundant` | libraries/chain/finalizer.cpp:116-127 | evidence of one's own vote changes intact safety information not at all |
| `VotingHistory.EvidenceRecovers` | libraries/chain/finalizer.cpp:116-127 | safety information that fell behind is up to date with a strong vote seen in a certificate, if the vote claims something newer than the lock, if and only if no strong vote before it claimed anything newer still |
| `QuorumCertificates.VerifyVoteFormat` | libraries/chain/qc.cpp:83-117 | accepted if and only if there is one bit per finalizer and nobody votes both ways, with the exact reason otherwise |
| `QuorumCertificates.SumWeights` | libraries/chain/qc.cpp:124-133 | the loop computes the weight of the set bits |
| `QuorumCertificates.VerifyWeights` | libraries/chain/qc.cpp:119-149 | accepted if and only if the threshold is reached, with the kind of quorum missed otherwise |
| `QuorumCertificates.VerifyDualFinalizersVotes` | libraries/chain/qc.cpp:9-34 | accepted if and only if every finalizer in both policies voted the same in both |
| `QuorumCertificates.VerifyBasic` | libraries/chain/qc.cpp:49-66 | accepted if and only if the certificate is valid for the active and the pending policy; a signature for no pending policy, a missing one and differing votes are each refused for exactly that reason |
| `QuorumCertificates.QuorumsIntersect` | unittests/block_state_tests.cpp:310-441 | two quorums share weight of at least 2 * threshold - total |
| `QuorumCertificates.AcceptedSigsOverlap` | unittests/block_state_tests.cpp:310-441 | so do the signers of any two accepted signatures |
| `QuorumCertificates.HonestInBoth` | libraries/chain/webassembly/privileged.cpp:196-199 | within the fault bound two quorums share an honest finalizer |
| `QuorumCertificates.SignersAreQuorum` | libraries/chain/qc.cpp:119-149 | the keys behind an accepted signature are a quorum |
| `VoteAggregation.AggregatingQcSig.AddStrongVote` | libraries/chain/qc.cpp:250-275 | the whole new tally after a strong vote |
| `VoteAggregation.AggregatingQcSig.AddWeakVote` | libraries/chain/qc.cpp:278-307 | the whole new tally after a weak vote |
| `VoteAggregation.AggregatingQcSig.Add` | libraries/chain/qc.cpp:310-328 | a duplicate changes nothing |
| `VoteAggregation.AggregatingQcSig.SetReceivedQcSig` | libraries/chain/qc.cpp:373-380 | a received signature is replaced only by a stronger one |
| `VoteAggregation.AggregatingQcSig.GetBestQc` | libraries/chain/qc.cpp:348-371 | the best signature, computed in place |
| `VoteAggregation.Best` | libraries/chain/qc.cpp:331-371 | one is offered if and only if a quorum was aggregated or one was received, and it is strong if and only if either is |
| `VoteAggregation.FirstVoteCounts` | unittests/block_state_tests.cpp:53-140 | the recorded bits are each finalizer's first vote, for every sequence of votes that passed the key and signature checks |
| `VoteAggregation.CountSums` | libraries/chain/qc.cpp:250-307 | the running sums are the weights of the recorded bits, which are disjoint |
| `VoteAggregation.CountState` | libraries/chain/include/eosio/chain/qc.hpp:120-126 | in every run, for every bound not below the spare weight, the state is the one that the sums and the bound call for, unless a premature vote fixed it at weak |
| `VoteAggregation.QuorumReported` | libraries/chain/qc.cpp:278-307 | whatever the bound, a quorum is reported if and only if the weights reach it, and a strong one only if the strong weight does |
| `VoteAggregation.StrongQuorumMissed` | libraries/chain/qc.cpp:296-299 | an acceptable policy and votes for which a strong quorum is reached and never reported |
| `VoteAggregation.ExtractedIsQuorum` | libraries/chain/qc.cpp:331-346 | whatever the bound, what is extracted passes the format and weight checks |
| `VoteAggregation.MaxWeakSumBeforeWeakFinal` | libraries/chain/include/eosio/chain/finalizer_policy.hpp:45-53 | the result of accumulating in 32 bits |
| `VoteAggregation.MaxWeakSumIsSpareWeight` | libraries/chain/include/eosio/chain/finalizer_policy.hpp:45-53 | it is total - threshold if and only if the total is below 2^31 or within 2^31 of 2^64, and for an acceptable policy it is never less |
| `VoteAggregation.StrongMissedIff` | libraries/chain/qc.cpp:278-307 | with the bound as computed, for every acceptable policy and all votes: a strong quorum that is reached goes unreported if and only if the total survives 32 bits and a premature vote occurred |
| `VoteAggregation.DocumentedIff` | libraries/chain/include/eosio/chain/qc.hpp:120-126 | with the bound as computed, for every acceptable policy and all votes: the state is the documented one if and only if the weak weight is not between the spare weight and the bound, or after a premature vote if and only if a strong quorum is ruled out |
| `VoteAggregation.HeavyPolicy` | libraries/chain/include/eosio/chain/finalizer_policy.hpp:45-53 | an acceptable policy whose total does not survive 32 bits, and its bound |
| `VoteAggregation.RestrictionMissed` | libraries/chain/include/eosio/chain/qc.hpp:120-126 | one weak vote that rules out a strong quorum and leaves the state unrestricted |
| `DualAggregation.FindFinalizer` | libraries/chain/qc.cpp:446-447 | the search finds the first finalizer with the key |
| `DualAggregation.AggregatingQc.constructor` | libraries/chain/qc.cpp:223-235 | an empty tally for each policy, with its threshold and computed bound |
| `DualAggregation.AggregatingQc.AddTo` | libraries/chain/qc.cpp:444-465 | one policy's answer and tally |
| `DualAggregation.AggregatingQc.AggregateVote` | libraries/chain/qc.cpp:426-483 | the combined answer and the tallies, with or without a pending policy |
| `DualAggregation.FirstGenuineCounts` | unittests/block_state_tests.cpp:53-140 | whatever messages arrive, each finalizer is recorded exactly as its first genuine message votes |
| `DualAggregation.DualIsIndependent` | libraries/chain/qc.cpp:426-483 | aggregating for two policies together gives each the tally it would have alone |
| `DualAggregation.RecordsAlwaysAgree` | unittests/block_state_tests.cpp:892-978 | in every run a finalizer in both policies has the same record in both |
| `DualAggregation.AnswerIs` | unittests/block_state_tests.cpp:53-140 | the answer depends only on the key: unknown, duplicate, badly signed or counted everywhere it belongs |
| `DualAggregation.RefusedChangesNothing` | unittests/block_state_tests.cpp:53-140 | a refused vote leaves both tallies as they were |
| `OfferedCertificates.OfferedIff` | libraries/chain/qc.cpp:391-405 | a certificate is offered if and only if for each policy one was received or its threshold is reached |
| `OfferedCertificates.AggregatedAgree` | libraries/chain/qc.cpp:391-405 | without received signatures, finalizers in both policies appear alike if and only if both sides are equally strong or none of them voted weakly |
| `OfferedCertificates.OfferedQcIsValid` | libraries/chain/qc.cpp:391-405 | in every run, with any verified signatures received: `verify_basic` accepts what is offered if and only if every finalizer in both policies appears alike on both sides |
| `OfferedCertificates.AggregatedQcIsValid` | libraries/chain/qc.cpp:391-405 | in every run without received signatures: if and only if both sides are equally strong or no dual finalizer voted weakly |
| `OfferedCertificates.RejectedOffer` | libraries/chain/qc.cpp:331-346 | acceptable policies and votes with an offered certificate that the dual check rejects |
| `OfferedCertificates.RejectedMix` | libraries/chain/qc.cpp:391-405 | a valid certificate was received, and what is offered after a further vote is rejected |
| `Network.ClaimInNet` | libraries/chain/controller.cpp:4150-4198 | what a block claims is known and certified, or genesis |
| `Network.QcGrows` | libraries/chain/qc.cpp:119-149 | endorsements are never lost, and strong ones count as weak |
| `Safety.CommonVoter` | libraries/chain/webassembly/privileged.cpp:196-199 | two certified blocks under one policy have a common honest voter |
| `Safety.SharedPolicy` | libraries/chain/block_header_state.cpp:237-297 | past a fork that finality has not passed, one policy governs both branches |
| `Safety.VotedBefore` | libraries/chain/finalizer.cpp:64-95 | a later strong vote vouches for an earlier vote's branch |
| `Safety.VotedAfter` | libraries/chain/finalizer.cpp:28-59 | a vote after a strong vote respects the lock |
| `Safety.Agreement` | libraries/chain/finality_core.cpp:250-251 | once a block has a strong certificate, every certified block not older than its claim descends from that claim |
| `Safety.FinalityIsConsistent` | libraries/chain/finality_core.cpp:250-251 | what any two blocks make irreversible lies on one chain |
| `Safety.FinalityIsRespected` | libraries/chain/finality_core.cpp:250-251 | a block whose claim is not older than an irreversible block descends from it |
| `Runs.CheckClaim` | libraries/chain/controller.cpp:4150-4198 | a claim is accepted if and only if it is no weaker than the parent's and a new one comes with a matching certificate |
| `Runs.VerifiedQcHolds` | libraries/chain/block_state.cpp:280-284 | a verified certificate is backed by enough votes under the certified block's own policies |
| `Runs.NewClaimHolds` | libraries/chain/controller.cpp:4322-4363 | an accepted block's claim is justified |
| `Runs.CastKeepsInv` | libraries/chain/finalizer.cpp:130-150 | voting keeps the network invariant |
| `Runs.EvidenceChangesNothing` | libraries/chain/finalizer.cpp:162-190 | evidence from certificates leaves the whole network as it is |
| `Runs.StepKeepsInv` | libraries/chain/controller.cpp:4322-4363 | every step keeps the network invariant |
| `Runs.RunKeepsInv` | libraries/chain/controller.cpp:4322-4363 | it holds in every state of every run |
| `Runs.NoConflictingFinality` | libraries/chain/finality_core.cpp:250-251 | in every run within the fault bound, no two blocks make conflicting blocks irreversible, then or later |
| `Progress.VotesStrongly` | libraries/chain/finalizer.cpp:28-59 | a finalizer whose last vote is not newer than the claimed block, and whose lock is older or extended, votes strongly |
| `Progress.FinalityAdvances` | libraries/chain/finality_core.cpp:250-251 | for every height there is a run within the fault bound that makes a block of that height irreversible, with one change of the active policy for every four blocks |
| `Liveness.CertifiedOnce` | libraries/chain/webassembly/privileged.cpp:196-199 | within the fault bound two certified blocks of one timestamp are the same block |
| `Liveness.FinalityCanAdvance` | libraries/chain/finalizer.cpp:8-95 | from every state that satisfies the invariant, with honest quorums, a block that did not exist can be made irreversible |
| `Liveness.EveryRunCanGoOn` | libraries/chain/finality_core.cpp:250-251 | every run within the fault bound whose honest finalizers reach every threshold in force can be continued to make irreversible a new block, on top of everything irreversible |
| `ActionOrder.OrderStable` | libraries/chain/apply_context.cpp:218-240 | traces added elsewhere do not change the order below an action |
| `ActionRuns.EffectsKeepContext` | libraries/chain/apply_context.cpp:277-404 | a context lists exactly the traces that hang below its action |
| `ActionRuns.AncestorIsUnnotified` | libraries/chain/apply_context.cpp:277-404 | the recorded closest unnotified ancestor is the nearest action on the creator chain that is not a notification |
| `ActionRuns.FinishKeepsBooks` | libraries/chain/apply_context.cpp:60-190 | receipts stay consecutive and only the thrower has an exception |
| `ActionRuns.NotifiedRun` | libraries/chain/apply_context.cpp:218-226 | the notification loop runs the action and all its notifications in order, those added on the way included |
| `ActionTheorems.ActionRun` | libraries/chain/transaction_context.cpp:801-811 | applying an action runs it and all that follows from it in the recursive order |
| `ActionTheorems.TransactionRun` | unittests/api_tests.cpp:2730-2857 | in every run the trace columns are consistent, ancestors are those of the creator chain and receipts consecutive, and without a throw the order is the recursive one recomputed from the columns |
| `ActionTheorems.SuccessExecutesAll` | unittests/api_tests.cpp:2730-2857 | without a throw every scheduled action has a receipt and none an exception |
| `ActionFailures.FailureIsPrefix` | unittests/api_tests.cpp:2864-3208 | a failing run completed exactly a proper prefix of the failure-free order and threw at the next action, the same actions with the same sequence numbers |
| `ActionFailures.DepthIsPrefix` | libraries/chain/apply_context.cpp:218-240 | a run stopped by the depth limit has no exception and completed a prefix of the run under a larger limit, with the same receipts |
| `ActionRequests.EffectsTell` | libraries/chain/apply_context.cpp:277-404 | running requests adds exactly what they ask for, up to the first impossible one, and throws if and only if there is one |
| `ActionRequests.KnownIs` | libraries/chain/apply_context.cpp:270-284 | the receivers a context lists are exactly those the trace shows as notified before |
| `ActionRequests.RequestsHonoured` | libraries/chain/apply_context.cpp:60-404 | in every run the first traces are the transaction's actions, and the traces an execution created are, in order, what its code asked for without notifications to those who know; it completes if and only if its receiver exists, nothing it asked for is impossible and its code does not throw |
| `ActionRequests.DepthIff` | libraries/chain/apply_context.cpp:228-231 | nothing runs nested deeper than the limit, and unless something throws the limit stops a run if and only if an inline action is nested deeper |
| `ActionContexts.TransactionContext.ScheduleAction` | libraries/chain/transaction_context.cpp:755-799 | the new trace and its ordinal |
| `ActionContexts.TransactionContext.ExecuteAction` | libraries/chain/transaction_context.cpp:801-811 | executing an action with a fresh context computes the specified trace |
| `ActionContexts.TransactionContext.Exec` | libraries/chain/transaction_context.cpp:360-396 | the whole transaction computes the specified trace |
| `ActionContexts.ApplyContext.Request` | libraries/chain/apply_context.cpp:277-404 | one request computes the specified state, whose traces are those asked for |
| `ActionContexts.ApplyContext.ExecOne` | libraries/chain/apply_context.cpp:60-190 | one execution, native handler included, computes the specified state |
| `ActionContexts.ApplyContext.RunReceivers` | libraries/chain/apply_context.cpp:218-226 | the growing loop terminates: only its first turn can make accounts exist, and each later turn notifies another existing one |
| `ActionContexts.ApplyContext.RunInlines` | libraries/chain/apply_context.cpp:228-240 | the depth limit, then context-free and other inline actions |
| `ActionContexts.ApplyContext.Exec` | libraries/chain/apply_context.cpp:218-240 | the notifications, the depth limit, then context-free and other inline actions |
| `AbiNumbers.IntIff` | libraries/libfc/include/fc/io/raw.hpp:376-380 | an integer packs to exactly the bytes whose sum of `b[i] * 256^i` it is |
| `AbiNumbers.SizeIff` | libraries/libfc/include/fc/io/raw.hpp:226-234 | a size packs to exactly its shortest form in groups of seven bits |
| `AbiNumbers.UnpackIntIff` | libraries/libfc/include/fc/io/datastream.hpp:36-43 | for all bytes: an integer is read if and only if there are enough bytes, and it is their value |
| `AbiNumbers.UnpackSizeIff` | libraries/libfc/include/fc/io/raw.hpp:246-254 | for all bytes: a size is read if and only if they start with at most five groups, and it is their value cut off at 32 bits |
| `AbiFormat.IndexIff` | libraries/chain/abi_serializer.cpp:558-563 | the alternative found is the first with the tag |
| `AbiPacking.PackIff` | libraries/chain/abi_serializer.cpp:511-624 | for every type and value: packing gives `b` if and only if `b` is the encoding of the value in the wire format, and is refused if and only if there is none |
| `AbiReading.ObjectIsLayout` | libraries/chain/abi_serializer.cpp:367-412 | a struct is read as the fields of its bases, then its own, one after the other |
| `AbiReading.MembersAre` | libraries/chain/abi_serializer.cpp:397-410 | a member is found and replaced where its name first occurs, and a new one comes last |
| `AbiUnpacking.UnpackIff` | libraries/chain/abi_serializer.cpp:414-478 | for all bytes: a value is read and the rest left if and only if the bytes before it decode to the value, with sizes that need not be minimal, any nonzero flag for what is not built in, and extensions missing where the bytes end |
| `AbiCuts.CutReads` | libraries/chain/abi_serializer.cpp:367-478 | for every packed value and every cut of its bytes: whether it is read, and what of the value is left |
| `AbiIncomplete.CutFails` | unittests/abi_tests.cpp:3223-3270 | without extensions in the ABI, packed bytes cut short anywhere are refused |
| `AbiIncomplete.WholeIff` | libraries/chain/abi_serializer.cpp:367-478 | nothing is lost of complete bytes if and only if the value is readable |
| `AbiIncomplete.WhichCutsRead` | libraries/chain/abi_serializer.cpp:378-393 | where everything can be read back: a cut of a struct is read if and only if the cut of the field it falls into is, or it falls between fields, and only extensions follow; and as the members before it and what that cut gives |
| `AbiRoundTrip.SizeRoundTrip` | libraries/libfc/include/fc/io/raw.hpp:226-254 | 32-bit sizes survive the variable-length form |
| `AbiRoundTrip.UnpackPacked` | unittests/abi_tests.cpp:55-98 | for every type and every value that packs and meets no repeated member name: unpacking fails or leaves exactly the following bytes, and gives the canonical value if and only if the value is readable |
| `AbiRoundTrip.ObjectUnpack` | libraries/chain/abi_serializer.cpp:367-412 | the same for structs with bases |
| `AbiRoundTrip.ArrayUnpack` | libraries/chain/abi_serializer.cpp:600-618 | the same for structs given as arrays |
| `AbiCanonical.CanonPacks` | unittests/abi_tests.cpp:55-98 | the canonical form of a readable value packs to the same bytes |
| `AbiCanonical.RoundTrip` | unittests/abi_tests.cpp:55-98 | unpacking gives the canonical value and packing that gives the same bytes again, if and only if the value is readable |
| `AbiLimits.OmissionsAreTrailing` | unittests/abi_tests.cpp:2777-2837 | only a trailing run of extensions can be left out |
| `AbiLimits.PacksIff` | libraries/chain/abi_serializer.cpp:577-599 | fields pack if and only if some number of leading ones is kept and packs, and the others are extensions left out |
| `AbiLimits.NoFields` | libraries/chain/abi_serializer.cpp:473-477 | a struct without members packs to no bytes, and no bytes unpack to it |
| `AbiLimits.OnlyExtensions` | libraries/chain/abi_serializer.cpp:473-477 | nor can a struct of extensions, all left out, be unpacked |
| `AbiLimits.DroppedByArray` | libraries/chain/abi_serializer.cpp:600-618 | the array form drops a required field after a missing extension without an error, and the result cannot be unpacked |
| `AbiLimits.EmptyTail` | libraries/chain/abi_serializer.cpp:383-393 | a last field without bytes is refused when unpacking, or lost if it is an extension |
| `AbiLimits.RepeatedName` | libraries/chain/abi_serializer.cpp:378-411 | of two members with the same name only the last is read back |
| `AbiLimits.PackedNonEmpty` | libraries/chain/abi_serializer.cpp:511-624 | in an ABI with sized fields and required members every packed field takes at least one byte |
| `AbiLimits.AllReadable` | libraries/chain/abi_serializer.cpp:367-412 | in such an ABI every value that packs is readable |
| `AbiLimits.AllSound` | libraries/chain/abi_serializer.cpp:378-411 | in an ABI whose structs have distinct member names no value meets a repeated one |
| `AbiLimits.GoodRoundTrip` | unittests/abi_tests.cpp:55-98 | with both, the round-trip law holds for all values of the ABI |
| `AbiStreams.Packer.Size` | libraries/libfc/include/fc/io/raw.hpp:226-234 | the loop writes the variable-length form |
| `AbiStreams.Packer.Value` | libraries/chain/abi_serializer.cpp:511-624 | succeeds if and only if the value packs, and then appends its bytes |
| `AbiStreams.Packer.Fields` | libraries/chain/abi_serializer.cpp:577-599 | the loop with its left-out flag does the same for fields |
| `AbiStreams.Unpacker.Size` | libraries/libfc/include/fc/io/raw.hpp:246-254 | the loop over at most five groups computes the size and consumes them |
| `AbiStreams.Unpacker.Value` | libraries/chain/abi_serializer.cpp:414-478 | fails if and only if nothing can be read, and consumes exactly the bytes of the value otherwise |
| `AbiStreams.Unpacker.Fields` | libraries/chain/abi_serializer.cpp:378-411 | the loop over fields does the same |
| `ReflectionMatcher.ReflectClass.AddField` | tools/validate_reflection.py:533-537 | a repeated field is refused |
| `ReflectionMatcher.ReflectClass.AddIgnore` | tools/validate_reflection.py:510-522 | ignored names stay distinct, and apart from swapped ones |
| `ReflectionMatcher.ReflectClass.AddSwap` | tools/validate_reflection.py:523-526 | swapped names likewise |
| `ReflectionMatcher.ReflectClass.IgnoreId` | tools/validate_reflection.py:623-628 | the identifier is ignored unless it is reflected; names stay apart if and only if it was not swapped as well |
| `ReflectionMatcher.TurnTracks` | tools/validate_reflection.py:640-678 | one turn decides by the lists as by the two indices, and the lists go on holding exactly what the indices say |
| `ReflectionMatcher.TurnStuck` | tools/validate_reflection.py:640-678 | a field that is both ignored and swapped is never used up |
| `ReflectionMatcher.FailRejects` | tools/validate_reflection.py:640-678 | a rejection in the main loop is justified |
| `ReflectionMatcher.StepKeepsInv` | tools/validate_reflection.py:640-678 | each turn keeps the prefix agreement and never passes a swap in order |
| `ReflectionMatcher.UseUp` | tools/validate_reflection.py:682-690 | the closing loop collects exactly the unusable fields |
| `ReflectionMatcher.CloseMatch` | tools/validate_reflection.py:681-694 | the closing checks accept if and only if the lists are acceptable |
| `ReflectionMatcher.MatchFields` | tools/validate_reflection.py:631-694 | for all lists without repeats: accepts if and only if swapped names are in both lists, ignored ones only in the class, the rest agrees in order, and no swap is in order; takes at most one turn for each field of either list |
| `ReflectionMatcher.ReflectsTheRest` | tools/validate_reflection.py:14-24 | an accepted reflection lists exactly the class fields that are not ignored |
| `ReflectionMatcher.WithoutSwaps` | tools/validate_reflection.py:14-24 | without swaps: the reflected list is the class list minus the ignored names, if and only if |
| `ReflectionMatcher.MovedFieldAccepted` | tools/validate_reflection.py:19-24 | a field moved anywhere is accepted when annotated |
| `ReflectionMatcher.AdjacentExchangeRejected` | tools/validate_reflection.py:19-24 | annotating both fields of an adjacent exchange is rejected |
| `ReflectionSwaps.NeedlessSwapAccepted` | tools/validate_reflection.py:640-678 | an annotation that could be dropped, after an ignored field, and is accepted |
| `ReflectionSwaps.InPlaceSwapAccepted` | tools/validate_reflection.py:640-678 | an annotation that could be dropped, after a swapped field, and is accepted |
| `ReflectionSwaps.NeedlessSwapRejected` | tools/validate_reflection.py:640-678 | an annotation after an ignored and an unswapped field, which is found |
| `ReflectionSwaps.DroppableIff` | tools/validate_reflection.py:14-24 | an annotation can be dropped if and only if the same unswapped fields stand before the field in both lists |
| `ReflectionSwaps.InOrderDroppable` | tools/validate_reflection.py:640-678 | every annotation rejected as in order can be dropped |
| `ReflectionSwaps.NoneDroppable` | tools/validate_reflection.py:14-24 | lists without an annotation that could be dropped are accepted if and only if they agree |
| `ReflectionSwaps.RejectedIff` | tools/validate_reflection.py:640-678 | agreeing lists are rejected if and only if some annotation that could be dropped is plainly in place |
| `ScopeReader.PairsAreMatches` | tools/validate_reflection.py:110-164 | the scopes of a text are exactly its closed braces with the brace that closes each by depth counting |
| `ScopeReader.SpansNested` | tools/validate_reflection.py:110-164 | scopes next to each other are in order, and children lie inside their scope |
| `ScopeReader.SkipIsHarmless` | tools/validate_reflection.py:138-149 | skipping initializers never changes which scope is entered |
| `ScopeReader.NextScopeIs` | tools/validate_reflection.py:151-164 | the next scope's closing brace decides how reading goes on |
| `ScopeReader.Scope.NextScope` | tools/validate_reflection.py:151-164 | succeeds if and only if the next scope is closed, and returns its whole tree |
| `ScopeReader.Scope.ReadChildren` | tools/validate_reflection.py:110-118 | the loop reads exactly the scopes up to the closing brace, and fails if and only if there is no such brace and an opening one before the last character is never closed |
| `ScopeReader.Scope.Read` | tools/validate_reflection.py:110-126 | succeeds if and only if the brace is closed, and then the end is the matching brace and the children its scopes; the whole text is read if and only if some closing brace is unopened or every opening brace before the last character is closed |
| `Permissions.NewAccountKeepsTree` | libraries/chain/eosio_contract.cpp:68-129 | a new account keeps the tree, all parents and every sound link |
| `Permissions.UpdateKeepsTree` | libraries/chain/eosio_contract.cpp:258-329 | creating or changing a permission keeps the tree, all parents and every sound link |
| `Permissions.DeleteKeepsTree` | libraries/chain/eosio_contract.cpp:331-366 | deleting keeps the tree, owner and active, all parents and every sound link |
| `Permissions.LinkKeepsLinks` | libraries/chain/eosio_contract.cpp:368-428 | a new link is sound if and only if the permission is the account's own or the marker, and other links are as before |
| `Permissions.LooseLink` | libraries/chain/eosio_contract.cpp:386-398 | a link to a permission the account does not have |
| `Permissions.RunKeeps` | unittests/auth_tests.cpp:100-232 | over every sequence of operations, with or without the feature: trees, owner and active present, parents unchanged, and every sound link stays sound unless a loose one replaces it |
| `Permissions.StrictRunKeepsLinks` | libraries/chain/eosio_contract.cpp:386-398 | once the feature is active no sound link becomes loose, whatever links were made before |
| `Permissions.OwnerIsRoot` | unittests/auth_tests.cpp:100-232 | every permission hangs below its account's owner permission |
| `Permissions.SufficiencyGoesUp` | libraries/chain/authorization_manager.cpp:278-327 | with sound links for the action the permission it needs exists, and what is above a sufficient permission is sufficient |
| `PermissionEffects.IndexIsTable` | libraries/chain/authorization_manager.cpp:266-276 | the index finds exactly the account's permission of that name |
| `PermissionEffects.UpdateIff` | libraries/chain/eosio_contract.cpp:258-329 | an update is accepted if and only if account, name and authority are proper, the parent is there and it is the present parent if the permission exists |
| `PermissionEffects.UpdateIs` | libraries/chain/eosio_contract.cpp:300-329 | it leaves exactly that authority under exactly that parent, in the old permission or a fresh one, and nothing else changes |
| `PermissionEffects.NewAccountIs` | libraries/chain/eosio_contract.cpp:68-129 | a new account has the owner authority at its root and the active one right below, and nothing else changes |
| `PermissionEffects.DeleteIff` | libraries/chain/eosio_contract.cpp:331-366 | a deletion is accepted if and only if the permission exists, is neither owner nor active, nothing links to it and nothing hangs under it |
| `PermissionEffects.DeleteIs` | libraries/chain/eosio_contract.cpp:331-366 | it removes that permission and nothing else |
| `PermissionEffects.CreateThenDelete` | libraries/chain/eosio_contract.cpp:258-366 | deleting a permission just created is accepted unless a link to its name was there before, and restores all but the identifiers used up |
| `PermissionEffects.LinkIs` | libraries/chain/eosio_contract.cpp:368-428 | exactly which links are accepted; that link is stored and nothing else changes |
| `PermissionEffects.UnlinkIs` | libraries/chain/eosio_contract.cpp:430-454 | exactly the existing links can be removed, and nothing else changes |
| `PermissionEffects.LinkThenUnlink` | libraries/chain/eosio_contract.cpp:368-454 | unlinking after linking restores everything if and only if the link was new |
| `PermissionEffects.LinkDecides` | libraries/chain/authorization_manager.cpp:278-327 | the link for the action decides over the one for its contract; without either, active is needed |
| `PermissionEffects.LinkChanges` | libraries/chain/authorization_manager.cpp:278-327 | a new link changes what is needed for its action, or for the actions of its contract without their own, and for nothing else |
| `PermissionEffects.UnlinkFallsBack` | libraries/chain/authorization_manager.cpp:278-299 | an action that loses its link falls back to its contract's |
| `Permissions.AuthorizationManager.CreateAccount` | libraries/chain/eosio_contract.cpp:68-129 | the checks in order; a refused account changes nothing |
| `Permissions.AuthorizationManager.CreatePermission` | libraries/chain/authorization_manager.cpp:146-180 | the new permission under a fresh identifier |
| `Permissions.AuthorizationManager.UpdateAuthority` | libraries/chain/eosio_contract.cpp:258-329 | the checks in order with their errors; a refused update changes nothing |
| `Permissions.AuthorizationManager.DeleteAuthority` | libraries/chain/eosio_contract.cpp:331-366 | the checks in order with their errors; a refused deletion changes nothing |
| `Permissions.AuthorizationManager.LinkAuthority` | libraries/chain/eosio_contract.cpp:368-428 | the checks in order with their errors; a refused link changes nothing |
| `Permissions.AuthorizationManager.UnlinkAuthority` | libraries/chain/eosio_contract.cpp:430-454 | removes exactly that link |
| `Permissions.AuthorizationManager.Satisfies` | libraries/chain/include/eosio/chain/permission_object.hpp:47-71 | the walk returns true if and only if the permission is the other or one of its ancestors |
| `OrderedDiff.Apply` | libraries/libfc/include/fc/container/ordered_diff.hpp:112-141 | the two loops compute the specified result, failed assertions included |
| `OrderedDiff.RemoveIff` | libraries/libfc/include/fc/container/ordered_diff.hpp:117-128 | removing is defined exactly for increasing positions in range, and leaves the elements at the others |
| `OrderedDiff.InsertIff` | libraries/libfc/include/fc/container/ordered_diff.hpp:130-139 | inserting is defined exactly for increasing indices that can be reached, and puts every value at its index |
| `OrderedDiff.ApplyIff` | libraries/libfc/include/fc/container/ordered_diff.hpp:112-141 | a difference gives `r` if and only if it fits the sequence and `r` has the inserted values at their indices and the elements not removed at the others |
| `OrderedDiff.Compute` | libraries/libfc/include/fc/container/ordered_diff.hpp:47-107 | applying the computed difference to the source gives the target, for all sequences whose sizes fit; equal sequences give no changes, and adding, removing or replacing one element gives exactly that change |

## Left out

- Block numbers, timestamps, weights and sequence numbers are unbounded; 32- and 64-bit wrap-around is modelled only in `MaxWeakSumBeforeWeakFinal` and the variable-length sizes.
- The transition from legacy blocks, proposer policies, protocol features in headers, finality trees and snapshots.
- VotingHistory.InitialHistory: a default lock on a block after the genesis block, from a transition or a snapshot, is not modelled; in `Runs` every honest finalizer starts locked on the genesis block.
- The file that keeps safety information between restarts, and what happens when it is lost or copied.
- Liveness: `Liveness` shows that a progressing continuation always exists, not that every fair run makes progress.
- Hashing, aggregate signatures and key validation; a certificate's signature check is the existence of the votes.
- Concurrency of vote aggregation: votes arrive in some order, one at a time.
- QuorumCertificates.VerifyDualFinalizersVotes: a bit beyond the end of a bitset reads as not set, because the format of the pending signature is checked only afterwards.
- What contracts and native handlers compute beyond the accounts they create, resource limits, deadlines, authorization of inline actions beyond the existence of their account, deferred and read-only transactions, synchronous calls.
- ActionContexts.TransactionContext.Exec: delayed transactions, and the retry after an interrupt, are not modelled.
- ActionContexts.ApplyContext.Request: an inline action that fails its authorization check is a behaviour that throws.
- Type aliases, and built-in types other than fixed-width unsigned integers, strings and byte arrays; floating point and text formats.
- AbiRoundTrip.UnpackPacked: needs member names to be distinct within each struct the value meets and its bases, and at most 2^32 alternatives in each variant it meets; nesting is bounded by a depth that is universally quantified, not by the source's own counters and time limits, and arrays of 2^32 or more items of a type that is not built in are refused.
- AbiCanonical.CanonPacks: needs the same.
- AbiCanonical.RoundTrip: needs the same.
- AbiCuts.CutReads: needs at most 2^32 alternatives in each variant, as a serialized ABI has; bytes after a value from which extensions are missing are not considered.
- AbiIncomplete.CutFails: needs the same.
- AbiIncomplete.WhichCutsRead: is about ABIs in which every packed value can be read back; for others `AbiCuts.CutReads` says what is read.
- Regular expressions that find class names and fields, comment stripping, and name lookup in the reflection validator.
- PermissionEffects.NewAccountIs: whether the account's name and authorities are acceptable is a parameter.
- PermissionEffects.LinkDecides: the native actions that cannot be linked are not told apart.
- Authorities themselves (keys, weights, waits), their validation, and which declared authorization an `updateauth`, `deleteauth`, `linkauth` or `unlinkauth` needs.
