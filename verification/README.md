# Verified model of the Bloch proof-of-stake chain and its release tooling

A Dafny 4.11 model of the parts of the repository in which a mistake would fork
the chain, slash an honest validator or let a release through that should not
pass. `dafny verify dfyconfig.toml` checks the whole project.

* **Fork choice** (`Walks`, `ForkChoice`, `ForkChoiceStore`, `Votes`,
  `ForkChoiceCycles`, `ForkChoiceLimits`): the linear LMD-GHOST head refines the
  quadratic reference; when exactly a validator is barred; when exactly a
  corrupt parent map makes the two heads differ.
* **Finality** (`Finality`, `FinalityGadget`, `FinalitySafety`,
  `AccountableSafety`, `FinalityLimits`, `FinalitySplit`, `FinalityRecovery`,
  `FinalityRegimes`, `HandoffSafety`, `FinalityHandoff`, `FinalityLeak`,
  `FinalityPace`, `FinalitySets`): the epoch fold with its leak ledger, to the unit and over a
  whole stall, and its frozen validator set, safety over all runs, accountable safety
  between branches, when exactly two sides come to finalize in conflict before
  the recovery gate, past it and under the frozen set, and which sets two
  branches must have in common to be held to account.
* **Slashing protection** (`SlashingProtection`, `ProtectedFinality`): no run of
  signing, failing, crashing, restarting and rolling back releases a slashable
  pair, which rollbacks exactly are safe, and what that buys finality.
* **Dependency guard** (`DependencyGuard`, `DependencyGraph`): the reader of the
  dependency listing is exact for every graph, and inverts the printer.
* **Partition harness** (`Relay`, `RelayMesh`, `Verdicts`, `FinalityProgress`,
  `FinalityStretch`): the relay's accept thread against `cut` and `heal` in every
  interleaving, the mesh, and the verdicts read off the logs.
* **Flag day** (`SourceConstants`, `Arming`, `ArmingRuns`, `RewriteConstants`,
  `Clocks`): the arming tool over whole runs with a crash between its two writes.
* **Text guards** (`StripComments`, `TestTokens`, `ConstTable`, `CommentClaims`)
  and the **restart projection** (`RestartCost`).

`Basics`, `Options` and `Sums` are shared. Where the source updates an object or fills a
map in a loop, the model is a class or a method with a loop, proved against a
specification function; the interleavings of the relay, the runs of the signer
and the runs of the arming tool are state machines over values.

## Where the code and its documentation differ

The model follows the code; each difference is a lemma with a concrete input,
beside the exact condition.

* `forkchoice.rs` says cycles of parents cannot make the two heads differ
  (lines 205-216). `ForkChoiceLimits.HeadsDifferOnCycle` gives a parent map on
  which they do; `ForkChoiceCycles.AgreesExactly` says exactly on which maps.
* `Relay` says `cut` resets every live connection (lines 334-336).
  `Relay.NotEveryConnectionIsReset` reaches a state in which it need not;
  `Relay.CutLeavesOneExactly` says exactly in which, and
  `RelayMesh.CutSeparatesExactly` when the two halves of a mesh come apart.
* `finality_progress` speaks of any stretch of four epochs (lines 789-793) but
  compares neighbouring samples. `FinalityStretch.StretchGoesUnnoticed` and
  `DoubleSampleGoesUnnoticed` are accepted runs that are stuck;
  `FinalityStretch.RisingExactly` says for which samples of which schedules the
  promise holds.
* `finality.rs` says every branch of a split shares the frozen set and none can
  change it without finalizing (lines 87-95). Once one branch has finalized and
  handed its set over and the other has not, both can finalize in conflict with
  one roster and without an offence (`FinalityHandoff.HandoffCanConflict`).
  `FinalityHandoff.AccountableExactly` says for which pairs of sets that is so.
* `RelayMesh` gives distinct ports only to meshes of at most 16 nodes
  (`RelayMesh.PortsDistinct`), and `heal_between` restores only relays that were
  up (`RelayMesh.Mesh.CutThenHeal`).
* Without an anchor a restored data dir can sign twice
  (`SlashingProtection.RollbackWithoutAnchor`); `RollbackExactly` says for which
  records.
* The signing record forgets a mark equal to its sentinel
  (`SlashingProtection.SentinelSlotIsForgotten`); `RecordRoundTrip` is the exact
  condition.

## Model

| member | source | states |
|---|---|---|
| ForkChoice.HandedIsBacking | crates/bloch-pos-committee/src/forkchoice.rs:186-196 | once every child of a block has handed its weight up, the block holds the stake of exactly the validators whose latest vote reaches it |
| ForkChoice.HandUp | crates/bloch-pos-committee/src/forkchoice.rs:329-344 | handing an acyclic block to its parent adds each vote there exactly once, so no stake is lost or counted twice |
| ForkChoice.AcyclicAreDone | crates/bloch-pos-committee/src/forkchoice.rs:205-216 | what the leaves-first loop never processes lies on a cycle of parents |
| ForkChoice.PickBest | crates/bloch-pos-committee/src/forkchoice.rs:268-287 | the chosen sibling is beaten by none: weight, then the earlier slot where slots are given, then the larger root |
| ForkChoice.BestExactly | crates/bloch-pos-committee/src/forkchoice.rs:268-284 | the winner among siblings is the heaviest, of the heaviest the one of the earliest slot where slots are given, a block without a slot counting as the latest, and of those the largest root |
| ForkChoice.HeadIsReferenceHead | crates/bloch-pos-committee/src/forkchoice.rs:184-216 | for every vote set and every children map, also one that disagrees with the parents, the fast fork choice and the quadratic reference return the same head, as long as no block listed below the justified one lies on a cycle of parents |
| ForkChoice.ConsistentIsOffCycles | crates/bloch-pos-committee/src/forkchoice.rs:205-216 | a children map that agrees with the parents lists no block on a cycle below one that is on none |
| ForkChoiceStore.IsDescendantOrSelf | crates/bloch-pos-committee/src/forkchoice.rs:399-419 | the bounded walk decides plain reachability: its step limit never cuts a walk short |
| ForkChoiceStore.SubtreeWeights | crates/bloch-pos-committee/src/forkchoice.rs:302-347 | the one-pass accumulation ends with the reference weight of every block outside a cycle |
| ForkChoiceStore.Head | crates/bloch-pos-committee/src/forkchoice.rs:245-291 | the bounded descent returns the head the unbounded one would; where the reference returns a head it returns that one exactly when the unbounded descent does, and always when nothing listed below lies on a cycle |
| ForkChoiceStore.BoundIsEnough | crates/bloch-pos-committee/src/forkchoice.rs:254-263 | the level bound never decides: the bounded descent ends on a childless block if and only if the unbounded one returns it |
| ForkChoiceStore.Store.Observe | crates/bloch-pos-committee/src/forkchoice.rs:124-143 | one record per validator changes, by the rule whose exact consequence is `Votes.BarredExactly` |
| ForkChoiceStore.Store.WeightOf | crates/bloch-pos-committee/src/forkchoice.rs:151-159 | the walk over all latest votes sums exactly the stake behind the block and its descendants |
| ForkChoiceStore.Store.HeadFrom | crates/bloch-pos-committee/src/forkchoice.rs:223-243 | the same over the store's own votes and stakes, for any trees the caller passes |
| Votes.BarredExactly | crates/bloch-pos-committee/src/forkchoice.rs:12-25 | a validator is barred if and only if two of its votes for one slot conflict and no later vote came between them |
| Votes.OneSlotAnyOrder | crates/bloch-pos-committee/src/forkchoice.rs:107-113 | votes for one slot are judged the same in every order: barred exactly when two differ |
| Votes.SixOrders | crates/bloch-pos-committee/src/forkchoice.rs:16-20 | of the six orders of a conflicting pair and a later vote, exactly the two documented ones bar the validator |
| ForkChoiceCycles.OneCycleChild | crates/bloch-pos-committee/src/forkchoice.rs:205-216 | a block of a parent cycle has exactly one child on it |
| ForkChoiceCycles.Agrees | crates/bloch-pos-committee/src/forkchoice.rs:205-216 | without two tie-winning exits two steps apart, whatever head the reference returns the fast fork choice returns too, even from inside a cycle |
| ForkChoiceCycles.Differs | crates/bloch-pos-committee/src/forkchoice.rs:205-216 | with two such exits a single vote makes the reference return a head the fast fork choice does not |
| ForkChoiceCycles.AgreesExactly | crates/bloch-pos-committee/src/forkchoice.rs:205-216 | the documented claim that cycles cannot make the two disagree holds for all votes if and only if the cycle through the starting block has no two tie-winning exits at least two steps apart |
| ForkChoiceCycles.BoundedAgreesExactly | crates/bloch-pos-committee/src/forkchoice.rs:205-216 | the same for the bounded descent the node runs: it returns the reference's head for all votes on exactly those maps |
| ForkChoiceLimits.HeadsDifferOnCycle | crates/bloch-pos-committee/src/forkchoice.rs:205-216 | a concrete parent map, one vote: the reference returns block 4 and the fast fork choice block 3 |
| Finality.OneQuorum | crates/bloch-pos-committee/src/finality.rs:55-63 | two different roots never both hold two thirds of one total |
| FinalityGadget.CollectVotes | crates/bloch-pos-committee/src/finality.rs:476-533 | the votes kept are the first of each member for the target epoch, and the struck-out members are exactly those that cast two different ones |
| FinalityGadget.TallyVotes | crates/bloch-pos-committee/src/finality.rs:562-585 | every root ends with the summed weight of exactly the counted votes naming it |
| FinalityGadget.FindQuorum | crates/bloch-pos-committee/src/finality.rs:585-593 | the root returned has two thirds of a positive total, and none is returned only if no root has |
| FinalityGadget.LeakAbsent | crates/bloch-pos-committee/src/finality.rs:626-668 | the leak tick charges the absent members as the ledger function says |
| FinalityGadget.RecoverPresent | crates/bloch-pos-committee/src/finality.rs:670-737 | pay-back and the dropping of settled debts, in one pass, leave the ledger the two functions leave |
| FinalityGadget.Gadget.RecordOwnCheckpoint | crates/bloch-pos-committee/src/finality.rs:884-888 | the node's own checkpoint is recorded and older ones but the justified are dropped |
| FinalityGadget.Gadget.ProcessEpoch | crates/bloch-pos-committee/src/finality.rs:401-744 | an epoch out of order is refused and changes nothing; any other gives the specified state, winner, finalized checkpoint and equivocators |
| FinalitySafety.NoZeroDebts | crates/bloch-pos-committee/src/finality.rs:670-737 | a debt paid down to nothing leaves no entry behind |
| FinalitySafety.ProcessAdvances | crates/bloch-pos-committee/src/finality.rs:562-619 | one epoch moves the justified checkpoint only to its winner and the finalized one only over a one-epoch link |
| FinalitySafety.EveryRun | crates/bloch-pos-committee/src/finality.rs:185-221 | from genesis, in every run, every finalized checkpoint is justified, nothing justified or finalized is ever taken back, and replay in pieces is replay |
| FinalitySafety.ArrivalOrder | crates/bloch-pos-committee/src/finality.rs:128-155 | the order and multiplicity in which votes are heard decide nothing |
| AccountableSafety.JustifiedLink | crates/bloch-pos-committee/src/finality.rs:562-619 | every checkpoint justified since the start of a history was reached over a supermajority link signed in it |
| AccountableSafety.CrossingLink | crates/bloch-pos-committee/src/finality.rs:562-619 | the justified checkpoint moves past any epoch over one supermajority link that starts below it |
| AccountableSafety.FinalLink | crates/bloch-pos-committee/src/finality.rs:595-619 | a newly finalized checkpoint is the source of a supermajority link to the very next epoch |
| AccountableSafety.OffencesAreApart | crates/bloch-pos-committee/src/slashing.rs:186-200 | evidence is of one offence only, whichever vote is named first, and no vote conflicts with itself |
| AccountableSafety.ConflictOffends | crates/bloch-pos-committee/src/slashing.rs:186-200 | a validator behind two conflicting links has signed a double or a surround vote |
| AccountableSafety.AccountableFinality | crates/bloch-pos-committee/src/finality.rs:85-99 | two branches measured against one set: the later finality contains the earlier, or at least a third of the set's stake is provably slashable |
| AccountableSafety.FirstFinality | crates/bloch-pos-committee/src/finality.rs:804-869 | up to its first finality a branch is measured against the set in force at the split |
| AccountableSafety.SplitPointReached | crates/bloch-pos-committee/src/finality.rs:822-838 | every epoch processed past the gate, once the last recovery is over, leaves a state with its set formed |
| AccountableSafety.AtMostOneSideFinalizes | crates/bloch-pos-committee/src/finality.rs:85-99 | with the frozen set, two sides no validator votes on both of never both finalize |
| FinalityLimits.ChargedOrCredited | crates/bloch-pos-committee/src/finality.rs:626-737 | during a stall nobody who voted owes more and nobody absent owes less |
| FinalityLimits.NobodyCharged | crates/bloch-pos-committee/src/finality.rs:626-668 | while the chain finalizes no debt grows |
| FinalityLimits.MinorityNeverJustifies | crates/bloch-pos-committee/src/finality.rs:443-470 | from the recovery gate on, a winner holds about a third of the unleaked stake, however long the stall |
| FinalityLeak.LedgerExactly | crates/bloch-pos-committee/src/finality.rs:626-737 | what one epoch does to a validator's debt, to the unit: a charge is the share t/q of its remaining stake, a credit a sixteenth of its debt, either at least 1, and who is charged, who credited and who neither |
| FinalityLeak.ShareIsUnique | crates/bloch-pos-committee/src/finality.rs:651-660 | such a share is one amount |
| FinalityLeak.StallIsQuadratic | crates/bloch-pos-committee/src/finality.rs:634-645 | over every history in which a validator stays away through a stall, its loss lies between two parabolas in the number of epochs, on either side of the recovery gate |
| FinalityPace.PaceExactly | crates/bloch-pos-committee/src/params.rs:164-219 | which quotient is in force, and that from the gate on no other is nearer to Ethereum's pace by the clock |
| FinalityPace.DayIsCheap | crates/bloch-pos-committee/src/params.rs:187-190 | over every history: a day of a stall at that pace costs an absent validator less than two parts in a thousand, up to a unit an epoch; the source promises 99% |
| FinalityPace.HalfInThreeWeeks | crates/bloch-pos-committee/src/params.rs:187-190 | over every history: three weeks leave it between 45 and 56 parts in a hundred, up to a unit an epoch; the source promises about half |
| FinalityPace.DebtDecays | crates/bloch-pos-committee/src/params.rs:281-293 | over every history in which a debt is paid back: k epochs leave (15/16)^k of it, up to the rounding of sixteenths |
| FinalityPace.HalvesInEleven | crates/bloch-pos-committee/src/params.rs:281-293 | so eleven epochs halve it, ten do not, and it is gone after as many epochs as it has units |
| FinalityPace.ShippedSchedule | crates/bloch-pos-committee/src/params.rs:196-206 | the leak gates are as far apart as the two dates given for them, and the pruning horizon is one day |
| FinalitySets.SnapshotExactly | crates/bloch-pos-committee/src/finality.rs:801-818 | a snapshot holds exactly the listed validators with stake that were seen within the pruning horizon or never, each with its stake |
| FinalitySets.FormedExactly | crates/bloch-pos-committee/src/finality.rs:820-838 | the set formed when the gate opens or a recovery falls due |
| FinalitySets.HandedOverExactly | crates/bloch-pos-committee/src/finality.rs:840-869 | the set in force becomes the candidate exactly when the epoch finalizes the checkpoint the candidate was taken at, and the next candidate is taken |
| FinalitySets.CandidateExactly | crates/bloch-pos-committee/src/finality.rs:840-869 | who is in the next candidate, in terms of the roster, of who was heard this epoch and of who was last seen when |
| FinalitySets.UnheardIsPruned | crates/bloch-pos-committee/src/finality.rs:840-869 | over every history: a validator that stays on the roster unheard leaves the candidate sets exactly when the pruning horizon has passed since it was last seen |
| FinalitySets.CountedExactly | crates/bloch-pos-committee/src/finality.rs:476-560 | whose vote counts: on the roster, exactly one vote for the epoch, linking from the justified checkpoint and, once the filter is in force, naming this chain's own |
| FinalitySets.OnlyOwn | crates/bloch-pos-committee/src/finality.rs:534-560 | once the filter is in force only this chain's own checkpoints are justified and finalized |
| FinalitySets.OwnExactly | crates/bloch-pos-committee/src/finality.rs:884-888 | what is recorded of this chain's own checkpoints: the newest one, and the one at the justified epoch |
| FinalitySplit.SideWinner | crates/bloch-pos-committee/src/finality.rs:562-593 | when exactly one side votes, its checkpoint wins if and only if the side holds two thirds of the denominator in force |
| FinalitySplit.LoneSideFinalizes | crates/bloch-pos-committee/src/finality.rs:72-76 | before the recovery gate a side of any size with stake left finalizes alone once the stall is long enough, and from then on epoch by epoch |
| FinalitySplit.SidesConflict | crates/bloch-pos-committee/src/finality.rs:64-72 | any two disjoint sides with stake left then finalize one epoch under different roots |
| FinalitySplit.SplitFinalizesTwice | crates/bloch-pos-committee/src/finality.rs:64-83 | under the shipped gates, for every roster and every two disjoint sides with stake: from the seventieth epoch after genesis until the recovery gate both finalize the same epoch under different roots |
| FinalityRecovery.RecoversExactly | crates/bloch-pos-committee/src/finality.rs:443-470 | from the recovery gate on, a side voting alone ever finalizes if and only if three times its unleaked stake is at least twice the floor of half the unleaked total, whatever it owed before |
| FinalityRegimes.ComesExactly | crates/bloch-pos-committee/src/params.rs:306-318 | with the frozen set off, from every state: a side voting alone ever finalizes a checkpoint of its own branch if and only if it meets the recovery floor or has done so by the recovery gate |
| FinalityRegimes.UngatedSideComes | crates/bloch-pos-committee/src/finality.rs:72-76 | long enough before the recovery gate every side with stake left has, however small |
| FinalityRegimes.RecoveredSplitExactly | crates/bloch-pos-committee/src/params.rs:306-318 | past the recovery gate and without the frozen set, which is where the shipped gates stand from epoch 2880 on: two disjoint sides come to finalize in conflict if and only if both meet the floor |
| FinalityRegimes.SplitExactly | crates/bloch-pos-committee/src/finality.rs:64-99 | in every state of the shipped gates, and in every state under the frozen set past its last recovery: two disjoint sides come to finalize in conflict if and only if the frozen set is not in force and each of them meets the recovery floor or has finalized alone by the recovery gate |
| FinalityRegimes.AtMostThreeWays | crates/bloch-pos-committee/src/params.rs:322-328 | four disjoint sides never all meet the floor, whatever the roster |
| FinalityRegimes.ThreeWaysExist | crates/bloch-pos-committee/src/params.rs:322-328 | three sides can: any three equal members each meet it alone |
| FinalityHandoff.HandoffCanConflict | crates/bloch-pos-committee/src/finality.rs:840-869 | for any two sets with disjoint quorums: two branches of one split with one roster throughout, of which one hands the first set over to the second and the other does not finalize there, finalize one epoch under different roots with no slashable pair of votes |
| FinalityHandoff.AccountableExactly | crates/bloch-pos-committee/src/finality.rs:85-99 | branches that measure the two epochs deciding a finality against two given sets always share the finality or expose an offender, if and only if every two thirds of the one set and every two thirds of the other have a validator in common |
| HandoffSafety.SetSinceJustified | crates/bloch-pos-committee/src/finality.rs:804-869 | from two epochs after its justified checkpoint on a branch has kept its set, however often it changed it before |
| HandoffSafety.AccountableThroughHandoffs | crates/bloch-pos-committee/src/finality.rs:85-99 | through any number of handoffs: if both branches measured the epoch of a finalized checkpoint and the next one against the same sets, the other branch justifies it too once it finalizes as high, or at least a third of one of these sets is provably slashable |
| HandoffSafety.AccountableAcrossSets | crates/bloch-pos-committee/src/finality.rs:85-99 | the sufficient half for four sets: the finality is shared or someone is provably slashable whenever the sets of either deciding epoch overlap in this sense |
| HandoffSafety.OneSetOverlaps | crates/bloch-pos-committee/src/finality.rs:85-99 | a set overlaps itself in this sense, so branches measured against one set are a case of the results above |
| SlashingProtection.RecordRoundTrip | crates/bloch-pos-node/src/slashprot.rs:657-744 | a record reads back as written if and only if no mark is the sentinel word |
| SlashingProtection.NoRunIsSlashable | crates/bloch-pos-node/src/slashprot.rs:53-70 | in every run of signing, failed writes, crashes, restarts, rollbacks and raises from a first boot, no two released signatures are slashable; without an anchor a data dir may be replaced only by one whose record covers what was signed |
| SlashingProtection.RisingIsReleased | crates/bloch-pos-node/src/slashprot.rs:55-70 | a signer asked in turn for votes releases all of them if and only if slots and targets rise and no source falls, so one duty per epoch costs an honest validator nothing |
| SlashingProtection.RestartKeeps | crates/bloch-pos-node/src/slashprot.rs:547-597 | loading and reconciling with the anchor, whatever write fails, still covers every released signature |
| SlashingProtection.RestartExactly | crates/bloch-pos-node/src/slashprot.rs:547-597 | when a start may sign: it then has data dir, anchor and memory in step at the higher of the marks found; it never lowers either copy, and a refused rollback changes neither |
| SlashingProtection.WriteOutcomes | crates/bloch-pos-node/src/slashprot.rs:506-518 | a failed write leaves each copy old or new, and the anchor new only if the data dir is |
| SlashingProtection.FailedStartOutcomes | crates/bloch-pos-node/src/slashprot.rs:547-597 | a start that fails in writing leaves the copy it was writing old or new, and the other as it was |
| SlashingProtection.DyingSpendsTheMark | crates/bloch-pos-node/src/slashprot.rs:496-500 | a process that dies between the durable write and the signature has released nothing, and no later start admits that signature |
| SlashingProtection.DeadUntilRestart | crates/bloch-pos-node/src/slashprot.rs:496-500 | a dead process releases nothing until it is started again |
| SlashingProtection.RaiseKeeps | crates/bloch-pos-node/src/slashprot.rs:613-630 | raising the record to a published signature keeps every released one covered |
| SlashingProtection.RaiseCovers | crates/bloch-pos-node/src/slashprot.rs:613-630 | a raise that does not fail leaves what was seen covered, in memory and in what a restart loads, and lowers nothing |
| SlashingProtection.SeenIsNeverClashed | crates/bloch-pos-node/src/slashprot.rs:599-630 | once a running signer has been raised to a signature published elsewhere, nothing it releases in any continuation is slashable together with it |
| SlashingProtection.RollbackWithoutAnchor | crates/bloch-pos-node/src/slashprot.rs:530-540 | without an anchor a restored older data dir signs one slot twice |
| SlashingProtection.RollbackExactly | crates/bloch-pos-node/src/slashprot.rs:530-540 | on a host without an anchor, replacing the data dir leaves every continuation unslashable if and only if the new record is at or above every released proposal slot and, unless no slot or no target is left to attest, every released target epoch and every released source epoch but 0 |
| SlashingProtection.SentinelSlotIsForgotten | crates/bloch-pos-node/src/slashprot.rs:102 | a slot equal to the sentinel is forgotten by the record and can be signed twice |
| SlashingProtection.SigningRecord.Commit | crates/bloch-pos-node/src/slashprot.rs:496-518 | the data dir is written, then the anchor; memory moves only if both succeed |
| SlashingProtection.SigningRecord.GuardProposal | crates/bloch-pos-node/src/slashprot.rs:413-426 | a proposal is released if and only if its slot is above the mark and the write succeeds, and refused before any write otherwise |
| SlashingProtection.SigningRecord.GuardAttestation | crates/bloch-pos-node/src/slashprot.rs:432-462 | an attestation is released if and only if slot and target rise, the source does not fall and the write succeeds; each refusal names the rule broken |
| ProtectedFinality.ProtectedNeverOffends | crates/bloch-pos-node/src/slashprot.rs:53-70 | a validator all of whose votes passed one guarded record is never an offender |
| ProtectedFinality.ProtectedBranchesAgree | crates/bloch-pos-committee/src/finality.rs:85-99 | if less than a third of the set signs without the record, the later finality contains the earlier |
| ProtectedFinality.ProtectedSplitAgrees | crates/bloch-pos-committee/src/finality.rs:85-99 | from a split, the first checkpoint either branch finalizes is justified on the other once that one finalizes |
| ProtectedFinality.ProtectedThroughHandoffs | crates/bloch-pos-committee/src/finality.rs:85-99 | through any number of handoffs, with less than a third of the common deciding sets signing without the record, whatever one branch finalizes the other justifies |
| ProtectedFinality.ProtectedHandoffCanConflict | crates/bloch-pos-committee/src/finality.rs:840-869 | two branches of one split on which everybody signs through the record, with conflicting finalities: what holds of the first finalities does not reach past the handoff of only one branch |
| DependencyGuard.DependencyPath | scripts/check-live-node-retired-isolation.py:47-72 | the loop reads a listing to the scan's verdict: a path, a clean end, or the first malformed line |
| DependencyGuard.ReadsEveryTree | scripts/check-live-node-retired-isolation.py:47-72 | on the preorder listing of every tree with the live root the reader never fails and returns the path of the first forbidden node below it |
| DependencyGuard.GrowUndoesList | scripts/check-live-node-retired-isolation.py:47-72 | rebuilding a tree from its listing gives the tree back |
| DependencyGuard.ListUndoesGrow | scripts/check-live-node-retired-isolation.py:47-72 | listing a rebuilt tree gives the lines back, for every run of depths the reader accepts |
| DependencyGuard.BlanksDoNotMatter | scripts/check-live-node-retired-isolation.py:51-53 | blank lines change no verdict |
| DependencyGuard.AcceptedIsOneTree | scripts/check-live-node-retired-isolation.py:47-72 | every listing read to its end is, blank lines aside, the listing of exactly one tree, rooted at the live package |
| DependencyGraph.FoundIsReal | scripts/check-live-node-retired-isolation.py:26-72 | a path found in a listing that prints repeated nodes unexpanded is the names along a path of the graph |
| DependencyGraph.GuardIsExact | scripts/check-live-node-retired-isolation.py:26-72 | on the listing of any finite graph, also one in which several versions share a name, the guard reports the names along a genuine path if and only if the live package depends on a forbidden one |
| DependencyGraph.AcyclicNeverReportsRoot | scripts/check-live-node-retired-isolation.py:60-69 | in an acyclic graph the live node is never what is reported |
| Relay.EveryRun | scripts/lifecycle_devnet_soak_lib.py:369-462 | every interleaving of the accept thread, the pumps and `cut`/`heal` calls keeps the relay's invariant |
| Relay.CutReturned | scripts/lifecycle_devnet_soak_lib.py:433-452 | when `cut` has returned nothing listens, the accept thread holds no client, every connection registered before it is gone, at most one late pair remains, and the event it waited on is not a stale one |
| Relay.CutCanReturn | scripts/lifecycle_devnet_soak_lib.py:433-452 | from every reachable state in which a call can begin, some interleaving lets `cut` return |
| Relay.QuietUntilHeal | scripts/lifecycle_devnet_soak_lib.py:369-403 | from then until `heal`, over every interleaving, nothing is bound, registered or counted |
| Relay.PartitionHolds | scripts/lifecycle_devnet_soak_lib.py:369-462 | the partition a returned `cut` makes lasts until the next `heal` |
| Relay.CutLeavesOneExactly | scripts/lifecycle_devnet_soak_lib.py:383-403 | a cut can return with a connection still registered if and only if a client is past the enabled check when it begins |
| Relay.NotEveryConnectionIsReset | scripts/lifecycle_devnet_soak_lib.py:334-336 | a reachable state in which the documented reset of every live connection fails |
| Relay.HealReturned | scripts/lifecycle_devnet_soak_lib.py:454-462 | when a relay is up, exactly its listener is open and clients are let through |
| Relay.HealCanReturn | scripts/lifecycle_devnet_soak_lib.py:454-462 | from every reachable state in which a call can begin, some interleaving lets `heal` return |
| Relay.ClientGetsThrough | scripts/lifecycle_devnet_soak_lib.py:378-403 | a client that dials a relay that is up can be accepted, connected, registered and counted once |
| Relay.PumpsCanEnd | scripts/lifecycle_devnet_soak_lib.py:405-417 | connections end by themselves: the pumps can drop every one that is registered |
| Relay.OneTurnDue | scripts/lifecycle_devnet_soak_lib.py:369-403 | the accept loop is sequential: at any time only one kind of step is due |
| Relay.RefusedRuns | scripts/lifecycle_devnet_soak_lib.py:369-403 | if every bind, accept and connect fails, no interleaving registers, counts or rebinds anything |
| RelayMesh.CrossPairsExact | scripts/lifecycle_devnet_soak_lib.py:495-497 | the cross pairs are exactly the ordered pairs with one end on each side |
| RelayMesh.SeparatedExactly | scripts/lifecycle_devnet_soak_lib.py:495-503 | a side is cut off, over paths of any length, if and only if no crossing relay listens or holds a connection |
| RelayMesh.CutSeparates | scripts/lifecycle_devnet_soak_lib.py:499-503 | once every crossing cut has returned and none had a client past the enabled check, the sides stay apart in every interleaving of all relays until one of them is healed |
| RelayMesh.CutSeparatesExactly | scripts/lifecycle_devnet_soak_lib.py:383-403 | cutting every crossing relay separates the sides in every interleaving if and only if no crossing relay has a client past the enabled check when its cut begins |
| RelayMesh.CutKeepsSides | scripts/lifecycle_devnet_soak_lib.py:499-503 | within a side, every path over relays that are up survives the cut |
| RelayMesh.PortsDistinct | scripts/lifecycle_devnet_soak_lib.py:485-486 | distinct relays have distinct ports if and only if the mesh has at most 16 nodes |
| RelayMesh.PresentExactly | scripts/lifecycle_devnet_soak_lib.py:480-503 | every crossing pair has a relay if and only if a side is empty, or the sides are disjoint and inside the mesh |
| RelayMesh.PartitionCanSucceed | scripts/lifecycle_devnet_soak_lib.py:499-509 | from every standing of the mesh there is an interleaving under which cutting and then healing disjoint sides both succeed |
| RelayMesh.Mesh.CallBetween | scripts/lifecycle_devnet_soak_lib.py:499-509 | under every interleaving of all threads: it succeeds exactly when every crossing pair has a relay and every call returns, and then has cut or healed those and no other; a pair without a relay, or a call that does not return, stops it with exactly the earlier ones done |
| RelayMesh.Mesh.CutBetween | scripts/lifecycle_devnet_soak_lib.py:499-503 | succeeds exactly for sides that are different nodes of the mesh when every cut returns; then exactly the crossing relays go down, and sides that cover the mesh are apart unless a cut began on a client past the check |
| RelayMesh.Mesh.HealBetween | scripts/lifecycle_devnet_soak_lib.py:505-509 | succeeds exactly for such sides when every heal returns, as `PartitionCanSucceed` says it can; then exactly the crossing relays come up |
| RelayMesh.Mesh.CutThenHeal | scripts/lifecycle_devnet_soak_lib.py:499-509 | succeeds exactly when every cut and then every heal returns, and then leaves the same relays up as before if and only if every crossing one was up |
| Verdicts.ParseApplied | scripts/lifecycle_devnet_soak_lib.py:266-273 | the map read is the one in which a slot's last line wins |
| Verdicts.LastLineCounts | scripts/lifecycle_devnet_soak_lib.py:266-273 | a slot is present if and only if a line names it, with the view of its last line |
| Verdicts.ReadInParts | scripts/lifecycle_devnet_soak_lib.py:266-273 | reading concatenated logs is merging their maps, the later overriding |
| Verdicts.ChainVerdict | scripts/lifecycle_devnet_soak_lib.py:305-327 | DIVERGED if and only if two nodes differ at a shared slot; else CONVERGED if and only if there are two nodes and every pair shares a slot; the forks with the views beside them, the strangers, the common count and the highest common slot are exact |
| Verdicts.DivergedExactly | scripts/lifecycle_devnet_soak_lib.py:305-327 | DIVERGED if and only if two nodes applied a slot with different blocks or different head roots |
| Verdicts.ConvergedExactly | scripts/lifecycle_devnet_soak_lib.py:305-327 | CONVERGED if and only if there are two nodes, every two share a slot, and at each shared slot both the blocks and the roots are equal |
| Verdicts.DivergenceGrows | scripts/lifecycle_devnet_soak_lib.py:305-327 | a divergence seen on some nodes and slots is one on any larger set |
| Verdicts.ConvergenceInherited | scripts/lifecycle_devnet_soak_lib.py:305-327 | any two or more nodes of a converged set have converged |
| Verdicts.ScoreLogs | scripts/devnet-veredito.py:38-73 | the score names the highest slot common to all non-empty logs and whether all ids there agree |
| Verdicts.ScoredForkIsFork | scripts/devnet-veredito.py:69-73 | a fork the score reports is one for the chain verdict, so CONVERGED there excludes DIVERGED here |
| Verdicts.ConvergedScores | scripts/devnet-veredito.py:38-73 | a converged network of any size scores CONVERGED if and only if some slot is on every non-empty log, and else finds no common slot |
| Verdicts.ScoreMissesOlderFork | scripts/devnet-veredito.py:69-73 | two nodes that forked below their highest common slot score CONVERGED while the chain verdict is DIVERGED |
| FinalityProgress.CheckNode | scripts/lifecycle_devnet_soak_lib.py:799-811 | the comparisons of sorted neighbours accept a node exactly when its set of points never falls, is frozen in the window, rises over wide gaps and ends higher |
| FinalityProgress.Progress | scripts/lifecycle_devnet_soak_lib.py:786-812 | the answer is yes if and only if every node's set of points is accepted, and every problem names two samples |
| FinalityProgress.NeighboursSuffice | scripts/lifecycle_devnet_soak_lib.py:801-811 | adjacent checks give the property for any two samples |
| FinalityProgress.OrderDoesNotMatter | scripts/lifecycle_devnet_soak_lib.py:794-812 | the answer depends only on which samples there are |
| FinalityProgress.WindowExactly | scripts/lifecycle_devnet_soak_lib.py:798-806 | a declared split is the epochs after its first up to its last; without one every stretch is outside |
| FinalityProgress.OutsideExactly | scripts/lifecycle_devnet_soak_lib.py:805-806 | a stretch is outside a split exactly when none of its epochs is in it |
| FinalityStretch.RisingExactly | scripts/lifecycle_devnet_soak_lib.py:789-793 | for a schedule of samples, any number of them in one epoch: every accepted run rises between two samples outside the split if and only if two neighbours between them are four epochs apart or they are the first and the last |
| FinalityStretch.StretchGoesUnnoticed | scripts/lifecycle_devnet_soak_lib.py:792 | a run stuck for four epochs outside the split is accepted when sampled every other epoch |
| FinalityStretch.DoubleSampleGoesUnnoticed | scripts/lifecycle_devnet_soak_lib.py:801-811 | a run sampled twice in its first epoch is accepted though stuck from the second of these samples to the end |
| Arming.ArmSource | scripts/arm-lifecycle-epoch.py:248-262 | succeeds if and only if the five gates and the deposit gate are unambiguous and unarmed, and then changes exactly the five declarations |
| Arming.MatchExactly | scripts/arm-lifecycle-epoch.py:129-158 | the declaration that counts: the only one, without attributes, or, of the RANDAO constant, the one under the production attribute alone when the only other is under the devnet attribute alone, in either order |
| Arming.ArmedExactly | scripts/arm-lifecycle-epoch.py:248-262 | the edit line by line: the production declarations of the five gates get the epoch and every other line stays |
| Arming.DevnetUntouched | scripts/arm-lifecycle-epoch.py:129-158 | nothing under a devnet attribute is changed |
| Arming.MatchByShape | scripts/arm-lifecycle-epoch.py:129-158 | which declaration counts does not depend on declared values |
| Arming.GatesRead | scripts/arm-lifecycle-epoch.py:248-262 | after the edit every gate reads the epoch |
| Arming.OthersUntouched | scripts/arm-lifecycle-epoch.py:248-262 | a constant that is no gate reads the same after the edit |
| ArmingRuns.RunbookReadsBack | scripts/arm-lifecycle-epoch.py:233-242 | setting the runbook line makes it read the new value |
| ArmingRuns.RunbookExactly | scripts/arm-lifecycle-epoch.py:226-242 | the runbook has a value exactly when one line records one, and setting it changes that line alone |
| ArmingRuns.EveryRun | scripts/arm-lifecycle-epoch.py:286-322 | from an unarmed tree, in every run with or without crashes, at most one write gets through, and the tree is untouched, armed or half armed |
| ArmingRuns.CrashFreeRunsAgree | scripts/arm-lifecycle-epoch.py:286-348 | without a crash the five gates, the deposit gate and the runbook agree after every command |
| ArmingRuns.CrashIsFinal | scripts/arm-lifecycle-epoch.py:317-322 | a crash between the two file writes leaves a tree that nothing changes, every write refuses and no verify accepts |
| ArmingRuns.VerifySays | scripts/arm-lifecycle-epoch.py:325-367 | what verify says of the tree before any write, and after a completed one: it accepts exactly the epoch written, no pinned test and no stale comment |
| ArmingRuns.WritesExactly | scripts/arm-lifecycle-epoch.py:307-316 | a write gets through exactly when the epoch is ahead of the wall by the lead and the tree is unarmed, and then the tree reads armed at that epoch |
| ArmingRuns.RefusesNonPositive | scripts/arm-lifecycle-epoch.py:325-367 | verify accepts no epoch that is not positive |
| ArmingRuns.RefusedChangesNothing | scripts/arm-lifecycle-epoch.py:307-316 | a command that changes the tree is a write to an unarmed tree at a future epoch |
| ArmingRuns.Checkout.ModeWrite | scripts/arm-lifecycle-epoch.py:307-322 | a refused write changes neither file; a crash leaves only the first written |
| ArmingRuns.Checkout.ModeVerify | scripts/arm-lifecycle-epoch.py:325-367 | accepts if and only if gates, deposit gate, runbook, the given epoch, tests and comments agree |
| SourceConstants.NumberOfDecimal | scripts/arm-lifecycle-epoch.py:165-166 | an epoch printed in decimal reads back as itself |
| RewriteConstants.Rewrite | scripts/lifecycle_devnet_soak_lib.py:109-136 | refuses if and only if an armed constant is not declared exactly once or a pinned one reads otherwise; else rewrites exactly the armed declarations and reports every change and every pin, in order |
| RewriteConstants.RewriteArmed | scripts/lifecycle_devnet_soak_lib.py:118-127 | the first loop: one reported change per armed entry, with the value its declaration read until then |
| RewriteConstants.WasOriginal | scripts/lifecycle_devnet_soak_lib.py:118-127 | with distinct keys the value reported as replaced is the one in the original source |
| RewriteConstants.OthersStay | scripts/lifecycle_devnet_soak_lib.py:119-128 | a line no entry concerns is unchanged |
| RewriteConstants.AnyOrder | scripts/lifecycle_devnet_soak_lib.py:119-128 | with distinct keys the result does not depend on the order of the entries |
| RewriteConstants.Idempotent | scripts/lifecycle_devnet_soak_lib.py:109-136 | rewriting again is allowed again and changes nothing |
| RewriteConstants.ReadsBack | scripts/lifecycle_devnet_soak_lib.py:119-128 | every armed constant is still declared once and reads the value asked for |
| RewriteConstants.SameNumberExactly | scripts/lifecycle_devnet_soak_lib.py:130-134 | pinned values are compared without regard to underscores |
| RewriteConstants.SameAsArming | scripts/arm-lifecycle-epoch.py:248-262 | on a source with one plain unarmed declaration per gate both tools make the same edit and neither refuses |
| StripComments.StripComments | scripts/preservation-manifest.py:290-316 | the nested loops terminate with the stripped text |
| StripComments.StripIsNormal | scripts/preservation-manifest.py:290-316 | for every input no `//` or `/*` is left and every quote is half of an empty literal |
| StripComments.StripTwice | scripts/preservation-manifest.py:290-316 | stripping is idempotent and its fixed points are exactly the texts without comments and non-empty literals |
| StripComments.StripErases | scripts/preservation-manifest.py:290-316 | on the text of any tokens, comments vanish, string literals are emptied and all else stays |
| TestTokens.CompleteTestTokens | scripts/check-tests-blocking.py:658-679 | accepts exactly the commands the grammar accepts |
| TestTokens.CommandExactly | scripts/check-tests-blocking.py:658-679 | the commands read are exactly a head, with or without a toolchain, followed by known flags, valued options and assignments, and they read back as those |
| TestTokens.ScanIsExact | scripts/check-tests-blocking.py:1069-1075 | on every accepted command the flat scan finds exactly the packages and the workspace flag of the grammar |
| TestTokens.PackagesExactly | scripts/check-tests-blocking.py:1069-1075 | the packages of a command are those given by either option or by assignment |
| TestTokens.CheckCoverage | scripts/check-tests-blocking.py:1069-1078 | the crates reported are exactly the live ones no accepted command tests |
| ConstTable.BuildConstTable | scripts/check-comment-constants.py:318-344 | a name is kept if and only if it has a literal declaration and all of them agree, with its first one; the dropped names and the unresolved count are exact |
| ConstTable.AnyOrder | scripts/check-comment-constants.py:318-344 | reading the declarations in another order keeps the same names with equal values |
| ConstTable.SameExactly | scripts/check-comment-constants.py:140-147 | two values agree exactly when they stand for the same number or the same truth value |
| CommentClaims.ReportedLineHoldsClaim | scripts/check-comment-constants.py:366-382 | the line reported for a claim is the comment line holding its first character |
| CommentClaims.ReportedHoldsClaim | scripts/check-comment-constants.py:366-382 | whatever a finder of text positions finds in a run of comments is reported at the comment line holding it |
| CommentClaims.EveryCharacterIsSearched | scripts/check-comment-constants.py:366-382 | every character of every comment of a block is in the searched text, and what is found there is reported at that comment |
| CommentClaims.ReportedExactly | scripts/check-comment-constants.py:363-382 | a block is reported on, find by find, unless one of its comments or attributes carries an allow mark |
| CommentClaims.CommentBlockAbove | scripts/check-comment-constants.py:208-213 | the block above a declaration is the longest run of comments and attributes |
| CommentClaims.AttachedPass | scripts/check-comment-constants.py:351-382 | the lines reported are exactly those of the claims found in the blocks attached to declarations, and each holds its claim |
| CommentClaims.AttachedIsReported | scripts/check-comment-constants.py:351-382 | no claim found above a declaration is missed: it is reported at its own comment line, the first line of the file included |
| CommentClaims.NamedPass | scripts/check-comment-constants.py:384-419 | the lines reported are exactly those of the claims found in the maximal runs of comments, and each holds its claim |
| CommentClaims.NamedIsReported | scripts/check-comment-constants.py:384-419 | no claim found in a maximal run of comments is missed |
| Clocks.EpochsAgree | scripts/preservation-manifest.py:418-422 | the three wall-epoch computations agree at every instant |
| Clocks.AheadMeansLater | scripts/arm-lifecycle-epoch.py:188-200 | a positive epoch is ahead of the wall epoch if and only if it starts strictly after now |
| Clocks.AdmissibleStartsLater | scripts/arm-lifecycle-epoch.py:265-280 | an admissible epoch starts after now, by more than the lead less one epoch |
| Clocks.AdmissibleExactly | scripts/arm-lifecycle-epoch.py:265-280 | an epoch is admissible exactly when it starts after now and at least the lead after the start of the epoch under way |
| RestartCost.ClosedFormsAreSums | scripts/project-restart-recovery.py:14-18 | both closed forms equal the block-by-block sums, for all block counts and tails |
| RestartCost.CachingSaves | scripts/project-restart-recovery.py:14-18 | full less cached is the cost of the skipped prefix less the state load, and caching is no slower exactly when that is not negative |

## Left out

- Signatures, hashes, digests, identity binding and RANDAO recommitments: votes and records are taken as authentic; the slashing record's V3 form and its merge are not modelled.
- Word widths: slots, epochs, stakes and sums are unbounded; the source keeps stakes in u64 and sums in u128. Only the words of the slashing record are modelled at their width.
- The rest of the Rust crates (transition function, committees, deposits and withdrawals, transport, RPC, eUVM, mining pool, anchoring): outside this model.
- Block roots are numbers ordered as the big-endian value of their 32 bytes; only their order and equality matter.
- ForkChoiceStore.Head: which block a descent that never ends is stopped on is stated only as the block at the level bound.
- ForkChoiceCycles.AgreesExactly: for children maps that are the inverse of the parent map, the only ones the node builds (`crates/bloch-pos-node/src/engine.rs:7759-7766`); off cycles `HeadIsReferenceHead` needs no such thing.
- ForkChoiceCycles.Agrees: for the same children maps.
- ForkChoiceCycles.BoundedAgreesExactly: for the same children maps.
- FinalityLimits.MinorityNeverJustifies: the bound is on leak-adjusted stake and off by one, as the source's integer halving makes it.
- FinalityRegimes.SplitExactly: gates that would freeze the set at some later epoch are left out; the shipped ones never do.
- FinalityRecovery.RecoversExactly: for gates that never freeze the set, as shipped.
- FinalityRegimes.ComesExactly: for the same gates.
- AccountableSafety.AccountableFinality: for branches measured against one set throughout; `HandoffSafety.AccountableThroughHandoffs` and `AccountableAcrossSets` are the forms for branches that change theirs, and `FinalityHandoff.AccountableExactly` the exact condition.
- ProtectedFinality.ProtectedBranchesAgree: for branches measured against one set throughout; `ProtectedThroughHandoffs` is the form for branches that change theirs.
- ProtectedFinality.ProtectedSplitAgrees: speaks of each branch's first finality after the split; `ProtectedHandoffCanConflict` shows that later ones need more.
- Rosters: the roster of each epoch is an input of its tally; how the chain's state determines it is not modelled. The lemmas that exhibit a conflict use one roster throughout.
- FinalityLeak.LedgerExactly: for a validator the roster lists at most once.
- FinalityLeak.StallIsQuadratic: for stretches in which one leak quotient is in force and the validator keeps its stake.
- FinalitySets.SnapshotExactly: for a validator the roster lists exactly once.
- ForkChoice.BestExactly: for slots below the sentinel that stands for a missing one.
- SlashingProtection.SeenIsNeverClashed: on a host without an anchor a data dir put in place of the record must cover that signature, and be no lower than a running signer's memory.
- FinalityHandoff.AccountableExactly: the set handed over to has no member without stake, as no snapshot has.
- SlashingProtection.NoRunIsSlashable: signing with a slot or epoch equal to the sentinel word is excluded, because the record cannot hold it.
- Relay.EveryRun: `close` and the pumps' byte copying are not modelled; a call that times out raises and is not followed further. Binding the listening socket and storing it are one step.
- RelayMesh.Mesh.CallBetween: what the threads do during each call is a parameter; no other `cut` or `heal` runs meanwhile.
- Verdicts.ChainVerdict: the truncation of the printed report to twenty forks is not modelled.
- Verdicts.ScoreLogs: the lines printed for the last three slots are not modelled.
- FinalityProgress.Progress: the wording of the problems and the six samples kept as evidence are not modelled.
- ArmingRuns.Checkout.ModeVerify: whether tests still pin the old values and whether comments are stale are inputs; planning and rehearsing only read.
- CommentClaims.AttachedPass: the patterns and the filters on their matches are a parameter; the bind pass is not modelled.
- CommentClaims.NamedPass: the patterns and the lookups in the constant table are a parameter.
- Regular expressions, shell quoting, files, clocks, threads' scheduling, sockets and processes are abstracted to line classes, token lists, parameters and nondeterministic steps.
- RestartCost.ClosedFormsAreSums: over reals; rounding is not modelled.
- The exact-text continuous-integration contracts, the licence, archive and site guards, `strip_cfg_test` and the self-tests: fixed lists and pattern matches without state.
