# Jiritsu: a verified model of its stateful cores

Jiritsu changes the user configuration of a machine through proposals, protects each change with
checkpoints, runs requests of agents through an audited broker, and serves machine facts from a
cache. This project models the parts in which order, failures and concurrency matter, and proves what
they promise. `dafny verify dfyconfig.toml` checks all of it.

## What is modelled

**The configuration tree** (`ConfigTree`). A tree is a map from paths to directories with a mode and
files with contents and a mode. `Disk` is the mutable tree. Its methods are the system calls that the
code makes; each can fail for its documented reason, and each can also fail for no visible reason.

**Promotion of a proposal** (`Validation`, `Actions`, `ActionRunner`, `Rollback`, `Lifecycle`,
`Promotion`, `PromotionProtocol`). The checks on a definition, the inspection of typed actions, the
loops that apply, verify and roll back, the stored record with its history, and the operations on
it. Ghost results name the failures: `fault` says that a system call failed for no visible reason,
`stray` names a node that a failed action left behind without a record. `PromotionProtocol` has all
interleavings of operations with an abort possible at every point.

**Checkpoints** (`PolicyText`, `CheckpointPaths`, `NodeCopy`, `ConfigCapture`, `Recovery`,
`PromotionRecovery`). The selection of paths for a checkpoint, the strings of the policy file, the
policy checks, capture, and the restore in two phases with its undo. `Recovery` joins this with the
actions of a proposal, and `PromotionRecovery` with a whole promotion, whatever becomes of it.

**The broker** (`Journal`, `JsonText`, `JournalText`, `Policy`, `Broker`, `BrokerProtocol`). The policy rules, one
attempt under the lock of its request, and all interleavings of attempts over one journal with
crashes, lost appends and lines that are cut short. `JournalText` has the journal file as text.

**Machine facts** (`Json`, `StateCache`, `Catalog`, `RefreshWorker`, `FactPath`). The cache and its
epoch, direct collection, the catalog and its selectors, the worker that merges queued refresh
requests, and the selection of values inside a fact. The worker is modelled for every catalog with distinct IDs, which
`Catalog.FACTS` has. `Text` has splitting and joining of texts.

## Results that are not plain yes

- Inspection counts the root among the planned directories without looking at it, so it accepts
  actions below a root that does not exist. `Actions.InspectionIsSound` proves that the accepted
  actions apply if and only if the root is a directory; `Actions.MissingRootIsAccepted` is an input
  for which they do not. Classification looks at the root. Promotion does not look again, so a root
  that goes away in between ends in `rolled_back`, as `Promotion.RunOutcome` says.
- A directory whose `mkdir` succeeds and whose `chmod` fails stays without a record, and so does a
  temporary file whose removal fails. `Rollback.RollbackWithStray` proves what rollback then leaves:
  every item reports success if and only if the stray node's directory existed from the start, and
  then exactly the stray node stays. Otherwise the created directories on the way to it stay too, and
  the state is `failed`; `Rollback.RollbackCanFail` is an accepted action list and a fault for which
  this happens. The documented meaning of `rolled_back` (jiritsu-proposals/README.md:41)
  speaks of the applied actions only, and holds.
- The epoch of the cache is exact for batches with distinct fact IDs, which is what a collection
  gives. `StateCache.RepeatedIdCanRaiseTheFlagForNothing` shows a batch with a repeated ID that moves
  the epoch without a change.
- A promotion that dies after storing `applying` leaves a proposal that no operation can ever move
  again. `PromotionProtocol.OrphanIsReachable` is such a run, and `PromotionProtocol.StuckMeansOrphaned`
  proves that a proposal in `applying` is stuck if and only if the call that stored it is dead.
- JSON leaves U+0085, U+2028 and U+2029 as they are, and a reader of the audit journal ends a line at
  them. So a complete append can be unreadable. `JournalText.CompleteAppendsAreReadable` proves that a
  file of complete appends is readable if and only if no string of an event holds one of them;
  otherwise some line breaks off inside a string. `JournalText.RequestCanBeUnreadable` is a request
  event that is read as two lines.
- An action path can hold U+007F, which JSON leaves as it is and TOML forbids.
  `CheckpointPaths.PolicyForPromotion` proves that the generated policy is accepted if and only if no
  selected path holds it; `CheckpointPaths.DeleteIsAccepted` is such a path. The code then falls back
  to the backups of the single actions.

## Model

| member | source | states |
|---|---|---|
| Validation.AcceptedPathIsNormal | jiritsu-proposals/src/jiritsu_proposals/validation.py:28-45 | an accepted action path is not empty, not absolute and without a tilde at its start, has only segments that can name a node, and its text is rebuilt from them |
| Validation.NormalPathIsAccepted | jiritsu-proposals/src/jiritsu_proposals/validation.py:28-45 | conversely, every path of such segments is accepted, unless it starts with a tilde; the round trip gives the same path |
| Validation.ParseActions | jiritsu-proposals/src/jiritsu_proposals/validation.py:120-200 | accepts exactly 1 to 16 actions with normal and pairwise different paths, and stores them unchanged and in order |
| Validation.ValidIdNamesANode | jiritsu-proposals/src/jiritsu_proposals/validation.py:11 | an ID that matches the pattern is always one plain directory name below the store |
| Validation.ValidIdMatchesPattern | jiritsu-proposals/src/jiritsu_proposals/validation.py:11 | the ID check accepts exactly the texts of the pattern, stated in code points |
| ConfigTree.AncestorIsDir | jiritsu-proposals/src/jiritsu_proposals/actions.py:168-210 | every ancestor of a node is a directory, the shape of the tree that all system calls keep |
| ActionRunner.InspectActions | jiritsu-proposals/src/jiritsu_proposals/actions.py:24-148 | accepts iff every action has a target below the root, a parent that is a directory, the root or an earlier directory action, the right kind of target, and the content that it expects; records the state of each target, its check and its recovery; otherwise the first action that is refused, with the error that applies |
| Actions.RejectionMeans | jiritsu-proposals/src/jiritsu_proposals/actions.py:30-104 | an action is refused iff it is not acceptable, and each error says which condition fails |
| Actions.TargetsTellChanges | jiritsu-proposals/src/jiritsu_proposals/operations.py:235-244 | the recorded targets of two trees are equal iff no target has changed in existence, content or mode |
| ActionRunner.AtomicBytes | jiritsu-proposals/src/jiritsu_proposals/actions.py:151-165 | all or nothing: the target holds the new content and mode, or the tree is as before except for at most one temporary file beside the target |
| ActionRunner.ApplyOne | jiritsu-proposals/src/jiritsu_proposals/actions.py:174-208 | a record appears exactly when the action took its whole effect, with the backup that undoing needs |
| ActionRunner.ApplyActions | jiritsu-proposals/src/jiritsu_proposals/actions.py:168-210 | whichever call fails, the records name exactly the actions that took effect and each replaced file is backed up; without a fault it succeeds iff every action applies in order |
| ActionRunner.VerifyActions | jiritsu-proposals/src/jiritsu_proposals/actions.py:213-235 | a check passes iff its path is a directory, or is a file with the expected content; a check that cannot be read never passes |
| ActionRunner.UndoOne | jiritsu-proposals/src/jiritsu_proposals/actions.py:238-269 | a restored record means exactly the specified new tree; an error means that the target is untouched and at most a temporary file is beside it |
| ActionRunner.RollbackActions | jiritsu-proposals/src/jiritsu_proposals/actions.py:238-269 | one item for each record, newest first, also after calls that fail: each restored target has its recorded state, up to a temporary file at a free place, each other target is as it was, and nothing else changes; without a failing call the tree is the specified one |
| Actions.InspectionIsSound | jiritsu-proposals/src/jiritsu_proposals/actions.py:24-148 | for accepted actions with distinct paths, every action applies in order iff the root is a directory |
| Actions.MissingRootIsAccepted | jiritsu-proposals/src/jiritsu_proposals/actions.py:28 | an accepted action that cannot be applied, because inspection does not look at the root |
| Actions.VerificationPasses | jiritsu-proposals/src/jiritsu_proposals/actions.py:213-235 | every check that inspection recorded passes on the tree that the actions produce |
| Actions.RecoveryPlanIsUsed | jiritsu-proposals/src/jiritsu_proposals/operations.py:235-244 | after any changes in between, equal target observations give the strategies that were stored at classification |
| Actions.AppliedTreeIsOverridden | jiritsu-proposals/src/jiritsu_proposals/actions.py:168-210 | the tree after all actions is the old one overridden at exactly the targets with the approved contents |
| Actions.OthersUntouched | jiritsu-proposals/src/jiritsu_proposals/actions.py:168-210 | no number of actions changes a path that is not a target |
| Rollback.RollbackInverts | jiritsu-proposals/src/jiritsu_proposals/actions.py:238-269 | for every number of applied actions, rollback is the identity and every item reports success |
| Rollback.RollbackWithStray | jiritsu-proposals/src/jiritsu_proposals/actions.py:184-186 | with a stray node: the exact tree that is left, and all items succeed iff the directory of that node existed before |
| Rollback.RollbackAroundStray | jiritsu-proposals/src/jiritsu_proposals/actions.py:238-269 | item by item: exactly the created directories on the way to the stray node report an error |
| Rollback.RollbackCanFail | jiritsu-proposals/src/jiritsu_proposals/actions.py:184-186 | an accepted list of two directory actions whose second `chmod` fails, after which rollback reports an error |
| Lifecycle.TransitionKeepsHistory | jiritsu-proposals/src/jiritsu_proposals/model.py:72-94 | a transition along the graph keeps numbers 1..n, revision n, linked states and the state of the last event |
| Lifecycle.StatesEnteredOnce | jiritsu-proposals/README.md:24-30 | a proposal enters each state at most once, so it has at most four transitions |
| Lifecycle.TerminalMeansNoSuccessor | jiritsu-proposals/src/jiritsu_proposals/model.py:9 | the terminal states are exactly the states without a successor |
| Lifecycle.ReplayedHistoryIsOk | jiritsu-proposals/src/jiritsu_proposals/model.py:72-94 | every record that creation and transitions along the graph produce has a valid history |
| Lifecycle.HistoryIsReplayed | jiritsu-proposals/src/jiritsu_proposals/model.py:72-94 | conversely, every valid history is produced by some path of the graph |
| Promotion.ProposalStore.Save | jiritsu-proposals/src/jiritsu_proposals/store.py:120-145 | one atomic replacement that a reported failure can precede or follow |
| Promotion.ProposalStore.CreateProposal | jiritsu-proposals/src/jiritsu_proposals/operations.py:42-74 | refuses bad definitions, bad IDs and IDs that were ever reserved, and nothing else; otherwise stores a draft of the definition, unless a call of the store fails |
| Promotion.ProposalStore.ClassifyProposal | jiritsu-proposals/src/jiritsu_proposals/operations.py:77-127 | without a failing call, refuses exactly when the record is not a draft, the root is missing or inspection refuses, with the reason that applies; otherwise stores exactly the inspection, the digest and the planned recovery |
| Promotion.ProposalStore.ApproveProposal | jiritsu-proposals/src/jiritsu_proposals/operations.py:130-148 | refuses only records that are not classified, and those always, unless a call of the store fails; the approval holds the digest of the stored actions |
| Promotion.ProposalStore.RejectProposal | jiritsu-proposals/src/jiritsu_proposals/operations.py:151-165 | refuses only records that are neither draft nor classified, and those always, unless a call of the store fails |
| Promotion.ProposalStore.CheckPromotion | jiritsu-proposals/src/jiritsu_proposals/operations.py:206-244 | lets through exactly approved records whose root is the same, whose actions are accepted and whose targets have not changed; every refusal names the condition that fails; the digest comparison never fails for a stored record |
| Promotion.ProposalStore.FinishRollback | jiritsu-proposals/src/jiritsu_proposals/operations.py:168-196 | stores `failed` exactly when some item was not restored, else `rolled_back` |
| Promotion.ProposalStore.ApplyAndSettle | jiritsu-proposals/src/jiritsu_proposals/operations.py:282-359 | commits with the planned recovery strategies, or rolls back; keeps the outcome meaning `RunOutcome` |
| Promotion.ProposalStore.PromoteProposal | jiritsu-proposals/src/jiritsu_proposals/operations.py:199-359 | the tree moves only after `applying` and the prepared recovery point are stored; a run that returns ends in one of three states, each with its meaning for the tree, the true reason of a failure and its recovery point; a promotion after which a critical workload fails that passed before is never committed, and without a fault, with the root in place, exactly such a promotion or one without a recovery point is rolled back; after a rollback every item of the report is true of its target, also when calls of the rollback fail; a run that dies at any point leaves every target as before or as desired, up to a directory without its mode or a temporary file; no other path changes, apart from temporary files |
| Promotion.RegressedMeansNewFailures | jiritsu-proposals/src/jiritsu_proposals/operations.py:312-325 | there are new critical failures iff both reports come from the workload module and a capability that was not failing before fails now |
| Promotion.RollbackEnds | jiritsu-proposals/src/jiritsu_proposals/operations.py:168-196 | wherever applying stopped: all items restored means the old tree, up to the stray node; otherwise the old tree plus the way to the stray node |
| Promotion.ReportComesTrue | jiritsu-proposals/src/jiritsu_proposals/operations.py:168-196 | in the stored report, a restored item means that its target is as before the promotion, up to a temporary file at a free place, and an error means that it still has what the action gave it |
| Promotion.ReachedIsIntact | jiritsu-proposals/src/jiritsu_proposals/actions.py:168-210 | wherever the actions stop, every target is as before or as desired, up to what the failed action left |
| Promotion.PartlyUndoneIsIntact | jiritsu-proposals/src/jiritsu_proposals/actions.py:238-269 | wherever a rollback dies, with any number of records still to undo, the same holds |
| PromotionProtocol.StepKeepsInv | jiritsu-proposals/src/jiritsu_proposals/store.py:55-135 | locks, creation, what a call has read, and the entry into `applying` stay consistent under every step of every call |
| PromotionProtocol.AllowedMeansEdge | jiritsu-proposals/src/jiritsu_proposals/operations.py:32-39 | an operation goes on from exactly the states from which the graph leads to its target |
| PromotionProtocol.AtMostOneCallChangesTheTree | jiritsu-proposals/src/jiritsu_proposals/operations.py:256-294 | over all interleavings and crashes, all changes of the tree for one proposal come from one call |
| PromotionProtocol.EveryStep | jiritsu-proposals/src/jiritsu_proposals/operations.py:206-294 | the tree changes only under the lock while `applying` is stored, records follow the graph, and only the call that entered `applying` takes the record out of it |
| PromotionProtocol.OrphanStaysOrphaned | jiritsu-proposals/src/jiritsu_proposals/operations.py:206-208 | a proposal whose promotion died stays in `applying` for ever, and the tree is never touched for it again |
| PromotionProtocol.OrphanIsReachable | jiritsu-proposals/src/jiritsu_proposals/operations.py:256-294 | a run of 20 steps that leaves a proposal stuck in `applying` |
| PromotionProtocol.StuckMeansOrphaned | jiritsu-proposals/src/jiritsu_proposals/operations.py:206-208 | in every reachable world, a proposal in `applying` stays there in all continuations iff the call that stored it is dead |
| PromotionProtocol.UndisturbedCall | jiritsu-proposals/src/jiritsu_proposals/store.py:55-135 | the steps of a call on its own store exactly the state that its operation is for |
| PromotionProtocol.UndisturbedPromotion | jiritsu-proposals/src/jiritsu_proposals/operations.py:256-359 | the steps of a promotion on its own store `applying`, then change the tree, then store the final state of the settled record |
| CheckpointPaths.SelectPaths | jiritsu-proposals/src/jiritsu_proposals/providers.py:276-287 | selects exactly the action paths that have no other action path above them, each once |
| CheckpointPaths.CheckpointTexts | jiritsu-proposals/src/jiritsu_proposals/providers.py:288 | the texts of exactly the selected paths, in ascending order |
| CheckpointPaths.TextLessIsLexicographic | jiritsu-proposals/src/jiritsu_proposals/providers.py:288 | the order of the texts is the lexicographic order of their characters |
| CheckpointPaths.MinimalAncestor | jiritsu-proposals/src/jiritsu_proposals/providers.py:276-288 | every action path lies at or below a selected one |
| CheckpointPaths.AscendingIsUnique | jiritsu-proposals/src/jiritsu_proposals/providers.py:288 | an ascending list is determined by its elements |
| CheckpointPaths.SelectionIgnoresOrder | jiritsu-proposals/src/jiritsu_proposals/providers.py:276-288 | action lists with the same paths give the same selection, whatever their order |
| CheckpointPaths.LoadPolicy | jiritsu-checkpoints/src/jiritsu_checkpoints/config_capture.py:52-69 | accepts exactly 1 to 64 relative paths of which none is equal to or above another, and names the first problem otherwise |
| CheckpointPaths.PolicyPathNamesNodes | jiritsu-checkpoints/src/jiritsu_checkpoints/config_capture.py:23-35 | a policy path is refused iff it is empty, absolute, starts with a tilde or climbs up; otherwise its segments name nodes and none is lost |
| CheckpointPaths.PolicyPathOfNormal | jiritsu-checkpoints/src/jiritsu_checkpoints/config_capture.py:23-35 | a normal path means the same in a policy as in a proposal |
| CheckpointPaths.PolicyForPromotion | jiritsu-proposals/src/jiritsu_proposals/providers.py:310-315 | for the actions of every stored proposal: the generated policy is read back, passes the policy checks and selects the minimal paths, iff no selected path holds U+007F |
| CheckpointPaths.DeleteIsAccepted | jiritsu-proposals/src/jiritsu_proposals/validation.py:28-45 | an accepted action path that the policy file cannot carry |
| PolicyText.PolicyStringRoundTrip | jiritsu-proposals/src/jiritsu_proposals/providers.py:312 | a path written as a JSON string comes back from the TOML file unchanged iff it does not hold U+007F |
| NodeCopy.CopyNode | jiritsu-checkpoints/src/jiritsu_checkpoints/config_capture.py:120-127 | a complete copy of the subtree or an error; outside it only new directories on the way appear |
| NodeCopy.RemoveNode | jiritsu-checkpoints/src/jiritsu_checkpoints/config_capture.py:130-134 | the whole subtree goes, and nothing outside it changes, even after an error |
| ConfigCapture.CaptureConfig | jiritsu-checkpoints/src/jiritsu_checkpoints/config_capture.py:137-153 | the entries tell exactly which selected paths exist, the checkpoint holds their whole subtrees, and nothing else but directories on the way |
| ConfigCapture.ReplaceTargets | jiritsu-checkpoints/src/jiritsu_checkpoints/config_capture.py:188-191 | starts only with complete backups of every target; then each selected subtree is what the checkpoint wants |
| ConfigCapture.UndoRestore | jiritsu-checkpoints/src/jiritsu_checkpoints/config_capture.py:192-207 | every selected subtree that is not reported is back; each one that is reported has a complete backup |
| ConfigCapture.RestoreConfig | jiritsu-checkpoints/src/jiritsu_checkpoints/config_capture.py:156-212 | all or nothing for a fault at any point, except for the subtrees that the rollback errors name; outside the selection only new directories on the way to captured paths |
| ConfigCapture.OtherSubtree | jiritsu-checkpoints/src/jiritsu_checkpoints/config_capture.py:61-69 | work on one selected path leaves every other selected subtree as it is, because none lies below another |
| Recovery.ActionsStayInside | jiritsu-proposals/src/jiritsu_proposals/providers.py:276-288 | outside the selected subtrees the actions change nothing |
| Recovery.RestoreIsInverse | jiritsu-checkpoints/src/jiritsu_checkpoints/config_capture.py:137-212 | a restore gives back the captured tree from any tree that differs only inside the selection |
| Recovery.CheckpointUndoesActions | jiritsu-checkpoints/src/jiritsu_checkpoints/config_capture.py:137-212 | capture, any number of applied actions, restore: exactly the original tree, inside and outside the selection |
| Recovery.CheckpointUndoesAroundStray | jiritsu-checkpoints/src/jiritsu_checkpoints/config_capture.py:137-212 | with a stray node: inside the selection the restore removes it, outside it stays beside the original tree and nothing else does |
| Recovery.RestoreIsPossible | jiritsu-checkpoints/src/jiritsu_checkpoints/config_capture.py:156-191 | after the actions the captured data is there and the way to it is clear, so such a restore fails only by a fault |
| Recovery.CaptureApplyRestore | jiritsu-proposals/src/jiritsu_proposals/providers.py:291-345 | the same through the code itself: whichever action fails, a completed restore gives the tree of the start, plus at most the stray node; without a fault all actions take effect in between, and the restore completes iff the policy file can carry the paths |
| PromotionRecovery.RestoreBringsBack | jiritsu-checkpoints/src/jiritsu_checkpoints/config_capture.py:156-212 | from any tree that differs in the targets, and in temporary files beside them, a restore brings every node back; only unselected temporary files stay |
| PromotionRecovery.WayStaysOpen | jiritsu-checkpoints/src/jiritsu_checkpoints/config_capture.py:120-134 | after any such change the captured data is there and the way to it is clear |
| PromotionRecovery.PromoteAndRestore | jiritsu-proposals/src/jiritsu_proposals/operations.py:256-359 | whatever becomes of a promotion, also if it fails or dies, restoring its checkpoint brings every node back; without a fault in capture and restore it completes |
| Journal.AllowedShape | jiritsu-broker/src/jiritsu_broker/broker.py:52-188 | an allowed sequence of events is some waiting attempts followed by at most one attempt that may end the request |
| Journal.AtMostOneOfEach | jiritsu-broker/src/jiritsu_broker/broker.py:52-188 | at most one action and one terminal result, and the terminal result is there iff the request is complete |
| Journal.TerminalInEvents | jiritsu-broker/src/jiritsu_broker/audit.py:168-179 | the journal has a terminal result of a request iff the events of that request have one |
| JournalText.CompleteAppendsAreReadable | jiritsu-broker/src/jiritsu_broker/audit.py:126-166 | the lines of a file of complete appends are the texts of the events iff no string of an event holds U+0085, U+2028 or U+2029; otherwise some line breaks off inside a string |
| JournalText.LinesLoseOnlyLineEnds | jiritsu-broker/src/jiritsu_broker/audit.py:142 | the lines of a text hold all its characters in order, without exactly the ten line ends |
| JsonText.EncodeShape | jiritsu-broker/src/jiritsu_broker/audit.py:51 | the punctuation of an encoded object with a string and a list |
| JournalText.EncodedLeads | jiritsu-broker/src/jiritsu_broker/audit.py:42-51 | the JSON text of any event has exactly one line end for each separator in its strings, all of them inside strings |
| JournalText.SeparatorSplitsRecord | jiritsu-broker/src/jiritsu_broker/audit.py:126-166 | a text that a separator divides at any point is read as its two parts |
| JournalText.RequestIsReadAsTwoLines | jiritsu-broker/src/jiritsu_broker/broker.py:64 | the complete append of any request event with one separator in its argument is read as two lines, and the first leaves a string open |
| JournalText.RequestCanBeUnreadable | jiritsu-broker/src/jiritsu_broker/broker.py:64 | such an event, letter by letter: a fact query whose selector holds U+2028 |
| Policy.Evaluate | jiritsu-broker/src/jiritsu_broker/policy.py:225-259 | the decision is the one of the first rule that names the operation, or "*", and a principal, or "*", if that rule has every required authority, and otherwise to deny; the rule and the granted authorities are the ones of that rule |
| Policy.FirstMatchDecides | jiritsu-broker/src/jiritsu_broker/policy.py:225-259 | the decision of a rule list is the one of its first matching rule |
| Policy.LaterRulesDoNotMatter | jiritsu-broker/src/jiritsu_broker/policy.py:225-232 | any rules in place of those behind the first match give the same decision |
| Broker.AuditJournal.Records | jiritsu-broker/src/jiritsu_broker/audit.py:126-166 | the events of one request in order, or an error if the file cannot be read or any line of it is bad |
| Broker.AuditJournal.IsComplete | jiritsu-broker/src/jiritsu_broker/audit.py:168-179 | if the journal can be read: true iff a terminal result of the request is stored |
| Broker.Decide | jiritsu-broker/src/jiritsu_broker/broker.py:65-110 | the verdict is to allow iff the request is permitted, and to wait iff only an approval is missing |
| Broker.RecordAttempt | jiritsu-broker/src/jiritsu_broker/broker.py:111-188 | from the decision on: the exact events of the attempt, the handler iff allowed, and a prefix of the events if an append fails |
| Broker.ExecuteLocked | jiritsu-broker/src/jiritsu_broker/broker.py:52-188 | a duplicate or a bad journal changes nothing; the handler runs iff the request is permitted and only after its action event; each status has its exact condition; the first call on the journal that fails, a read or an append, stops the attempt and leaves the beginning of an allowed one |
| Broker.AttemptKeepsOrder | jiritsu-broker/src/jiritsu_broker/broker.py:52-188 | an attempt that comes to its end keeps the events of its request in an allowed order and adds none to any other request |
| BrokerProtocol.StepKeepsInv | jiritsu-broker/src/jiritsu_broker/audit.py:42-124 | every step of every attempt, and every failure, keeps the locks and the account of handler runs consistent |
| BrokerProtocol.HandlerRunsAreBounded | jiritsu-broker/src/jiritsu_broker/broker.py:58-63 | with any crashes and failed appends, the handler of a request runs at most once plus once for each attempt interrupted after its action event |
| BrokerProtocol.HandlerRunsInSteps | jiritsu-broker/src/jiritsu_broker/broker.py:146-188 | the same, counted in the steps of the run: handler steps against failures after the action event |
| BrokerProtocol.NoRunAfterTerminal | jiritsu-broker/src/jiritsu_broker/broker.py:58-63 | with any failures, no handler runs once a terminal result of its request is stored |
| BrokerProtocol.JournalOrder | jiritsu-broker/src/jiritsu_broker/broker.py:42-188 | in every interleaving without failures the events of a request are waiting attempts and then one attempt, with at most one action and one terminal result |
| BrokerProtocol.UndisturbedAttempt | jiritsu-broker/src/jiritsu_broker/broker.py:52-188 | the steps of an attempt on its own append exactly the events of the sequential code |
| StateCache.StateCache.Apply | jiritsu-stated/rust/src/cache.rs:35-72 | the new state is the record of all outcomes in order; the epoch moves by one iff some outcome raised the flag |
| StateCache.StateCache.RecordProviderError | jiritsu-stated/rust/src/cache.rs:74-98 | the same as one error outcome for each fact, under its own ID |
| StateCache.CacheHoldsTheLastWord | jiritsu-stated/rust/src/cache.rs:35-98 | after any outcomes, each fact has the last value ever seen, and the last error exactly while there was no value |
| StateCache.BatchesAddUp | jiritsu-stated/rust/src/cache.rs:35-98 | a run of batches is one record of all their outcomes |
| StateCache.FlagIsExact | jiritsu-stated/rust/src/cache.rs:35-98 | for distinct IDs the epoch moves iff a value, its source, its fixture mark, an error or the presence of a fact changes; a change always moves it |
| StateCache.RepeatedIdCanRaiseTheFlagForNothing | jiritsu-stated/rust/src/cache.rs:35-72 | with a repeated ID the epoch can move although the state is the same |
| StateCache.OneEpochOneAnswer | jiritsu-stated/rust/src/cache.rs:68-70 | along any run, two moments with the same unsaturated epoch have the same values and errors |
| StateCache.OneEpochOneResponse | jiritsu-stated/rust/src/cache.rs:100-141 | two queries for the same facts at one unsaturated epoch have the same values, errors and status |
| StateCache.SameMeaningSameAnswer | jiritsu-stated/rust/src/cache.rs:100-141 | states of the same meaning answer every query with the same status, errors and values |
| StateCache.Direct | jiritsu-stated/rust/src/collector.rs:67-107 | the response of a direct collection: the values by ID, the errors in order, and the status |
| StateCache.RestrictionCommutes | jiritsu-stated/rust/src/cache.rs:100-112 | asking the cache for some facts is the same as having recorded only their outcomes |
| StateCache.DaemonAgreesWithDirect | jiritsu-stated/rust/src/cache.rs:100-141 | a fresh cache with one batch of outcomes and a direct collection of the selected ones give the same facts, errors and status |
| Catalog.CatalogIdsAreDistinct | jiritsu-stated/rust/src/catalog.rs:396-520 | no two catalog facts share an ID |
| Catalog.DynamicFacts | jiritsu-stated/rust/src/catalog.rs:396-520 | which six of the thirteen facts are dynamic |
| Catalog.OfClass | jiritsu-stated/rust/src/catalog.rs:557-562 | exactly the facts of one refresh class, each once |
| Catalog.SelectorsNameNamespaces | jiritsu-stated/rust/src/catalog.rs:529-533 | a selector matches an ID iff it is the ID, or its segments are the first of the ID's segments and the ID has more |
| Catalog.TrimDotsRemovesDots | jiritsu-stated/rust/src/catalog.rs:529 | trimming removes dots only, and leaves none at the end |
| Catalog.SelectFacts | jiritsu-stated/rust/src/catalog.rs:522-555 | succeeds iff every selector matches; then exactly the matching facts, each once, ordered by first selector and then by catalog; otherwise the list of unknown selectors |
| RefreshWorker.CombineCovers | jiritsu-stated/rust/src/daemon.rs:340-347 | two combined requests ask for the facts of both and no other |
| RefreshWorker.CoalescingLosesNothing | jiritsu-stated/rust/src/daemon.rs:298-302 | a merged queue asks for exactly the union of the facts of its requests |
| RefreshWorker.Drain | jiritsu-stated/rust/src/daemon.rs:298-302 | the loop over waiting requests computes the merge of the first and all waiting ones |
| RefreshWorker.Collect | jiritsu-stated/rust/src/collector.rs:10-65 | one outcome for each fact in order: the value, or the error of its task under its own ID |
| RefreshWorker.RefreshOnce | jiritsu-stated/rust/src/daemon.rs:318-338 | the cache records exactly the outcomes of the collection, or the provider error for each requested fact |
| RefreshWorker.InitialInv | jiritsu-stated/rust/src/daemon.rs:74-80 | after the first full refresh every catalog fact has exactly one of a value and an error |
| RefreshWorker.StepKeepsInv | jiritsu-stated/rust/src/daemon.rs:293-316 | every step of queue and worker keeps the cache complete, loses no accepted request, and keeps fresh values fresh |
| RefreshWorker.QueryIsComplete | jiritsu-stated/rust/src/cache.rs:100-121 | every selected fact is answered with a value or an error, so the status is `ok` iff all have values |
| RefreshWorker.BuildResponse | jiritsu-stated/rust/src/daemon.rs:232-284 | refuses exactly unknown selectors; otherwise every fact that the selectors name is answered with its own value or error from the cache, no other fact is, and the status says whether all, some or no values are there |
| RefreshWorker.RunIsNeverOlder | jiritsu-stated/rust/src/daemon.rs:293-338 | along any run no value disappears and no older observation replaces a newer one |
| RefreshWorker.RequestsAreServed | jiritsu-stated/rust/src/daemon.rs:293-316 | when the worker rests, every fact of every accepted request was collected in an attempt that started after the acceptance, and its value, if that attempt gave one, was observed after it |
| RefreshWorker.EveryRequestIsServed | jiritsu-stated/rust/src/daemon.rs:293-316 | the same for every request that the queue takes in during a run, by its position |
| RefreshWorker.StartTakesAll | jiritsu-stated/rust/src/daemon.rs:298-302 | a collection starts only with all accepted requests that are not served yet |
| RefreshWorker.WorkerComesToRest | jiritsu-stated/rust/src/daemon.rs:293-316 | until it rests the worker can move, and each of its moves leaves less work |
| FactPath.DescendField | jiritsu-workload/src/jiritsu_workload/probes.py:244-247 | a field of an object gives that field; a missing field, or a value that is no object, gives nothing |
| FactPath.DescendItems | jiritsu-workload/src/jiritsu_workload/probes.py:238-243 | a wildcard on an array gives its items in order; on any other value nothing |
| FactPath.DescendInParts | jiritsu-workload/src/jiritsu_workload/probes.py:230-253 | a path in two parts goes on with the second part from every value of the first |
| FactPath.DottedPath | jiritsu-workload/src/jiritsu_workload/probes.py:236 | the path `p.q` gives what `q` gives on the value of `p` |
| FactPath.Level | jiritsu-workload/src/jiritsu_workload/probes.py:234-247 | one segment for all selected values at once agrees with the descent of each value on its own, for every rest of the path |
| FactPath.ExtractFactPath | jiritsu-workload/src/jiritsu_workload/probes.py:230-253 | fails iff some branch of the descent fails, with the error of a value that the path reaches; else the same values in the same order; one field gives its value and one wildcard the array; without `*` exactly one value, so the last error cannot occur |

## Left out

- Symbolic links, `resolve()`, ownership, special nodes, and the enforcement of permissions. A planned directory whose mode forbids writing shows up only as a system call that fails.
- SHA-256, JSON and TOML, apart from the texts of journal events and the strings of the policy file. Digests are values of an arbitrary function; no lemma needs it to be injective.
- Of the recovery information in a record, all but its status and the linked checkpoint.
- Actors, timestamps, event names and details, and the public form of responses. Field checks of definitions other than the action list, paths and ID.
- Other programs that change the configuration tree while a promotion or a restore is under way. Locks are per proposal, so the theorems about the tree hold when others touch unrelated paths only; `PromotionProtocol` has all interleavings of the records.
- Machine state, workload probes, Snapper, `sudo`, and the commands of other modules. Their results are arbitrary inputs.
- The socket server, watchers, timers and signals. Of the daemon only the bounded queue and its worker are modelled; an event that is dropped because the queue is full is not an accepted request.
- Loading of broker policy files, workload contracts, evaluation of fact operators, assessment counts, listings and summaries: single branches over checked data.
- Parsers of machine facts.
- Creation of the parents of the configuration root by a copy. Paths above the root are not in the tree.
- Promotion.ProposalStore.ClassifyProposal: a target that cannot be read is one arbitrary refusal before the inspection, because which read fails does not matter for what is stored.
- Broker.AuditJournal.Append: does not model how a line merges with one that was cut short before it, because an attempt refuses a journal with such a line; `BrokerProtocol` models the merge. A write that is cut exactly before its line end, which leaves a readable line, is not modelled. A complete append always leaves one readable line here, which is so under the condition that `JournalText` proves; and a line that is cut inside a character, which the code reports as an unavailable journal, is reported as a corrupt one.
- RefreshWorker.StepKeepsInv: observation times come from one clock that never goes back, which a fixture provider with fixed times does not have.
- StateCache.DaemonAgreesWithDirect: compares the errors as a set, because the cache lists them by fact ID and a direct collection by selection order.
