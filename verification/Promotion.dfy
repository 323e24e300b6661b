/**
 The operations on stored proposals. Each operation reads one record, changes its copy and saves
 it; a save replaces the stored record atomically.

 `Interrupted` stands for a crash and for an exception that no handler catches, such as a failed
 save. `fault` collects every failure that has no visible reason.
 */
module Promotion {
  import opened Wrappers
  import opened ConfigTree
  import opened Actions
  import opened Rollback
  import opened ActionRunner
  import opened Lifecycle
  import opened Validation

  type Id = string

  datatype Classification = Classification(configRoot: string, actionDigest: Digest, targets: seq<Observation>)

  datatype Failure = RecoveryPreparationFailed | ActionFailed | VerificationFailed | WorkloadRegression

  datatype Report = Report(applied: seq<Applied>, failure: Option<Failure>, rollback: seq<Item>)

  datatype PointStatus = NoPoint | PlannedPoint | ReadyPoint | AvailablePoint | RestoredPoint | FailedPoint

  /** The recovery point of a proposal, with the linked checkpoint if there is one. */
  datatype RecoveryPoint = RecoveryPoint(status: PointStatus, checkpoint: Option<string>)

  datatype Proposal = Proposal(
    life: Life,
    actions: seq<Action>,
    classification: Option<Classification>,
    approvedDigest: Option<Digest>,
    verification: seq<Check>,
    plan: seq<Strategy>,
    report: Option<Report>,
    point: RecoveryPoint)

  datatype Refusal =
    | ProposalExists | ProposalNotFound | InvalidId | DefinitionInvalid | InvalidTransition
    | ConfigRootMissing | ConfigRootChanged | ApprovalScopeChanged
    | TargetInspectionFailed | InspectionRefused(action: nat, error: InspectError) | TargetStateChanged

  datatype Outcome = Returned(proposal: Proposal) | Refused(refusal: Refusal) | Interrupted

  /** What the workload module reported; `critical` are the critical capabilities that do not pass. */
  datatype Workloads = Workloads(provider: string, critical: set<string>)

  function NewCriticalFailures(before: Workloads, after: Workloads): set<string> {
    if before.provider == "jiritsu-workload" && after.provider == "jiritsu-workload"
    then after.critical - before.critical
    else {}
  }

  /**
   What a promotion gets from other modules: whether a critical workload fails that did not fail before,
   and the prepared recovery point, if preparing it did not fail.
   */
  datatype Environment = Environment(regression: bool, prepared: Option<Option<string>>)

  /** Both reports can be compared, and a critical capability passed before and does not pass now. */
  ghost predicate Regressed(before: Workloads, after: Workloads) {
    before.provider == "jiritsu-workload" && after.provider == "jiritsu-workload" &&
    exists c :: c in after.critical && c !in before.critical
  }

  lemma RegressedMeansNewFailures(before: Workloads, after: Workloads)
    ensures NewCriticalFailures(before, after) != {} <==> Regressed(before, after)
  {
    var failures := NewCriticalFailures(before, after);
    if failures != {} {
      var c :| c in failures;
      assert c in after.critical && c !in before.critical;
    }
    if Regressed(before, after) {
      var c :| c in after.critical && c !in before.critical;
      assert c in failures;
    }
  }

  /** A stored verification list and recovery plan come from one accepted inspection. */
  ghost predicate FromInspection(p: Proposal, sha: Sha)
    requires p.classification.Some?
  {
    exists t: Tree :: Inspected(t, p, sha)
  }

  ghost predicate Inspected(t: Tree, p: Proposal, sha: Sha)
    requires p.classification.Some?
  {
    var inspection := InspectionOf(t, p.actions, sha);
    && Accepts(t, p.actions, sha)
    && inspection.targets == p.classification.value.targets
    && inspection.verification == p.verification
    && inspection.recovery == p.plan
  }

  /** What every stored record satisfies, in every state. */
  ghost predicate RecordOk(p: Proposal, sha: Sha, digestOf: seq<Action> -> Digest) {
    && HistoryOk(p.life)
    && ActionsOk(p.actions)
    && (p.life.state == Classified || p.life.state == Approved || Underway(p.life.state) ==>
          && p.classification.Some? && p.classification.value.actionDigest == digestOf(p.actions)
          && FromInspection(p, sha))
    && (p.life.state == Approved || Underway(p.life.state) ==>
          p.approvedDigest == Some(digestOf(p.actions)))
    && PointOk(p)
    && (Ended(p.life.state) ==> p.report.Some?)
    && (p.life.state == Committed ==> p.report.value.failure.None? && PlanUsed(p))
    && (p.life.state == RolledBack ==> AllRestored(p.report.value.rollback))
    && (p.life.state == Failed ==> !AllRestored(p.report.value.rollback))
  }

  /** The recovery point goes along with the state. */
  predicate PointOk(p: Proposal) {
    match p.life.state
    case Draft => p.point == RecoveryPoint(NoPoint, None)
    case Classified => p.point == RecoveryPoint(PlannedPoint, None)
    case Approved => p.point == RecoveryPoint(PlannedPoint, None)
    case Applying => p.point == RecoveryPoint(PlannedPoint, None) || p.point.status == ReadyPoint
    case Committed => p.point.status == AvailablePoint
    case RolledBack => p.point.status == RestoredPoint
    case Failed => p.point.status == FailedPoint
    case Rejected => p.point.status == NoPoint || p.point.status == PlannedPoint
  }

  /** The recovery point that a finished promotion stores. */
  function EndPoint(to: State, checkpoint: Option<string>): RecoveryPoint {
    RecoveryPoint(
      match to case Committed => AvailablePoint case RolledBack => RestoredPoint case _ => FailedPoint, checkpoint)
  }

  /** Each action was applied with the strategy that was stored at classification. */
  predicate PlanUsed(p: Proposal)
    requires p.report.Some?
  {
    |p.report.value.applied| == |p.plan| == |p.actions| &&
    forall i :: 0 <= i < |p.plan| ==> p.report.value.applied[i].recovery == p.plan[i]
  }

  function TargetsOf(actions: seq<Action>): set<Path> {
    set a | a in actions :: a.path
  }

  /** The old tree, perhaps with the node that one failed action left behind. */
  ghost predicate OldOrStray(before: Tree, after: Tree, actions: seq<Action>) {
    after == before ||
    exists s, i :: 0 <= i < |actions| && StrayAt(before, after, s) && LeftBy(actions[i], s, after[s])
  }

  /** The old tree, a stray node below a directory that is new, and the new directories that lead to it. */
  ghost predicate LeadsToStray(before: Tree, after: Tree, actions: seq<Action>) {
    exists s, full, i {:trigger actions[i], Residue(full, before, s)} ::
      && 0 <= i < |actions| && s in full && LeftBy(actions[i], s, full[s])
      && Parent(s) !in before && after == before + Residue(full, before, s)
  }

  /**
   A target after rollback. If its item is restored, it is as it was before the promotion, up to a
   temporary file at a place that was free; if not, it still has what the action gave it.
   */
  ghost predicate TargetIsBack(before: Tree, after: Tree, a: Action, restored: bool, targets: set<Path>) {
    if !restored then a.path in after && after[a.path] == Desired(before, a)
    else if a.path in before then a.path in after && after[a.path] == before[a.path]
    else a.path in after ==> Beside(a.path, targets)
  }

  /**
   A target at any moment of a promotion: as before, as the action wants it, or at a place that was
   free, a new directory whose mode is not set yet or a temporary file.
   */
  ghost predicate TargetIntact(before: Tree, after: Tree, a: Action, targets: set<Path>) {
    if a.path in after then
      || (a.path in before && after[a.path] == before[a.path])
      || after[a.path] == Desired(before, a)
      || (a.path !in before && (Beside(a.path, targets) || (a.Mkdir? && after[a.path].Dir?)))
    else
      a.path !in before
  }

  ghost predicate AllIntact(before: Tree, after: Tree, actions: seq<Action>) {
    forall i :: 0 <= i < |actions| ==> TargetIntact(before, after, actions[i], TargetsOf(actions))
  }

  /** The report has one item for each action that took effect, and each item is true of its target. */
  ghost predicate ReportIsTrue(before: Tree, after: Tree, actions: seq<Action>, report: Option<Report>) {
    report.Some? &&
    var applied, items := report.value.applied, report.value.rollback;
    && |applied| <= |actions| && applied == Records(before, actions, |applied|) && Answers(items, applied)
    && forall k :: 0 <= k < |applied| ==>
         TargetIsBack(before, after, actions[k], items[|applied| - 1 - k].restored, TargetsOf(actions))
  }

  /** The failure that a report names is the one that happened. */
  ghost predicate Reasoned(report: Option<Report>, actions: seq<Action>, env: Environment, fault: bool) {
    report.Some? &&
    match report.value.failure
    case Some(RecoveryPreparationFailed) => env.prepared.None? && report.value.applied == []
    case Some(ActionFailed) => env.prepared.Some? && |report.value.applied| < |actions|
    case Some(VerificationFailed) => env.prepared.Some? && |report.value.applied| == |actions| && fault
    case Some(WorkloadRegression) => env.prepared.Some? && |report.value.applied| == |actions| && env.regression
    case None => false
  }

  /** The stored recovery point says how the promotion ended, and keeps the linked checkpoint. */
  ghost predicate PointTells(p: Proposal, env: Environment) {
    && (p.life.state == Committed <==> p.point.status == AvailablePoint)
    && (p.life.state == RolledBack <==> p.point.status == RestoredPoint)
    && (p.life.state == Failed <==> p.point.status == FailedPoint)
    && p.point.checkpoint == if env.prepared.Some? then env.prepared.value else None
  }

  /** What the stored end of a promotion means, for the record and for the tree. */
  ghost predicate EndMeans(
    end: Proposal, p: Proposal, before: Tree, after: Tree, env: Environment, fault: bool, rollbackFault: bool)
  {
    && end == p.(life := end.life, report := end.report, point := end.point)
    && Settled(p.life, end.life) && PointTells(end, env)
    && if end.life.state == Committed then
         && Overridden(before, after, p.actions) && !env.regression && env.prepared.Some?
         && end.report == Some(Report(Records(before, p.actions, |p.actions|), None, []))
       else
         && ReportIsTrue(before, after, p.actions, end.report)
         && Reasoned(end.report, p.actions, env, fault)
         && (end.life.state == RolledBack <==> AllRestored(end.report.value.rollback))
         && if end.life.state == RolledBack then OldOrStray(before, after, p.actions)
            else rollbackFault || LeadsToStray(before, after, p.actions)
  }

  /**
   How a promotion ends whose record `p` has reached `applying`, and what each end means for the
   tree. Without a fault the end is decided by the root and by the environment alone.
   */
  ghost predicate RunOutcome(
    r: Outcome, p: Proposal, before: Tree, after: Tree, env: Environment, fault: bool, rollbackFault: bool)
  {
    && !r.Refused? && WellFormed(after)
    && OthersKept(before, after, TargetsOf(p.actions)) && AllIntact(before, after, p.actions)
    && (r.Returned? ==> EndMeans(r.proposal, p, before, after, env, fault, rollbackFault))
    && (!fault ==>
          && r.Returned? && !rollbackFault
          && if IsDir(before, []) && !env.regression && env.prepared.Some?
             then r.proposal.life.state == Committed
             else r.proposal.life.state == RolledBack && after == before)
  }

  /** The tree after `n` actions took effect and the next one, if it failed, left at most a stray node. */
  ghost predicate Reached(t: Tree, actions: seq<Action>, n: nat, now: Tree, stray: Option<Path>)
    requires n <= |actions|
  {
    match stray
    case None => now == AfterN(t, actions, n)
    case Some(s) => n < |actions| && StrayAt(AfterN(t, actions, n), now, s) && LeftBy(actions[n], s, now[s])
  }

  lemma ReachedIsWellFormed(t: Tree, actions: seq<Action>, n: nat, now: Tree, stray: Option<Path>)
    requires WellFormed(t) && n <= |actions| && ApplicableN(t, actions, n) && Reached(t, actions, n, now, stray)
    ensures WellFormed(now)
  {
    AfterNIsWellFormed(t, actions, n);
    forall q | q in now && q != []
      ensures IsDir(now, Parent(q))
    {
      assert q in AfterN(t, actions, n) ==> IsDir(AfterN(t, actions, n), Parent(q));
    }
  }

  lemma ReachedKeepsOthers(t: Tree, actions: seq<Action>, n: nat, now: Tree, stray: Option<Path>)
    requires n <= |actions| && Reached(t, actions, n, now, stray)
    ensures OthersKept(t, now, TargetsOf(actions))
  {
    forall q | q !in TargetsOf(actions)
      ensures q in t ==> q in now && now[q] == t[q]
      ensures q in now && q !in t ==> Beside(q, TargetsOf(actions))
    {
      forall i | 0 <= i < n
        ensures actions[i].path != q
      {
        assert actions[i] in actions;
      }
      OthersUntouched(t, actions, n, q);
      assert n < |actions| ==> actions[n] in actions;
    }
  }

  lemma RecordsNameTargets(t: Tree, actions: seq<Action>, n: nat)
    requires n <= |actions|
    ensures forall m :: 0 <= m <= n ==> ChangedFrom(Records(t, actions, n), m) <= TargetsOf(actions)
  {
    forall k | 0 <= k < n
      ensures Records(t, actions, n)[k].path in TargetsOf(actions)
    {
      assert actions[k] in actions;
    }
  }

  /** The target of an action that took effect, when rollback starts. */
  lemma TargetIsReached(t: Tree, actions: seq<Action>, n: nat, now: Tree, stray: Option<Path>, k: nat)
    requires DistinctPaths(actions) && k < n <= |actions| && Reached(t, actions, n, now, stray)
    ensures actions[k].path in now && now[actions[k].path] == Desired(t, actions[k])
  {
    TargetSettles(t, actions, k, n);
  }

  lemma TargetComesBack(
    t: Tree, actions: seq<Action>, n: nat, now: Tree, stray: Option<Path>, after: Tree, k: nat, restored: bool,
    m: nat, files: Backups)
    requires DistinctPaths(actions) && m <= k < n <= |actions| && Reached(t, actions, n, now, stray)
    requires ApplicableN(t, actions, n) && BackedUpN(t, actions, n, files)
    requires TargetSettled(now, after, RecordAt(t, actions, k), restored, files, ChangedFrom(Records(t, actions, n), m))
    ensures TargetIsBack(t, after, actions[k], restored, TargetsOf(actions))
  {
    TargetIsReached(t, actions, n, now, stray, k);
    OthersUntouched(t, actions, k, actions[k].path);
    ApplicablePrefix(t, actions, k + 1, n);
    RecordsNameTargets(t, actions, n);
    assert BackedUp(t, actions, k, files);
  }

  lemma RollbackEnds(t: Tree, actions: seq<Action>, n: nat, now: Tree, stray: Option<Path>, files: Backups)
    requires WellFormed(t) && n <= |actions| && ApplicableN(t, actions, n) && BackedUpN(t, actions, n, files)
    requires Reached(t, actions, n, now, stray)
    ensures WellFormed(now)
    ensures var undone := UndoN(now, Records(t, actions, n), n, files);
            && (stray.None? ==> undone.tree == t && AllRestored(undone.items))
            && (AllRestored(undone.items) ==> OldOrStray(t, undone.tree, actions))
            && (!AllRestored(undone.items) ==> LeadsToStray(t, undone.tree, actions))
  {
    AfterNIsWellFormed(t, actions, n);
    ReachedIsWellFormed(t, actions, n, now, stray);
    var rs := Records(t, actions, n);
    match stray {
      case None =>
        RollbackInverts(t, actions, rs, n, files);
      case Some(s) =>
        RollbackWithStray(t, actions, n, now, s, files);
        var undone := UndoN(now, rs, n, files);
        if !AllRestored(undone.items) {
          assert undone.tree == t + Residue(now, t, s);
          if Parent(s) in t {
            NodesPersist(t, actions, 0, n, Parent(s));
          }
        }
    }
  }

  /** The record that a rollback stores: what `FinishRollback` promises about its result. */
  ghost predicate Finished(
    r: Outcome, p: Proposal, applied: seq<Applied>, before: Tree, after: Tree, files: Backups, rollbackFault: bool)
  {
    && !r.Refused? && WellFormed(after)
    && (exists m :: 0 <= m <= |applied| && PartlyUndone(before, after, applied, m, files))
    && (r.Returned? ==>
          && r.proposal.report.Some? && r.proposal.report.value.applied == applied
          && Answers(r.proposal.report.value.rollback, applied)
          && (DistinctTargets(applied) ==>
                TargetsSettled(before, after, applied, 0, r.proposal.report.value.rollback, files))
          && r.proposal == p.(life := r.proposal.life, report := r.proposal.report, point := r.proposal.point)
          && r.proposal.point == EndPoint(r.proposal.life.state, p.point.checkpoint)
          && Settled(p.life, r.proposal.life)
          && r.proposal.life.state == (if AllRestored(r.proposal.report.value.rollback) then RolledBack else Failed)
          && (r.proposal.life.state == RolledBack ==> !rollbackFault)
          && (!rollbackFault ==>
                Undone(after, r.proposal.report.value.rollback) == UndoN(before, applied, |applied|, files)))
  }

  /** The report that a rollback from `now` stores is true of the tree from which the promotion started. */
  lemma ReportComesTrue(
    t: Tree, actions: seq<Action>, n: nat, now: Tree, stray: Option<Path>, after: Tree, report: Report, files: Backups)
    requires DistinctPaths(actions) && n <= |actions| && Reached(t, actions, n, now, stray)
    requires ApplicableN(t, actions, n) && BackedUpN(t, actions, n, files)
    requires report.applied == Records(t, actions, n) && Answers(report.rollback, report.applied)
    requires DistinctTargets(report.applied) ==>
               TargetsSettled(now, after, report.applied, 0, report.rollback, files)
    ensures ReportIsTrue(t, after, actions, Some(report))
  {
    var rs, items := report.applied, report.rollback;
    assert DistinctTargets(rs);
    forall k | 0 <= k < n
      ensures TargetIsBack(t, after, actions[k], items[n - 1 - k].restored, TargetsOf(actions))
    {
      assert TargetSettled(now, after, rs[k], items[|rs| - 1 - k].restored, files, ChangedFrom(rs, 0));
      assert rs[k] == RecordAt(t, actions, k);
      TargetComesBack(t, actions, n, now, stray, after, k, items[n - 1 - k].restored, 0, files);
    }
  }

  /** A process that dies in a rollback has undone the last records; `left` records are still to undo. */
  method DieInRollback(left: nat, config: Disk, recovery: RecoveryDir, applied: seq<Applied>)
    requires left <= |applied| && WellFormed(config.tree)
    modifies config
    ensures WellFormed(config.tree)
    ensures PartlyUndone(old(config.tree), config.tree, applied, left, recovery.files)
  {
    ghost var before := config.tree;
    var items, _ := RollbackActions(applied[left..], config, recovery);
    SuffixIsUndone(before, config.tree, applied, left, items, recovery.files);
  }

  /** The target of an action that has not taken effect, when the actions stop. */
  lemma TargetNotReached(t: Tree, actions: seq<Action>, n: nat, now: Tree, stray: Option<Path>, k: nat)
    requires DistinctPaths(actions) && n <= k < |actions| && Reached(t, actions, n, now, stray)
    ensures var p := actions[k].path;
            && (p in t ==> p in now && now[p] == t[p])
            && (p in now && p !in t ==>
                  Beside(p, TargetsOf(actions)) || (actions[k].Mkdir? && now[p].Dir?))
  {
    OthersUntouched(t, actions, n, actions[k].path);
    assert n < |actions| ==> actions[n] in actions;
  }

  lemma ReachedIsIntact(t: Tree, actions: seq<Action>, n: nat, now: Tree, stray: Option<Path>)
    requires DistinctPaths(actions) && n <= |actions| && Reached(t, actions, n, now, stray)
    ensures AllIntact(t, now, actions)
  {
    forall k | 0 <= k < |actions|
      ensures TargetIntact(t, now, actions[k], TargetsOf(actions))
    {
      if k < n {
        TargetIsReached(t, actions, n, now, stray, k);
      } else {
        TargetNotReached(t, actions, n, now, stray, k);
      }
    }
  }

  /** A target that a rollback, down to record `m`, does not touch: its action is not among those undone. */
  lemma NotUndoneYet(t: Tree, actions: seq<Action>, n: nat, m: nat, k: nat)
    requires DistinctPaths(actions) && m <= n <= |actions| && k < |actions| && (k < m || n <= k)
    ensures actions[k].path !in ChangedFrom(Records(t, actions, n), m)
  {
  }

  lemma UntouchedIsIntact(
    t: Tree, actions: seq<Action>, n: nat, now: Tree, stray: Option<Path>, after: Tree, m: nat, k: nat)
    requires DistinctPaths(actions) && m <= n <= |actions| && k < |actions| && (k < m || n <= k)
    requires Reached(t, actions, n, now, stray)
    requires OthersKept(now, after, ChangedFrom(Records(t, actions, n), m))
    ensures TargetIntact(t, after, actions[k], TargetsOf(actions))
  {
    var changed := ChangedFrom(Records(t, actions, n), m);
    NotUndoneYet(t, actions, n, m, k);
    RecordsNameTargets(t, actions, n);
    if k < n {
      TargetIsReached(t, actions, n, now, stray, k);
    } else {
      TargetNotReached(t, actions, n, now, stray, k);
    }
    MoreNamed(now, after, changed, TargetsOf(actions));
    assert Beside(actions[k].path, changed) ==> Beside(actions[k].path, TargetsOf(actions));
  }

  lemma BackIsIntact(before: Tree, after: Tree, a: Action, restored: bool, targets: set<Path>)
    requires TargetIsBack(before, after, a, restored, targets)
    ensures TargetIntact(before, after, a, targets)
  {
  }

  lemma RecordsAreDistinct(t: Tree, actions: seq<Action>, n: nat)
    requires DistinctPaths(actions) && n <= |actions|
    ensures DistinctTargets(Records(t, actions, n))
  {
  }

  /** The target of a record that the rollback has come to. */
  lemma UndoneIsIntact(
    t: Tree, actions: seq<Action>, n: nat, now: Tree, stray: Option<Path>, after: Tree, m: nat, k: nat,
    items: seq<Item>, files: Backups)
    requires DistinctPaths(actions) && m <= k < n <= |actions| && Reached(t, actions, n, now, stray)
    requires ApplicableN(t, actions, n) && BackedUpN(t, actions, n, files)
    requires UndoneFrom(now, after, Records(t, actions, n), m, items, files)
    ensures TargetIntact(t, after, actions[k], TargetsOf(actions))
  {
    var rs := Records(t, actions, n);
    var restored := items[n - 1 - k].restored;
    RecordsAreDistinct(t, actions, n);
    assert TargetSettled(now, after, rs[k], items[|rs| - 1 - k].restored, files, ChangedFrom(rs, m));
    assert rs[k] == RecordAt(t, actions, k);
    TargetComesBack(t, actions, n, now, stray, after, k, restored, m, files);
    BackIsIntact(t, after, actions[k], restored, TargetsOf(actions));
  }

  /** Wherever a rollback dies, every target is intact. */
  lemma PartlyUndoneIsIntact(
    t: Tree, actions: seq<Action>, n: nat, now: Tree, stray: Option<Path>, after: Tree, m: nat, files: Backups)
    requires DistinctPaths(actions) && m <= n <= |actions| && Reached(t, actions, n, now, stray)
    requires ApplicableN(t, actions, n) && BackedUpN(t, actions, n, files)
    requires PartlyUndone(now, after, Records(t, actions, n), m, files)
    ensures AllIntact(t, after, actions)
  {
    var items: seq<Item> :| UndoneFrom(now, after, Records(t, actions, n), m, items, files);
    forall k | 0 <= k < |actions|
      ensures TargetIntact(t, after, actions[k], TargetsOf(actions))
    {
      if m <= k < n {
        UndoneIsIntact(t, actions, n, now, stray, after, m, k, items, files);
      } else {
        UntouchedIsIntact(t, actions, n, now, stray, after, m, k);
      }
    }
  }

  /** Where the actions stopped: the records of those that took effect, their backups, and the tree. */
  ghost predicate StoppedAt(
    actions: seq<Action>, start: Tree, now: Tree, applied: seq<Applied>, stray: Option<Path>, files: Backups)
  {
    && WellFormed(start) && |applied| <= |actions| && applied == Records(start, actions, |applied|)
    && ApplicableN(start, actions, |applied|) && BackedUpN(start, actions, |applied|, files)
    && Reached(start, actions, |applied|, now, stray)
  }

  lemma StoppedIsWellFormed(
    actions: seq<Action>, start: Tree, now: Tree, applied: seq<Applied>, stray: Option<Path>, files: Backups)
    requires StoppedAt(actions, start, now, applied, stray, files)
    ensures WellFormed(now)
  {
    ReachedIsWellFormed(start, actions, |applied|, now, stray);
  }

  lemma SettledOutcome(
    r: Outcome, p: Proposal, applied: seq<Applied>, start: Tree, now: Tree, stray: Option<Path>, after: Tree,
    files: Backups, env: Environment, fault: bool, rollbackFault: bool)
    requires DistinctPaths(p.actions) && StoppedAt(p.actions, start, now, applied, stray, files)
    requires Finished(r, p, applied, now, after, files, rollbackFault)
    requires !fault ==> stray.None? && r.Returned? && !rollbackFault
    requires !fault ==> (IsDir(start, []) && env.prepared.Some? ==> env.regression)
    requires r.Returned? ==> Reasoned(r.proposal.report, p.actions, env, fault)
    requires p.point.checkpoint == if env.prepared.Some? then env.prepared.value else None
    ensures RunOutcome(r, p, start, after, env, fault, rollbackFault)
  {
    RollbackOutcome(r, p, |applied|, start, now, stray, after, files, env, fault, rollbackFault);
  }

  /** The stored end of a rollback: the report is true, and the state is the one of its items. */
  lemma RollbackMeans(
    end: Proposal, p: Proposal, n: nat, start: Tree, now: Tree, stray: Option<Path>, after: Tree, files: Backups,
    env: Environment, fault: bool, rollbackFault: bool)
    requires WellFormed(start) && DistinctPaths(p.actions) && n <= |p.actions|
    requires ApplicableN(start, p.actions, n) && BackedUpN(start, p.actions, n, files)
    requires Reached(start, p.actions, n, now, stray)
    requires Finished(Returned(end), p, Records(start, p.actions, n), now, after, files, rollbackFault)
    requires Reasoned(end.report, p.actions, env, fault)
    requires p.point.checkpoint == if env.prepared.Some? then env.prepared.value else None
    ensures EndMeans(end, p, start, after, env, fault, rollbackFault)
    ensures stray.None? && !rollbackFault ==> end.life.state == RolledBack && after == start
  {
    RollbackEnds(start, p.actions, n, now, stray, files);
    ReportComesTrue(start, p.actions, n, now, stray, after, end.report.value, files);
  }

  lemma RollbackOutcome(
    r: Outcome, p: Proposal, n: nat, start: Tree, now: Tree, stray: Option<Path>, after: Tree, files: Backups,
    env: Environment, fault: bool, rollbackFault: bool)
    requires WellFormed(start) && DistinctPaths(p.actions) && n <= |p.actions|
    requires ApplicableN(start, p.actions, n) && BackedUpN(start, p.actions, n, files)
    requires Reached(start, p.actions, n, now, stray)
    requires Finished(r, p, Records(start, p.actions, n), now, after, files, rollbackFault)
    requires !fault ==> stray.None? && r.Returned? && !rollbackFault
    requires !fault ==> (IsDir(start, []) && env.prepared.Some? ==> env.regression)
    requires r.Returned? ==> Reasoned(r.proposal.report, p.actions, env, fault)
    requires p.point.checkpoint == if env.prepared.Some? then env.prepared.value else None
    ensures RunOutcome(r, p, start, after, env, fault, rollbackFault)
  {
    var m :| 0 <= m <= n && PartlyUndone(now, after, Records(start, p.actions, n), m, files);
    PartlyUndoneIsIntact(start, p.actions, n, now, stray, after, m, files);
    RollbackKeepsOthers(p.actions, n, start, now, stray, after, m, files);
    if r.Returned? {
      RollbackMeans(r.proposal, p, n, start, now, stray, after, files, env, fault, rollbackFault);
    }
  }

  /** A rollback without records does not touch the tree. */
  lemma NothingToUndo(
    r: Outcome, p: Proposal, before: Tree, after: Tree, files: Backups, rollbackFault: bool)
    requires Finished(r, p, [], before, after, files, rollbackFault)
    ensures after == before
  {
    var applied: seq<Applied> := [];
    var m :| 0 <= m <= |applied| && PartlyUndone(before, after, applied, m, files);
    var items: seq<Item> :| UndoneFrom(before, after, applied, m, items, files);
    assert ChangedFrom(applied, m) == {};
    assert forall q :: !Beside(q, {});
  }

  lemma RollbackKeepsOthers(
    actions: seq<Action>, n: nat, start: Tree, now: Tree, stray: Option<Path>, after: Tree, m: nat, files: Backups)
    requires m <= n <= |actions| && Reached(start, actions, n, now, stray)
    requires PartlyUndone(now, after, Records(start, actions, n), m, files)
    ensures OthersKept(start, after, TargetsOf(actions))
  {
    var items: seq<Item> :| UndoneFrom(now, after, Records(start, actions, n), m, items, files);
    ReachedKeepsOthers(start, actions, n, now, stray);
    RecordsNameTargets(start, actions, n);
    OthersStillKept(start, now, after, ChangedFrom(Records(start, actions, n), m), TargetsOf(actions));
  }

  lemma CommitOutcome(r: Outcome, p: Proposal, start: Tree, env: Environment, fault: bool)
    requires !env.regression && env.prepared == Some(p.point.checkpoint)
    requires DistinctPaths(p.actions) && !r.Refused?
    requires WellFormed(start) && ApplicableN(start, p.actions, |p.actions|)
    requires r.Returned? ==>
               r.proposal == p.(life := Transition(p.life, Committed),
                                report := Some(Report(Records(start, p.actions, |p.actions|), None, [])),
                                point := EndPoint(Committed, p.point.checkpoint))
    requires !fault ==> r.Returned? && IsDir(start, [])
    ensures RunOutcome(r, p, start, AfterN(start, p.actions, |p.actions|), env, fault, false)
  {
    AppliedTreeIsOverridden(start, p.actions);
    AfterNIsWellFormed(start, p.actions, |p.actions|);
    ReachedIsIntact(start, p.actions, |p.actions|, AfterN(start, p.actions, |p.actions|), None);
    ReachedKeepsOthers(start, p.actions, |p.actions|, AfterN(start, p.actions, |p.actions|), None);
  }

  lemma EndedHasNoPlan(p: Proposal, sha: Sha, digestOf: seq<Action> -> Digest)
    requires RecordOk(p, sha, digestOf)
    ensures Ended(p.life.state) ==> p.point.status != PlannedPoint
  {
  }

  lemma OutcomeIgnoresPoint(
    r: Outcome, p: Proposal, ready: Proposal, start: Tree, after: Tree, env: Environment, fault: bool,
    rollbackFault: bool)
    requires ready == p.(point := ready.point) && RunOutcome(r, ready, start, after, env, fault, rollbackFault)
    ensures RunOutcome(r, p, start, after, env, fault, rollbackFault)
  {
  }

  lemma InterruptedOnTheWay(p: Proposal, n: nat, start: Tree, now: Tree, stray: Option<Path>, env: Environment)
    requires DistinctPaths(p.actions) && n <= |p.actions| && Reached(start, p.actions, n, now, stray)
    requires WellFormed(now)
    ensures RunOutcome(Interrupted, p, start, now, env, true, false)
  {
    ReachedIsIntact(start, p.actions, n, now, stray);
    ReachedKeepsOthers(start, p.actions, n, now, stray);
  }

  lemma InterruptedAtOnce(p: Proposal, t: Tree, env: Environment)
    requires WellFormed(t)
    ensures RunOutcome(Interrupted, p, t, t, env, true, false)
  {
  }

  class ProposalStore {
    const sha: Sha
    const digestOf: seq<Action> -> Digest
    var records: map<Id, Proposal>
    /** Proposal directories; creating one reserves its ID forever. */
    var directories: set<Id>

    ghost predicate Valid()
      reads this
    {
      records.Keys <= directories &&
      forall id :: id in records ==> RecordOk(records[id], sha, digestOf)
    }

    constructor (sha: Sha, digestOf: seq<Action> -> Digest)
      ensures Valid() && records == map[] && directories == {}
    {
      this.sha, this.digestOf := sha, digestOf;
      records, directories := map[], {};
    }

    /** A crash right after the replacement reports failure although the record is stored. */
    method Save(id: Id, p: Proposal) returns (ok: bool)
      requires Valid() && id in directories && RecordOk(p, sha, digestOf)
      modifies `records
      ensures Valid()
      ensures ok ==> records == old(records)[id := p]
      ensures !ok ==> records == old(records) || records == old(records)[id := p]
      ensures records - {id} == old(records) - {id}
      ensures ok ==> id in records && records[id] == p
      ensures id in old(records) ==> id in records && (records[id] == old(records)[id] || records[id] == p)
    {
      var replaced: bool := *;
      ok := *;
      ok := ok && replaced;
      if replaced {
        records := records[id := p];
      }
    }

    /** `fault` is a call of the store that failed. The ID stays reserved once its directory exists. */
    method CreateProposal(id: Id, definition: seq<WrittenAction>) returns (r: Outcome, ghost fault: bool)
      requires Valid()
      modifies this
      ensures Valid()
      ensures records - {id} == old(records) - {id}
      ensures fault <==> r.Interrupted?
      ensures r.Refused? ==> !DefinitionOk(definition) || !ValidId(id) || id in old(directories)
      ensures r.Returned? ==> DefinitionOk(definition) && ValidId(id) && id !in old(directories)
      ensures r.Refused? ==>
                && (r.refusal == DefinitionInvalid <==> !DefinitionOk(definition))
                && (r.refusal == InvalidId <==> DefinitionOk(definition) && !ValidId(id))
                && (r.refusal == ProposalExists <==> DefinitionOk(definition) && ValidId(id))
      ensures r.Refused? || id in old(directories) ==> records == old(records) && directories == old(directories)
      ensures directories == old(directories) || directories == old(directories) + {id}
      ensures r.Returned? ==>
                && directories == old(directories) + {id} && records == old(records)[id := r.proposal]
                && r.proposal == Proposal(NEW_LIFE, r.proposal.actions, None, None, [], [], None,
                                          RecoveryPoint(NoPoint, None))
                && |r.proposal.actions| == |definition| && ListStoredAs(definition, r.proposal.actions)
    {
      fault := false;
      var actions := ParseActions(definition);
      if actions.None? {
        return Refused(DefinitionInvalid), fault;
      }
      if !ValidId(id) {
        return Refused(InvalidId), fault;
      }
      var reachable: bool := *;
      if !reachable {
        return Interrupted, true;
      }
      if id in directories {
        return Refused(ProposalExists), fault;
      }
      directories := directories + {id};
      var locked: bool := *;
      if !locked {
        return Interrupted, true;
      }
      var proposal := Proposal(NEW_LIFE, actions.value, None, None, [], [], None, RecoveryPoint(NoPoint, None));
      var saved := Save(id, proposal);
      fault := !saved;
      r := if saved then Returned(proposal) else Interrupted;
    }

    /** The record is in one of the states that the operation asks for. */
    predicate InState(id: Id, states: set<State>)
      reads this
    {
      id in records && records[id].life.state in states
    }

    /** A refusal for a missing record or a wrong state gives the right reason. */
    ghost predicate StateRefusal(r: Outcome, id: Id, states: set<State>)
      reads this
    {
      !r.Interrupted? ==>
        && (r == Refused(ProposalNotFound) <==> id !in records)
        && (r == Refused(InvalidTransition) <==> id in records && !InState(id, states))
    }

    /** The inspection refuses action `i`, and this error applies to it. */
    ghost predicate InspectionRefuses(id: Id, tree: Tree, i: nat, e: InspectError)
      reads this
    {
      id in records &&
      var actions := records[id].actions;
      && i < |actions| && !Acceptable(tree, actions, i, sha) && Justified(tree, actions, i, sha, e)
      && forall j :: 0 <= j < i ==> Acceptable(tree, actions, j, sha)
    }

    /** What each refusal of a classification means. */
    ghost predicate WhyNotClassified(refusal: Refusal, id: Id, tree: Tree, fault: bool)
      reads this
    {
      match refusal
      case ProposalNotFound => id !in records
      case InvalidTransition => id in records && records[id].life.state != Draft
      case ConfigRootMissing => InState(id, {Draft}) && !IsDir(tree, [])
      case TargetInspectionFailed => InState(id, {Draft}) && IsDir(tree, []) && fault
      case InspectionRefused(i, e) => InState(id, {Draft}) && IsDir(tree, []) && InspectionRefuses(id, tree, i, e)
      case _ => false
    }

    /** `fault` is an unreadable target, or a call of the store that failed. */
    method ClassifyProposal(id: Id, config: Disk, rootName: string) returns (r: Outcome, ghost fault: bool)
      requires Valid()
      modifies `records
      ensures Valid()
      ensures records - {id} == old(records) - {id}
      ensures old(StateRefusal(r, id, {Draft}))
      ensures r.Refused? || !old(InState(id, {Draft})) ==> records == old(records)
      ensures r.Interrupted? ==> fault
      ensures !fault ==> (r.Refused? <==>
                || !old(InState(id, {Draft})) || !IsDir(config.tree, [])
                || !Accepts(config.tree, old(records)[id].actions, sha))
      ensures r.Refused? ==> old(WhyNotClassified(r.refusal, id, config.tree, fault))
      ensures r.Returned? ==>
                && records == old(records)[id := r.proposal]
                && var inspection := InspectionOf(config.tree, r.proposal.actions, sha);
                   r.proposal == old(records)[id].(
                     life := Transition(old(records)[id].life, Classified),
                     classification := Some(Classification(
                       rootName, digestOf(old(records)[id].actions), inspection.targets)),
                     verification := inspection.verification, plan := inspection.recovery,
                     point := RecoveryPoint(PlannedPoint, None))
      ensures id in old(records) ==>
                id in records && (records[id] == old(records)[id] || records[id].life.state == Classified)
    {
      fault := false;
      var reachable: bool := *;
      if !reachable {
        return Interrupted, true;
      }
      if id !in records {
        return Refused(ProposalNotFound), fault;
      }
      var proposal := records[id];
      if proposal.life.state != Draft {
        return Refused(InvalidTransition), fault;
      }
      if !IsDir(config.tree, []) {
        return Refused(ConfigRootMissing), fault;
      }
      var unreadable: bool := *;
      if unreadable {
        return Refused(TargetInspectionFailed), true;
      }
      var inspection := InspectActions(proposal.actions, config, sha);
      if inspection.Err? {
        return Refused(InspectionRefused(inspection.error.0, inspection.error.1)), fault;
      }
      TransitionKeepsHistory(proposal.life, Classified);
      proposal := proposal.(
        classification := Some(Classification(rootName, digestOf(proposal.actions), inspection.value.targets)),
        verification := inspection.value.verification,
        plan := inspection.value.recovery,
        point := RecoveryPoint(PlannedPoint, None),
        life := Transition(proposal.life, Classified));
      assert Inspected(config.tree, proposal, sha);
      var saved := Save(id, proposal);
      fault := !saved;
      r := if saved then Returned(proposal) else Interrupted;
    }

    /** `fault` is a call of the store that failed. */
    method ApproveProposal(id: Id) returns (r: Outcome, ghost fault: bool)
      requires Valid()
      modifies `records
      ensures Valid()
      ensures records - {id} == old(records) - {id}
      ensures old(StateRefusal(r, id, {Classified}))
      ensures fault <==> r.Interrupted?
      ensures if old(InState(id, {Classified})) then !r.Refused? else !r.Returned? && records == old(records)
      ensures r.Returned? ==>
                && records == old(records)[id := r.proposal]
                && r.proposal == old(records)[id].(life := Transition(old(records)[id].life, Approved),
                                                   approvedDigest := Some(digestOf(old(records)[id].actions)))
      ensures id in old(records) ==>
                id in records && (records[id] == old(records)[id] || records[id].life.state == Approved)
    {
      fault := false;
      var reachable: bool := *;
      if !reachable {
        return Interrupted, true;
      }
      if id !in records {
        return Refused(ProposalNotFound), fault;
      }
      var proposal := records[id];
      if proposal.life.state != Classified {
        return Refused(InvalidTransition), fault;
      }
      TransitionKeepsHistory(proposal.life, Approved);
      ghost var t :| Inspected(t, proposal, sha);
      proposal := proposal.(
        approvedDigest := Some(proposal.classification.value.actionDigest),
        life := Transition(proposal.life, Approved));
      assert Inspected(t, proposal, sha);
      var saved := Save(id, proposal);
      fault := !saved;
      r := if saved then Returned(proposal) else Interrupted;
    }

    /** `fault` is a call of the store that failed. */
    method RejectProposal(id: Id) returns (r: Outcome, ghost fault: bool)
      requires Valid()
      modifies `records
      ensures Valid()
      ensures records - {id} == old(records) - {id}
      ensures old(StateRefusal(r, id, {Draft, Classified}))
      ensures fault <==> r.Interrupted?
      ensures if old(InState(id, {Draft, Classified})) then !r.Refused? else !r.Returned? && records == old(records)
      ensures r.Returned? ==>
                && records == old(records)[id := r.proposal]
                && r.proposal == old(records)[id].(life := Transition(old(records)[id].life, Rejected))
      ensures id in old(records) ==>
                id in records && (records[id] == old(records)[id] || records[id].life.state == Rejected)
    {
      fault := false;
      var reachable: bool := *;
      if !reachable {
        return Interrupted, true;
      }
      if id !in records {
        return Refused(ProposalNotFound), fault;
      }
      var proposal := records[id];
      if proposal.life.state != Draft && proposal.life.state != Classified {
        return Refused(InvalidTransition), fault;
      }
      TransitionKeepsHistory(proposal.life, Rejected);
      proposal := proposal.(life := Transition(proposal.life, Rejected));
      var saved := Save(id, proposal);
      fault := !saved;
      r := if saved then Returned(proposal) else Interrupted;
    }

    /** The record is approved for this root, inspection accepts its actions, and no target has changed. */
    ghost predicate MayPromote(id: Id, tree: Tree, rootName: string)
      reads this
    {
      && InState(id, {Approved}) && records[id].classification.Some?
      && rootName == records[id].classification.value.configRoot
      && Accepts(tree, records[id].actions, sha)
      && InspectionOf(tree, records[id].actions, sha).targets == records[id].classification.value.targets
    }

    /** What each refusal of a promotion means. */
    ghost predicate WhyNotPromoted(refusal: Refusal, id: Id, tree: Tree, rootName: string, fault: bool)
      reads this
    {
      match refusal
      case ProposalNotFound => id !in records
      case InvalidTransition => id in records && records[id].life.state != Approved
      case ConfigRootChanged => InState(id, {Approved}) && !SameRoot(id, rootName)
      case TargetInspectionFailed => InState(id, {Approved}) && SameRoot(id, rootName) && fault
      case InspectionRefused(i, e) =>
        InState(id, {Approved}) && SameRoot(id, rootName) && InspectionRefuses(id, tree, i, e)
      case TargetStateChanged => InState(id, {Approved}) && SameRoot(id, rootName) && TargetsHaveChanged(id, tree)
      case _ => false
    }

    ghost predicate SameRoot(id: Id, rootName: string)
      reads this
    {
      id in records && records[id].classification.Some? && rootName == records[id].classification.value.configRoot
    }

    /** Inspection accepts, and sees another state of some target than classification did. */
    ghost predicate TargetsHaveChanged(id: Id, tree: Tree)
      reads this
    {
      && id in records && records[id].classification.Some? && Accepts(tree, records[id].actions, sha)
      && InspectionOf(tree, records[id].actions, sha).targets != records[id].classification.value.targets
    }

    /** The checks of promotion that come before anything is written. `fault` is an unreadable target. */
    method CheckPromotion(id: Id, config: Disk, rootName: string)
      returns (r: Result<Proposal, Refusal>, ghost fault: bool)
      requires Valid()
      ensures r.Ok? ==> MayPromote(id, config.tree, rootName) && r.value == records[id]
      ensures r.Err? && !fault ==> !MayPromote(id, config.tree, rootName)
      ensures StateRefusal(if r.Ok? then Returned(r.value) else Refused(r.error), id, {Approved})
      ensures r.Err? ==> WhyNotPromoted(r.error, id, config.tree, rootName, fault)
    {
      fault := false;
      if id !in records {
        return Err(ProposalNotFound), fault;
      }
      var proposal := records[id];
      if proposal.life.state != Approved {
        return Err(InvalidTransition), fault;
      }
      if rootName != proposal.classification.value.configRoot {
        return Err(ConfigRootChanged), fault;
      }
      if proposal.approvedDigest != Some(digestOf(proposal.actions)) {
        return Err(ApprovalScopeChanged), fault;
      }
      var unreadable: bool := *;
      if unreadable {
        return Err(TargetInspectionFailed), true;
      }
      var inspection := InspectActions(proposal.actions, config, sha);
      if inspection.Err? {
        return Err(InspectionRefused(inspection.error.0, inspection.error.1)), fault;
      }
      if inspection.value.targets != proposal.classification.value.targets {
        return Err(TargetStateChanged), fault;
      }
      return Ok(proposal), fault;
    }

    /** Stores the report and the final state of a promotion. */
    method StoreEnd(id: Id, p: Proposal, report: Report, to: State) returns (r: Outcome)
      requires Valid() && id in records && RecordOk(p, sha, digestOf) && p.life.state == Applying && Ended(to)
      requires to == Committed ==> report.failure.None? && PlanUsed(p.(report := Some(report)))
      requires to != Committed ==> (to == RolledBack <==> AllRestored(report.rollback))
      modifies `records
      ensures Valid() && !r.Refused?
      ensures records - {id} == old(records) - {id}
      ensures id in records && (records[id] == old(records)[id] || records[id].life.state == to)
      ensures r.Returned? ==>
                records[id] == r.proposal &&
                r.proposal == p.(report := Some(report), life := Transition(p.life, to),
                                 point := EndPoint(to, p.point.checkpoint))
    {
      TransitionKeepsHistory(p.life, to);
      ghost var t :| Inspected(t, p, sha);
      var proposal := p.(
        report := Some(report), life := Transition(p.life, to), point := EndPoint(to, p.point.checkpoint));
      assert Inspected(t, proposal, sha);
      var saved := Save(id, proposal);
      r := if saved then Returned(proposal) else Interrupted;
    }

    /** Rolls back and stores the final state: `failed` exactly when some item was not restored. */
    method FinishRollback(
      id: Id, p: Proposal, config: Disk, recovery: RecoveryDir, applied: seq<Applied>, failure: Failure)
      returns (r: Outcome, ghost fault: bool)
      requires Valid() && id in records && RecordOk(p, sha, digestOf) && p.life.state == Applying
      requires WellFormed(config.tree)
      modifies `records, config
      ensures Valid() && !r.Refused?
      ensures records - {id} == old(records) - {id}
      ensures Finished(r, p, applied, old(config.tree), config.tree, recovery.files, fault)
      ensures r.Returned? ==>
                id in records && records[id] == r.proposal && r.proposal.report.value.failure == Some(failure)
      ensures id in records && (records[id] == old(records)[id] || Ended(records[id].life.state))
    {
      var left: nat := *;
      if 0 < left <= |applied| {
        // The process dies with `left` records still to undo.
        DieInRollback(left, config, recovery, applied);
        return Interrupted, true;
      }
      var items;
      items, fault := RollbackActions(applied, config, recovery);
      assert UndoneFrom(old(config.tree), config.tree, applied, 0, items, recovery.files);
      assert PartlyUndone(old(config.tree), config.tree, applied, 0, recovery.files);
      var to := if AllRestored(items) then RolledBack else Failed;
      r := StoreEnd(id, p, Report(applied, Some(failure), items), to);
    }

    /** Applies the actions and finds out whether the promotion has failed, and why. */
    method ApplyAndVerify(
      actions: seq<Action>, checks: seq<Check>, config: Disk, recovery: RecoveryDir,
      before: Workloads, after: Workloads)
      returns (failure: Option<Failure>, applied: seq<Applied>, ghost fault: bool, ghost stray: Option<Path>)
      requires WellFormed(config.tree) && Accepts(config.tree, actions, sha) && DistinctPaths(actions) && actions != []
      requires checks == InspectionOf(config.tree, actions, sha).verification
      modifies config, recovery
      ensures |applied| <= |actions| && ApplicableN(old(config.tree), actions, |applied|)
      ensures applied == Records(old(config.tree), actions, |applied|)
      ensures BackedUpN(old(config.tree), actions, |applied|, recovery.files)
      ensures Reached(old(config.tree), actions, |applied|, config.tree, stray) && WellFormed(config.tree)
      ensures failure.None? ==> stray.None? && |applied| == |actions| && !Regressed(before, after)
      ensures failure.Some? ==>
                && failure.value != RecoveryPreparationFailed
                && (forall checkpoint :: Reasoned(Some(Report(applied, failure, [])), actions,
                                                  Environment(Regressed(before, after), Some(checkpoint)), fault))
      ensures !fault ==>
                stray.None? && (failure.None? <==> IsDir(old(config.tree), []) && !Regressed(before, after))
    {
      ghost var start := config.tree;
      var ok;
      ok, applied, fault, stray := ApplyActions(actions, config, recovery);
      ReachedIsWellFormed(start, actions, |applied|, config.tree, stray);
      InspectionIsSound(start, actions, sha);
      if !ok {
        return Some(ActionFailed), applied, fault, stray;
      }
      var results, unreadable := VerifyActions(checks, config, sha);
      fault := fault || unreadable;
      if exists i | 0 <= i < |results| :: results[i] != Pass {
        VerificationPasses(start, actions, sha);
        return Some(VerificationFailed), applied, fault, stray;
      }
      RegressedMeansNewFailures(before, after);
      if NewCriticalFailures(before, after) != {} {
        return Some(WorkloadRegression), applied, fault, stray;
      }
      failure := None;
    }

    method Commit(id: Id, p: Proposal, applied: seq<Applied>) returns (r: Outcome)
      requires Valid() && id in records && RecordOk(p, sha, digestOf) && p.life.state == Applying
      requires PlanUsed(p.(report := Some(Report(applied, None, []))))
      modifies `records
      ensures Valid() && !r.Refused?
      ensures records - {id} == old(records) - {id}
      ensures r.Returned? ==> id in records && records[id] == r.proposal
      ensures r.Returned? ==>
                r.proposal == p.(life := Transition(p.life, Committed), report := Some(Report(applied, None, [])),
                                 point := EndPoint(Committed, p.point.checkpoint))
      ensures id in records && (records[id] == old(records)[id] || records[id].life.state == Committed)
    {
      r := StoreEnd(id, p, Report(applied, None, []), Committed);
    }

    /** The end of a promotion that has failed after `|applied|` actions. */
    method SettleByRollback(
      id: Id, p: Proposal, config: Disk, recovery: RecoveryDir, applied: seq<Applied>, failure: Failure,
      ghost start: Tree, ghost stray: Option<Path>, ghost env: Environment, ghost earlier: bool)
      returns (r: Outcome, ghost fault: bool, ghost rollbackFault: bool)
      requires Valid() && id in records && RecordOk(p, sha, digestOf) && p.life.state == Applying
      requires StoppedAt(p.actions, start, config.tree, applied, stray, recovery.files)
      requires !earlier ==> stray.None? && (IsDir(start, []) && env.prepared.Some? ==> env.regression)
      requires Reasoned(Some(Report(applied, Some(failure), [])), p.actions, env, earlier)
      requires p.point.checkpoint == if env.prepared.Some? then env.prepared.value else None
      modifies `records, config
      ensures Valid()
      ensures records - {id} == old(records) - {id}
      ensures id in records && (records[id] == old(records)[id] || Ended(records[id].life.state))
      ensures r.Returned? ==> records[id] == r.proposal
      ensures RunOutcome(r, p, start, config.tree, env, fault, rollbackFault)
      ensures earlier ==> fault
    {
      ghost var now := config.tree;
      StoppedIsWellFormed(p.actions, start, now, applied, stray, recovery.files);
      r, rollbackFault := FinishRollback(id, p, config, recovery, applied, failure);
      fault := earlier || rollbackFault || r.Interrupted?;
      SettledOutcome(r, p, applied, start, now, stray, config.tree, recovery.files, env, fault, rollbackFault);
    }

    /** The end of a promotion whose recovery point could not be prepared: the tree has not moved. */
    method SettleUnprepared(
      id: Id, p: Proposal, config: Disk, recovery: RecoveryDir, ghost env: Environment)
      returns (r: Outcome, ghost fault: bool, ghost rollbackFault: bool)
      requires Valid() && id in records && RecordOk(p, sha, digestOf) && p.life.state == Applying
      requires WellFormed(config.tree) && env.prepared.None? && p.point.checkpoint.None?
      modifies `records, config
      ensures Valid()
      ensures records - {id} == old(records) - {id}
      ensures id in records && (records[id] == old(records)[id] || Ended(records[id].life.state))
      ensures r.Returned? ==> records[id] == r.proposal
      ensures RunOutcome(r, p, old(config.tree), config.tree, env, fault, rollbackFault)
      ensures config.tree == old(config.tree)
    {
      ghost var start := config.tree;
      assert ApplicableN(start, p.actions, 0) && Records(start, p.actions, 0) == [];
      r, rollbackFault := FinishRollback(id, p, config, recovery, [], RecoveryPreparationFailed);
      fault := rollbackFault || r.Interrupted?;
      RollbackOutcome(r, p, 0, start, start, None, config.tree, recovery.files, env, fault, rollbackFault);
      NothingToUndo(r, p, start, config.tree, recovery.files, rollbackFault);
    }

    /**
     The part of promotion that moves the tree, entered once `applying` is stored: apply, verify,
     compare the workloads, and commit or roll back.
     */
    method ApplyAndSettle(
      id: Id, p: Proposal, config: Disk, recovery: RecoveryDir, before: Workloads, after: Workloads)
      returns (r: Outcome, ghost fault: bool, ghost rollbackFault: bool)
      requires Valid() && id in records && RecordOk(p, sha, digestOf) && p.life.state == Applying
      requires records[id] == p && p.point.status == ReadyPoint
      requires WellFormed(config.tree) && Accepts(config.tree, p.actions, sha)
      requires InspectionOf(config.tree, p.actions, sha).targets == p.classification.value.targets
      modifies `records, config, recovery
      ensures Valid()
      ensures records - {id} == old(records) - {id}
      ensures id in records && (records[id] == old(records)[id] || Ended(records[id].life.state))
      ensures r.Returned? ==> records[id] == r.proposal
      ensures RunOutcome(
                r, p, old(config.tree), config.tree, Environment(Regressed(before, after), Some(p.point.checkpoint)),
                fault, rollbackFault)
    {
      rollbackFault := false;
      ghost var start := config.tree;
      ghost var env := Environment(Regressed(before, after), Some(p.point.checkpoint));
      ChecksAreCurrent(p, start);
      var failure, applied;
      ghost var stray;
      failure, applied, fault, stray := ApplyAndVerify(p.actions, p.verification, config, recovery, before, after);
      var crashed: bool := *;
      if crashed {
        InterruptedOnTheWay(p, |applied|, start, config.tree, stray, env);
        return Interrupted, true, false;
      }
      if failure.Some? {
        r, fault, rollbackFault :=
          SettleByRollback(id, p, config, recovery, applied, failure.value, start, stray, env, fault);
      } else {
        PlanIsUsed(p, start);
        r := Commit(id, p, applied);
        fault := fault || r.Interrupted?;
        CommitOutcome(r, p, start, env, fault);
      }
    }

    /** Equal targets mean that the stored checks are the ones of the current inspection. */
    lemma ChecksAreCurrent(p: Proposal, t: Tree)
      requires p.classification.Some? && FromInspection(p, sha)
      ensures p.verification == InspectionOf(t, p.actions, sha).verification
    {
    }

    lemma PlanIsUsed(p: Proposal, t: Tree)
      requires p.classification.Some? && FromInspection(p, sha)
      requires DistinctPaths(p.actions) && Accepts(t, p.actions, sha)
      requires InspectionOf(t, p.actions, sha).targets == p.classification.value.targets
      ensures PlanUsed(p.(report := Some(Report(Records(t, p.actions, |p.actions|), None, []))))
    {
      var classified :| Inspected(classified, p, sha);
      RecoveryPlanIsUsed(classified, t, p.actions, sha);
    }

    method StorePoint(id: Id, p: Proposal, checkpoint: Option<string>) returns (ready: Option<Proposal>)
      requires Valid() && id in records && RecordOk(p, sha, digestOf) && p.life.state == Applying && records[id] == p
      modifies `records
      ensures Valid()
      ensures records - {id} == old(records) - {id}
      ensures id in records && records[id].life.state == Applying
      ensures ready.Some? ==>
                && records[id] == ready.value && RecordOk(ready.value, sha, digestOf)
                && ready.value == p.(point := RecoveryPoint(ReadyPoint, checkpoint))
    {
      var next := p.(point := RecoveryPoint(ReadyPoint, checkpoint));
      ghost var t :| Inspected(t, p, sha);
      assert Inspected(t, next, sha);
      var saved := Save(id, next);
      ready := if saved then Some(next) else None;
    }

    /**
     Stores the prepared recovery point, and only then goes on to the actions. `prepared` is what the
     recovery module gave: nothing if it failed, otherwise the linked checkpoint if there is one.
     */
    method PrepareAndSettle(
      id: Id, p: Proposal, config: Disk, recovery: RecoveryDir, prepared: Option<Option<string>>,
      before: Workloads, after: Workloads)
      returns (r: Outcome, ghost fault: bool, ghost rollbackFault: bool)
      requires Valid() && id in records && RecordOk(p, sha, digestOf) && p.life.state == Applying
      requires records[id] == p && p.point == RecoveryPoint(PlannedPoint, None)
      requires WellFormed(config.tree) && Accepts(config.tree, p.actions, sha)
      requires InspectionOf(config.tree, p.actions, sha).targets == p.classification.value.targets
      modifies `records, config, recovery
      ensures Valid()
      ensures records - {id} == old(records) - {id}
      ensures id in records && Underway(records[id].life.state)
      ensures r.Returned? ==> id in records && records[id] == r.proposal
      ensures config.tree != old(config.tree) ==> records[id].point.status != PlannedPoint
      ensures RunOutcome(r, p, old(config.tree), config.tree, Environment(Regressed(before, after), prepared),
                         fault, rollbackFault)
    {
      ghost var env := Environment(Regressed(before, after), prepared);
      if prepared.None? {
        r, fault, rollbackFault := SettleUnprepared(id, p, config, recovery, env);
        return;
      }
      var ready := StorePoint(id, p, prepared.value);
      if ready.None? {
        InterruptedAtOnce(p, config.tree, env);
        return Interrupted, true, false;
      }
      r, fault, rollbackFault := ApplyAndSettle(id, ready.value, config, recovery, before, after);
      OutcomeIgnoresPoint(r, p, ready.value, old(config.tree), config.tree, env, fault, rollbackFault);
      EndedHasNoPlan(records[id], sha, digestOf);
    }

    /** Checks the proposal and stores `applying`. */
    method StartPromotion(id: Id, config: Disk, rootName: string) returns (r: Outcome, ghost fault: bool)
      requires Valid()
      modifies `records
      ensures Valid()
      ensures records - {id} == old(records) - {id}
      ensures old(StateRefusal(r, id, {Approved}))
      ensures r.Refused? || !old(MayPromote(id, config.tree, rootName)) ==> !r.Returned? && records == old(records)
      ensures r.Refused? && !fault ==> !old(MayPromote(id, config.tree, rootName))
      ensures r.Refused? ==> old(WhyNotPromoted(r.refusal, id, config.tree, rootName, fault))
      ensures r.Interrupted? ==> fault
      ensures id in old(records) ==>
                id in records && (records[id] == old(records)[id] || records[id].life.state == Applying)
      ensures r.Returned? ==>
                && id in records && records[id] == r.proposal
                && r.proposal == old(records)[id].(life := Transition(old(records)[id].life, Applying))
    {
      var reachable: bool := *;
      if !reachable {
        return Interrupted, true;
      }
      var checked;
      checked, fault := CheckPromotion(id, config, rootName);
      if checked.Err? {
        return Refused(checked.error), fault;
      }
      var proposal := checked.value;
      TransitionKeepsHistory(proposal.life, Applying);
      ghost var t :| Inspected(t, proposal, sha);
      proposal := proposal.(life := Transition(proposal.life, Applying));
      assert Inspected(t, proposal, sha);
      var saved := Save(id, proposal);
      fault := !saved;
      r := if saved then Returned(proposal) else Interrupted;
    }

    /**
     Promotion. The tree moves only after `applying` is stored; a run that returns ends in one of
     three states, each with its meaning for the tree.
     */
    method PromoteProposal(
      id: Id, config: Disk, recovery: RecoveryDir, rootName: string,
      prepared: Option<Option<string>>, before: Workloads, after: Workloads)
      returns (r: Outcome, ghost fault: bool, ghost rollbackFault: bool)
      requires Valid() && WellFormed(config.tree)
      modifies `records, config, recovery
      ensures Valid() && WellFormed(config.tree)
      ensures records - {id} == old(records) - {id}
      ensures old(StateRefusal(r, id, {Approved}))
      ensures r.Refused? || !old(MayPromote(id, config.tree, rootName)) ==>
                && !r.Returned? && records == old(records)
                && config.tree == old(config.tree) && recovery.files == old(recovery.files)
      ensures r.Refused? && !fault ==> !old(MayPromote(id, config.tree, rootName))
      ensures r.Refused? ==> old(WhyNotPromoted(r.refusal, id, config.tree, rootName, fault))
      // Workloads decide: no comparable new critical failure is ever committed, and nothing else is rolled back.
      ensures r.Returned? && r.proposal.life.state == Committed
              && before.provider == "jiritsu-workload" && after.provider == "jiritsu-workload" ==>
                after.critical <= before.critical
      ensures !fault && old(MayPromote(id, config.tree, rootName)) && IsDir(old(config.tree), []) ==>
                r.Returned? &&
                (r.proposal.life.state == RolledBack <==>
                   || prepared.None?
                   || (before.provider == "jiritsu-workload" && after.provider == "jiritsu-workload"
                       && exists c :: c in after.critical && c !in before.critical))
      ensures id in old(records) ==>
                id in records && (records[id] == old(records)[id] || Underway(records[id].life.state))
      // The tree moves only when `applying` and the prepared recovery point are stored.
      ensures config.tree != old(config.tree) ==>
                id in records && Underway(records[id].life.state) && records[id].point.status != PlannedPoint
      ensures r.Returned? ==> id in records && records[id] == r.proposal
      ensures r.Interrupted? ==> fault
      ensures !r.Refused? && old(MayPromote(id, config.tree, rootName)) ==>
                RunOutcome(r, old(records)[id].(life := Transition(old(records)[id].life, Applying)),
                              old(config.tree), config.tree, Environment(Regressed(before, after), prepared),
                              fault, rollbackFault)
    {
      rollbackFault := false;
      r, fault := StartPromotion(id, config, rootName);
      if r.Returned? {
        r, fault, rollbackFault := PrepareAndSettle(id, r.proposal, config, recovery, prepared, before, after);
      } else {
        if r.Interrupted? && old(MayPromote(id, config.tree, rootName)) {
          InterruptedAtOnce(
            old(records)[id].(life := Transition(old(records)[id].life, Applying)), config.tree,
            Environment(Regressed(before, after), prepared));
        }
      }
    }
  }
}
