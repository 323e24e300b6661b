/**
 The loops over typed actions, on the mutable configuration directory. Any system call can fail.
 `fault` says that one failed for no visible reason, and `stray` names the node a failed action
 left without a record.
 */
module ActionRunner {
  import opened Wrappers
  import opened ConfigTree
  import opened Actions
  import opened Rollback

  /** The per-proposal directory of recovery files, kept outside the configuration directory. */
  class RecoveryDir {
    var files: Backups

    constructor ()
      ensures files == map[]
    {
      files := map[];
    }

    /** A failed copy can leave any content in the one file that it writes. */
    method Store(index: nat, content: Bytes) returns (ok: bool, ghost fault: bool)
      modifies this
      ensures files - {index} == old(files) - {index}
      ensures ok ==> index in files && files[index] == content
      ensures fault <==> !ok
    {
      var refused: bool := *;
      fault := refused;
      ok := !refused;
      var written: Bytes := *;
      files := files[index := if ok then content else written];
    }
  }

  lemma DescribesAll(t: Tree, actions: seq<Action>, sha: Sha)
    ensures var inspection := InspectionOf(t, actions, sha);
            forall i :: 0 <= i < |actions| ==>
              Describes(t, actions[i], i, inspection.targets[i], inspection.verification[i],
                        inspection.recovery[i], sha)
  {
  }

  method InspectActions(actions: seq<Action>, config: Disk, sha: Sha)
    returns (r: Result<Inspection, (nat, InspectError)>)
    ensures r.Ok? <==> Accepts(config.tree, actions, sha)
    ensures r.Ok? <==> forall i :: 0 <= i < |actions| ==> Acceptable(config.tree, actions, i, sha)
    ensures r.Ok? ==> r.value == InspectionOf(config.tree, actions, sha)
    ensures r.Ok? ==> forall i :: 0 <= i < |actions| ==>
              Describes(config.tree, actions[i], i, r.value.targets[i], r.value.verification[i],
                        r.value.recovery[i], sha)
    ensures r.Err? ==>
              && r.error.0 < |actions|
              && (forall i :: 0 <= i < r.error.0 ==> Acceptable(config.tree, actions, i, sha))
              && !Acceptable(config.tree, actions, r.error.0, sha)
              && Justified(config.tree, actions, r.error.0, sha, r.error.1)
  {
    var targets: seq<Observation> := [];
    var verification: seq<Check> := [];
    var recovery: seq<Strategy> := [];
    var planned: set<Path> := {[]};
    for index := 0 to |actions|
      invariant planned == Planned(actions, index)
      invariant forall i :: 0 <= i < index ==> AcceptsAt(config.tree, actions, i, sha)
      invariant forall i :: 0 <= i < index ==> Acceptable(config.tree, actions, i, sha)
      invariant targets == InspectionOf(config.tree, actions, sha).targets[..index]
      invariant verification == InspectionOf(config.tree, actions, sha).verification[..index]
      invariant recovery == InspectionOf(config.tree, actions, sha).recovery[..index]
    {
      var action := actions[index];
      var rejection := Rejection(config.tree, action, planned, sha);
      RejectionMeans(config.tree, actions, index, sha);
      if rejection.Some? {
        assert !AcceptsAt(config.tree, actions, index, sha);
        return Err((index, rejection.value));
      }
      if action.Mkdir? {
        planned := planned + {action.path};
      }
      targets := targets + [Observe(config.tree, action, index, sha)];
      verification := verification + [CheckOf(action, sha)];
      recovery := recovery + [StrategyOf(config.tree, action)];
      assert AcceptsAt(config.tree, actions, index, sha);
    }
    DescribesAll(config.tree, actions, sha);
    return Ok(Inspection(targets, verification, recovery));
  }

  /** Writes a temporary file beside the target and moves it over the target. */
  method AtomicBytes(config: Disk, p: Path, content: Bytes, mode: nat)
    returns (ok: bool, ghost fault: bool, ghost stray: Option<Path>)
    requires WellFormed(config.tree) && p != []
    modifies config
    ensures ok ==> !fault && stray.None? && !IsDir(old(config.tree), p) && IsDir(old(config.tree), Parent(p))
    ensures ok ==> config.tree == old(config.tree)[p := File(content, mode)]
    ensures !ok && stray.None? ==> config.tree == old(config.tree)
    ensures stray.Some? ==>
              && StrayAt(old(config.tree), config.tree, stray.value)
              && stray.value != p && Parent(stray.value) == Parent(p) && IsFile(config.tree, stray.value)
    ensures !fault ==> stray.None? && (ok <==> !IsDir(old(config.tree), p) && IsDir(old(config.tree), Parent(p)))
  {
    ok, stray := false, None;
    var temp;
    temp, fault := config.MakeTemp(p);
    if temp.None? {
      return;
    }
    var written, f1 := config.WriteFile(temp.value, content);
    fault := fault || f1;
    if written {
      var changed, f2 := config.Chmod(temp.value, mode);
      fault := fault || f2;
      if changed {
        var moved, f3 := config.Replace(temp.value, p);
        fault := fault || f3;
        if moved {
          ok := true;
          assert old(config.tree)[temp.value := File(content, mode)] - {temp.value} == old(config.tree);
          return;
        }
      }
    }
    NoFileAbove(old(config.tree)[temp.value := File([], 0)], temp.value);
    assert Unlinkable(config.tree, temp.value) by {
      forall k | 0 <= k < |temp.value|
        ensures !IsFile(config.tree, temp.value[..k])
      {
        assert !IsFile(old(config.tree)[temp.value := File([], 0)], temp.value[..k]);
      }
    }
    var removed, f4 := config.Unlink(temp.value);
    fault := fault || f4;
    stray := if removed then None else Some(temp.value);
  }

  method ApplyOne(action: Action, index: nat, config: Disk, recovery: RecoveryDir)
    returns (record: Option<Applied>, ghost fault: bool, ghost stray: Option<Path>)
    requires WellFormed(config.tree)
    modifies config, recovery
    ensures recovery.files - {index} == old(recovery.files) - {index}
    ensures record.Some? ==>
              && !fault && stray.None? && Applicable(old(config.tree), action)
              && record.value == RecordOf(old(config.tree), action, index)
              && config.tree == After(old(config.tree), action)
              && (action.Write? && IsFile(old(config.tree), action.path) ==>
                    index in recovery.files && recovery.files[index] == old(config.tree)[action.path].bytes)
    ensures record.None? && stray.None? ==> config.tree == old(config.tree)
    ensures stray.Some? ==>
              && StrayAt(old(config.tree), config.tree, stray.value)
              && LeftBy(action, stray.value, config.tree[stray.value])
    ensures !fault ==> stray.None? && (record.Some? <==> Applicable(old(config.tree), action))
  {
    record, fault, stray := None, false, None;
    if action.path == [] {
      return;
    }
    match action {
      case Mkdir(p, mode) =>
        if p in config.tree {
          record := Some(Applied(index, p, false, NoChange, 0));
          return;
        }
        var made;
        made, fault := config.Mkdir(p, mode);
        if !made {
          return;
        }
        var changed, f := config.Chmod(p, mode);
        fault := fault || f;
        if !changed {
          stray := Some(p);
          return;
        }
        record := Some(Applied(index, p, true, RemoveCreatedDirectory, 0));
      case Write(p, content, mode, _) =>
        var strategy, originalMode := RemoveCreatedFile, 0;
        if p in config.tree {
          if config.tree[p].Dir? {
            return;
          }
          strategy, originalMode := RestoreBackup, config.tree[p].mode;
          var stored;
          stored, fault := recovery.Store(index, config.tree[p].bytes);
          if !stored {
            return;
          }
        }
        var ok;
        ok, fault, stray := AtomicBytes(config, p, content, mode);
        if ok {
          record := Some(Applied(index, p, true, strategy, originalMode));
        }
    }
  }

  /** One more action that took effect. */
  lemma OneMoreApplied(t: Tree, actions: seq<Action>, n: nat, files: Backups)
    requires n < |actions| && ApplicableN(t, actions, n) && Applicable(AfterN(t, actions, n), actions[n])
    requires BackedUpN(t, actions, n, files) && BackedUp(t, actions, n, files)
    ensures ApplicableN(t, actions, n + 1) && BackedUpN(t, actions, n + 1, files)
    ensures Records(t, actions, n + 1) == Records(t, actions, n) + [RecordAt(t, actions, n)]
    ensures AfterN(t, actions, n + 1) == After(AfterN(t, actions, n), actions[n])
  {
  }

  lemma StillBackedUp(t: Tree, actions: seq<Action>, n: nat, before: Backups, after: Backups)
    requires n <= |actions| && BackedUpN(t, actions, n, before) && before - {n} == after - {n}
    ensures BackedUpN(t, actions, n, after)
  {
    forall i | 0 <= i < n
      ensures BackedUp(t, actions, i, after)
    {
      assert BackedUp(t, actions, i, before);
      assert i in before - {n} <==> i in after - {n};
      assert i in before - {n} ==> (before - {n})[i] == (after - {n})[i];
    }
  }

  /**
   Applies the actions in order and stops at the first failure. The records name exactly the
   actions that took effect, whichever system call failed.
   */
  method ApplyActions(actions: seq<Action>, config: Disk, recovery: RecoveryDir)
    returns (ok: bool, applied: seq<Applied>, ghost fault: bool, ghost stray: Option<Path>)
    requires WellFormed(config.tree)
    modifies config, recovery
    ensures |applied| <= |actions| && (ok <==> |applied| == |actions|)
    ensures ApplicableN(old(config.tree), actions, |applied|)
    ensures applied == Records(old(config.tree), actions, |applied|)
    ensures BackedUpN(old(config.tree), actions, |applied|, recovery.files)
    ensures stray.None? ==> config.tree == AfterN(old(config.tree), actions, |applied|)
    ensures stray.Some? ==>
              && !ok && StrayAt(AfterN(old(config.tree), actions, |applied|), config.tree, stray.value)
              && LeftBy(actions[|applied|], stray.value, config.tree[stray.value])
    ensures !fault ==> stray.None? && (ok <==> ApplicableN(old(config.tree), actions, |actions|))
  {
    applied, fault, stray := [], false, None;
    ghost var start := config.tree;
    for index := 0 to |actions|
      invariant |applied| == index && !fault && stray.None?
      invariant ApplicableN(start, actions, index)
      invariant applied == Records(start, actions, index)
      invariant BackedUpN(start, actions, index, recovery.files)
      invariant config.tree == AfterN(start, actions, index)
    {
      AfterNIsWellFormed(start, actions, index);
      ghost var before := recovery.files;
      var record;
      record, fault, stray := ApplyOne(actions[index], index, config, recovery);
      StillBackedUp(start, actions, index, before, recovery.files);
      if record.None? {
        ok := false;
        if ApplicableN(start, actions, |actions|) {
          ApplicablePrefix(start, actions, index + 1, |actions|);
        }
        return;
      }
      OneMoreApplied(start, actions, index, recovery.files);
      applied := applied + [record.value];
    }
    ok := true;
  }

  datatype CheckStatus = Pass | Fail | Error

  /** A check that cannot be read counts as an error, never as a pass. */
  method VerifyActions(checks: seq<Check>, config: Disk, sha: Sha)
    returns (results: seq<CheckStatus>, ghost fault: bool)
    ensures |results| == |checks|
    ensures forall i :: 0 <= i < |checks| && results[i] == Pass ==> Passes(config.tree, checks[i], sha)
    ensures !fault ==> forall i :: 0 <= i < |checks| ==> (results[i] == Pass <==> Passes(config.tree, checks[i], sha))
    ensures fault ==> exists i :: 0 <= i < |checks| && results[i] == Error
  {
    results, fault := [], false;
    for index := 0 to |checks|
      invariant |results| == index
      invariant forall i :: 0 <= i < index && results[i] == Pass ==> Passes(config.tree, checks[i], sha)
      invariant !fault ==> forall i :: 0 <= i < index ==> (results[i] == Pass <==> Passes(config.tree, checks[i], sha))
      invariant fault ==> exists i :: 0 <= i < index && results[i] == Error
    {
      var unreadable: bool := *;
      fault := fault || unreadable;
      ghost var before := results;
      if unreadable || checks[index].path == [] {
        results := results + [Error];
      } else {
        var passes := match checks[index]
          case PathCheck(p) => IsDir(config.tree, p)
          case ContentCheck(p, expected) => CurrentDigest(config.tree, p, sha) == Some(expected);
        results := results + [if passes then Pass else Fail];
      }
      assert forall i :: 0 <= i < index ==> results[i] == before[i];
      assert unreadable ==> results[index] == Error;
    }
  }

  /** The paths that undoing one record can change, apart from a temporary file. */
  function ChangedBy(r: Applied): set<Path> {
    if r.recovery == NoChange then {} else {r.path}
  }

  /** A record that could not be undone: its target is untouched, and at most a temporary file is beside it. */
  ghost predicate NotUndone(before: Tree, after: Tree, r: Applied) {
    OthersKept(before, after, ChangedBy(r)) && (r.path in before ==> r.path in after && after[r.path] == before[r.path])
  }

  method UndoOne(r: Applied, config: Disk, recovery: RecoveryDir) returns (restored: bool, ghost fault: bool)
    requires WellFormed(config.tree)
    modifies config
    ensures WellFormed(config.tree)
    ensures !fault ==> (config.tree, restored) == Undo(old(config.tree), r, recovery.files)
    ensures restored ==> (config.tree, true) == Undo(old(config.tree), r, recovery.files)
    ensures !restored ==> NotUndone(old(config.tree), config.tree, r)
    ensures fault ==> !restored
    ensures OthersKept(old(config.tree), config.tree, ChangedBy(r))
  {
    UndoIsWellFormed(config.tree, r, recovery.files);
    restored, fault := false, false;
    if r.path == [] {
      return;
    }
    match r.recovery {
      case NoChange =>
        restored := true;
      case RestoreBackup =>
        var unreadable: bool := *;
        fault := unreadable;
        if !unreadable && r.action in recovery.files {
          ghost var stray;
          restored, fault, stray := AtomicBytes(config, r.path, recovery.files[r.action], r.originalMode);
        }
      case RemoveCreatedFile =>
        restored, fault := config.Unlink(r.path);
      case RemoveCreatedDirectory =>
        if r.path in config.tree {
          restored, fault := config.Rmdir(r.path);
        } else {
          restored := true;
        }
    }
  }

  ghost predicate Continues(whole: Undone, items: seq<Item>, rest: Undone) {
    whole == Undone(rest.tree, items + rest.items)
  }

  lemma AppendItem(items: seq<Item>, item: Item)
    ensures AllRestored(items + [item]) <==> AllRestored(items) && item.restored
  {
    var all := items + [item];
    assert forall i :: 0 <= i < |items| ==> all[i] == items[i];
    assert all[|items|] == item;
  }

  /** The targets that records `n` and later have changed. */
  function ChangedFrom(applied: seq<Applied>, n: nat): set<Path>
    requires n <= |applied|
  {
    set k | n <= k < |applied| && applied[k].recovery != NoChange :: applied[k].path
  }

  ghost predicate DistinctTargets(applied: seq<Applied>) {
    forall i, j :: 0 <= i < j < |applied| ==> applied[i].path != applied[j].path
  }

  /** One item for each record, the last record first. */
  ghost predicate Answers(items: seq<Item>, applied: seq<Applied>) {
    && |items| == |applied|
    && forall k :: 0 <= k < |applied| ==> AnswersOne(items[|applied| - 1 - k], applied[k])
  }

  predicate AnswersOne(item: Item, r: Applied) {
    item.action == r.action && item.path == r.path
  }

  /**
   What an item of the report means for its target, when `before` is the tree that rollback starts
   from: restored means the recorded state, up to a temporary file at a place that became free; an
   error means that the target is as it was.
   */
  ghost predicate TargetSettled(
    before: Tree, after: Tree, r: Applied, restored: bool, files: Backups, changed: set<Path>)
  {
    if !restored || r.recovery == NoChange then
      r.path in before ==> r.path in after && after[r.path] == before[r.path]
    else if r.recovery == RestoreBackup then
      r.action in files && r.path in after && after[r.path] == File(files[r.action], r.originalMode)
    else
      r.path in after ==> Beside(r.path, changed)
  }

  ghost predicate TargetsSettled(
    before: Tree, after: Tree, applied: seq<Applied>, n: nat, items: seq<Item>, files: Backups)
    requires n <= |applied| && |items| == |applied| - n
  {
    forall k :: n <= k < |applied| ==>
      TargetSettled(before, after, applied[k], items[|applied| - 1 - k].restored, files, ChangedFrom(applied, n))
  }

  lemma ChangedFromOneMore(applied: seq<Applied>, n: nat)
    requires n < |applied|
    ensures ChangedFrom(applied, n) == ChangedFrom(applied, n + 1) + ChangedBy(applied[n])
  {
  }

  lemma NotChangedYet(applied: seq<Applied>, n: nat)
    requires DistinctTargets(applied) && n < |applied|
    ensures applied[n].path !in ChangedFrom(applied, n + 1)
  {
  }

  /** The record that is undone next settles its target. */
  lemma OneSettles(
    before: Tree, now: Tree, next: Tree, applied: seq<Applied>, n: nat, restored: bool, files: Backups)
    requires DistinctTargets(applied) && n < |applied|
    requires OthersKept(before, now, ChangedFrom(applied, n + 1))
    requires restored ==> (next, true) == Undo(now, applied[n], files)
    requires !restored ==> NotUndone(now, next, applied[n])
    ensures TargetSettled(before, next, applied[n], restored, files, ChangedFrom(applied, n))
  {
    NotChangedYet(applied, n);
  }

  /** Undoing another record does not unsettle a target. */
  lemma SettledStays(
    before: Tree, now: Tree, next: Tree, r: Applied, restored: bool, files: Backups,
    changed: set<Path>, other: Applied, more: set<Path>)
    requires TargetSettled(before, now, r, restored, files, changed)
    requires OthersKept(now, next, ChangedBy(other)) && other.path != r.path
    requires more == changed + ChangedBy(other)
    ensures TargetSettled(before, next, r, restored, files, more)
  {
    assert Beside(r.path, changed) || Beside(r.path, ChangedBy(other)) ==> Beside(r.path, more);
  }

  lemma OneMoreSettled(
    before: Tree, now: Tree, next: Tree, applied: seq<Applied>, n: nat, items: seq<Item>, item: Item, files: Backups)
    requires DistinctTargets(applied) && n < |applied| && |items| == |applied| - n - 1
    requires TargetsSettled(before, now, applied, n + 1, items, files)
    requires OthersKept(before, now, ChangedFrom(applied, n + 1))
    requires OthersKept(now, next, ChangedBy(applied[n]))
    requires item.restored ==> (next, true) == Undo(now, applied[n], files)
    requires !item.restored ==> NotUndone(now, next, applied[n])
    ensures TargetsSettled(before, next, applied, n, items + [item], files)
  {
    ChangedFromOneMore(applied, n);
    forall k | n <= k < |applied|
      ensures TargetSettled(before, next, applied[k], (items + [item])[|applied| - 1 - k].restored, files,
                            ChangedFrom(applied, n))
    {
      if k == n {
        OneSettles(before, now, next, applied, n, item.restored, files);
      } else {
        SettledStays(before, now, next, applied[k], items[|applied| - 1 - k].restored, files,
                     ChangedFrom(applied, n + 1), applied[n], ChangedFrom(applied, n));
      }
    }
  }

  /** One more undone record, when the calls that undo it do not fail. */
  lemma ContinueOne(whole: Undone, items: seq<Item>, t: Tree, applied: seq<Applied>, n: nat, files: Backups)
    requires n < |applied| && Continues(whole, items, UndoN(t, applied, n + 1, files))
    ensures var (next, restored) := Undo(t, applied[n], files);
            Continues(whole, items + [Item(applied[n].action, applied[n].path, restored)],
                      UndoN(next, applied, n, files))
  {
    var (next, restored) := Undo(t, applied[n], files);
    var item, rest := Item(applied[n].action, applied[n].path, restored), UndoN(next, applied, n, files);
    assert UndoN(t, applied, n + 1, files) == Undone(rest.tree, [item] + rest.items);
    assert (items + [item]) + rest.items == items + ([item] + rest.items);
  }

  lemma ContinuesFromTheStart(whole: Undone)
    ensures Continues(whole, [], whole)
  {
    assert [] + whole.items == whole.items;
  }

  lemma ContinuesToTheEnd(whole: Undone, items: seq<Item>, t: Tree)
    ensures Continues(whole, items, Undone(t, [])) ==> whole == Undone(t, items)
  {
    assert items + [] == items;
  }

  /** The state of a rollback that has still `n` records to undo. */
  ghost predicate RollingBack(
    start: Tree, now: Tree, applied: seq<Applied>, n: nat, items: seq<Item>, fault: bool, files: Backups)
    requires n <= |applied|
  {
    && |items| == |applied| - n
    && (!fault ==> Continues(UndoN(start, applied, |applied|, files), items, UndoN(now, applied, n, files)))
    && (fault ==> !AllRestored(items))
    && (forall k :: n <= k < |applied| ==> AnswersOne(items[|applied| - 1 - k], applied[k]))
    && OthersKept(start, now, ChangedFrom(applied, n))
    && (DistinctTargets(applied) ==> TargetsSettled(start, now, applied, n, items, files))
  }

  /** What `UndoOne` promises. */
  ghost predicate Undid(now: Tree, next: Tree, r: Applied, restored: bool, f: bool, files: Backups) {
    && (!f ==> (next, restored) == Undo(now, r, files))
    && (restored ==> (next, true) == Undo(now, r, files))
    && (!restored ==> NotUndone(now, next, r))
    && (f ==> !restored)
    && OthersKept(now, next, ChangedBy(r))
  }

  lemma AnswersOneMore(items: seq<Item>, item: Item, applied: seq<Applied>, n: nat)
    requires n < |applied| && |items| == |applied| - n - 1 && AnswersOne(item, applied[n])
    requires forall k :: n < k < |applied| ==> AnswersOne(items[|applied| - 1 - k], applied[k])
    ensures forall k :: n <= k < |applied| ==> AnswersOne((items + [item])[|applied| - 1 - k], applied[k])
  {
  }

  lemma ChangedOneMore(start: Tree, now: Tree, next: Tree, applied: seq<Applied>, n: nat)
    requires n < |applied| && OthersKept(start, now, ChangedFrom(applied, n + 1))
    requires OthersKept(now, next, ChangedBy(applied[n]))
    ensures OthersKept(start, next, ChangedFrom(applied, n))
  {
    ChangedFromOneMore(applied, n);
    MoreNamed(start, now, ChangedFrom(applied, n + 1), ChangedFrom(applied, n));
    OthersStillKept(start, now, next, ChangedBy(applied[n]), ChangedFrom(applied, n));
  }

  lemma RollbackStep(
    start: Tree, now: Tree, next: Tree, applied: seq<Applied>, n: nat, items: seq<Item>, restored: bool,
    fault: bool, f: bool, files: Backups)
    requires n < |applied| && RollingBack(start, now, applied, n + 1, items, fault, files)
    requires Undid(now, next, applied[n], restored, f, files)
    ensures RollingBack(start, next, applied, n, items + [Item(applied[n].action, applied[n].path, restored)],
                        fault || f, files)
  {
    var item := Item(applied[n].action, applied[n].path, restored);
    AppendItem(items, item);
    AnswersOneMore(items, item, applied, n);
    ChangedOneMore(start, now, next, applied, n);
    if !fault {
      ContinueOne(UndoN(start, applied, |applied|, files), items, now, applied, n, files);
    }
    if DistinctTargets(applied) {
      OneMoreSettled(start, now, next, applied, n, items, item, files);
    }
  }

  /** Undoes the records, the newest first. One item that fails does not stop the others. */
  method RollbackActions(applied: seq<Applied>, config: Disk, recovery: RecoveryDir)
    returns (items: seq<Item>, ghost fault: bool)
    requires WellFormed(config.tree)
    modifies config
    ensures WellFormed(config.tree)
    ensures !fault ==> Undone(config.tree, items) == UndoN(old(config.tree), applied, |applied|, recovery.files)
    ensures fault ==> !AllRestored(items)
    ensures Answers(items, applied)
    ensures OthersKept(old(config.tree), config.tree, ChangedFrom(applied, 0))
    ensures DistinctTargets(applied) ==>
              TargetsSettled(old(config.tree), config.tree, applied, 0, items, recovery.files)
  {
    items, fault := [], false;
    var n := |applied|;
    ghost var start, files := config.tree, recovery.files;
    ContinuesFromTheStart(UndoN(start, applied, n, files));
    while n > 0
      invariant 0 <= n <= |applied| && WellFormed(config.tree)
      invariant RollingBack(start, config.tree, applied, n, items, fault, files)
    {
      n := n - 1;
      ghost var now := config.tree;
      var restored, f := UndoOne(applied[n], config, recovery);
      RollbackStep(start, now, config.tree, applied, n, items, restored, fault, f, files);
      fault := fault || f;
      items := items + [Item(applied[n].action, applied[n].path, restored)];
    }
    ContinuesToTheEnd(UndoN(start, applied, |applied|, files), items, config.tree);
  }

  // ---------------------------------------------------------------- a rollback that dies

  /** The tree when a rollback has still `m` records to undo. */
  ghost predicate PartlyUndone(before: Tree, after: Tree, applied: seq<Applied>, m: nat, files: Backups)
    requires m <= |applied|
  {
    exists items :: UndoneFrom(before, after, applied, m, items, files)
  }

  ghost predicate UndoneFrom(
    before: Tree, after: Tree, applied: seq<Applied>, m: nat, items: seq<Item>, files: Backups)
    requires m <= |applied|
  {
    && |items| == |applied| - m && OthersKept(before, after, ChangedFrom(applied, m))
    && (DistinctTargets(applied) ==> TargetsSettled(before, after, applied, m, items, files))
  }

  lemma ChangedBySuffix(applied: seq<Applied>, m: nat)
    requires m <= |applied|
    ensures ChangedFrom(applied[m..], 0) == ChangedFrom(applied, m)
  {
    forall p
      ensures p in ChangedFrom(applied[m..], 0) <==> p in ChangedFrom(applied, m)
    {
      if p in ChangedFrom(applied[m..], 0) {
        var k :| 0 <= k < |applied| - m && applied[m..][k].recovery != NoChange && applied[m..][k].path == p;
        assert applied[m + k] == applied[m..][k];
      }
      if p in ChangedFrom(applied, m) {
        var k :| m <= k < |applied| && applied[k].recovery != NoChange && applied[k].path == p;
        assert applied[m..][k - m] == applied[k];
      }
    }
  }

  /** Undoing the last records, down to record `m`, is a rollback that dies with `m` records to undo. */
  lemma SuffixIsUndone(before: Tree, after: Tree, applied: seq<Applied>, m: nat, items: seq<Item>, files: Backups)
    requires m <= |applied| && UndoneFrom(before, after, applied[m..], 0, items, files)
    ensures PartlyUndone(before, after, applied, m, files)
  {
    var rest := applied[m..];
    ChangedBySuffix(applied, m);
    if DistinctTargets(applied) {
      assert DistinctTargets(rest);
      forall k | m <= k < |applied|
        ensures TargetSettled(before, after, applied[k], items[|applied| - 1 - k].restored, files,
                              ChangedFrom(applied, m))
      {
        assert TargetSettled(before, after, rest[k - m], items[|rest| - 1 - (k - m)].restored, files,
                             ChangedFrom(rest, 0));
        assert rest[k - m] == applied[k];
      }
    }
    assert UndoneFrom(before, after, applied, m, items, files);
  }
}
