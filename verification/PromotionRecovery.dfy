/**
 A promotion with its linked checkpoint, whatever becomes of the promotion: committed, rolled back,
 failed, or dead in the middle. Restoring the checkpoint brings every node back.
 */
module PromotionRecovery {
  import opened Wrappers
  import opened ConfigTree
  import opened Actions
  import opened Rollback
  import opened NodeCopy
  import opened CheckpointPaths
  import opened ConfigCapture
  import opened Recovery
  import opened ActionRunner
  import Promotion

  /** `restored` is `t` again, perhaps with temporary files beside unselected targets. */
  ghost predicate BackAgain(t: Tree, restored: Tree, actions: seq<Action>, paths: seq<Path>) {
    && (forall q :: q in t ==> q in restored && restored[q] == t[q])
    && (forall q :: q in restored && q !in t ==>
          !Selected(q, paths) && Beside(q, Promotion.TargetsOf(actions)))
  }

  lemma TargetsAreSelected(actions: seq<Action>, paths: seq<Path>, q: Path)
    requires SelectionOf(actions, paths) && q in Promotion.TargetsOf(actions)
    ensures Selected(q, paths)
  {
    var a :| a in actions && a.path == q;
    var i :| 0 <= i < |actions| && actions[i] == a;
    TargetIsSelected(actions, paths, i);
  }

  /** A restore from any tree that differs from `t` in the targets, and in files beside them, only. */
  lemma RestoreBringsBack(
    t: Tree, actions: seq<Action>, changed: Tree, paths: seq<Path>, captured: Tree, entries: seq<Entry>, restored: Tree)
    requires SelectionOf(actions, paths) && OthersKept(t, changed, Promotion.TargetsOf(actions))
    requires Restores(t, changed, restored, captured, paths, entries)
    ensures BackAgain(t, restored, actions, paths)
  {
    EntriesHavePaths(t, captured, paths, entries);
    forall q
      ensures q in t ==> q in restored && restored[q] == t[q]
      ensures q in restored && q !in t ==> !Selected(q, paths) && Beside(q, Promotion.TargetsOf(actions))
    {
      if q in Promotion.TargetsOf(actions) {
        TargetsAreSelected(actions, paths, q);
      }
      if Selected(q, paths) || SameAt(t, changed, q) {
        NodeIsBack(t, changed, restored, captured, paths, entries, q);
      }
    }
  }

  /** The way to every captured path is still clear, so a restore can only fail by a fault. */
  lemma WayStaysOpen(
    t: Tree, actions: seq<Action>, changed: Tree, paths: seq<Path>, captured: Tree, entries: seq<Entry>, i: nat)
    requires WellFormed(t) && SelectionOf(actions, paths) && OthersKept(t, changed, Promotion.TargetsOf(actions))
    requires |entries| == |paths| && Captures(t, captured, paths, entries, |paths|)
    requires i < |entries| && entries[i].captured
    ensures entries[i].path in captured && WayIsClear(changed, entries[i].path)
  {
    var p := entries[i].path;
    assert entries[i] == Entry(paths[i], paths[i] in t) && Below(captured, p) == Below(t, p);
    PresentInBelow(t, p);
    PresentInBelow(captured, p);
    forall k | 0 <= k < |p|
      ensures !IsFile(changed, p[..k])
    {
      AncestorIsDir(t, p[..k], p);
      WayIsNotSelected(paths, i, p[..k]);
      if p[..k] in Promotion.TargetsOf(actions) {
        TargetsAreSelected(actions, paths, p[..k]);
      }
    }
  }

  lemma AllRestorable(
    t: Tree, actions: seq<Action>, changed: Tree, paths: seq<Path>, captured: Tree, entries: seq<Entry>)
    requires WellFormed(t) && SelectionOf(actions, paths) && OthersKept(t, changed, Promotion.TargetsOf(actions))
    requires |entries| == |paths| && Captures(t, captured, paths, entries, |paths|) && [] !in paths
    ensures PathsOf(entries) == paths && ValidEntries(entries, captured)
    ensures forall i :: 0 <= i < |entries| && entries[i].captured ==> WayIsClear(changed, entries[i].path)
  {
    EntriesHavePaths(t, captured, paths, entries);
    forall i | 0 <= i < |entries|
      ensures entries[i].path != []
      ensures entries[i].captured ==> entries[i].path in captured && WayIsClear(changed, entries[i].path)
    {
      assert entries[i].path == paths[i] && paths[i] in paths;
      if entries[i].captured {
        WayStaysOpen(t, actions, changed, paths, captured, entries, i);
      }
    }
  }

  /**
   The checkpoint of a stored proposal, its promotion, and the restore. Without a fault in the capture
   and in the restore, the restore completes, whatever happened to the promotion. The code takes the
   checkpoint once `applying` is stored; up to then the tree has not moved.
   */
  method PromoteAndRestore(
    store: Promotion.ProposalStore, id: Promotion.Id, config: Disk, recovery: RecoveryDir, rootName: string,
    checkpoint: string, before: Promotion.Workloads, after: Promotion.Workloads, captured: Disk, backup: Disk)
    returns (r: Option<RestoreResult>, ended: Promotion.Outcome, ghost fault: bool, ghost paths: seq<Path>,
             ghost changed: Tree)
    requires store.Valid() && id in store.records
    requires config != captured && config != backup && captured != backup
    requires WellFormed(config.tree) && captured.tree == backup.tree == map[[] := Dir(0x1C0)]
    modifies store`records, config, recovery, captured, backup
    ensures store.Valid()
    // Between capture and restore the promotion ran, with its own outcome.
    ensures r.Some? && (ended.Refused? || !old(store.MayPromote(id, config.tree, rootName))) ==>
              changed == old(config.tree)
    ensures r.Some? && ended.Returned? && ended.proposal.life.state.Committed? ==>
              Overridden(old(config.tree), changed, old(store.records[id].actions))
    ensures r == Some(Restored) ==> BackAgain(old(config.tree), config.tree, old(store.records[id].actions), paths)
    ensures r == Some(Restored) ==> SelectionOf(old(store.records[id].actions), paths)
    ensures !fault && PolicyIsReadable(old(store.records[id].actions)) && [] !in paths ==> r == Some(Restored)
  {
    ghost var start := config.tree;
    var actions := store.records[id].actions;
    paths, fault, ended, changed := [], false, Promotion.Interrupted, start;
    var policy := PolicyForPromotion(actions);
    if policy.None? {
      return None, ended, fault, paths, changed;
    }
    paths := policy.value;
    var entries;
    entries, fault := CaptureConfig(config, policy.value, captured);
    if entries.None? {
      return None, ended, fault, paths, changed;
    }
    ghost var promotionFault, rollbackFault;
    ended, promotionFault, rollbackFault := store.PromoteProposal(
      id, config, recovery, rootName, Some(Some(checkpoint)), before, after);
    changed := config.tree;
    assert OthersKept(start, changed, Promotion.TargetsOf(actions));
    AllRestorable(start, actions, changed, paths, captured.tree, entries.value);
    var result;
    ghost var f, undoFault;
    result, f, undoFault := RestoreConfig(config, entries.value, captured, backup);
    fault := f;
    if result.Restored? {
      assert Restores(start, changed, config.tree, captured.tree, paths, entries.value);
      RestoreBringsBack(start, actions, changed, paths, captured.tree, entries.value, config.tree);
    }
    r := Some(result);
  }
}
