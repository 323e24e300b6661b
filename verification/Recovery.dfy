/**
 A promotion and its linked checkpoint together: the checkpoint taken before the actions brings
 back the whole tree, however far the actions got.
 */
module Recovery {
  import opened Wrappers
  import opened ConfigTree
  import opened Actions
  import opened NodeCopy
  import opened CheckpointPaths
  import opened ConfigCapture
  import opened Validation
  import opened Rollback
  import opened ActionRunner

  /** `paths` is the selection that the checkpoint policy of these actions makes. */
  ghost predicate SelectionOf(actions: seq<Action>, paths: seq<Path>) {
    Antichain(paths) && forall p :: p in paths <==> Minimal(p, actions, |actions|)
  }

  lemma TargetIsSelected(actions: seq<Action>, paths: seq<Path>, i: nat)
    requires SelectionOf(actions, paths) && i < |actions|
    ensures Selected(actions[i].path, paths)
  {
    var top := MinimalAncestor(actions, |actions|, i);
    assert top in paths;
    var j :| 0 <= j < |paths| && paths[j] == top;
    SelectedBy(actions[i].path, paths, j);
  }

  /** Outside the selected subtrees the actions change nothing. */
  lemma ActionsStayInside(t: Tree, actions: seq<Action>, n: nat, paths: seq<Path>, q: Path)
    requires SelectionOf(actions, paths) && n <= |actions| && !Selected(q, paths)
    ensures q in AfterN(t, actions, n) <==> q in t
    ensures q in t ==> AfterN(t, actions, n)[q] == t[q]
  {
    forall i | 0 <= i < n
      ensures actions[i].path != q
    {
      TargetIsSelected(actions, paths, i);
    }
    OthersUntouched(t, actions, n, q);
  }

  /** `changed` agrees with `t` at `q`. */
  predicate SameAt(t: Tree, changed: Tree, q: Path) {
    (q in changed <==> q in t) && (q in t ==> changed[q] == t[q])
  }

  /** A completed restore of a capture of `t`, from the tree `changed`. */
  ghost predicate Restores(
    t: Tree, changed: Tree, restored: Tree, captured: Tree, paths: seq<Path>, entries: seq<Entry>)
  {
    && WellFormed(t) && Antichain(paths)
    && |entries| == |paths| && Captures(t, captured, paths, entries, |paths|)
    && OutsideKept(changed, restored, entries)
    && forall i :: 0 <= i < |entries| ==> Below(restored, entries[i].path) == Wanted(captured, entries[i])
  }

  lemma EntriesHavePaths(t: Tree, captured: Tree, paths: seq<Path>, entries: seq<Entry>)
    requires |entries| == |paths| && Captures(t, captured, paths, entries, |paths|)
    ensures PathsOf(entries) == paths
  {
    assert forall i :: 0 <= i < |paths| ==> entries[i] == Entry(paths[i], paths[i] in t);
  }

  /** One node after the restore: as in `t` if it is selected, or if `changed` agrees with `t` there. */
  lemma NodeIsBack(
    t: Tree, changed: Tree, restored: Tree, captured: Tree, paths: seq<Path>, entries: seq<Entry>, q: Path)
    requires Restores(t, changed, restored, captured, paths, entries)
    requires Selected(q, paths) || SameAt(t, changed, q)
    ensures SameAt(t, restored, q)
  {
    EntriesHavePaths(t, captured, paths, entries);
    if Selected(q, paths) {
      var i :| 0 <= i < |paths| && paths[i] <= q;
      SubtreeIsBack(t, restored, captured, paths, entries, i);
      assert q in restored <==> q in Below(restored, paths[i]);
      assert q in t <==> q in Below(t, paths[i]);
      assert q in t ==> Below(restored, paths[i])[q] == Below(t, paths[i])[q];
    } else if q in restored && q !in changed {
      var i :| 0 <= i < |entries| && entries[i].captured && q < entries[i].path;
      assert entries[i] == Entry(paths[i], paths[i] in t);
      AncestorIsDir(t, q, entries[i].path);
    }
  }

  /**
   Restoring a capture of `t` gives back `t` itself from any tree that differs from `t` only inside
   the selected subtrees.
   */
  lemma RestoreIsInverse(
    t: Tree, changed: Tree, restored: Tree, captured: Tree, paths: seq<Path>, entries: seq<Entry>)
    requires Restores(t, changed, restored, captured, paths, entries)
    requires forall q :: !Selected(q, paths) ==> SameAt(t, changed, q)
    ensures restored == t
  {
    forall q
      ensures SameAt(t, restored, q)
    {
      NodeIsBack(t, changed, restored, captured, paths, entries, q);
    }
    SameEverywhere(t, restored);
  }

  lemma SameEverywhere(t: Tree, u: Tree)
    requires forall q :: SameAt(t, u, q)
    ensures t == u
  {
    assert forall q :: q in t ==> SameAt(t, u, q);
    assert forall q :: q in u ==> SameAt(t, u, q);
  }

  lemma SubtreeIsBack(t: Tree, restored: Tree, captured: Tree, paths: seq<Path>, entries: seq<Entry>, i: nat)
    requires WellFormed(t) && |entries| == |paths| && Captures(t, captured, paths, entries, |paths|) && i < |paths|
    requires Below(restored, entries[i].path) == Wanted(captured, entries[i])
    ensures Below(restored, paths[i]) == Below(t, paths[i])
  {
    assert entries[i] == Entry(paths[i], paths[i] in t);
    if paths[i] !in t {
      AbsentMeansEmpty(t, paths[i]);
    }
  }

  /**
   End to end: capture the paths that the policy selects, apply any number of the actions, restore
   the capture. The result is exactly the original tree, inside and outside the selected subtrees.
   */
  lemma CheckpointUndoesActions(
    t: Tree, actions: seq<Action>, n: nat, paths: seq<Path>, captured: Tree, entries: seq<Entry>, restored: Tree)
    requires n <= |actions| && SelectionOf(actions, paths)
    requires Restores(t, AfterN(t, actions, n), restored, captured, paths, entries)
    ensures restored == t
  {
    forall q | !Selected(q, paths)
      ensures SameAt(t, AfterN(t, actions, n), q)
    {
      ActionsStayInside(t, actions, n, paths, q);
    }
    RestoreIsInverse(t, AfterN(t, actions, n), restored, captured, paths, entries);
  }

  /**
   The same when the next action failed and left a stray node: inside the selected subtrees the
   restore removes it; outside it stays, beside the original tree, and nothing else does.
   */
  lemma CheckpointUndoesAroundStray(
    t: Tree, actions: seq<Action>, n: nat, s: Path, changed: Tree, paths: seq<Path>,
    captured: Tree, entries: seq<Entry>, restored: Tree)
    requires n <= |actions| && SelectionOf(actions, paths) && StrayAt(AfterN(t, actions, n), changed, s)
    requires Restores(t, changed, restored, captured, paths, entries)
    ensures if Selected(s, paths) then restored == t else StrayAt(t, restored, s)
  {
    forall q | q != s
      ensures SameAt(t, restored, q)
    {
      if !Selected(q, paths) {
        ActionsStayInside(t, actions, n, paths, q);
      }
      NodeIsBack(t, changed, restored, captured, paths, entries, q);
    }
    if Selected(s, paths) {
      NodeIsBack(t, changed, restored, captured, paths, entries, s);
      SameEverywhere(t, restored);
    } else {
      EntriesHavePaths(t, captured, paths, entries);
      ActionsStayInside(t, actions, n, paths, s);
      ParentIsNotSelected(paths, s);
      ActionsStayInside(t, actions, n, paths, Parent(s));
      OneNewNode(t, restored, s);
    }
  }

  lemma ParentIsNotSelected(paths: seq<Path>, s: Path)
    requires s != [] && !Selected(s, paths)
    ensures !Selected(Parent(s), paths)
  {
    forall i | 0 <= i < |paths|
      ensures paths[i] <= Parent(s) ==> paths[i] <= s
    {
      PrefixTransitive(paths[i], Parent(s), s);
    }
  }

  lemma OneNewNode(t: Tree, u: Tree, s: Path)
    requires s in u && Vacant(t, s) && forall q :: q != s ==> SameAt(t, u, q)
    ensures StrayAt(t, u, s)
  {
    var with := t[s := u[s]];
    forall q
      ensures SameAt(with, u, q)
    {
      assert q != s ==> SameAt(t, u, q);
    }
    SameEverywhere(with, u);
  }

  /** After the actions, the way to every captured path is still clear, so such a restore can only fail by a fault. */
  lemma RestoreIsPossible(
    t: Tree, actions: seq<Action>, n: nat, paths: seq<Path>, captured: Tree, entries: seq<Entry>, i: nat)
    requires WellFormed(t) && n <= |actions| && SelectionOf(actions, paths)
    requires |entries| == |paths| && Captures(t, captured, paths, entries, |paths|)
    requires i < |entries| && entries[i].captured
    ensures entries[i].path in captured
    ensures WayIsClear(AfterN(t, actions, n), entries[i].path)
  {
    var p := entries[i].path;
    assert entries[i] == Entry(paths[i], paths[i] in t) && Below(captured, p) == Below(t, p);
    PresentInBelow(t, p);
    PresentInBelow(captured, p);
    forall k | 0 <= k < |p|
      ensures !IsFile(AfterN(t, actions, n), p[..k])
    {
      AncestorIsDir(t, p[..k], p);
      WayIsNotSelected(paths, i, p[..k]);
      ActionsStayInside(t, actions, n, paths, p[..k]);
    }
  }

  lemma AllRestorable(
    t: Tree, actions: seq<Action>, n: nat, stray: Option<Path>, changed: Tree, paths: seq<Path>,
    captured: Tree, entries: seq<Entry>)
    requires WellFormed(t) && n <= |actions| && SelectionOf(actions, paths) && [] !in paths
    requires |entries| == |paths| && Captures(t, captured, paths, entries, |paths|)
    requires if stray.None? then changed == AfterN(t, actions, n)
             else StrayAt(AfterN(t, actions, n), changed, stray.value)
    ensures PathsOf(entries) == paths && ValidEntries(entries, captured)
    ensures forall i :: 0 <= i < |entries| && entries[i].captured && stray.None? ==>
              WayIsClear(changed, entries[i].path)
  {
    EntriesHavePaths(t, captured, paths, entries);
    forall i | 0 <= i < |entries|
      ensures entries[i].path != []
      ensures entries[i].captured ==>
                entries[i].path in captured && WayIsClear(AfterN(t, actions, n), entries[i].path)
    {
      assert entries[i].path == paths[i] && paths[i] in paths;
      if entries[i].captured {
        RestoreIsPossible(t, actions, n, paths, captured, entries, i);
      }
    }
  }

  lemma AcceptedListApplies(t: Tree, actions: seq<Action>, sha: Sha)
    requires DistinctPaths(actions) && Accepts(t, actions, sha)
    ensures IsDir(t, []) ==> ApplicableN(t, actions, |actions|)
  {
    if IsDir(t, []) {
      AcceptedActionsApply(t, actions, |actions|, sha);
    }
  }

  /**
   The whole way through the code: select the paths, capture them, apply the actions, restore.
   Whichever action fails, a completed restore gives back the tree of the start, plus at most the
   stray node that the failed action left outside the selected subtrees; without any fault the
   restore completes, if the policy file can carry the selected paths.
   */
  method CaptureApplyRestore(
    config: Disk, recovery: RecoveryDir, captured: Disk, backup: Disk, actions: seq<Action>, ghost sha: Sha)
    returns (r: Option<RestoreResult>, ghost fault: bool, ghost stray: Option<Path>, ghost changed: Tree)
    requires config != captured && config != backup && captured != backup
    requires WellFormed(config.tree) && ActionsOk(actions) && Accepts(config.tree, actions, sha)
    requires captured.tree == backup.tree == map[[] := Dir(0x1C0)]
    modifies config, recovery, captured, backup
    // Between capture and restore, some of the actions took effect; without a fault, all of them.
    ensures exists n :: 0 <= n <= |actions| &&
              if stray.None? then changed == AfterN(old(config.tree), actions, n)
              else StrayAt(AfterN(old(config.tree), actions, n), changed, stray.value)
    ensures !fault && PolicyIsReadable(actions) && IsDir(old(config.tree), []) ==>
              changed == AfterN(old(config.tree), actions, |actions|)
    ensures r == Some(Restored) && stray.None? ==> config.tree == old(config.tree)
    ensures r == Some(Restored) && stray.Some? ==>
              config.tree == old(config.tree) || StrayAt(old(config.tree), config.tree, stray.value)
    ensures !fault && PolicyIsReadable(actions) ==> r == Some(Restored) && stray.None?
    ensures !PolicyIsReadable(actions) ==> r.None? && config.tree == old(config.tree)
  {
    ghost var start := config.tree;
    stray, fault, changed := None, false, start;
    assert changed == AfterN(start, actions, 0);
    var policy := PolicyForPromotion(actions);
    if policy.None? {
      return None, fault, stray, changed;
    }
    var paths := policy.value;
    var entries;
    entries, fault := CaptureConfig(config, paths, captured);
    assert [] !in paths by {
      forall i | 0 <= i < |actions|
        ensures actions[i].path != []
      {
        assert AcceptsAt(start, actions, i, sha);
      }
      assert !Minimal([], actions, |actions|);
    }
    if entries.None? {
      return None, fault, stray, changed;
    }
    var ok, applied;
    ok, applied, fault, stray := ApplyActions(actions, config, recovery);
    changed := config.tree;
    AcceptedListApplies(start, actions, sha);
    AfterNIsWellFormed(start, actions, |applied|);
    if stray.Some? {
      CreateIsWellFormed(AfterN(start, actions, |applied|), stray.value, config.tree[stray.value]);
    }
    AllRestorable(start, actions, |applied|, stray, changed, paths, captured.tree, entries.value);
    var result;
    ghost var f, undoFault;
    result, f, undoFault := RestoreConfig(config, entries.value, captured, backup);
    fault := fault || f;
    if result.Restored? {
      assert Restores(start, changed, config.tree, captured.tree, paths, entries.value);
      if stray.None? {
        CheckpointUndoesActions(start, actions, |applied|, paths, captured.tree, entries.value, config.tree);
      } else {
        CheckpointUndoesAroundStray(
          start, actions, |applied|, stray.value, changed, paths, captured.tree, entries.value, config.tree);
      }
    }
    r := Some(result);
  }
}
