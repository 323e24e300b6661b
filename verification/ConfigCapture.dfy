/**
 Capture of selected configuration subtrees, and the restore that replaces them all or puts
 them all back.
 */
module ConfigCapture {
  import opened Wrappers
  import opened ConfigTree
  import opened NodeCopy
  import opened CheckpointPaths

  /** A selected path with its state in the checkpoint: captured, or missing. */
  datatype Entry = Entry(path: Path, captured: bool)

  function PathsOf(entries: seq<Entry>): (paths: seq<Path>)
    ensures |paths| == |entries|
    ensures forall i :: 0 <= i < |entries| ==> paths[i] == entries[i].path
  {
    seq(|entries|, i requires 0 <= i < |entries| => entries[i].path)
  }

  predicate Selected(q: Path, paths: seq<Path>) {
    exists i :: 0 <= i < |paths| && paths[i] <= q
  }

  /** Outside the selected subtrees, nothing changed except for new directories on the way to captured ones. */
  ghost predicate OutsideKept(before: Tree, after: Tree, entries: seq<Entry>) {
    WellFormed(after) &&
    forall q :: !Selected(q, PathsOf(entries)) ==>
      && (q in before ==> q in after && after[q] == before[q])
      && (q in after && q !in before ==>
            after[q].Dir? && exists i :: 0 <= i < |entries| && entries[i].captured && q < entries[i].path)
  }

  lemma SelectedBy(q: Path, paths: seq<Path>, i: nat)
    requires i < |paths| && paths[i] <= q
    ensures Selected(q, paths)
  {
  }

  lemma PrefixTransitive(p: Path, q: Path, r: Path)
    ensures p <= q && q <= r ==> p <= r
  {
  }

  lemma SelectedByPrefix(q: Path, paths: seq<Path>, n: nat)
    requires n <= |paths|
    ensures Selected(q, paths[..n]) ==> Selected(q, paths)
  {
    if i :| 0 <= i < n && paths[..n][i] <= q {
      SelectedBy(q, paths, i);
    }
  }

  lemma WayIsNotSelected(paths: seq<Path>, i: nat, q: Path)
    requires Antichain(paths) && i < |paths| && q < paths[i]
    ensures !Selected(q, paths)
  {
    forall j | 0 <= j < |paths|
      ensures !(paths[j] <= q)
    {
      PrefixTransitive(paths[j], q, paths[i]);
    }
  }

  /** No node outside the subtree at `p` is new. */
  ghost predicate NothingNew(now: Tree, next: Tree, p: Path) {
    forall q :: q in next && !(p <= q) ==> q in now
  }

  /** A change at one selected path keeps the outside, and keeps every other selected subtree. */
  lemma TouchKeepsOthers(before: Tree, now: Tree, next: Tree, entries: seq<Entry>, i: nat)
    requires Antichain(PathsOf(entries)) && i < |entries|
    requires OutsideKept(before, now, entries) && Touched(now, next, entries[i].path)
    requires entries[i].captured || NothingNew(now, next, entries[i].path)
    ensures OutsideKept(before, next, entries)
    ensures forall j :: 0 <= j < |entries| && j != i ==> Below(next, entries[j].path) == Below(now, entries[j].path)
  {
    var paths := PathsOf(entries);
    forall q | !Selected(q, paths)
      ensures !(paths[i] <= q)
    {
      if paths[i] <= q {
        SelectedBy(q, paths, i);
      }
    }
    forall j | 0 <= j < |paths| && j != i
      ensures Below(next, paths[j]) == Below(now, paths[j])
    {
      OtherSubtree(now, next, paths, i, j);
    }
  }

  lemma PrefixesOfOne(p: Path, q: Path, r: Path)
    requires p <= r && q <= r
    ensures p <= q || q <= p
  {
    assert p == r[..|p|] && q == r[..|q|];
    if |p| <= |q| {
      assert q[..|p|] == p;
    } else {
      assert p[..|q|] == q;
    }
  }

  lemma OtherSubtree(now: Tree, next: Tree, paths: seq<Path>, i: nat, j: nat)
    requires Antichain(paths) && i < |paths| && j < |paths| && i != j
    requires Touched(now, next, paths[i])
    ensures Below(next, paths[j]) == Below(now, paths[j])
  {
    forall q | (q in now || q in next) && paths[j] <= q
      ensures !(paths[i] <= q) && !(q < paths[i])
    {
      if paths[i] <= q {
        PrefixesOfOne(paths[i], paths[j], q);
      }
      PrefixTransitive(paths[j], q, paths[i]);
    }
  }

  // ---------------------------------------------------------------- capture

  /** The checkpoint holds the selected subtrees of `t`, up to entry `n`. */
  ghost predicate Captures(t: Tree, captured: Tree, paths: seq<Path>, entries: seq<Entry>, n: nat)
    requires n <= |entries| && n <= |paths|
  {
    forall i :: 0 <= i < n ==>
      && entries[i] == Entry(paths[i], paths[i] in t)
      && Below(captured, paths[i]) == Below(t, paths[i])
  }

  lemma AbsentMeansEmpty(t: Tree, p: Path)
    requires WellFormed(t) && p !in t
    ensures Below(t, p) == map[]
  {
    NothingBelow(t, p);
  }

  lemma PresentInBelow(t: Tree, p: Path)
    ensures p in t <==> p in Below(t, p)
  {
  }

  /** Only the root and ancestors or parts of the first `n` selected subtrees are in the copy. */
  ghost predicate OnlySelected(captured: Tree, paths: seq<Path>, n: nat)
    requires n <= |paths|
  {
    forall q :: q in captured ==> Selected(q, paths[..n]) || (captured[q].Dir? && OnTheWay(q, paths, n))
  }

  /** The root, or a directory on the way to one of the first `n` paths. */
  ghost predicate OnTheWay(q: Path, paths: seq<Path>, n: nat)
    requires n <= |paths|
  {
    q == [] || exists i :: 0 <= i < n && q < paths[i]
  }

  lemma WayStaysClear(captured: Tree, paths: seq<Path>, n: nat)
    requires Antichain(paths) && n < |paths| && OnlySelected(captured, paths, n)
    ensures WayIsClear(captured, paths[n])
  {
    forall k | 0 <= k < |paths[n]|
      ensures !IsFile(captured, paths[n][..k])
    {
      WayIsNotSelected(paths, n, paths[n][..k]);
      SelectedByPrefix(paths[n][..k], paths, n);
    }
  }

  lemma StillOnlySelected(before: Tree, after: Tree, paths: seq<Path>, n: nat)
    requires n < |paths| && OnlySelected(before, paths, n) && Touched(before, after, paths[n])
    ensures OnlySelected(after, paths, n + 1)
  {
    forall q | q in after
      ensures Selected(q, paths[..n + 1]) || (after[q].Dir? && OnTheWay(q, paths, n + 1))
    {
      if paths[n] <= q {
        assert paths[..n + 1][n] == paths[n];
      } else if q in before && Selected(q, paths[..n]) {
        var i :| 0 <= i < n && paths[..n][i] <= q;
        assert paths[..n + 1][i] == paths[i];
      } else if q in before {
        assert OnTheWay(q, paths, n);
      }
    }
  }

  lemma OnlySelectedOfMore(captured: Tree, paths: seq<Path>, n: nat)
    requires n <= |paths| && OnlySelected(captured, paths, n)
    ensures OnlySelected(captured, paths, |paths|)
  {
    assert paths[..|paths|] == paths;
    forall q | q in captured
      ensures Selected(q, paths[..|paths|]) || (captured[q].Dir? && OnTheWay(q, paths, |paths|))
    {
      SelectedByPrefix(q, paths, n);
    }
  }

  /** The later selected subtrees are still empty in the copy. */
  ghost predicate NothingYet(captured: Tree, paths: seq<Path>, n: nat) {
    forall j :: n <= j < |paths| && paths[j] != [] ==> Below(captured, paths[j]) == map[]
  }

  /** The state of a capture after the first `n` paths. */
  ghost predicate Capturing(t: Tree, captured: Tree, paths: seq<Path>, entries: seq<Entry>, n: nat)
    requires n <= |paths|
  {
    && |entries| == n && WellFormed(captured) && [] !in paths[..n]
    && Captures(t, captured, paths, entries, n)
    && NothingYet(captured, paths, n) && OnlySelected(captured, paths, n)
  }

  lemma MissingStep(t: Tree, captured: Tree, paths: seq<Path>, entries: seq<Entry>, n: nat)
    requires WellFormed(t) && n < |paths| && Capturing(t, captured, paths, entries, n)
    requires paths[n] != [] && paths[n] !in t
    ensures Capturing(t, captured, paths, entries + [Entry(paths[n], false)], n + 1)
  {
    AbsentMeansEmpty(t, paths[n]);
    assert Touched(captured, captured, paths[n]);
    StillOnlySelected(captured, captured, paths, n);
    assert paths[..n + 1] == paths[..n] + [paths[n]];
  }

  lemma OtherSubtrees(before: Tree, after: Tree, paths: seq<Path>, n: nat)
    requires Antichain(paths) && n < |paths| && Touched(before, after, paths[n])
    ensures forall j :: 0 <= j < |paths| && j != n ==> Below(after, paths[j]) == Below(before, paths[j])
  {
    forall j | 0 <= j < |paths| && j != n
      ensures Below(after, paths[j]) == Below(before, paths[j])
    {
      OtherSubtree(before, after, paths, n, j);
    }
  }

  /** The copy of one path, complete or not. */
  lemma CopyStep(t: Tree, before: Tree, after: Tree, paths: seq<Path>, entries: seq<Entry>, n: nat)
    requires Antichain(paths) && n < |paths| && Capturing(t, before, paths, entries, n)
    requires paths[n] != [] && paths[n] in t && Touched(before, after, paths[n])
    ensures Captures(t, after, paths, entries, n) && OnlySelected(after, paths, n + 1) && WellFormed(after)
    ensures Below(after, paths[n]) == Below(t, paths[n]) ==>
              Capturing(t, after, paths, entries + [Entry(paths[n], true)], n + 1)
  {
    OtherSubtrees(before, after, paths, n);
    StillOnlySelected(before, after, paths, n);
    assert paths[..n + 1] == paths[..n] + [paths[n]];
  }

  /**
   Copies the selected subtrees that exist, in order, and stops at the first failure. The entries
   name exactly the paths whose copy is complete, and nothing else is copied.
   */
  method CopySelected(config: Disk, included: seq<Path>, destination: Disk)
    returns (ok: bool, entries: seq<Entry>, ghost fault: bool)
    requires config != destination && WellFormed(config.tree) && Antichain(included)
    requires destination.tree == map[[] := Dir(0x1C0)]
    modifies destination
    ensures WellFormed(destination.tree) && |entries| <= |included|
    ensures Captures(config.tree, destination.tree, included, entries, |entries|)
    ensures OnlySelected(destination.tree, included, |included|)
    ensures ok <==> |entries| == |included|
    ensures ok ==> !fault && [] !in included
    ensures !fault ==> (ok <==> [] !in included)
  {
    entries, fault := [], false;
    for n := 0 to |included|
      invariant Capturing(config.tree, destination.tree, included, entries, n) && !fault
    {
      var relative := included[n];
      OnlySelectedOfMore(destination.tree, included, n);
      if relative == [] {
        return false, entries, fault;
      }
      ghost var now := destination.tree;
      PresentInBelow(now, relative);
      if relative !in config.tree {
        MissingStep(config.tree, now, included, entries, n);
        entries := entries + [Entry(relative, false)];
      } else {
        WayStaysClear(now, included, n);
        var copied;
        copied, fault := CopyNode(config, relative, destination);
        CopyStep(config.tree, now, destination.tree, included, entries, n);
        if !copied {
          OnlySelectedOfMore(destination.tree, included, n + 1);
          return false, entries, fault;
        }
        entries := entries + [Entry(relative, true)];
      }
    }
    OnlySelectedOfMore(destination.tree, included, |included|);
    assert included[..|included|] == included;
    ok := true;
  }

  method CaptureConfig(config: Disk, included: seq<Path>, destination: Disk)
    returns (r: Option<seq<Entry>>, ghost fault: bool)
    requires config != destination && WellFormed(config.tree) && Antichain(included)
    requires destination.tree == map[[] := Dir(0x1C0)]
    modifies destination
    ensures WellFormed(destination.tree)
    ensures r.Some? ==>
              |r.value| == |included| && Captures(config.tree, destination.tree, included, r.value, |included|)
    ensures OnlySelected(destination.tree, included, |included|)
    ensures r.Some? ==> [] !in included && !fault
    ensures !fault ==> (r.Some? <==> [] !in included)
  {
    var ok, entries;
    ok, entries, fault := CopySelected(config, included, destination);
    r := if ok then Some(entries) else None;
  }

  // ---------------------------------------------------------------- restore

  /** What the subtree of an entry holds after a restore. */
  function Wanted(captured: Tree, e: Entry): Tree {
    if e.captured then Below(captured, e.path) else map[]
  }

  /** The entries of one checkpoint, with the captured data in place. */
  predicate ValidEntries(entries: seq<Entry>, captured: Tree) {
    forall i :: 0 <= i < |entries| ==> entries[i].path != [] && (entries[i].captured ==> entries[i].path in captured)
  }

  lemma WayIsKept(before: Tree, now: Tree, entries: seq<Entry>, i: nat)
    requires Antichain(PathsOf(entries)) && i < |entries| && OutsideKept(before, now, entries)
    ensures WayIsClear(now, entries[i].path) <==> WayIsClear(before, entries[i].path)
  {
    var paths := PathsOf(entries);
    forall k | 0 <= k < |paths[i]|
      ensures IsFile(now, paths[i][..k]) <==> IsFile(before, paths[i][..k])
    {
      WayIsNotSelected(paths, i, paths[i][..k]);
    }
  }

  /** Nothing is removed before every target has its complete backup. */
  method ReplaceTargets(
    config: Disk, entries: seq<Entry>, captured: Disk, ghost backup: Tree, ghost backups: seq<Entry>)
    returns (ok: bool, ghost fault: bool)
    requires |backups| == |entries| && Captures(config.tree, backup, PathsOf(entries), backups, |entries|)
    requires config != captured && WellFormed(config.tree) && WellFormed(captured.tree)
    requires Antichain(PathsOf(entries)) && ValidEntries(entries, captured.tree)
    modifies config
    ensures OutsideKept(old(config.tree), config.tree, entries)
    ensures ok ==>
              forall i :: 0 <= i < |entries| ==>
                Below(config.tree, entries[i].path) == Wanted(captured.tree, entries[i])
    ensures !fault ==>
              (ok <==> forall i :: 0 <= i < |entries| && entries[i].captured ==>
                                     WayIsClear(old(config.tree), entries[i].path))
  {
    fault := false;
    ghost var before := config.tree;
    for n := 0 to |entries|
      invariant OutsideKept(before, config.tree, entries) && !fault
      invariant forall i :: 0 <= i < n ==> Below(config.tree, entries[i].path) == Wanted(captured.tree, entries[i])
      invariant forall i :: 0 <= i < n && entries[i].captured ==> WayIsClear(before, entries[i].path)
    {
      var entry := entries[n];
      ghost var now := config.tree;
      var removed, copied;
      removed, fault := RemoveNode(config, entry.path);
      TouchKeepsOthers(before, now, config.tree, entries, n);
      if !removed {
        return false, fault;
      }
      if entry.captured {
        ghost var cleared := config.tree;
        WayIsKept(before, cleared, entries, n);
        PresentInBelow(cleared, entry.path);
        copied, fault := CopyNode(captured, entry.path, config);
        TouchKeepsOthers(before, cleared, config.tree, entries, n);
        if !copied {
          return false, fault;
        }
      }
    }
    ok := true;
  }

  /** The selected subtrees whose backup is complete, or that nothing has touched yet. */
  ghost predicate Recoverable(before: Tree, now: Tree, backup: Tree, entries: seq<Entry>, backups: seq<Entry>)
    requires |backups| <= |entries|
  {
    && OutsideKept(before, now, entries)
    && Captures(before, backup, PathsOf(entries), backups, |backups|)
    && forall i :: |backups| <= i < |entries| ==> Below(now, entries[i].path) == Below(before, entries[i].path)
  }

  /** Copying back a subtree that existed makes no new directory on the way to it. */
  lemma WayExists(before: Tree, now: Tree, next: Tree, entries: seq<Entry>, i: nat)
    requires Antichain(PathsOf(entries)) && i < |entries|
    requires WellFormed(before) && entries[i].path in before
    requires OutsideKept(before, now, entries) && Touched(now, next, entries[i].path)
    ensures NothingNew(now, next, entries[i].path)
  {
    var p := entries[i].path;
    forall q | q in next && !(p <= q)
      ensures q in now
    {
      if q < p {
        AncestorIsDir(before, q, p);
        WayIsNotSelected(PathsOf(entries), i, q);
      }
    }
  }

  /** Puts the backed up subtrees back, the last one first. One that fails does not stop the others. */
  method UndoRestore(config: Disk, entries: seq<Entry>, backups: seq<Entry>, backup: Disk, ghost before: Tree)
    returns (failed: seq<Path>, ghost fault: bool)
    requires config != backup && WellFormed(config.tree) && WellFormed(backup.tree) && WellFormed(before)
    requires Antichain(PathsOf(entries)) && [] !in PathsOf(entries) && |backups| <= |entries|
    requires Recoverable(before, config.tree, backup.tree, entries, backups)
    modifies config
    ensures Recoverable(before, config.tree, backup.tree, entries, backups)
    ensures forall i :: 0 <= i < |entries| && entries[i].path !in failed ==>
              Below(config.tree, entries[i].path) == Below(before, entries[i].path)
    ensures NoRepeats(failed) && forall p <- failed :: p in PathsOf(entries)
    ensures !fault ==> failed == []
  {
    failed, fault := [], false;
    var n := |backups|;
    while n > 0
      invariant 0 <= n <= |backups|
      invariant Recoverable(before, config.tree, backup.tree, entries, backups)
      invariant forall i :: n <= i < |entries| && entries[i].path !in failed ==>
                  Below(config.tree, entries[i].path) == Below(before, entries[i].path)
      invariant NoRepeats(failed) && forall p <- failed :: p in PathsOf(entries)[n..]
      invariant !fault ==> failed == []
    {
      n := n - 1;
      var target := backups[n].path;
      assert target == PathsOf(entries)[n] && target in PathsOf(entries);
      ghost var now := config.tree;
      var ok, f := RemoveNode(config, target);
      TouchKeepsOthers(before, now, config.tree, entries, n);
      fault := fault || f;
      if ok && backups[n].captured {
        ghost var cleared := config.tree;
        assert Below(backup.tree, target) == Below(before, target);
        PresentInBelow(cleared, target);
        PresentInBelow(backup.tree, target);
        PresentInBelow(before, target);
        WayIsKept(before, cleared, entries, n);
        WayToExisting(before, target);
        ok, f := CopyNode(backup, target, config);
        WayExists(before, cleared, config.tree, entries, n);
        TouchKeepsOthers(before, cleared, config.tree, entries, n);
        fault := fault || f;
      } else if ok {
        AbsentMeansEmpty(before, target);
      }
      if !ok {
        AppendNoRepeats(failed, target);
        failed := failed + [target];
      }
    }
  }

  lemma WayToExisting(t: Tree, p: Path)
    requires WellFormed(t) && p in t
    ensures WayIsClear(t, p)
  {
    forall k | 0 <= k < |p|
      ensures IsDir(t, p[..k])
    {
      AncestorIsDir(t, p[..k], p);
    }
  }

  datatype RestoreResult = Restored | Invalid | RestoreFailed(rollbackErrors: seq<Path>)

  /**
   Restores a checkpoint. Either every selected subtree is replaced, or the failure is reported;
   a failure leaves every selected subtree as it was, except for those that it reports. Even with
   rollback errors, each subtree is unchanged or has a complete backup. Outside the selected subtrees
   only new directories on the way to captured ones can appear.
   */
  method RestoreConfig(config: Disk, entries: seq<Entry>, captured: Disk, backup: Disk)
    returns (r: RestoreResult, ghost fault: bool, ghost undoFault: bool)
    requires config != captured && config != backup && captured != backup
    requires WellFormed(config.tree) && WellFormed(captured.tree) && Antichain(PathsOf(entries))
    requires backup.tree == map[[] := Dir(0x1C0)]
    modifies config, backup
    ensures r.Invalid? <==> !ValidEntries(entries, captured.tree)
    ensures r.Invalid? ==> config.tree == old(config.tree)
    ensures OutsideKept(old(config.tree), config.tree, entries)
    ensures r.Restored? ==>
              forall i :: 0 <= i < |entries| ==>
                Below(config.tree, entries[i].path) == Wanted(captured.tree, entries[i])
    ensures r.RestoreFailed? ==>
              && NoRepeats(r.rollbackErrors) && (forall p <- r.rollbackErrors :: p in PathsOf(entries))
              && forall i :: 0 <= i < |entries| && entries[i].path !in r.rollbackErrors ==>
                   Below(config.tree, entries[i].path) == Below(old(config.tree), entries[i].path)
    ensures forall i :: 0 <= i < |entries| ==>
              || Below(config.tree, entries[i].path) == Below(old(config.tree), entries[i].path)
              || Below(backup.tree, entries[i].path) == Below(old(config.tree), entries[i].path)
    ensures !fault && !r.Invalid? ==>
              (r.Restored? <==> forall i :: 0 <= i < |entries| && entries[i].captured ==>
                                             WayIsClear(old(config.tree), entries[i].path))
    ensures r.RestoreFailed? && !undoFault ==> r.rollbackErrors == []
  {
    fault, undoFault := false, false;
    ghost var before := config.tree;
    if exists i | 0 <= i < |entries| ::
        entries[i].path == [] || (entries[i].captured && entries[i].path !in captured.tree) {
      return Invalid, fault, undoFault;
    }
    var paths := PathsOf(entries);
    assert [] !in paths;
    var ok, backups;
    ok, backups, fault := CopySelected(config, paths, backup);
    if ok {
      ok, fault := ReplaceTargets(config, entries, captured, backup.tree, backups);
    }
    if ok {
      return Restored, fault, undoFault;
    }
    var failed;
    failed, undoFault := UndoRestore(config, entries, backups, backup, before);
    r := RestoreFailed(failed);
  }
}
