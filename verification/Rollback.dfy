/**
 Rollback of applied actions, newest first, from the records and the recovery files that
 applying left behind.

 A failed action can leave one stray node: the directory whose `mkdir` succeeded and whose
 `chmod` failed, or a temporary file whose removal failed. No record names it.
 */
module Rollback {
  import opened ConfigTree
  import opened Actions

  /** Contents of the per-action recovery files, by action index. */
  type Backups = map<nat, Bytes>

  datatype Item = Item(action: nat, path: Path, restored: bool)

  datatype Undone = Undone(tree: Tree, items: seq<Item>)

  /** The effect of undoing one record without a fault: the new tree, and whether it worked. */
  function Undo(t: Tree, r: Applied, backups: Backups): (Tree, bool) {
    if r.path == [] then (t, false)
    else
      match r.recovery
      case NoChange => (t, true)
      case RestoreBackup =>
        if r.action in backups && IsDir(t, Parent(r.path)) && !IsDir(t, r.path)
        then (t[r.path := File(backups[r.action], r.originalMode)], true)
        else (t, false)
      case RemoveCreatedFile =>
        if Unlinkable(t, r.path) then (t - {r.path}, true) else (t, false)
      case RemoveCreatedDirectory =>
        if r.path !in t then (t, true)
        else if Removable(t, r.path) then (t - {r.path}, true)
        else (t, false)
  }

  /** Undoes the first `n` records, the last of them first. An item that fails is skipped. */
  function UndoN(t: Tree, rs: seq<Applied>, n: nat, backups: Backups): Undone
    requires n <= |rs|
    decreases n
  {
    if n == 0 then Undone(t, [])
    else
      var (tree, restored) := Undo(t, rs[n - 1], backups);
      var rest := UndoN(tree, rs, n - 1, backups);
      Undone(rest.tree, [Item(rs[n - 1].action, rs[n - 1].path, restored)] + rest.items)
  }

  predicate AllRestored(items: seq<Item>) {
    forall i :: 0 <= i < |items| ==> items[i].restored
  }

  /** The file that action `i` replaced is in its recovery file. */
  predicate BackedUp(t: Tree, actions: seq<Action>, i: nat, backups: Backups)
    requires i < |actions|
  {
    var before := AfterN(t, actions, i);
    actions[i].Write? && IsFile(before, actions[i].path) ==>
      i in backups && backups[i] == before[actions[i].path].bytes
  }

  ghost predicate BackedUpN(t: Tree, actions: seq<Action>, n: nat, backups: Backups)
    requires n <= |actions|
  {
    forall i :: 0 <= i < n ==> BackedUp(t, actions, i, backups)
  }

  lemma UndoIsWellFormed(t: Tree, r: Applied, backups: Backups)
    requires WellFormed(t)
    ensures WellFormed(Undo(t, r, backups).0)
  {
    var after := Undo(t, r, backups).0;
    forall q | q in after && q != []
      ensures IsDir(after, Parent(q))
    {
      assert q in t ==> IsDir(t, Parent(q));
    }
  }

  lemma NoFileAbove(t: Tree, p: Path)
    requires WellFormed(t) && p in t
    ensures forall k | 0 <= k < |p| :: !IsFile(t, p[..k])
  {
    forall k | 0 <= k < |p|
      ensures IsDir(t, p[..k])
    {
      AncestorIsDir(t, p[..k], p);
    }
  }

  lemma UndoInvertsOne(t: Tree, a: Action, i: nat, backups: Backups)
    requires WellFormed(t) && Applicable(t, a)
    requires a.Write? && IsFile(t, a.path) ==> i in backups && backups[i] == t[a.path].bytes
    ensures Undo(After(t, a), RecordOf(t, a, i), backups) == (t, true)
  {
    AfterIsWellFormed(t, a);
    if a.path !in t {
      NoFileAbove(After(t, a), a.path);
      assert After(t, a) - {a.path} == t;
      assert !HasChild(After(t, a), a.path) by {
        forall q | q in After(t, a) && q != []
          ensures Parent(q) != a.path
        {
          assert q in t ==> IsDir(t, Parent(q));
        }
      }
    } else if a.Write? {
      assert After(t, a)[a.path := t[a.path]] == t;
    }
  }

  /** Rolling back everything that was applied is the identity, and every item reports success. */
  lemma {:induction false} RollbackInverts(t: Tree, actions: seq<Action>, rs: seq<Applied>, n: nat, backups: Backups)
    requires WellFormed(t) && n <= |actions| && n <= |rs|
    requires ApplicableN(t, actions, n) && BackedUpN(t, actions, n, backups)
    requires forall i :: 0 <= i < n ==> rs[i] == RecordAt(t, actions, i)
    ensures UndoN(AfterN(t, actions, n), rs, n, backups).tree == t
    ensures AllRestored(UndoN(AfterN(t, actions, n), rs, n, backups).items)
  {
    if n > 0 {
      AfterNIsWellFormed(t, actions, n - 1);
      assert BackedUp(t, actions, n - 1, backups);
      UndoInvertsOne(AfterN(t, actions, n - 1), actions[n - 1], n - 1, backups);
      assert rs[n - 1] == RecordAt(t, actions, n - 1);
      RollbackInverts(t, actions, rs, n - 1, backups);
    }
  }

  // ---------------------------------------------------------------- with a stray node

  /** `after` is `before` plus one new node at `s`. */
  predicate StrayAt(before: Tree, after: Tree, s: Path) {
    Vacant(before, s) && s in after && after == before[s := after[s]]
  }

  /** What a failed action can leave: the directory at its own path, or a temporary file beside it. */
  predicate LeftBy(a: Action, s: Path, node: Node) {
    s != [] &&
    if a.Mkdir? then s == a.path && node.Dir?
    else s != a.path && a.path != [] && Parent(s) == Parent(a.path) && node.File?
  }

  /** Where a temporary file for one of the named targets can be. */
  predicate Beside(q: Path, named: set<Path>) {
    q != [] && exists p <- named :: p != [] && p != q && Parent(p) == Parent(q)
  }

  /** Outside the named targets, every node is as it was, and a new node can only be a temporary file's. */
  ghost predicate OthersKept(before: Tree, after: Tree, named: set<Path>) {
    forall q :: q !in named ==>
      && (q in before ==> q in after && after[q] == before[q])
      && (q in after && q !in before ==> Beside(q, named))
  }

  lemma MoreNamed(before: Tree, after: Tree, some: set<Path>, named: set<Path>)
    requires OthersKept(before, after, some) && some <= named
    ensures OthersKept(before, after, named)
  {
    forall q | Beside(q, some)
      ensures Beside(q, named)
    {
    }
  }

  lemma OthersStillKept(before: Tree, now: Tree, next: Tree, some: set<Path>, named: set<Path>)
    requires OthersKept(before, now, named) && OthersKept(now, next, some) && some <= named
    ensures OthersKept(before, next, named)
  {
    MoreNamed(now, next, some, named);
  }

  /** The nodes of `full` on the way to `s`, as far as `base` does not have them. */
  function Residue(full: Tree, base: Tree, s: Path): Tree {
    map q | q in full && q <= s && q !in base :: full[q]
  }

  /** The tree `base` while the stray node, and so the way to it, is still there. */
  function WithStray(base: Tree, full: Tree, s: Path): Tree {
    base + Residue(full, base, s)
  }

  /** Undoing cannot remove exactly the created directories on the way to the stray node. */
  predicate Pinned(r: Applied, s: Path) {
    r.recovery == RemoveCreatedDirectory && r.path <= s
  }

  /** `full` holds the stray node `s` and everything in `now`, with the same directories. */
  ghost predicate Around(now: Tree, full: Tree, s: Path) {
    && WellFormed(full) && s in full && s !in now
    && forall q :: q in now ==> q in full && (full[q].Dir? <==> now[q].Dir?) && (now[q].Dir? ==> full[q] == now[q])
  }

  lemma UndoWriteWithStray(t: Tree, a: Action, i: nat, full: Tree, s: Path, backups: Backups)
    requires WellFormed(t) && Applicable(t, a) && a.Write? && Around(After(t, a), full, s)
    requires IsFile(t, a.path) ==> i in backups && backups[i] == t[a.path].bytes
    ensures Undo(WithStray(After(t, a), full, s), RecordOf(t, a, i), backups) == (WithStray(t, full, s), true)
  {
    var now, p := After(t, a), a.path;
    var with := WithStray(now, full, s);
    if p <= s {
      assert p in now && s[..|p|] == p && s[..|s|] == s;
      AncestorIsDir(full, p, s);
    }
    if p in t {
      assert with[p := t[p]] == WithStray(t, full, s);
    } else {
      assert forall k | 0 <= k < |p| :: !IsFile(with, p[..k]) by {
        forall k | 0 <= k < |p|
          ensures IsDir(t, p[..k])
        {
          if p[..k] != Parent(p) {
            AncestorIsDir(t, p[..k], Parent(p));
          }
        }
      }
      assert with - {p} == WithStray(t, full, s);
    }
  }

  /** A new directory on the way to the stray node keeps a child, so it cannot be removed. */
  lemma UndoMkdirOnTheWay(t: Tree, a: Action, i: nat, full: Tree, s: Path, backups: Backups)
    requires WellFormed(t) && Applicable(t, a) && a.Mkdir? && a.path !in t && Around(After(t, a), full, s)
    requires a.path <= s
    ensures Undo(WithStray(After(t, a), full, s), RecordOf(t, a, i), backups) == (WithStray(t, full, s), false)
  {
    var now, p := After(t, a), a.path;
    assert p in now && s[..|p|] == p && s[..|s|] == s;
    var child := s[..|p| + 1];
    if child != s {
      AncestorIsDir(full, child, s);
    }
    assert Parent(child) == p && child in WithStray(now, full, s);
    assert WithStray(now, full, s) == WithStray(t, full, s);
  }

  lemma NoChildOffTheWay(t: Tree, a: Action, full: Tree, s: Path)
    requires WellFormed(t) && Applicable(t, a) && a.Mkdir? && a.path !in t && !(a.path <= s)
    ensures !HasChild(WithStray(After(t, a), full, s), a.path)
  {
    forall q | q in WithStray(After(t, a), full, s) && q != []
      ensures Parent(q) != a.path
    {
      assert q in t ==> IsDir(t, Parent(q));
      assert q <= s ==> Parent(q) <= s;
    }
  }

  lemma UndoMkdirOffTheWay(t: Tree, a: Action, i: nat, full: Tree, s: Path, backups: Backups)
    requires WellFormed(t) && Applicable(t, a) && a.Mkdir? && a.path !in t && !(a.path <= s)
    ensures Undo(WithStray(After(t, a), full, s), RecordOf(t, a, i), backups) == (WithStray(t, full, s), true)
  {
    NoChildOffTheWay(t, a, full, s);
    assert WithStray(After(t, a), full, s) - {a.path} == WithStray(t, full, s);
  }

  lemma UndoOneWithStray(t: Tree, a: Action, i: nat, full: Tree, s: Path, backups: Backups)
    requires WellFormed(t) && Applicable(t, a) && Around(After(t, a), full, s)
    requires a.Write? && IsFile(t, a.path) ==> i in backups && backups[i] == t[a.path].bytes
    ensures Undo(WithStray(After(t, a), full, s), RecordOf(t, a, i), backups)
              == (WithStray(t, full, s), !Pinned(RecordOf(t, a, i), s))
  {
    if a.Write? {
      UndoWriteWithStray(t, a, i, full, s, backups);
    } else if a.path !in t {
      if a.path <= s {
        UndoMkdirOnTheWay(t, a, i, full, s, backups);
      } else {
        UndoMkdirOffTheWay(t, a, i, full, s, backups);
      }
    }
  }

  lemma FullIsAround(t: Tree, actions: seq<Action>, n: nat, total: nat, full: Tree, s: Path)
    requires WellFormed(t) && n <= total <= |actions| && ApplicableN(t, actions, total)
    requires StrayAt(AfterN(t, actions, total), full, s)
    ensures Around(AfterN(t, actions, n), full, s)
  {
    var now, last := AfterN(t, actions, n), AfterN(t, actions, total);
    AfterNIsWellFormed(t, actions, total);
    forall q | q in now
      ensures q in last && (last[q].Dir? <==> now[q].Dir?) && (now[q].Dir? ==> last[q] == now[q])
    {
      NodesPersist(t, actions, n, total, q);
    }
  }

  /** Item by item, the outcome of a rollback while the stray node is in place. */
  function ItemsAround(rs: seq<Applied>, n: nat, s: Path): seq<Item>
    requires n <= |rs|
    decreases n
  {
    if n == 0 then []
    else [Item(rs[n - 1].action, rs[n - 1].path, !Pinned(rs[n - 1], s))] + ItemsAround(rs, n - 1, s)
  }

  lemma {:induction false} ItemsAroundRestored(rs: seq<Applied>, n: nat, s: Path)
    requires n <= |rs|
    ensures AllRestored(ItemsAround(rs, n, s)) <==> forall i :: 0 <= i < n ==> !Pinned(rs[i], s)
  {
    if n > 0 {
      ItemsAroundRestored(rs, n - 1, s);
      var items, rest := ItemsAround(rs, n, s), ItemsAround(rs, n - 1, s);
      assert items[1..] == rest;
      assert AllRestored(items) <==> items[0].restored && AllRestored(rest) by {
        assert forall i :: 0 <= i < |rest| ==> rest[i] == items[i + 1];
      }
    }
  }

  /** Undoing record `k - 1` takes one tree to the one before it. */
  ghost predicate Link(trees: seq<Tree>, rs: seq<Applied>, k: nat, s: Path, backups: Backups)
    requires 0 < k < |trees| && k <= |rs|
  {
    Undo(trees[k], rs[k - 1], backups) == (trees[k - 1], !Pinned(rs[k - 1], s))
  }

  lemma {:induction false} UndoChain(trees: seq<Tree>, rs: seq<Applied>, n: nat, s: Path, backups: Backups)
    requires n < |trees| && n <= |rs| && forall k :: 0 < k <= n ==> Link(trees, rs, k, s, backups)
    ensures UndoN(trees[n], rs, n, backups) == Undone(trees[0], ItemsAround(rs, n, s))
  {
    if n > 0 {
      assert Link(trees, rs, n, s, backups);
      UndoChain(trees, rs, n - 1, s, backups);
    }
  }

  lemma RollbackOneAroundStray(
    t: Tree, actions: seq<Action>, rs: seq<Applied>, n: nat, total: nat, full: Tree, s: Path, backups: Backups)
    requires WellFormed(t) && 0 < n <= total <= |actions| && n <= |rs|
    requires ApplicableN(t, actions, total) && BackedUpN(t, actions, n, backups)
    requires rs[n - 1] == RecordAt(t, actions, n - 1)
    requires StrayAt(AfterN(t, actions, total), full, s)
    ensures var now, before := AfterN(t, actions, n), AfterN(t, actions, n - 1);
            Undo(WithStray(now, full, s), rs[n - 1], backups) == (WithStray(before, full, s), !Pinned(rs[n - 1], s))
  {
    ApplicablePrefix(t, actions, n, total);
    AfterNIsWellFormed(t, actions, n - 1);
    FullIsAround(t, actions, n, total, full, s);
    assert BackedUp(t, actions, n - 1, backups);
    UndoOneWithStray(AfterN(t, actions, n - 1), actions[n - 1], n - 1, full, s, backups);
  }

  lemma TreesAround(t: Tree, actions: seq<Action>, n: nat, full: Tree, s: Path) returns (trees: seq<Tree>)
    requires n <= |actions|
    ensures |trees| == n + 1
    ensures forall k :: 0 <= k <= n ==> trees[k] == WithStray(AfterN(t, actions, k), full, s)
  {
    trees := seq(n + 1, k requires 0 <= k <= n => WithStray(AfterN(t, actions, k), full, s));
  }

  /** The general form: rolling back the first `n` records while the stray node is in place. */
  lemma RollbackAroundStray(
    t: Tree, actions: seq<Action>, rs: seq<Applied>, n: nat, total: nat, full: Tree, s: Path, backups: Backups)
    requires WellFormed(t) && n <= total <= |actions| && n <= |rs|
    requires ApplicableN(t, actions, total) && BackedUpN(t, actions, n, backups)
    requires forall i :: 0 <= i < n ==> rs[i] == RecordAt(t, actions, i)
    requires StrayAt(AfterN(t, actions, total), full, s)
    ensures UndoN(WithStray(AfterN(t, actions, n), full, s), rs, n, backups)
         == Undone(WithStray(t, full, s), ItemsAround(rs, n, s))
  {
    var trees := TreesAround(t, actions, n, full, s);
    forall k | 0 < k <= n
      ensures Link(trees, rs, k, s, backups)
    {
      RollbackOneAroundStray(t, actions, rs, k, total, full, s, backups);
      assert trees[k] == WithStray(AfterN(t, actions, k), full, s);
      assert trees[k - 1] == WithStray(AfterN(t, actions, k - 1), full, s);
    }
    UndoChain(trees, rs, n, s, backups);
    assert trees[0] == WithStray(AfterN(t, actions, 0), full, s);
    assert trees[n] == WithStray(AfterN(t, actions, n), full, s);
  }

  /** A directory on the way to the stray node that is not in `t` was created by some record. */
  lemma {:induction false} CreatedOnTheWay(t: Tree, actions: seq<Action>, n: nat, q: Path) returns (i: nat)
    requires n <= |actions| && IsDir(AfterN(t, actions, n), q) && q !in t
    ensures i < n && RecordAt(t, actions, i).recovery == RemoveCreatedDirectory && actions[i].path == q
  {
    if q in AfterN(t, actions, n - 1) && IsDir(AfterN(t, actions, n - 1), q) {
      i := CreatedOnTheWay(t, actions, n - 1, q);
    } else {
      i := n - 1;
    }
  }

  lemma {:induction false} CreatedWasAbsent(t: Tree, actions: seq<Action>, i: nat)
    requires i < |actions| && ApplicableN(t, actions, i) && RecordAt(t, actions, i).recovery == RemoveCreatedDirectory
    ensures actions[i].path !in t
  {
    if actions[i].path in t {
      NodesPersist(t, actions, 0, i, actions[i].path);
    }
  }

  lemma OnTheWayToParent(p: Path, s: Path)
    ensures s != [] && p <= s && p != s ==> p <= Parent(s)
  {
    if p <= s {
      assert s[..|p|] == p && s[..|s|] == s;
    }
  }

  /** The directory that a record created is there, so it is not the stray node itself. */
  lemma CreatedIsThere(t: Tree, actions: seq<Action>, n: nat, i: nat)
    requires i < n <= |actions| && ApplicableN(t, actions, n)
    requires RecordAt(t, actions, i).recovery == RemoveCreatedDirectory
    ensures actions[i].path in AfterN(t, actions, n) && actions[i].path !in t
  {
    ApplicablePrefix(t, actions, i, n);
    CreatedWasAbsent(t, actions, i);
    assert actions[i].path in AfterN(t, actions, i + 1);
    NodesPersist(t, actions, i + 1, n, actions[i].path);
  }

  /** No record is pinned when the stray node's directory existed from the start. */
  lemma NotPinned(t: Tree, actions: seq<Action>, n: nat, i: nat, s: Path)
    requires WellFormed(t) && i < n <= |actions| && ApplicableN(t, actions, n)
    requires s != [] && s !in AfterN(t, actions, n) && Parent(s) in t
    ensures !Pinned(RecordAt(t, actions, i), s)
  {
    if Pinned(RecordAt(t, actions, i), s) {
      CreatedIsThere(t, actions, n, i);
      OnTheWayToParent(actions[i].path, s);
      PathAbove(t, actions[i].path, Parent(s));
    }
  }

  lemma PathAbove(t: Tree, p: Path, q: Path)
    requires WellFormed(t) && q in t
    ensures p <= q ==> p in t
  {
    if p <= q && p != q {
      assert q[..|p|] == p && q[..|q|] == q;
      AncestorIsDir(t, p, q);
    }
  }

  lemma NothingElseLeft(t: Tree, actions: seq<Action>, n: nat, full: Tree, s: Path)
    requires WellFormed(t) && n <= |actions| && ApplicableN(t, actions, n)
    requires StrayAt(AfterN(t, actions, n), full, s) && IsDir(t, Parent(s))
    ensures s !in t && Residue(full, t, s) == map[s := full[s]]
  {
    if s in t {
      NodesPersist(t, actions, 0, n, s);
    }
    forall q | q in Residue(full, t, s)
      ensures q == s
    {
      if q != s {
        if q != Parent(s) {
          AncestorIsDir(t, q, Parent(s));
        }
      }
    }
  }

  /**
   Rollback after a fault that left a stray node: the tree is the old one plus the stray node and
   the created directories that lead to it, whose items report an error. All items report
   success exactly when the stray node's directory existed before; then nothing else is left.
   */
  lemma RollbackWithStray(t: Tree, actions: seq<Action>, n: nat, full: Tree, s: Path, backups: Backups)
    requires WellFormed(t) && n <= |actions|
    requires ApplicableN(t, actions, n) && BackedUpN(t, actions, n, backups)
    requires StrayAt(AfterN(t, actions, n), full, s)
    ensures var undone := UndoN(full, Records(t, actions, n), n, backups);
            && undone.tree == WithStray(t, full, s)
            && (AllRestored(undone.items) <==> IsDir(t, Parent(s)))
            && (AllRestored(undone.items) ==> StrayAt(t, undone.tree, s))
  {
    var rs, now := Records(t, actions, n), AfterN(t, actions, n);
    assert WithStray(now, full, s) == full by {
      assert full[s] == Residue(full, now, s)[s];
    }
    RollbackAroundStray(t, actions, rs, n, n, full, s, backups);
    ItemsAroundRestored(rs, n, s);
    NoPinnedRecords(t, actions, n, s);
    if Parent(s) in t {
      NodesPersist(t, actions, 0, n, Parent(s));
      NothingElseLeft(t, actions, n, full, s);
      assert WithStray(t, full, s) == t[s := full[s]];
    }
  }

  lemma NoPinnedRecords(t: Tree, actions: seq<Action>, n: nat, s: Path)
    requires WellFormed(t) && n <= |actions| && ApplicableN(t, actions, n) && Vacant(AfterN(t, actions, n), s)
    ensures (forall i :: 0 <= i < n ==> !Pinned(Records(t, actions, n)[i], s)) <==> Parent(s) in t
  {
    if Parent(s) in t {
      forall i | 0 <= i < n
        ensures !Pinned(Records(t, actions, n)[i], s)
      {
        NotPinned(t, actions, n, i, s);
      }
    } else {
      var i := CreatedOnTheWay(t, actions, n, Parent(s));
      assert Pinned(Records(t, actions, n)[i], s);
    }
  }

  /**
   Rollback can fail: of two accepted actions that create a directory inside a new one, the second
   `chmod` fails, and the first directory cannot be removed.
   */
  lemma RollbackCanFail(sha: Sha)
    ensures var t: Tree, actions := map[[] := Dir(0x1C0)], [Mkdir(["a"], 0x1C0), Mkdir(["a", "b"], 0x1C0)];
            var full := map[[] := Dir(0x1C0), ["a"] := Dir(0x1C0), ["a", "b"] := Dir(0x1ED)];
            && WellFormed(t) && DistinctPaths(actions) && Accepts(t, actions, sha)
            && ApplicableN(t, actions, 1) && LeftBy(actions[1], ["a", "b"], full[["a", "b"]])
            && StrayAt(AfterN(t, actions, 1), full, ["a", "b"])
            && !AllRestored(UndoN(full, Records(t, actions, 1), 1, map[]).items)
  {
    var t: Tree, actions := map[[] := Dir(0x1C0)], [Mkdir(["a"], 0x1C0), Mkdir(["a", "b"], 0x1C0)];
    var full := map[[] := Dir(0x1C0), ["a"] := Dir(0x1C0), ["a", "b"] := Dir(0x1ED)];
    assert Parent(["a"]) == [] && Parent(["a", "b"]) == ["a"];
    assert ApplicableN(t, actions, 0) && Applicable(AfterN(t, actions, 0), actions[0]);
    var now := AfterN(t, actions, 1);
    assert AfterN(t, actions, 0) == t && now == t[["a"] := Dir(0x1C0)];
    assert full == now[["a", "b"] := Dir(0x1ED)];
    assert Planned(actions, 1) == Planned(actions, 0) + {["a"]};
    assert AcceptsAt(t, actions, 0, sha) && AcceptsAt(t, actions, 1, sha);
    RollbackWithStray(t, actions, 1, full, ["a", "b"], map[]);
  }
}
