/** Copying and removing one node of a tree with everything below it. */
module NodeCopy {
  import opened ConfigTree

  function Below(t: Tree, p: Path): Tree {
    map q | q in t && p <= q :: t[q]
  }

  /** Outside the subtree at `p`, nothing changed except for new directories on the way to `p`. */
  ghost predicate Touched(before: Tree, after: Tree, p: Path) {
    WellFormed(after) &&
    forall q :: !(p <= q) ==>
      && (q in before ==> q in after && after[q] == before[q])
      && (q in after && q !in before ==> q < p && after[q].Dir?)
  }

  /** No proper ancestor of `p` is a file, so directories can be made on the way to `p`. */
  ghost predicate WayIsClear(t: Tree, p: Path) {
    forall k :: 0 <= k < |p| ==> !IsFile(t, p[..k])
  }

  lemma {:induction false} ShortestPath(paths: set<Path>) returns (p: Path)
    requires paths != {}
    ensures p in paths && forall q <- paths :: |p| <= |q|
  {
    p :| p in paths;
    if paths != {p} {
      var other := ShortestPath(paths - {p});
      if |other| < |p| {
        p := other;
      }
    }
  }

  lemma {:induction false} LongestPath(paths: set<Path>) returns (p: Path)
    requires paths != {}
    ensures p in paths && forall q <- paths :: |q| <= |p|
  {
    p :| p in paths;
    if paths != {p} {
      var other := LongestPath(paths - {p});
      if |other| > |p| {
        p := other;
      }
    }
  }

  /** `mkdir` with `parents` and `exist_ok` for the directory that is to hold `p`. */
  method MakeParents(d: Disk, p: Path) returns (ok: bool, ghost fault: bool)
    requires WellFormed(d.tree) && p != [] && p !in d.tree
    modifies d
    ensures Touched(old(d.tree), d.tree, p) && p !in d.tree
    ensures ok ==> !fault && IsDir(d.tree, Parent(p)) && WayIsClear(old(d.tree), p)
    ensures !fault ==> (ok <==> WayIsClear(old(d.tree), p))
  {
    fault := false;
    for k := 0 to |p|
      invariant Touched(old(d.tree), d.tree, p) && p !in d.tree && !fault
      invariant forall j :: 0 <= j < k ==> IsDir(d.tree, p[..j]) && !IsFile(old(d.tree), p[..j])
    {
      var q := p[..k];
      assert !(p <= q);
      if q in d.tree {
        if d.tree[q].File? {
          assert IsFile(old(d.tree), q);
          return false, fault;
        }
      } else {
        var refused: bool := *;
        fault := refused;
        if refused {
          return false, fault;
        }
        var mode: nat := *;
        ghost var now := d.tree;
        d.tree := d.tree[q := Dir(mode)];
        assert WellFormed(d.tree) by {
          forall r | r in d.tree && r != []
            ensures IsDir(d.tree, Parent(r))
          {
            if r == q {
              assert Parent(q) == p[..k - 1];
            } else {
              assert IsDir(now, Parent(r));
            }
          }
        }
      }
    }
    assert Parent(p) == p[..|p| - 1];
    ok := true;
  }

  /** The nodes below `p` that are not in `todo` have been copied. */
  ghost predicate Copied(source: Tree, dest: Tree, p: Path, todo: set<Path>) {
    && (forall q :: q in source && p <= q && q !in todo ==> q in dest && dest[q] == source[q])
    && (forall q :: q in dest && p <= q ==> q in source && q !in todo)
  }

  lemma ParentWasCopied(source: Tree, dest: Tree, p: Path, todo: set<Path>, q: Path)
    requires WellFormed(source) && p != [] && IsDir(dest, Parent(p)) && Copied(source, dest, p, todo)
    requires q in source && p <= q && forall r <- todo :: |q| <= |r|
    ensures IsDir(dest, Parent(q))
  {
    if q != p {
      assert q[..|p|] == p && q[..|q|] == q;
      assert IsDir(source, Parent(q));
      assert p <= Parent(q);
    }
  }

  lemma CreateIsWellFormed(t: Tree, q: Path, node: Node)
    requires WellFormed(t) && Vacant(t, q)
    ensures WellFormed(t[q := node])
  {
    forall r | r in t[q := node] && r != []
      ensures IsDir(t[q := node], Parent(r))
    {
      assert r in t ==> IsDir(t, Parent(r));
    }
  }

  lemma NothingBelow(t: Tree, p: Path)
    requires WellFormed(t) && p !in t
    ensures Below(t, p) == map[]
    ensures forall q :: q in t ==> !(p <= q)
  {
    forall q | q in t
      ensures !(p <= q)
    {
      if p <= q && q != p {
        assert q[..|p|] == p && q[..|q|] == q;
        AncestorIsDir(t, p, q);
      }
    }
  }

  lemma TouchedAt(before: Tree, now: Tree, p: Path, q: Path, node: Node)
    requires Touched(before, now, p) && p <= q && p != [] && Vacant(now, q) && IsDir(now, Parent(p))
    ensures Touched(before, now[q := node], p) && IsDir(now[q := node], Parent(p))
  {
    CreateIsWellFormed(now, q, node);
  }

  lemma CopiedOneMore(source: Tree, dest: Tree, p: Path, todo: set<Path>, q: Path)
    requires Copied(source, dest, p, todo) && q in todo && q in source && p <= q
    ensures Copied(source, dest[q := source[q]], p, todo - {q})
  {
  }

  /** Copies one node whose place is free. A copy that fails part of the way can leave an incomplete node. */
  method CopyOne(source: Disk, q: Path, dest: Disk, ghost p: Path, ghost before: Tree)
    returns (ok: bool, ghost fault: bool)
    requires source != dest && q in source.tree && p <= q && p != []
    requires Touched(before, dest.tree, p) && IsDir(dest.tree, Parent(p)) && Vacant(dest.tree, q)
    modifies dest
    ensures Touched(before, dest.tree, p) && IsDir(dest.tree, Parent(p))
    ensures ok ==> dest.tree == old(dest.tree)[q := source.tree[q]]
    ensures fault <==> !ok
  {
    var refused: bool := *;
    var started: bool, partial: Node := *, *;
    ok, fault := !refused, refused;
    if ok {
      TouchedAt(before, dest.tree, p, q, source.tree[q]);
      dest.tree := dest.tree[q := source.tree[q]];
    } else if started {
      TouchedAt(before, dest.tree, p, q, partial);
      dest.tree := dest.tree[q := partial];
    }
  }

  /** Copies a file, or a directory with all it holds, with the stored modes. Parents come first. */
  method CopyNode(source: Disk, p: Path, dest: Disk) returns (ok: bool, ghost fault: bool)
    requires source != dest && WellFormed(source.tree) && WellFormed(dest.tree)
    requires p != [] && p in source.tree && p !in dest.tree
    modifies dest
    ensures Touched(old(dest.tree), dest.tree, p)
    ensures ok ==> !fault && Below(dest.tree, p) == Below(source.tree, p)
    ensures !fault ==> (ok <==> WayIsClear(old(dest.tree), p))
  {
    ghost var before := dest.tree;
    ok, fault := MakeParents(dest, p);
    if !ok {
      return;
    }
    NothingBelow(dest.tree, p);
    var todo := Below(source.tree, p).Keys;
    while todo != {}
      invariant todo <= Below(source.tree, p).Keys
      invariant Touched(before, dest.tree, p) && IsDir(dest.tree, Parent(p))
      invariant ok ==> !fault && Copied(source.tree, dest.tree, p, todo)
      invariant !ok ==> fault
      decreases |todo|
    {
      ghost var shortest := ShortestPath(todo);
      var q :| q in todo && forall r <- todo :: |q| <= |r|;
      if ok {
        ParentWasCopied(source.tree, dest.tree, p, todo, q);
        CopiedOneMore(source.tree, dest.tree, p, todo, q);
      }
      // After an error the copy goes on with what still has a place.
      if q !in dest.tree && IsDir(dest.tree, Parent(q)) {
        var copied, f := CopyOne(source, q, dest, p, before);
        ok, fault := ok && copied, fault || f;
      }
      todo := todo - {q};
    }
    if ok {
      assert Below(dest.tree, p) == Below(source.tree, p);
    }
  }

  /** Removes a file, or a directory with all it holds. A path that does not exist is fine. */
  method RemoveNode(d: Disk, p: Path) returns (ok: bool, ghost fault: bool)
    requires WellFormed(d.tree) && p != []
    modifies d
    ensures Touched(old(d.tree), d.tree, p)
    ensures ok ==> !fault && Below(d.tree, p) == map[]
    ensures forall q :: !(p <= q) ==> (q in d.tree <==> q in old(d.tree))
    ensures !fault ==> ok
  {
    ok, fault := true, false;
    if p !in d.tree {
      NothingBelow(d.tree, p);
      return;
    }
    var todo := Below(d.tree, p).Keys;
    while todo != {}
      invariant todo == Below(d.tree, p).Keys
      invariant Touched(old(d.tree), d.tree, p) && !fault
      invariant forall q :: !(p <= q) ==> (q in d.tree <==> q in old(d.tree))
      decreases |todo|
    {
      ghost var longest := LongestPath(todo);
      var q :| q in todo && forall r <- todo :: |r| <= |q|;
      var refused: bool := *;
      fault := refused;
      if refused {
        return false, fault;
      }
      ghost var now := d.tree;
      d.tree := d.tree - {q};
      assert WellFormed(d.tree) by {
        forall r | r in d.tree && r != []
          ensures IsDir(d.tree, Parent(r))
        {
          assert IsDir(now, Parent(r));
          assert p <= Parent(r) ==> p <= r;
        }
      }
      todo := todo - {q};
      assert todo == Below(d.tree, p).Keys;
    }
  }
}
