/**
 The user configuration directory as a tree of directories and regular files.

 A path is the sequence of its segments below the configuration root, so `[]` is
 the root itself (the relative path "." has no segments). A tree maps each
 existing path to its node. The root can be missing, or be a file.
 */
module ConfigTree {
  import opened Wrappers

  newtype Byte = x: int | 0 <= x < 256
  type Bytes = seq<Byte>
  type Path = seq<string>

  datatype Node = Dir(mode: nat) | File(bytes: Bytes, mode: nat)

  type Tree = map<Path, Node>

  function Parent(p: Path): Path
    requires p != []
  {
    p[..|p| - 1]
  }

  predicate IsDir(t: Tree, p: Path) {
    p in t && t[p].Dir?
  }

  predicate IsFile(t: Tree, p: Path) {
    p in t && t[p].File?
  }

  /** Every node except the root lies in an existing directory. */
  ghost predicate WellFormed(t: Tree) {
    forall p {:trigger Parent(p)} :: p in t && p != [] ==> IsDir(t, Parent(p))
  }

  /** A new node can be created at `p`. */
  predicate Vacant(t: Tree, p: Path) {
    p != [] && p !in t && IsDir(t, Parent(p))
  }

  predicate HasChild(t: Tree, p: Path) {
    exists q {:trigger q in t} :: q in t && q != [] && Parent(q) == p
  }

  lemma {:induction false} AncestorIsDir(t: Tree, q: Path, p: Path)
    requires WellFormed(t) && p in t && q < p
    ensures IsDir(t, q)
    decreases |p|
  {
    assert IsDir(t, Parent(p));
    if q != Parent(p) {
      AncestorIsDir(t, q, Parent(p));
    }
  }

  /**
   A directory tree on disk. Each method is one system call: it can fail for its documented
   reason, and it can also fail for no visible reason (`fault`).
   */
  class Disk {
    var tree: Tree

    constructor (t: Tree)
      ensures tree == t
    {
      tree := t;
    }

    method Mkdir(p: Path, mode: nat) returns (ok: bool, ghost fault: bool)
      modifies this
      ensures ok ==> Vacant(old(tree), p) && exists m: nat :: tree == old(tree)[p := Dir(m)]
      ensures !ok ==> tree == old(tree)
      ensures ok ==> !fault
      ensures !fault ==> (ok <==> Vacant(old(tree), p))
    {
      // The process umask can clear bits of the requested mode.
      var masked: nat := *;
      var refused: bool := *;
      fault := refused;
      ok := !refused && p != [] && p !in tree && IsDir(tree, Parent(p));
      if ok {
        tree := tree[p := Dir(masked)];
      }
    }

    method Chmod(p: Path, mode: nat) returns (ok: bool, ghost fault: bool)
      modifies this
      ensures ok ==> p in old(tree) && tree == old(tree)[p := old(tree)[p].(mode := mode)]
      ensures !ok ==> tree == old(tree)
      ensures ok ==> !fault
      ensures !fault ==> (ok <==> p in old(tree))
    {
      var refused: bool := *;
      fault := refused;
      ok := !refused && p in tree;
      if ok {
        tree := tree[p := tree[p].(mode := mode)];
      }
    }

    /** Creates an empty private file beside `p`, under a name derived from `p` that is not in use. */
    method MakeTemp(p: Path) returns (temp: Option<Path>, ghost fault: bool)
      requires p != []
      modifies this
      ensures temp.None? ==> tree == old(tree)
      ensures temp.Some? ==> !fault && temp.value != p
      ensures temp.Some? ==> Vacant(old(tree), temp.value) && Parent(temp.value) == Parent(p)
      ensures temp.Some? ==> tree == old(tree)[temp.value := File([], 0x180)]
      ensures !fault ==> (temp.Some? <==> IsDir(old(tree), Parent(p)))
    {
      var refused: bool := *;
      var suffix: string := *;
      var candidate := Parent(p) + ["." + p[|p| - 1] + "-" + suffix];
      refused := refused || candidate in tree;
      fault := refused;
      assert Parent(candidate) == Parent(p);
      assert |candidate[|p| - 1]| > |p[|p| - 1]|;
      if refused || !IsDir(tree, Parent(p)) {
        temp := None;
      } else {
        temp := Some(candidate);
        tree := tree[candidate := File([], 0x180)];
      }
    }

    /** Writes and syncs the content. A failed write can leave any content behind. */
    method WriteFile(p: Path, content: Bytes) returns (ok: bool, ghost fault: bool)
      requires IsFile(tree, p)
      modifies this
      ensures exists b :: tree == old(tree)[p := File(b, old(tree)[p].mode)]
      ensures ok ==> tree == old(tree)[p := File(content, old(tree)[p].mode)]
      ensures fault <==> !ok
    {
      var refused: bool := *;
      fault := refused;
      ok := !refused;
      var written: Bytes := *;
      tree := tree[p := File(if ok then content else written, tree[p].mode)];
    }

    /** Atomic replacement: the file at `from` becomes the file at `to`. */
    method Replace(from: Path, to: Path) returns (ok: bool, ghost fault: bool)
      requires IsFile(tree, from) && from != to && to != []
      modifies this
      ensures ok ==> !IsDir(old(tree), to) && IsDir(old(tree), Parent(to))
      ensures ok ==> tree == (old(tree) - {from})[to := old(tree)[from]]
      ensures !ok ==> tree == old(tree)
      ensures ok ==> !fault
      ensures !fault ==> (ok <==> !IsDir(old(tree), to) && IsDir(old(tree), Parent(to)))
    {
      var refused: bool := *;
      fault := refused;
      ok := !refused && !IsDir(tree, to) && IsDir(tree, Parent(to));
      if ok {
        tree := (tree - {from})[to := tree[from]];
      }
    }

    /** `unlink` with `missing_ok`: a missing file in an existing directory is a success. */
    method Unlink(p: Path) returns (ok: bool, ghost fault: bool)
      modifies this
      ensures ok ==> Unlinkable(old(tree), p) && tree == old(tree) - {p}
      ensures !ok ==> tree == old(tree)
      ensures ok ==> !fault
      ensures !fault ==> (ok <==> Unlinkable(old(tree), p))
    {
      var refused: bool := *;
      fault := refused;
      ok := !refused && Unlinkable(tree, p);
      if ok {
        tree := tree - {p};
      }
    }

    method Rmdir(p: Path) returns (ok: bool, ghost fault: bool)
      modifies this
      ensures ok ==> Removable(old(tree), p) && tree == old(tree) - {p}
      ensures !ok ==> tree == old(tree)
      ensures ok ==> !fault
      ensures !fault ==> (ok <==> Removable(old(tree), p))
    {
      var refused: bool := *;
      fault := refused;
      ok := !refused && Removable(tree, p);
      if ok {
        tree := tree - {p};
      }
    }
  }

  /** The longest existing ancestor of a missing file is a directory, or the file itself exists. */
  predicate Unlinkable(t: Tree, p: Path) {
    p != [] && !IsDir(t, p) && forall k | 0 <= k < |p| :: !IsFile(t, p[..k])
  }

  predicate Removable(t: Tree, p: Path) {
    IsDir(t, p) && !HasChild(t, p)
  }
}
