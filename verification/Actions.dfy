/**
 The typed actions of a proposal: what inspection accepts, what applying one action does
 to the tree, and which recovery record it leaves.

 `sha` stands for SHA-256; nothing is assumed about it.
 */
module Actions {
  import opened Wrappers
  import opened ConfigTree

  type Digest = string
  type Sha = Bytes -> Digest

  datatype Action =
    | Mkdir(path: Path, mode: nat)
    | Write(path: Path, content: Bytes, mode: nat, expected: Option<Digest>)

  datatype Strategy = NoChange | RemoveCreatedDirectory | RestoreBackup | RemoveCreatedFile

  datatype Kind = Absent | Directory | RegularFile

  datatype Observation = Observation(action: nat, path: Path, kind: Kind, sha256: Option<Digest>, mode: Option<nat>)

  datatype Check = PathCheck(path: Path) | ContentCheck(path: Path, expected: Digest)

  datatype Inspection = Inspection(targets: seq<Observation>, verification: seq<Check>, recovery: seq<Strategy>)

  datatype InspectError =
    UnsafeTarget | TargetConflict | TargetParentMissing | PreconditionRequired | PreconditionFailed

  /** One entry of the list that applying returns and rollback consumes. */
  datatype Applied = Applied(action: nat, path: Path, changed: bool, recovery: Strategy, originalMode: nat)

  /** The definition parser refuses an action list in which two actions name one path. */
  ghost predicate DistinctPaths(actions: seq<Action>) {
    forall i, j :: 0 <= i < j < |actions| ==> actions[i].path != actions[j].path
  }

  // ---------------------------------------------------------------- inspection

  function CurrentDigest(t: Tree, p: Path, sha: Sha): Option<Digest> {
    if IsFile(t, p) then Some(sha(t[p].bytes)) else None
  }

  /** The root, and the targets of the directory actions before action `i`. */
  function Planned(actions: seq<Action>, i: nat): set<Path>
    requires i <= |actions|
  {
    if i == 0 then {[]}
    else Planned(actions, i - 1) + if actions[i - 1].Mkdir? then {actions[i - 1].path} else {}
  }

  /** The error that inspection raises for one action, given the directories planned so far. */
  function Rejection(t: Tree, a: Action, planned: set<Path>, sha: Sha): Option<InspectError> {
    if a.path == [] then Some(UnsafeTarget)
    else
      var parentMissing := !IsDir(t, Parent(a.path)) && Parent(a.path) !in planned;
      match a
      case Mkdir(p, _) =>
        if p in t && t[p].File? then Some(TargetConflict)
        else if parentMissing then Some(TargetParentMissing)
        else None
      case Write(p, _, _, expected) =>
        if parentMissing then Some(TargetParentMissing)
        else if p in t && t[p].Dir? then Some(TargetConflict)
        else if p in t && expected.None? then Some(PreconditionRequired)
        else if expected.Some? && expected != CurrentDigest(t, p, sha) then Some(PreconditionFailed)
        else None
  }

  function Observe(t: Tree, a: Action, index: nat, sha: Sha): Observation {
    match a
    case Mkdir(p, _) => Observation(index, p, if p in t then Directory else Absent, None, None)
    case Write(p, _, _, _) =>
      Observation(index, p, if p in t then RegularFile else Absent, CurrentDigest(t, p, sha),
                  if p in t then Some(t[p].mode) else None)
  }

  function CheckOf(a: Action, sha: Sha): Check {
    match a
    case Mkdir(p, _) => PathCheck(p)
    case Write(p, content, _, _) => ContentCheck(p, sha(content))
  }

  function StrategyOf(t: Tree, a: Action): Strategy {
    match a
    case Mkdir(p, _) => if p in t then NoChange else RemoveCreatedDirectory
    case Write(p, _, _, _) => if p in t then RestoreBackup else RemoveCreatedFile
  }

  predicate AcceptsAt(t: Tree, actions: seq<Action>, i: nat, sha: Sha)
    requires i < |actions|
  {
    Rejection(t, actions[i], Planned(actions, i), sha).None?
  }

  /** The parent is a directory, or it is the root or the target of an earlier directory action. */
  ghost predicate ParentReady(t: Tree, actions: seq<Action>, i: nat)
    requires i < |actions| && actions[i].path != []
  {
    var parent := actions[i].path[..|actions[i].path| - 1];
    || (parent in t && t[parent].Dir?)
    || parent == []
    || exists j :: 0 <= j < i && actions[j].Mkdir? && actions[j].path == parent
  }

  /** What inspection asks of action `i`: a safe target, a parent, the right kind, and the content it expects. */
  ghost predicate Acceptable(t: Tree, actions: seq<Action>, i: nat, sha: Sha)
    requires i < |actions|
  {
    actions[i].path != [] && ParentReady(t, actions, i) &&
    match actions[i]
    case Mkdir(p, _) => p in t ==> t[p].Dir?
    case Write(p, _, _, expected) =>
      if p in t then t[p].File? && expected == Some(sha(t[p].bytes)) else expected == None
  }

  /** What each error says about the action that is refused. */
  ghost predicate Justified(t: Tree, actions: seq<Action>, i: nat, sha: Sha, e: InspectError)
    requires i < |actions|
  {
    var a, p := actions[i], actions[i].path;
    match e
    case UnsafeTarget => p == []
    case TargetConflict =>
      p != [] && p in t && if a.Mkdir? then t[p].File? else t[p].Dir? && ParentReady(t, actions, i)
    case TargetParentMissing =>
      p != [] && !ParentReady(t, actions, i) && (a.Mkdir? && p in t ==> t[p].Dir?)
    case PreconditionRequired =>
      p != [] && a.Write? && ParentReady(t, actions, i) && p in t && t[p].File? && a.expected == None
    case PreconditionFailed =>
      && p != [] && a.Write? && ParentReady(t, actions, i) && a.expected != None
      && (p in t ==> t[p].File? && a.expected != Some(sha(t[p].bytes)))
  }

  lemma {:induction false} PlannedAre(actions: seq<Action>, i: nat, p: Path)
    requires i <= |actions|
    ensures p in Planned(actions, i) <==> p == [] || exists j :: 0 <= j < i && actions[j].Mkdir? && actions[j].path == p
  {
    if i > 0 {
      PlannedAre(actions, i - 1, p);
    }
  }

  /** Inspection refuses exactly what is not acceptable, and its error is the one that applies. */
  lemma RejectionMeans(t: Tree, actions: seq<Action>, i: nat, sha: Sha)
    requires i < |actions|
    ensures AcceptsAt(t, actions, i, sha) <==> Acceptable(t, actions, i, sha)
    ensures forall e :: Rejection(t, actions[i], Planned(actions, i), sha) == Some(e) ==>
              Justified(t, actions, i, sha, e)
  {
    if actions[i].path != [] {
      PlannedAre(actions, i, Parent(actions[i].path));
    }
  }

  ghost predicate Accepts(t: Tree, actions: seq<Action>, sha: Sha) {
    forall i :: 0 <= i < |actions| ==> AcceptsAt(t, actions, i, sha)
  }

  function InspectionOf(t: Tree, actions: seq<Action>, sha: Sha): Inspection {
    Inspection(
      seq(|actions|, i requires 0 <= i < |actions| => Observe(t, actions[i], i, sha)),
      seq(|actions|, i requires 0 <= i < |actions| => CheckOf(actions[i], sha)),
      seq(|actions|, i requires 0 <= i < |actions| => StrategyOf(t, actions[i])))
  }

  /** What inspection records for action `i`: the state of its target, the later check, and the recovery. */
  ghost predicate Describes(t: Tree, a: Action, i: nat, seen: Observation, check: Check, recovery: Strategy, sha: Sha) {
    match a
    case Mkdir(p, _) =>
      && seen == Observation(i, p, if p in t then Directory else Absent, None, None)
      && check == PathCheck(p)
      && recovery == (if p in t then NoChange else RemoveCreatedDirectory)
    case Write(p, content, _, _) =>
      && check == ContentCheck(p, sha(content))
      && (p !in t ==> seen == Observation(i, p, Absent, None, None) && recovery == RemoveCreatedFile)
      && (p in t && t[p].File? ==>
            seen == Observation(i, p, RegularFile, Some(sha(t[p].bytes)), Some(t[p].mode)) && recovery == RestoreBackup)
  }

  /** The record of one target in two trees is the same iff nothing that inspection looks at has changed. */
  ghost predicate Unchanged(t: Tree, u: Tree, a: Action, sha: Sha) {
    (a.path in t <==> a.path in u) &&
    (a.Write? && a.path in t ==>
       && t[a.path].File? && u[a.path].File?
       && sha(t[a.path].bytes) == sha(u[a.path].bytes) && t[a.path].mode == u[a.path].mode)
  }

  /** Equal observations mean exactly that no target has changed: its existence, its content or its mode. */
  lemma TargetsTellChanges(t: Tree, u: Tree, actions: seq<Action>, sha: Sha)
    requires Accepts(t, actions, sha) && Accepts(u, actions, sha)
    ensures InspectionOf(t, actions, sha).targets == InspectionOf(u, actions, sha).targets <==>
              forall i :: 0 <= i < |actions| ==> Unchanged(t, u, actions[i], sha)
  {
    forall i | 0 <= i < |actions|
      ensures Observe(t, actions[i], i, sha) == Observe(u, actions[i], i, sha) <==> Unchanged(t, u, actions[i], sha)
    {
      assert AcceptsAt(t, actions, i, sha) && AcceptsAt(u, actions, i, sha);
    }
    var s, v := InspectionOf(t, actions, sha).targets, InspectionOf(u, actions, sha).targets;
    assert forall i :: 0 <= i < |actions| ==>
        s[i] == Observe(t, actions[i], i, sha) && v[i] == Observe(u, actions[i], i, sha);
    assert s == v <==> forall i :: 0 <= i < |actions| ==> s[i] == v[i];
  }

  // ---------------------------------------------------------------- applying

  /** Without a fault, the system calls of this action all succeed. */
  predicate Applicable(t: Tree, a: Action) {
    a.path != [] &&
    match a
    case Mkdir(p, _) => p in t || IsDir(t, Parent(p))
    case Write(p, _, _, _) => !IsDir(t, p) && IsDir(t, Parent(p))
  }

  /** The tree after the action succeeded. */
  function After(t: Tree, a: Action): Tree {
    match a
    case Mkdir(p, mode) => if p in t then t else t[p := Dir(mode)]
    case Write(p, content, mode, _) => t[p := File(content, mode)]
  }

  /** The tree after the first `n` actions succeeded in order. */
  function AfterN(t: Tree, actions: seq<Action>, n: nat): Tree
    requires n <= |actions|
  {
    if n == 0 then t else After(AfterN(t, actions, n - 1), actions[n - 1])
  }

  /** Each of the first `n` actions applies to the tree that the ones before it produce. */
  predicate ApplicableN(t: Tree, actions: seq<Action>, n: nat)
    requires n <= |actions|
  {
    n == 0 || (ApplicableN(t, actions, n - 1) && Applicable(AfterN(t, actions, n - 1), actions[n - 1]))
  }

  function RecordOf(t: Tree, a: Action, index: nat): Applied {
    var strategy := StrategyOf(t, a);
    Applied(index, a.path, strategy != NoChange, strategy, if strategy == RestoreBackup then t[a.path].mode else 0)
  }

  function RecordAt(t: Tree, actions: seq<Action>, i: nat): Applied
    requires i < |actions|
  {
    RecordOf(AfterN(t, actions, i), actions[i], i)
  }

  function Records(t: Tree, actions: seq<Action>, n: nat): seq<Applied>
    requires n <= |actions|
  {
    seq(n, i requires 0 <= i < n => RecordAt(t, actions, i))
  }

  /** The path is a directory, or the file has the expected content. */
  ghost predicate Passes(t: Tree, c: Check, sha: Sha) {
    c.path != [] && c.path in t &&
    match c
    case PathCheck(p) => t[p].Dir?
    case ContentCheck(p, expected) => t[p].File? && sha(t[p].bytes) == expected
  }

  // ---------------------------------------------------------------- basic facts

  lemma AfterIsWellFormed(t: Tree, a: Action)
    requires WellFormed(t) && Applicable(t, a)
    ensures WellFormed(After(t, a))
  {
    forall p | p in After(t, a) && p != []
      ensures IsDir(After(t, a), Parent(p))
    {
      if p != a.path {
        assert IsDir(t, Parent(p));
      }
    }
  }

  lemma {:induction false} AfterNIsWellFormed(t: Tree, actions: seq<Action>, n: nat)
    requires WellFormed(t) && n <= |actions| && ApplicableN(t, actions, n)
    ensures WellFormed(AfterN(t, actions, n))
  {
    if n > 0 {
      AfterNIsWellFormed(t, actions, n - 1);
      AfterIsWellFormed(AfterN(t, actions, n - 1), actions[n - 1]);
    }
  }

  /** Applying touches only the targets. */
  lemma {:induction false} OthersUntouched(t: Tree, actions: seq<Action>, n: nat, q: Path)
    requires n <= |actions| && forall i :: 0 <= i < n ==> actions[i].path != q
    ensures q in AfterN(t, actions, n) <==> q in t
    ensures q in t ==> AfterN(t, actions, n)[q] == t[q]
  {
    if n > 0 {
      OthersUntouched(t, actions, n - 1, q);
    }
  }

  /** Nothing disappears, and a directory stays exactly as it is. */
  lemma {:induction false} NodesPersist(t: Tree, actions: seq<Action>, k: nat, n: nat, q: Path)
    requires k <= n <= |actions| && ApplicableN(t, actions, n)
    requires q in AfterN(t, actions, k)
    ensures q in AfterN(t, actions, n)
    ensures AfterN(t, actions, n)[q].Dir? <==> AfterN(t, actions, k)[q].Dir?
    ensures IsDir(AfterN(t, actions, k), q) ==> AfterN(t, actions, n)[q] == AfterN(t, actions, k)[q]
    decreases n
  {
    if k < n {
      NodesPersist(t, actions, k, n - 1, q);
    }
  }

  // ---------------------------------------------------------------- inspection is sound

  lemma {:induction false} PlannedMeansEarlierMkdir(actions: seq<Action>, i: nat, p: Path) returns (j: nat)
    requires i <= |actions| && p in Planned(actions, i) && p != []
    ensures j < i && actions[j] == Mkdir(p, actions[j].mode)
  {
    if actions[i - 1].Mkdir? && actions[i - 1].path == p {
      j := i - 1;
    } else {
      j := PlannedMeansEarlierMkdir(actions, i - 1, p);
    }
  }

  lemma PlannedDirectoryStands(t: Tree, actions: seq<Action>, j: nat, n: nat, sha: Sha)
    requires Accepts(t, actions, sha) && DistinctPaths(actions)
    requires j < n <= |actions| && ApplicableN(t, actions, n) && actions[j].Mkdir?
    ensures IsDir(AfterN(t, actions, n), actions[j].path)
  {
    var p := actions[j].path;
    assert AcceptsAt(t, actions, j, sha);
    OthersUntouched(t, actions, j, p);
    assert AfterN(t, actions, j + 1) == After(AfterN(t, actions, j), actions[j]);
    NodesPersist(t, actions, j + 1, n, p);
  }

  lemma AcceptedActionApplies(t: Tree, actions: seq<Action>, n: nat, sha: Sha)
    requires Accepts(t, actions, sha) && DistinctPaths(actions) && IsDir(t, [])
    requires n < |actions| && ApplicableN(t, actions, n)
    ensures Applicable(AfterN(t, actions, n), actions[n])
  {
    var a, now := actions[n], AfterN(t, actions, n);
    assert AcceptsAt(t, actions, n, sha);
    var parent := Parent(a.path);
    assert IsDir(now, parent) by {
      if IsDir(t, parent) {
        NodesPersist(t, actions, 0, n, parent);
      } else {
        var j := PlannedMeansEarlierMkdir(actions, n, parent);
        PlannedDirectoryStands(t, actions, j, n, sha);
      }
    }
    OthersUntouched(t, actions, n, a.path);
  }

  lemma {:induction false} ApplicablePrefix(t: Tree, actions: seq<Action>, k: nat, n: nat)
    requires k <= n <= |actions| && ApplicableN(t, actions, n)
    ensures ApplicableN(t, actions, k)
    decreases n
  {
    if k < n {
      ApplicablePrefix(t, actions, k, n - 1);
    }
  }

  lemma {:induction false} AcceptedActionsApply(t: Tree, actions: seq<Action>, n: nat, sha: Sha)
    requires Accepts(t, actions, sha) && DistinctPaths(actions) && IsDir(t, [])
    requires n <= |actions|
    ensures ApplicableN(t, actions, n)
  {
    if n > 0 {
      AcceptedActionsApply(t, actions, n - 1, sha);
      AcceptedActionApplies(t, actions, n - 1, sha);
    }
  }

  /**
   Inspection promises that every action applies in order. Inspection counts the root among the
   planned directories without looking at it, so the promise holds exactly when the root exists
   as a directory. Classification checks that; promotion does not check it again.
   */
  lemma InspectionIsSound(t: Tree, actions: seq<Action>, sha: Sha)
    requires WellFormed(t) && actions != [] && DistinctPaths(actions) && Accepts(t, actions, sha)
    ensures ApplicableN(t, actions, |actions|) <==> IsDir(t, [])
  {
    if IsDir(t, []) {
      AcceptedActionsApply(t, actions, |actions|, sha);
    } else {
      var p := actions[0].path;
      assert AcceptsAt(t, actions, 0, sha);
      forall q | q in t
        ensures q == []
      {
        if q != [] {
          AncestorIsDir(t, [], q);
        }
      }
      assert !ApplicableN(t, actions, 1);
      if ApplicableN(t, actions, |actions|) {
        ApplicablePrefix(t, actions, 1, |actions|);
      }
    }
  }

  /** The promise really fails without a root: one accepted action that cannot be applied. */
  lemma MissingRootIsAccepted(sha: Sha)
    ensures var actions := [Mkdir(["hypr"], 0x1C0)];
            Accepts(map[], actions, sha) && DistinctPaths(actions) && !ApplicableN(map[], actions, 1)
  {
    var actions := [Mkdir(["hypr"], 0x1C0)];
    assert Parent(actions[0].path) == [];
    assert !Applicable(AfterN(map[], actions, 0), actions[0]);
  }

  // ---------------------------------------------------------------- what success means

  /** The node that a target holds once the whole list is applied. */
  function Desired(t: Tree, a: Action): Node {
    match a
    case Mkdir(p, mode) => if p in t then t[p] else Dir(mode)
    case Write(_, content, mode, _) => File(content, mode)
  }

  /** `after` is `before` overridden at exactly the targets. */
  ghost predicate Overridden(before: Tree, after: Tree, actions: seq<Action>) {
    && (forall i :: 0 <= i < |actions| ==>
          actions[i].path in after && after[actions[i].path] == Desired(before, actions[i]))
    && (forall q :: (forall i :: 0 <= i < |actions| ==> actions[i].path != q) ==>
          (q in after <==> q in before) && (q in before ==> after[q] == before[q]))
  }

  lemma {:induction false} TargetSettles(t: Tree, actions: seq<Action>, i: nat, n: nat)
    requires DistinctPaths(actions) && i < n <= |actions|
    ensures var p := actions[i].path; p in AfterN(t, actions, n) && AfterN(t, actions, n)[p] == Desired(t, actions[i])
    decreases n
  {
    if i == n - 1 {
      OthersUntouched(t, actions, i, actions[i].path);
    } else {
      TargetSettles(t, actions, i, n - 1);
    }
  }

  lemma AppliedTreeIsOverridden(t: Tree, actions: seq<Action>)
    requires DistinctPaths(actions)
    ensures Overridden(t, AfterN(t, actions, |actions|), actions)
  {
    forall i | 0 <= i < |actions|
      ensures actions[i].path in AfterN(t, actions, |actions|)
      ensures AfterN(t, actions, |actions|)[actions[i].path] == Desired(t, actions[i])
    {
      TargetSettles(t, actions, i, |actions|);
    }
    forall q | forall i :: 0 <= i < |actions| ==> actions[i].path != q
      ensures q in AfterN(t, actions, |actions|) <==> q in t
      ensures q in t ==> AfterN(t, actions, |actions|)[q] == t[q]
    {
      OthersUntouched(t, actions, |actions|, q);
    }
  }

  /** Every check that inspection recorded passes on the tree that the actions produce. */
  lemma VerificationPasses(t: Tree, actions: seq<Action>, sha: Sha)
    requires Accepts(t, actions, sha) && DistinctPaths(actions)
    ensures forall c <- InspectionOf(t, actions, sha).verification :: Passes(AfterN(t, actions, |actions|), c, sha)
  {
    forall i | 0 <= i < |actions|
      ensures Passes(AfterN(t, actions, |actions|), CheckOf(actions[i], sha), sha)
    {
      TargetSettles(t, actions, i, |actions|);
      assert AcceptsAt(t, actions, i, sha);
    }
  }

  /**
   The recovery plan stored at classification is the one that applying uses: whatever happened to
   the tree in between, equal target observations give equal strategies.
   */
  lemma RecoveryPlanIsUsed(classified: Tree, promoted: Tree, actions: seq<Action>, sha: Sha)
    requires DistinctPaths(actions) && Accepts(classified, actions, sha) && Accepts(promoted, actions, sha)
    requires InspectionOf(classified, actions, sha).targets == InspectionOf(promoted, actions, sha).targets
    ensures forall i :: 0 <= i < |actions| ==>
              InspectionOf(classified, actions, sha).recovery[i] == Records(promoted, actions, |actions|)[i].recovery
  {
    forall i | 0 <= i < |actions|
      ensures StrategyOf(classified, actions[i]) == RecordAt(promoted, actions, i).recovery
    {
      OthersUntouched(promoted, actions, i, actions[i].path);
      assert InspectionOf(classified, actions, sha).targets[i] == InspectionOf(promoted, actions, sha).targets[i];
    }
  }
}
