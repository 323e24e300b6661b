/**
 The paths that a promotion hands to the checkpoint module, and the policy checks that the
 checkpoint module runs on them.
 */
module CheckpointPaths {
  import opened Wrappers
  import opened ConfigTree
  import opened Actions
  import opened Text
  import opened Validation
  import opened JsonText
  import opened PolicyText

  /** No path is an ancestor of another one, and none occurs twice. */
  ghost predicate Antichain(paths: seq<Path>) {
    forall i, j :: 0 <= i < |paths| && 0 <= j < |paths| && i != j ==> !(paths[i] <= paths[j])
  }

  lemma PrefixCases(p: Path, q: Path)
    ensures p <= q <==> p == q || p < q
  {
    if p <= q {
      assert q[..|p|] == p && q[..|q|] == q;
    }
  }

  /** `p` is one of the first `n` action paths, and none of those is a proper ancestor of it. */
  ghost predicate Minimal(p: Path, actions: seq<Action>, n: nat)
    requires n <= |actions|
  {
    (exists i :: 0 <= i < n && actions[i].path == p) && forall i :: 0 <= i < n ==> !(actions[i].path < p)
  }

  lemma {:induction false} MinimalAncestor(actions: seq<Action>, n: nat, i: nat) returns (p: Path)
    requires i < n <= |actions|
    ensures Minimal(p, actions, n) && p <= actions[i].path
    decreases |actions[i].path|
  {
    p := actions[i].path;
    if j :| 0 <= j < n && actions[j].path < p {
      assert |actions[j].path| < |p|;
      p := MinimalAncestor(actions, n, j);
    }
  }

  /** The selected paths that do not lie below `candidate`. */
  function NotBelow(selected: seq<Path>, candidate: Path): seq<Path> {
    if selected == [] then []
    else (if candidate < selected[0] then [] else [selected[0]]) + NotBelow(selected[1..], candidate)
  }

  lemma {:induction false} NotBelowKeeps(selected: seq<Path>, candidate: Path)
    ensures forall p :: p in NotBelow(selected, candidate) <==> p in selected && !(candidate < p)
    ensures NoRepeats(selected) ==> NoRepeats(NotBelow(selected, candidate))
    ensures |NotBelow(selected, candidate)| <= |selected|
  {
    if selected != [] {
      NotBelowKeeps(selected[1..], candidate);
      assert selected == [selected[0]] + selected[1..];
      var rest := NotBelow(selected[1..], candidate);
      if NoRepeats(selected) {
        assert NoRepeats(selected[1..]);
        assert forall i :: 0 <= i < |selected[1..]| ==> selected[1..][i] == selected[i + 1];
        assert selected[0] !in rest && NoRepeats(rest);
        if !(candidate < selected[0]) {
          assert NotBelow(selected, candidate) == [selected[0]] + rest;
        }
      }
    }
  }

  ghost predicate NoRepeats<T>(s: seq<T>) {
    forall i, j :: 0 <= i < j < |s| ==> s[i] != s[j]
  }

  lemma AppendNoRepeats<T>(s: seq<T>, x: T)
    requires NoRepeats(s) && x !in s
    ensures NoRepeats(s + [x])
  {
  }

  lemma SkippedCandidate(actions: seq<Action>, n: nat, top: Path, p: Path)
    requires n < |actions| && Minimal(top, actions, n) && top < actions[n].path
    ensures Minimal(p, actions, n) <==> Minimal(p, actions, n + 1)
  {
    var i :| 0 <= i < n && actions[i].path == top;
    assert actions[n].path < p ==> top < p;
  }

  lemma TakenCandidate(actions: seq<Action>, n: nat, p: Path)
    requires n < |actions| && forall i :: 0 <= i < n ==> !(actions[i].path < actions[n].path)
    requires DistinctPaths(actions)
    ensures Minimal(p, actions, n + 1) <==> p == actions[n].path || (Minimal(p, actions, n) && !(actions[n].path < p))
  {
    assert Minimal(actions[n].path, actions, n + 1);
  }

  lemma CandidateIsNew(actions: seq<Action>, n: nat)
    requires n < |actions| && DistinctPaths(actions)
    ensures !Minimal(actions[n].path, actions, n)
  {
  }

  method SelectPaths(actions: seq<Action>) returns (selected: seq<Path>)
    requires DistinctPaths(actions)
    ensures forall p :: p in selected <==> Minimal(p, actions, |actions|)
    ensures NoRepeats(selected) && |selected| <= |actions|
  {
    selected := [];
    for n := 0 to |actions|
      invariant forall p :: p in selected <==> Minimal(p, actions, n)
      invariant NoRepeats(selected) && |selected| <= n
    {
      var candidate := actions[n].path;
      if exists existing :: existing in selected && existing < candidate {
        ghost var top :| top in selected && top < candidate;
        forall p {
          SkippedCandidate(actions, n, top, p);
        }
      } else {
        forall i | 0 <= i < n
          ensures !(actions[i].path < candidate)
        {
          var top := MinimalAncestor(actions, n, i);
          assert top in selected;
        }
        NotBelowKeeps(selected, candidate);
        CandidateIsNew(actions, n);
        AppendNoRepeats(NotBelow(selected, candidate), candidate);
        selected := NotBelow(selected, candidate) + [candidate];
        forall p {
          TakenCandidate(actions, n, p);
        }
      }
    }
  }

  // ---------------------------------------------------------------- sorted texts

  /** The order of Python strings. */
  predicate TextLess(a: string, b: string) {
    b != "" && (a == "" || a[0] < b[0] || (a[0] == b[0] && TextLess(a[1..], b[1..])))
  }

  /** `a` is a proper beginning of `b`, or smaller at the first place where they differ. */
  ghost predicate LessAt(a: string, b: string, k: nat) {
    && k <= |a| && k <= |b| && a[..k] == b[..k]
    && ((k == |a| && k < |b|) || (k < |a| && k < |b| && a[k] < b[k]))
  }

  lemma SameStart(a: string, b: string, k: nat)
    ensures 0 < k <= |a| && k <= |b| && a[..k] == b[..k] ==> a[0] == b[0]
  {
    if 0 < k <= |a| && k <= |b| {
      assert a[0] == a[..k][0] && b[0] == b[..k][0];
    }
  }

  lemma {:induction false} TextLessIsLexicographic(a: string, b: string)
    ensures TextLess(a, b) <==> exists k: nat :: LessAt(a, b, k)
  {
    if a == "" || b == "" || a[0] != b[0] {
      assert TextLess(a, b) ==> LessAt(a, b, 0);
      if k: nat :| LessAt(a, b, k) {
        SameStart(a, b, k);
      }
    } else {
      TextLessIsLexicographic(a[1..], b[1..]);
      assert a == [a[0]] + a[1..] && b == [b[0]] + b[1..];
      if k: nat :| LessAt(a[1..], b[1..], k) {
        assert a[..k + 1] == [a[0]] + a[1..][..k] && b[..k + 1] == [b[0]] + b[1..][..k];
        assert LessAt(a, b, k + 1);
      }
      if k: nat :| LessAt(a, b, k) {
        assert k > 0;
        assert a[1..][..k - 1] == a[..k][1..] && b[1..][..k - 1] == b[..k][1..];
        assert LessAt(a[1..], b[1..], k - 1);
      }
    }
  }

  ghost predicate Ascending(texts: seq<string>) {
    forall i, j :: 0 <= i < j < |texts| ==> TextLess(texts[i], texts[j])
  }

  lemma {:induction false} TextOrder(a: string, b: string, c: string)
    ensures !TextLess(a, a)
    ensures a == b || TextLess(a, b) || TextLess(b, a)
    ensures TextLess(a, b) && TextLess(b, c) ==> TextLess(a, c)
  {
    if a != "" && b != "" && c != "" {
      TextOrder(a[1..], b[1..], c[1..]);
      assert a == [a[0]] + a[1..] && b == [b[0]] + b[1..];
    } else if a != "" && b != "" {
      TextOrder(a[1..], b[1..], "");
      assert a == [a[0]] + a[1..] && b == [b[0]] + b[1..];
    } else if a != "" {
      TextOrder(a[1..], "", "");
    }
  }

  /** Adds `text` to an ascending list at its place. */
  function Insert(texts: seq<string>, text: string): seq<string> {
    if texts == [] then [text]
    else if TextLess(text, texts[0]) then [text] + texts
    else [texts[0]] + Insert(texts[1..], text)
  }

  lemma {:induction false} InsertIsAscending(texts: seq<string>, text: string)
    requires Ascending(texts) && text !in texts
    ensures Ascending(Insert(texts, text))
    ensures forall x :: x in Insert(texts, text) <==> x in texts || x == text
  {
    if texts == [] {
    } else if TextLess(text, texts[0]) {
      forall x | x in texts
        ensures TextLess(text, x)
      {
        TextOrder(text, texts[0], x);
      }
    } else {
      assert texts == [texts[0]] + texts[1..];
      InsertIsAscending(texts[1..], text);
      TextOrder(text, texts[0], "");
      forall x | x in Insert(texts[1..], text)
        ensures TextLess(texts[0], x)
      {
      }
    }
  }

  /** Two ascending lists with the same elements are the same list. */
  lemma {:induction false} AscendingIsUnique(a: seq<string>, b: seq<string>)
    requires Ascending(a) && Ascending(b) && forall x :: x in a <==> x in b
    ensures a == b
  {
    HeadIn(a);
    HeadIn(b);
    if a != [] && b != [] {
      var i :| 0 <= i < |b| && b[i] == a[0];
      var j :| 0 <= j < |a| && a[j] == b[0];
      TextOrder(a[0], b[0], a[0]);
      assert a[0] == b[0];
      forall x
        ensures x in a[1..] <==> x in b[1..]
      {
        HeadIsLeast(a, x);
        HeadIsLeast(b, x);
      }
      AscendingIsUnique(a[1..], b[1..]);
      assert a == [a[0]] + a[1..] && b == [b[0]] + b[1..];
    }
  }

  lemma HeadIn(a: seq<string>)
    ensures a == [] || a[0] in a
  {
  }

  lemma HeadIsLeast(a: seq<string>, x: string)
    requires a != [] && Ascending(a)
    ensures x in a[1..] <==> x in a && x != a[0]
  {
    TextOrder(a[0], a[0], a[0]);
    assert forall i :: 0 <= i < |a[1..]| ==> a[1..][i] == a[i + 1];
    assert a == [a[0]] + a[1..];
  }

  /** Different selected paths have different texts. */
  lemma OtherTexts(actions: seq<Action>, selected: seq<Path>, n: nat)
    requires ActionPathsAreNormal(actions) && NoRepeats(selected) && n < |selected|
    requires forall p <- selected :: Minimal(p, actions, |actions|)
    ensures !IsText(selected, n, Posix(selected[n]))
  {
    forall i | 0 <= i < n
      ensures Posix(selected[i]) != Posix(selected[n])
    {
      assert selected[i] in selected && selected[n] in selected;
      NormalIfMinimal(actions, selected[i]);
      NormalIfMinimal(actions, selected[n]);
    }
  }

  /** The texts that go into the generated policy. */
  method CheckpointTexts(actions: seq<Action>) returns (texts: seq<string>)
    requires DistinctPaths(actions) && ActionPathsAreNormal(actions)
    ensures Ascending(texts)
    ensures forall text :: text in texts <==> exists p :: Minimal(p, actions, |actions|) && Posix(p) == text
    ensures |texts| <= |actions| && (actions != [] ==> texts != [])
  {
    var selected := SelectPaths(actions);
    texts := [];
    for n := 0 to |selected|
      invariant Ascending(texts) && |texts| == n
      invariant forall text :: text in texts <==> IsText(selected, n, text)
    {
      OtherTexts(actions, selected, n);
      OneMoreText(selected, n);
      InsertIsAscending(texts, Posix(selected[n]));
      InsertLength(texts, Posix(selected[n]));
      texts := Insert(texts, Posix(selected[n]));
    }
    if actions != [] {
      var top := MinimalAncestor(actions, |actions|, 0);
      assert top in selected;
    }
    TextsOfSelected(selected);
  }

  /** The text of one of the first `n` paths. */
  ghost predicate IsText(paths: seq<Path>, n: nat, text: string)
    requires n <= |paths|
  {
    exists i :: 0 <= i < n && Posix(paths[i]) == text
  }

  lemma OneMoreText(paths: seq<Path>, n: nat)
    requires n < |paths|
    ensures forall text :: IsText(paths, n + 1, text) <==> IsText(paths, n, text) || text == Posix(paths[n])
  {
    assert IsText(paths, n + 1, Posix(paths[n]));
  }

  lemma TextsOfSelected(paths: seq<Path>)
    ensures forall text :: IsText(paths, |paths|, text) <==> exists p :: p in paths && Posix(p) == text
  {
    assert forall p :: p in paths ==> IsText(paths, |paths|, Posix(p));
  }

  lemma NormalIfMinimal(actions: seq<Action>, p: Path)
    requires ActionPathsAreNormal(actions) && Minimal(p, actions, |actions|)
    ensures RelativePath(Posix(p)) == Some(p)
  {
  }

  lemma {:induction false} InsertLength(texts: seq<string>, text: string)
    ensures |Insert(texts, text)| == |texts| + 1
  {
    if texts != [] {
      InsertLength(texts[1..], text);
    }
  }

  /** The texts in the policy: what `CheckpointTexts` returns, as a property of the list. */
  ghost predicate SelectedTexts(actions: seq<Action>, texts: seq<string>) {
    Ascending(texts) &&
    forall text :: text in texts <==> exists p :: Minimal(p, actions, |actions|) && Posix(p) == text
  }

  /** The selection depends on the set of action paths only, not on their order. */
  lemma SelectionIgnoresOrder(a: seq<Action>, b: seq<Action>, forA: seq<string>, forB: seq<string>)
    requires forall p :: HasPath(a, p) <==> HasPath(b, p)
    requires SelectedTexts(a, forA) && SelectedTexts(b, forB)
    ensures forA == forB
  {
    forall p
      ensures Minimal(p, a, |a|) <==> Minimal(p, b, |b|)
    {
      MinimalByPath(p, a);
      MinimalByPath(p, b);
    }
    AscendingIsUnique(forA, forB);
  }

  ghost predicate HasPath(actions: seq<Action>, p: Path) {
    exists i :: 0 <= i < |actions| && actions[i].path == p
  }

  lemma MinimalByPath(p: Path, actions: seq<Action>)
    ensures Minimal(p, actions, |actions|) <==> HasPath(actions, p) && forall q :: HasPath(actions, q) ==> !(q < p)
  {
    assert forall i :: 0 <= i < |actions| ==> HasPath(actions, actions[i].path);
  }

  // ---------------------------------------------------------------- the policy checks

  /** The path of one policy entry. Unlike a proposal path it may be written with "//" or "/./". */
  function PolicyPath(value: string): Option<Path> {
    var parts := Significant(Split(value, '/'));
    if value == "" || value[0] == '/' || value[0] == '~' || ".." in parts then None else Some(parts)
  }

  /**
   A policy entry is refused iff it is empty, absolute, starts with a tilde or climbs up. Otherwise its
   segments name nodes.
   */
  lemma PolicyPathNamesNodes(value: string)
    ensures PolicyPath(value).None? <==>
              value == "" || value[0] == '/' || value[0] == '~' || ".." in Split(value, '/')
    ensures PolicyPath(value).Some? ==> forall segment <- PolicyPath(value).value :: NamesNode(segment)
    ensures PolicyPath(value).Some? ==>
              forall part <- Split(value, '/') :: part != "" && part != "." ==> part in PolicyPath(value).value
  {
    JoinOfSplit(value, '/');
    SignificantOfNames(Split(value, '/'));
    SignificantKeeps(Split(value, '/'));
  }

  lemma {:induction false} SignificantKeeps(components: seq<string>)
    ensures forall part <- components :: part != "" && part != "." ==> part in Significant(components)
  {
    if components != [] {
      SignificantKeeps(components[1..]);
      assert components == [components[0]] + components[1..];
    }
  }

  /** A normal path means the same in a policy as in a proposal. */
  lemma PolicyPathOfNormal(p: Path)
    requires forall segment <- p :: NamesNode(segment)
    requires p != [] && p[0] != "" ==> p[0][0] != '~'
    ensures PolicyPath(Posix(p)) == Some(p)
  {
    NormalPathIsAccepted(p);
  }

  datatype PolicyError = EmptyPolicy | TooManyPaths | InvalidPath | DuplicatePath | OverlappingPaths

  /** The first problem of a policy that has one. */
  ghost function PolicyProblem(included: seq<string>): PolicyError {
    if |included| == 0 then EmptyPolicy
    else if |included| > 64 then TooManyPaths
    else if exists i :: 0 <= i < |included| && PolicyPath(included[i]).None? then InvalidPath
    else if exists i, j :: 0 <= i < j < |included| && PolicyPath(included[i]) == PolicyPath(included[j])
    then DuplicatePath
    else OverlappingPaths
  }

  /** Compares each path with each other one. */
  method Overlap(paths: seq<Path>) returns (r: bool)
    requires NoRepeats(paths)
    ensures r <==> !Antichain(paths)
  {
    for index := 0 to |paths|
      invariant forall i, j :: 0 <= i < |paths| && 0 <= j < index && i != j ==> !(paths[i] <= paths[j])
    {
      for other := 0 to |paths|
        invariant forall i :: 0 <= i < other && i != index ==> !(paths[i] <= paths[index])
      {
        if index != other && paths[other] < paths[index] {
          return true;
        }
        PrefixCases(paths[other], paths[index]);
      }
    }
    return false;
  }

  method LoadPolicy(included: seq<string>) returns (r: Result<seq<Path>, PolicyError>)
    ensures r.Ok? <==>
              && 1 <= |included| <= 64
              && (forall i :: 0 <= i < |included| ==> PolicyPath(included[i]).Some?)
              && (forall i, j :: 0 <= i < |included| && 0 <= j < |included| && i != j ==>
                    !(PolicyPath(included[i]).value <= PolicyPath(included[j]).value))
    ensures r.Err? ==> r.error == PolicyProblem(included)
    ensures r.Ok? ==> |r.value| == |included| && Antichain(r.value)
    ensures r.Ok? ==> forall i :: 0 <= i < |included| ==> PolicyPath(included[i]) == Some(r.value[i])
  {
    if |included| == 0 {
      return Err(EmptyPolicy);
    }
    if |included| > 64 {
      return Err(TooManyPaths);
    }
    var normalized: seq<Path> := [];
    for index := 0 to |included|
      invariant |normalized| == index
      invariant forall i :: 0 <= i < index ==> PolicyPath(included[i]) == Some(normalized[i])
    {
      var path := PolicyPath(included[index]);
      if path.None? {
        return Err(InvalidPath);
      }
      normalized := normalized + [path.value];
    }
    if exists i, j :: 0 <= i < j < |normalized| && normalized[i] == normalized[j] {
      return Err(DuplicatePath);
    }
    var overlap := Overlap(normalized);
    if overlap {
      return Err(OverlappingPaths);
    }
    return Ok(normalized);
  }

  /** The path texts as the policy file holds them, and as they come back from it. */
  method WriteAndRead(texts: seq<string>) returns (r: Option<seq<string>>)
    ensures r.Some? <==> forall i :: 0 <= i < |texts| ==> DELETE !in texts[i]
    ensures r.Some? ==> r.value == texts
  {
    var included: seq<string> := [];
    for n := 0 to |texts|
      invariant included == texts[..n]
      invariant forall i :: 0 <= i < n ==> DELETE !in texts[i]
    {
      PolicyStringRoundTrip(texts[n]);
      var text := ReadString(Quote(texts[n]));
      if text.None? {
        return None;
      }
      included := included + [text.value];
    }
    r := Some(included);
  }

  /** No selected path holds the one character that the policy file cannot carry. */
  ghost predicate PolicyIsReadable(actions: seq<Action>) {
    forall p :: Minimal(p, actions, |actions|) ==> DELETE !in Posix(p)
  }

  lemma SelectedTextsPassTheChecks(actions: seq<Action>, texts: seq<string>)
    requires ActionsOk(actions) && SelectedTexts(actions, texts)
    ensures forall i :: 0 <= i < |texts| ==> PolicyPath(texts[i]) == RelativePath(texts[i])
    ensures forall i :: 0 <= i < |texts| ==> TextOfMinimal(actions, texts[i])
    ensures forall i, j :: 0 <= i < |texts| && 0 <= j < |texts| && i != j ==>
              PolicyPath(texts[i]).Some? && PolicyPath(texts[j]).Some? &&
              !(PolicyPath(texts[i]).value <= PolicyPath(texts[j]).value)
  {
    forall i | 0 <= i < |texts|
      ensures PolicyPath(texts[i]) == RelativePath(texts[i]) && TextOfMinimal(actions, texts[i])
    {
      assert texts[i] in texts;
      var p :| Minimal(p, actions, |actions|) && Posix(p) == texts[i];
      NormalIfMinimal(actions, p);
    }
    forall i, j | 0 <= i < |texts| && 0 <= j < |texts| && i != j
      ensures PolicyPath(texts[i]).Some? && PolicyPath(texts[j]).Some?
      ensures !(PolicyPath(texts[i]).value <= PolicyPath(texts[j]).value)
    {
      assert TextOfMinimal(actions, texts[i]) && TextOfMinimal(actions, texts[j]);
      MinimalsAreUnrelated(actions, PolicyPath(texts[i]).value, PolicyPath(texts[j]).value);
      TextOrder(texts[i], texts[i], texts[i]);
    }
  }

  /** The text names a selected path. */
  ghost predicate TextOfMinimal(actions: seq<Action>, text: string) {
    && RelativePath(text).Some? && Posix(RelativePath(text).value) == text
    && Minimal(RelativePath(text).value, actions, |actions|)
  }

  /**
   The generated policy is accepted and selects the minimal action paths, iff none of them holds the
   character that its file cannot carry.
   */
  method PolicyForPromotion(actions: seq<Action>) returns (r: Option<seq<Path>>)
    requires ActionsOk(actions)
    ensures r.Some? <==> PolicyIsReadable(actions)
    ensures r.Some? ==> Antichain(r.value) && forall p :: p in r.value <==> Minimal(p, actions, |actions|)
  {
    var texts := CheckpointTexts(actions);
    SelectedTextsPassTheChecks(actions, texts);
    assert forall i :: 0 <= i < |texts| ==> texts[i] in texts;
    var included := WriteAndRead(texts);
    if included.None? {
      return None;
    }
    var loaded := LoadPolicy(included.value);
    LoadedPathsAreMinimal(actions, texts, loaded.value);
    r := Some(loaded.value);
  }

  lemma LoadedPathsAreMinimal(actions: seq<Action>, texts: seq<string>, paths: seq<Path>)
    requires ActionsOk(actions) && SelectedTexts(actions, texts) && |paths| == |texts|
    requires forall i :: 0 <= i < |texts| ==> PolicyPath(texts[i]) == Some(paths[i])
    ensures forall p :: p in paths <==> Minimal(p, actions, |actions|)
  {
    SelectedTextsPassTheChecks(actions, texts);
    forall p
      ensures p in paths <==> Minimal(p, actions, |actions|)
    {
      if Minimal(p, actions, |actions|) {
        NormalIfMinimal(actions, p);
        assert Posix(p) in texts;
        var i :| 0 <= i < |texts| && texts[i] == Posix(p);
        assert paths[i] == p;
      }
      if p in paths {
        var i :| 0 <= i < |paths| && paths[i] == p;
        assert TextOfMinimal(actions, texts[i]);
      }
    }
  }

  /** An accepted path that the policy file cannot carry. */
  lemma DeleteIsAccepted()
    ensures RelativePath([DELETE]) == Some([[DELETE]]) && ReadString(Quote([DELETE])).None?
  {
    PolicyStringRoundTrip([DELETE]);
    var p := [[DELETE]];
    assert forall segment <- p :: NamesNode(segment);
    NormalPathIsAccepted(p);
    assert Posix(p) == [DELETE];
  }

  lemma MinimalsAreUnrelated(actions: seq<Action>, p: Path, q: Path)
    requires Minimal(p, actions, |actions|) && Minimal(q, actions, |actions|)
    ensures p == q || !(p <= q)
  {
    PrefixCases(p, q);
  }
}
