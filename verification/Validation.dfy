/** The checks on a proposal definition: the path syntax, and the list of actions as a whole. */
module Validation {
  import opened Wrappers
  import opened ConfigTree
  import opened Actions
  import opened Text

  /** The parts of a pure POSIX path: empty and single-dot components vanish. */
  function Significant(components: seq<string>): seq<string> {
    if components == [] then []
    else (if components[0] == "" || components[0] == "." then [] else [components[0]]) + Significant(components[1..])
  }

  function Posix(p: Path): string {
    if p == [] then "." else Join(p, '/')
  }

  /** The normalized relative path, or nothing when the definition is refused. */
  function RelativePath(value: string): Option<Path> {
    var parts := Significant(Split(value, '/'));
    if value == "" || value[0] == '/' || value[0] == '~' || ".." in parts || value != Posix(parts) then None
    else Some(parts)
  }

  /** A segment that can name a node. */
  predicate NamesNode(segment: string) {
    segment != "" && segment != "." && segment != ".." && '/' !in segment
  }

  lemma {:induction false} SignificantOfNames(components: seq<string>)
    ensures forall part <- Significant(components) :: part in components && part != "" && part != "."
    ensures (forall c <- components :: c != "" && c != ".") ==> Significant(components) == components
  {
    if components != [] {
      SignificantOfNames(components[1..]);
      assert components[0] in components && components == [components[0]] + components[1..];
      assert forall c <- components[1..] :: c in components;
    }
  }

  /** Every accepted path has segments that name nodes, and its text is rebuilt from them. */
  lemma AcceptedPathIsNormal(value: string)
    requires RelativePath(value).Some?
    ensures Posix(RelativePath(value).value) == value
    ensures forall segment <- RelativePath(value).value :: NamesNode(segment)
    ensures value != "" && value[0] != '~' && value[0] != '/'
  {
    JoinOfSplit(value, '/');
    SignificantOfNames(Split(value, '/'));
  }

  /** Every path whose segments name nodes is accepted, unless its text starts with a tilde. */
  lemma NormalPathIsAccepted(p: Path)
    requires forall segment <- p :: NamesNode(segment)
    requires p != [] && p[0] != "" ==> p[0][0] != '~'
    ensures RelativePath(Posix(p)) == Some(p)
  {
    if p == [] {
      SplitOfPlain(".", '/');
    } else {
      SplitOfJoin(p, '/');
      SignificantOfNames(p);
      assert p[0] in p && p[0] <= Join(p, '/');
      assert Join(p, '/')[0] == p[0][0] && p[0][0] in p[0];
    }
  }

  datatype WrittenAction = WrittenAction(path: string, action: Action)

  ghost predicate DefinitionOk(entries: seq<WrittenAction>) {
    1 <= |entries| <= 16 && PathsOk(entries, |entries|)
  }

  predicate Normal(entry: WrittenAction) {
    RelativePath(entry.path).Some?
  }

  /** The first `n` paths are accepted, and no two of them are written alike. */
  ghost predicate PathsOk(entries: seq<WrittenAction>, n: nat)
    requires n <= |entries|
  {
    && (forall i :: 0 <= i < n ==> Normal(entries[i]))
    && (forall i, j :: 0 <= i < j < n ==> entries[i].path != entries[j].path)
  }

  /** The stored action is the one that was written, with the parsed path. */
  predicate StoredAs(entry: WrittenAction, action: Action) {
    action == entry.action.(path := action.path)
    && RelativePath(entry.path) == Some(action.path) && Posix(action.path) == entry.path
  }

  function Parsed(entry: WrittenAction): (r: Option<Action>)
    ensures r.Some? <==> Normal(entry)
    ensures r.Some? ==> StoredAs(entry, r.value)
  {
    var path := RelativePath(entry.path);
    if path.None? then None
    else
      AcceptedPathIsNormal(entry.path);
      Some(entry.action.(path := path.value))
  }

  ghost predicate ListStoredAs(entries: seq<WrittenAction>, actions: seq<Action>) {
    |actions| <= |entries| && forall i :: 0 <= i < |actions| ==> StoredAs(entries[i], actions[i])
  }

  ghost predicate ActionPathsAreNormal(actions: seq<Action>) {
    forall i :: 0 <= i < |actions| ==> RelativePath(Posix(actions[i].path)) == Some(actions[i].path)
  }

  predicate LetterOrDigit(c: char) {
    'a' <= c <= 'z' || '0' <= c <= '9'
  }

  /** One to 64 lower-case letters, digits, dots, underscores and hyphens, with a letter or digit at both ends. */
  predicate ValidId(id: string) {
    && 1 <= |id| <= 64 && LetterOrDigit(id[0]) && LetterOrDigit(id[|id| - 1])
    && forall i :: 0 <= i < |id| ==> LetterOrDigit(id[i]) || id[i] == '.' || id[i] == '_' || id[i] == '-'
  }

  /** The ID pattern, in code points: one letter or digit, or two of them around at most 62 of the wider alphabet. */
  ghost predicate MatchesIdPattern(id: string) {
    || (|id| == 1 && AlphabetStart(id[0] as int))
    || (&& 2 <= |id| && |id| - 2 <= 62 && AlphabetStart(id[0] as int) && AlphabetStart(id[|id| - 1] as int)
        && forall i :: 1 <= i < |id| - 1 ==>
             AlphabetStart(id[i] as int) || id[i] as int == 45 || id[i] as int == 46 || id[i] as int == 95)
  }

  ghost predicate AlphabetStart(code: int) {
    97 <= code <= 122 || 48 <= code <= 57
  }

  lemma ValidIdMatchesPattern(id: string)
    ensures ValidId(id) <==> MatchesIdPattern(id)
  {
    assert forall i :: 0 <= i < |id| ==> (LetterOrDigit(id[i]) <==> AlphabetStart(id[i] as int));
  }

  /** The directory of a proposal is always one fresh segment below the store. */
  lemma ValidIdNamesANode(id: string)
    requires ValidId(id)
    ensures NamesNode(id)
  {
    assert forall i :: 0 <= i < |id| ==> id[i] != '/';
    assert id != "." && id != ".." by {
      assert LetterOrDigit(id[0]);
    }
  }

  lemma OneMoreStored(entries: seq<WrittenAction>, actions: seq<Action>, action: Action)
    requires ListStoredAs(entries, actions) && |actions| < |entries| && StoredAs(entries[|actions|], action)
    ensures ListStoredAs(entries, actions + [action])
  {
    var all := actions + [action];
    forall i | 0 <= i < |all|
      ensures StoredAs(entries[i], all[i])
    {
      assert i < |actions| ==> StoredAs(entries[i], actions[i]) && all[i] == actions[i];
    }
  }

  /** The path text is one of the first `n`. */
  ghost predicate WrittenIn(entries: seq<WrittenAction>, n: nat, text: string)
    requires n <= |entries|
  {
    exists i :: 0 <= i < n && entries[i].path == text
  }

  lemma OneMoreWritten(entries: seq<WrittenAction>, n: nat)
    requires n < |entries|
    ensures forall text :: WrittenIn(entries, n + 1, text) <==> WrittenIn(entries, n, text) || text == entries[n].path
  {
    assert WrittenIn(entries, n + 1, entries[n].path);
  }

  /** What holds of the action list of every stored proposal. */
  ghost predicate ActionsOk(actions: seq<Action>) {
    1 <= |actions| <= 16 && DistinctPaths(actions) && ActionPathsAreNormal(actions)
  }

  lemma StoredActionsAreOk(entries: seq<WrittenAction>, actions: seq<Action>)
    requires DefinitionOk(entries) && ListStoredAs(entries, actions) && |actions| == |entries|
    ensures ActionsOk(actions)
  {
    assert forall i :: 0 <= i < |actions| ==> StoredAs(entries[i], actions[i]);
  }

  /**
   The action list of a definition. Duplicates are found on the path text; the stored actions
   hold the parsed paths.
   */
  method ParseActions(entries: seq<WrittenAction>) returns (r: Option<seq<Action>>)
    ensures r.Some? <==> DefinitionOk(entries)
    ensures r.Some? ==> |r.value| == |entries| && ListStoredAs(entries, r.value) && ActionsOk(r.value)
  {
    if |entries| == 0 || |entries| > 16 {
      return None;
    }
    var paths: set<string> := {};
    var normalized: seq<Action> := [];
    for index := 0 to |entries|
      invariant |normalized| == index
      invariant forall text :: text in paths <==> WrittenIn(entries, index, text)
      invariant PathsOk(entries, index)
      invariant ListStoredAs(entries, normalized)
    {
      var parsed := Parsed(entries[index]);
      if parsed.None? {
        return None;
      }
      if entries[index].path in paths {
        return None;
      }
      OneMoreStored(entries, normalized, parsed.value);
      OneMoreWritten(entries, index);
      paths := paths + {entries[index].path};
      normalized := normalized + [parsed.value];
    }
    StoredActionsAreOk(entries, normalized);
    return Some(normalized);
  }
}
