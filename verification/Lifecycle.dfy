/**
 The lifecycle of a proposal record and its history. Actors, timestamps and event names
 are not modelled.
 */
module Lifecycle {
  import opened Wrappers

  datatype State = Draft | Classified | Approved | Applying | Committed | RolledBack | Failed | Rejected

  datatype Event = Event(sequence: nat, fromState: Option<State>, toState: State)

  /** The fields of the stored record that `transition` updates. */
  datatype Life = Life(state: State, revision: nat, history: seq<Event>)

  const NEW_LIFE := Life(Draft, 1, [Event(1, None, Draft)])

  const TERMINAL_STATES := {Committed, Failed, Rejected, RolledBack}

  /** A promotion has come to its end. */
  predicate Ended(s: State) {
    s == Committed || s == RolledBack || s == Failed
  }

  /** A promotion has stored `applying`. */
  predicate Underway(s: State) {
    s == Applying || Ended(s)
  }

  /** The documented graph. */
  predicate Edge(from: State, to: State) {
    match from
    case Draft => to == Classified || to == Rejected
    case Classified => to == Approved || to == Rejected
    case Approved => to == Applying
    case Applying => to == Committed || to == RolledBack || to == Failed
    case _ => false
  }

  function Transition(life: Life, to: State): Life {
    Life(to, life.revision + 1, life.history + [Event(|life.history| + 1, Some(life.state), to)])
  }

  /** One more transition, from `applying` to a final state. */
  predicate Settled(before: Life, after: Life) {
    Ended(after.state) && after == Transition(before, after.state)
  }

  /** The history is numbered, linked, starts with the creation, follows the graph, and explains the state. */
  predicate HistoryOk(life: Life) {
    var h := life.history;
    && 0 < |h| == life.revision
    && h[0] == Event(1, None, Draft)
    && (forall i :: 0 <= i < |h| ==> h[i].sequence == i + 1)
    && (forall i :: 0 < i < |h| ==> h[i].fromState == Some(h[i - 1].toState) && Edge(h[i - 1].toState, h[i].toState))
    && life.state == h[|h| - 1].toState
  }

  lemma TransitionKeepsHistory(life: Life, to: State)
    requires HistoryOk(life) && Edge(life.state, to)
    ensures HistoryOk(Transition(life, to))
  {
    var h, next := life.history, Transition(life, to).history;
    assert forall i :: 0 <= i < |h| ==> next[i] == h[i];
  }

  lemma TerminalMeansNoSuccessor(s: State)
    ensures s in TERMINAL_STATES <==> forall to :: !Edge(s, to)
  {
    if s !in TERMINAL_STATES {
      var next := match s
        case Draft => Classified
        case Classified => Approved
        case Approved => Applying
        case _ => Failed;
      assert Edge(s, next);
    }
  }

  function Rank(s: State): nat {
    match s
    case Draft => 0
    case Classified => 1
    case Approved => 2
    case Applying => 3
    case _ => 4
  }

  lemma {:induction false} RanksIncrease(life: Life, i: nat, j: nat)
    requires HistoryOk(life) && i < j < |life.history|
    ensures Rank(life.history[i].toState) + (j - i) <= Rank(life.history[j].toState)
    decreases j
  {
    if i + 1 < j {
      RanksIncrease(life, i, j - 1);
    }
  }

  /** A proposal enters each state at most once, so it has at most four transitions. */
  lemma StatesEnteredOnce(life: Life)
    requires HistoryOk(life)
    ensures forall i, j :: 0 <= i < j < |life.history| ==> life.history[i].toState != life.history[j].toState
    ensures |life.history| <= 5
  {
    forall i, j | 0 <= i < j < |life.history|
      ensures life.history[i].toState != life.history[j].toState
    {
      RanksIncrease(life, i, j);
    }
    if |life.history| > 1 {
      RanksIncrease(life, 0, |life.history| - 1);
    }
  }

  /**
   The records that exist at all are those that creation and transitions along the graph produce:
   `HistoryOk` describes them exactly.
   */
  function Replay(path: seq<State>): Life {
    if path == [] then NEW_LIFE else Transition(Replay(path[..|path| - 1]), path[|path| - 1])
  }

  predicate FollowsGraph(path: seq<State>) {
    path == [] ||
    (FollowsGraph(path[..|path| - 1]) && Edge(Replay(path[..|path| - 1]).state, path[|path| - 1]))
  }

  lemma {:induction false} ReplayedHistoryIsOk(path: seq<State>)
    requires FollowsGraph(path)
    ensures HistoryOk(Replay(path))
  {
    if path != [] {
      ReplayedHistoryIsOk(path[..|path| - 1]);
      TransitionKeepsHistory(Replay(path[..|path| - 1]), path[|path| - 1]);
    }
  }

  lemma {:induction false} HistoryIsReplayed(life: Life) returns (path: seq<State>)
    requires HistoryOk(life)
    ensures FollowsGraph(path) && Replay(path) == life
    decreases |life.history|
  {
    var h := life.history;
    if |h| == 1 {
      path := [];
      assert h == NEW_LIFE.history;
    } else {
      var earlier := Life(h[|h| - 2].toState, |h| - 1, h[..|h| - 1]);
      var before := HistoryIsReplayed(earlier);
      path := before + [life.state];
      assert path[..|path| - 1] == before;
      assert h == h[..|h| - 1] + [h[|h| - 1]];
    }
  }
}
