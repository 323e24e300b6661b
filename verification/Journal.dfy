/** The audit events of broker requests, and the order in which one request may produce them. */
module Journal {
  import opened Wrappers

  type Id = string

  datatype Verdict = Allow | Deny | RequireApproval

  datatype Status = StatusOk | StatusError | StatusDenied | StatusApprovalRequired

  datatype Event = RequestEvent | DecisionEvent(verdict: Verdict) | ActionEvent | ResultEvent(status: Status)

  /** A line of the journal file. A write that is cut short leaves a line that is not a record. */
  datatype Line = Entry(id: Id, event: Event) | Corrupt

  predicate Terminal(e: Event) {
    e.ResultEvent? && e.status != StatusApprovalRequired
  }

  function Tag(id: Id, events: seq<Event>): (lines: seq<Line>)
    ensures |lines| == |events|
    ensures forall i :: 0 <= i < |events| ==> lines[i] == Entry(id, events[i])
  {
    seq(|events|, i requires 0 <= i < |events| => Entry(id, events[i]))
  }

  /** The events of one request ID, in journal order. */
  function EventsOf(lines: seq<Line>, id: Id): seq<Event> {
    if lines == [] then []
    else
      var last := lines[|lines| - 1];
      EventsOf(lines[..|lines| - 1], id) + if last.Entry? && last.id == id then [last.event] else []
  }

  /** How far the events of one request ID have come. */
  datatype Phase = Fresh | Requested | Decided(verdict: Verdict) | Acting | Complete

  function Advance(p: Phase, e: Event): Option<Phase> {
    match (p, e)
    case (Fresh, RequestEvent) => Some(Requested)
    case (Requested, DecisionEvent(v)) => Some(Decided(v))
    case (Decided(Allow), ActionEvent) => Some(Acting)
    case (Decided(Deny), ResultEvent(s)) => if s == StatusDenied || s == StatusError then Some(Complete) else None
    case (Decided(RequireApproval), ResultEvent(s)) => if s == StatusApprovalRequired then Some(Fresh) else None
    case (Acting, ResultEvent(s)) => if s == StatusOk || s == StatusError then Some(Complete) else None
    case (_, _) => None
  }

  function Walk(events: seq<Event>): Option<Phase> {
    if events == [] then Some(Fresh)
    else
      var before := Walk(events[..|events| - 1]);
      if before.None? then None else Advance(before.value, events[|events| - 1])
  }

  // ---------------------------------------------------------------- what the order means

  const WAITING := [RequestEvent, DecisionEvent(RequireApproval), ResultEvent(StatusApprovalRequired)]

  function Repeat(n: nat): seq<Event> {
    if n == 0 then [] else Repeat(n - 1) + WAITING
  }

  /** The events of an attempt that ends the request. */
  predicate Ending(w: seq<Event>) {
    || w == [RequestEvent, DecisionEvent(Deny), ResultEvent(StatusDenied)]
    || w == [RequestEvent, DecisionEvent(Deny), ResultEvent(StatusError)]
    || w == [RequestEvent, DecisionEvent(Allow), ActionEvent, ResultEvent(StatusOk)]
    || w == [RequestEvent, DecisionEvent(Allow), ActionEvent, ResultEvent(StatusError)]
  }

  /** The events of an attempt that comes to its end. */
  predicate Whole(w: seq<Event>) {
    Ending(w) || w == WAITING
  }

  /** The journal got the first `k` of these events, and perhaps a line that was cut short. */
  predicate CutAt(before: seq<Line>, after: seq<Line>, id: Id, events: seq<Event>, k: nat)
    requires k <= |events|
  {
    var stored := before + Tag(id, events[..k]);
    after == stored || after == stored + [Corrupt]
  }

  /** An attempt stopped on its way: what it stored is the beginning of some whole attempt. */
  ghost predicate Stopped(before: seq<Line>, after: seq<Line>, id: Id) {
    exists events, k: nat {:trigger events[..k]} ::
      Whole(events) && k <= |events| && CutAt(before, after, id, events, k)
  }

  /** The events since the last completed wait, as the phase tells them. */
  predicate Tail(w: seq<Event>, p: Phase) {
    match p
    case Fresh => w == []
    case Requested => w == [RequestEvent]
    case Decided(v) => w == [RequestEvent, DecisionEvent(v)]
    case Acting => w == [RequestEvent, DecisionEvent(Allow), ActionEvent]
    case Complete => Ending(w)
  }

  /** Every allowed sequence is a number of attempts that wait for approval, and then one attempt that may end it. */
  lemma {:induction false} AllowedShape(events: seq<Event>) returns (n: nat, w: seq<Event>)
    requires Walk(events).Some?
    ensures events == Repeat(n) + w && Tail(w, Walk(events).value)
  {
    if events == [] {
      n, w := 0, [];
    } else {
      var last := events[|events| - 1];
      n, w := AllowedShape(events[..|events| - 1]);
      assert events == Repeat(n) + (w + [last]);
      if Walk(events).value.Fresh? {
        assert w + [last] == WAITING;
        n, w := n + 1, [];
        assert events == Repeat(n) + w;
      } else {
        w := w + [last];
      }
    }
  }

  function CountActions(events: seq<Event>): nat {
    if events == [] then 0
    else CountActions(events[..|events| - 1]) + if events[|events| - 1].ActionEvent? then 1 else 0
  }

  function CountTerminal(events: seq<Event>): nat {
    if events == [] then 0
    else CountTerminal(events[..|events| - 1]) + if Terminal(events[|events| - 1]) then 1 else 0
  }

  /** An allowed sequence has at most one action and at most one terminal result, which is its last event. */
  lemma {:induction false} AtMostOneOfEach(events: seq<Event>)
    requires Walk(events).Some?
    ensures CountActions(events) <= 1 && CountTerminal(events) <= 1
    ensures CountTerminal(events) == 1 <==> Walk(events).value == Complete
    ensures CountActions(events) == 1 ==> Walk(events).value in {Acting, Complete}
  {
    if events != [] {
      AtMostOneOfEach(events[..|events| - 1]);
    }
  }

  lemma {:induction false} TerminalIsCounted(events: seq<Event>)
    ensures CountTerminal(events) > 0 <==> exists i :: 0 <= i < |events| && Terminal(events[i])
  {
    if events != [] {
      var before := events[..|events| - 1];
      TerminalIsCounted(before);
      assert forall i :: 0 <= i < |before| ==> events[i] == before[i];
      if i :| 0 <= i < |events| && Terminal(events[i]) {
        assert i < |before| ==> Terminal(before[i]);
      }
      if Terminal(events[|events| - 1]) {
      }
    }
  }

  lemma EventsOfAppend(lines: seq<Line>, line: Line, id: Id)
    ensures EventsOf(lines + [line], id)
         == EventsOf(lines, id) + if line.Entry? && line.id == id then [line.event] else []
  {
    assert (lines + [line])[..|lines|] == lines;
  }

  lemma TagAppend(id: Id, events: seq<Event>, last: Event)
    ensures Tag(id, events + [last]) == Tag(id, events) + [Entry(id, last)]
  {
  }

  lemma {:induction false} OwnEvents(lines: seq<Line>, events: seq<Event>, id: Id)
    ensures EventsOf(lines + Tag(id, events), id) == EventsOf(lines, id) + events
  {
    if events == [] {
      assert lines + Tag(id, events) == lines;
    } else {
      var before, last := events[..|events| - 1], events[|events| - 1];
      assert events == before + [last];
      OwnEvents(lines, before, id);
      TagAppend(id, before, last);
      var tagged := lines + Tag(id, before);
      assert lines + Tag(id, events) == tagged + [Entry(id, last)];
      EventsOfAppend(tagged, Entry(id, last), id);
      assert EventsOf(lines, id) + events == (EventsOf(lines, id) + before) + [last];
    }
  }

  lemma {:induction false} OtherEvents(lines: seq<Line>, events: seq<Event>, id: Id, other: Id)
    requires other != id
    ensures EventsOf(lines + Tag(id, events), other) == EventsOf(lines, other)
  {
    if events == [] {
      assert lines + Tag(id, events) == lines;
    } else {
      var before, last := events[..|events| - 1], events[|events| - 1];
      assert events == before + [last];
      OtherEvents(lines, before, id, other);
      TagAppend(id, before, last);
      assert lines + Tag(id, events) == (lines + Tag(id, before)) + [Entry(id, last)];
      EventsOfAppend(lines + Tag(id, before), Entry(id, last), other);
    }
  }

  /** The journal holds a terminal result for the request. */
  predicate HasTerminal(lines: seq<Line>, id: Id) {
    exists i :: 0 <= i < |lines| && lines[i].Entry? && lines[i].id == id && Terminal(lines[i].event)
  }

  predicate HasCorrupt(lines: seq<Line>) {
    Corrupt in lines
  }

  lemma {:induction false} TerminalInEvents(lines: seq<Line>, id: Id)
    ensures HasTerminal(lines, id) <==> CountTerminal(EventsOf(lines, id)) > 0
  {
    if lines != [] {
      var before, last := lines[..|lines| - 1], lines[|lines| - 1];
      TerminalInEvents(before, id);
      TerminalSplit(lines, id);
      assert lines == before + [last];
      if last.Entry? && last.id == id {
        assert EventsOf(lines, id)[..|EventsOf(lines, id)| - 1] == EventsOf(before, id);
      } else {
        assert EventsOf(lines, id) == EventsOf(before, id);
      }
    }
  }

  lemma TerminalSplit(lines: seq<Line>, id: Id)
    requires lines != []
    ensures HasTerminal(lines, id) <==>
              || HasTerminal(lines[..|lines| - 1], id)
              || (lines[|lines| - 1].Entry? && lines[|lines| - 1].id == id && Terminal(lines[|lines| - 1].event))
  {
    assert forall i :: 0 <= i < |lines| - 1 ==> lines[..|lines| - 1][i] == lines[i];
  }
}
