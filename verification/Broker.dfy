/**
 One broker attempt under the lock of its request: the replay check, the decision, the events it
 appends, and the handler that it may run.
 */
module Broker {
  import opened Wrappers
  import opened Journal
  import opened Policy

  datatype BrokerError = DuplicateRequest | AuditUnavailable | AuditCorrupt

  datatype Request = Request(id: Id, operation: string)

  /** A catalog operation. Whether the arguments fit its contract is decided by its validator. */
  datatype Operation = Operation(authorities: seq<string>)

  datatype HandlerResult = Raised | Provided(ok: bool)

  class AuditJournal {
    var lines: seq<Line>
    /** Calls on the journal that have failed: appends, and reads of the file. */
    var failures: nat

    constructor ()
      ensures lines == [] && failures == 0
    {
      lines, failures := [], 0;
    }

    /** A failing append can lose its line, can have stored it, or can leave it cut short. */
    method Append(id: Id, e: Event) returns (ok: bool)
      modifies this
      ensures ok ==> lines == old(lines) + [Entry(id, e)]
      ensures failures == old(failures) + if ok then 0 else 1
      ensures !ok ==> lines == old(lines) || lines == old(lines) + [Entry(id, e)] || lines == old(lines) + [Corrupt]
    {
      ok := *;
      var stored: bool, cut: bool := *, *;
      if ok || stored {
        lines := lines + [Entry(id, e)];
      } else if cut {
        lines := lines + [Corrupt];
      }
      failures := failures + if ok then 0 else 1;
    }

    /** The events of one request. A file that cannot be read, or one bad line anywhere in it, is an error. */
    method Records(id: Id) returns (r: Result<seq<Event>, BrokerError>)
      modifies `failures
      ensures r == Err(AuditUnavailable) <==> failures > old(failures)
      ensures failures == old(failures) ==>
                r == if HasCorrupt(lines) then Err(AuditCorrupt) else Ok(EventsOf(lines, id))
      ensures failures >= old(failures)
    {
      var unreadable: bool := *;
      if unreadable {
        failures := failures + 1;
        return Err(AuditUnavailable);
      }
      var records: seq<Event> := [];
      for n := 0 to |lines|
        invariant failures == old(failures)
        invariant records == EventsOf(lines[..n], id)
        invariant Corrupt !in lines[..n]
      {
        assert lines[..n + 1] == lines[..n] + [lines[n]];
        EventsOfAppend(lines[..n], lines[n], id);
        if lines[n].Corrupt? {
          assert lines[n] in lines;
          return Err(AuditCorrupt);
        }
        if lines[n].id == id {
          records := records + [lines[n].event];
        }
      }
      assert lines[..|lines|] == lines;
      r := Ok(records);
    }

    method IsComplete(id: Id) returns (r: Result<bool, BrokerError>)
      modifies `failures
      ensures r == Err(AuditUnavailable) <==> failures > old(failures)
      ensures failures == old(failures) ==>
                r == if HasCorrupt(lines) then Err(AuditCorrupt) else Ok(HasTerminal(lines, id))
      ensures failures >= old(failures)
    {
      var records := Records(id);
      if records.Err? {
        return Err(records.error);
      }
      TerminalInEvents(lines, id);
      TerminalIsCounted(records.value);
      for n := 0 to |records.value|
        invariant forall i :: 0 <= i < n ==> !Terminal(records.value[i])
      {
        if Terminal(records.value[n]) {
          return Ok(true);
        }
      }
      r := Ok(false);
    }
  }

  /** The operation exists, its arguments fit, and the policy or an external approval lets it run. */
  ghost predicate Permitted(
    request: Request, catalog: map<string, Operation>, fits: bool, rules: seq<Rule>, principals: seq<string>,
    approved: bool)
  {
    request.operation in catalog && fits &&
    exists i: nat ::
      && DecidesAt(rules, principals, request.operation, i)
      && (forall a <- catalog[request.operation].authorities :: a in rules[i].authorities)
      && (rules[i].decision == Allow || (rules[i].decision == RequireApproval && approved))
  }

  /** The policy asks for an approval that is not there. */
  ghost predicate MustWait(
    request: Request, catalog: map<string, Operation>, fits: bool, rules: seq<Rule>, principals: seq<string>,
    approved: bool)
  {
    request.operation in catalog && fits && !approved &&
    exists i: nat ::
      && DecidesAt(rules, principals, request.operation, i)
      && (forall a <- catalog[request.operation].authorities :: a in rules[i].authorities)
      && rules[i].decision == RequireApproval
  }

  /** The decision that an attempt records, and the status of a denial. */
  method Decide(
    request: Request, catalog: map<string, Operation>, fits: bool, rules: seq<Rule>, principals: seq<string>,
    approved: bool)
    returns (verdict: Verdict, denial: Status)
    ensures verdict == Allow <==> Permitted(request, catalog, fits, rules, principals, approved)
    ensures verdict == RequireApproval <==> MustWait(request, catalog, fits, rules, principals, approved)
    ensures denial == if request.operation in catalog && fits then StatusDenied else StatusError
  {
    if request.operation !in catalog || !fits {
      return Deny, StatusError;
    }
    var evaluated := Evaluate(rules, principals, request.operation, catalog[request.operation].authorities);
    FirstMatchIsDecider(rules, principals, request.operation);
    verdict, denial := evaluated.outcome, StatusDenied;
    if verdict == RequireApproval && approved {
      verdict := Allow;
    }
  }

  /** The events of an attempt that is not disturbed. */
  function AttemptEvents(verdict: Verdict, denial: Status, result: Status): seq<Event> {
    match verdict
    case Deny => [RequestEvent, DecisionEvent(Deny), ResultEvent(denial)]
    case RequireApproval => [RequestEvent, DecisionEvent(RequireApproval), ResultEvent(StatusApprovalRequired)]
    case Allow => [RequestEvent, DecisionEvent(Allow), ActionEvent, ResultEvent(result)]
  }

  lemma FailedAppend(start: seq<Line>, before: seq<Line>, after: seq<Line>, id: Id, events: seq<Event>, k: nat)
    requires Whole(events) && k < |events| && before == start + Tag(id, events[..k])
    requires after == before || after == before + [Entry(id, events[k])] || after == before + [Corrupt]
    ensures Stopped(start, after, id)
  {
    assert events[..k + 1] == events[..k] + [events[k]];
    if after == before + [Entry(id, events[k])] {
      TagAppend(id, events[..k], events[k]);
      assert CutAt(start, after, id, events, k + 1);
    } else {
      assert CutAt(start, after, id, events, k);
    }
  }

  /** The append of the next planned event, whether it fails or not. */
  lemma AppendPlanned(
    start: seq<Line>, before: seq<Line>, after: seq<Line>, ok: bool, id: Id, plan: seq<Event>, k: nat)
    requires Whole(plan) && k < |plan| && before == start + Tag(id, plan[..k])
    requires ok ==> after == before + [Entry(id, plan[k])]
    requires !ok ==> after == before || after == before + [Entry(id, plan[k])] || after == before + [Corrupt]
    ensures if ok then after == start + Tag(id, plan[..k + 1]) else Stopped(start, after, id)
  {
    if ok {
      assert plan[..k + 1] == plan[..k] + [plan[k]];
      TagAppend(id, plan[..k], plan[k]);
    } else {
      FailedAppend(start, before, after, id, plan, k);
    }
  }

  function StatusOf(verdict: Verdict, denial: Status, handled: HandlerResult): Status {
    match verdict
    case Deny => denial
    case RequireApproval => StatusApprovalRequired
    case Allow => if handled == Provided(true) then StatusOk else StatusError
  }

  /** The attempt from its decision on: the decision, the handler if it may run, and the result. */
  method RecordAttempt(
    id: Id, verdict: Verdict, denial: Status, handled: HandlerResult, journal: AuditJournal, ghost start: seq<Line>)
    returns (r: Result<Status, BrokerError>, ran: bool)
    requires denial == StatusDenied || denial == StatusError
    requires journal.lines == start + Tag(id, [RequestEvent])
    modifies journal
    ensures r.Ok? ==>
              && r.value == StatusOf(verdict, denial, handled) && (ran <==> verdict == Allow)
              && journal.lines == start + Tag(id, AttemptEvents(verdict, denial, r.value))
    ensures r.Err? ==> r.error == AuditUnavailable && Stopped(start, journal.lines, id)
    ensures r.Err? <==> journal.failures > old(journal.failures)
    ensures ran ==> verdict == Allow && HasRun(start, journal.lines, id)
  {
    ran := false;
    var status := StatusOf(verdict, denial, handled);
    ghost var plan := AttemptEvents(verdict, denial, status);
    assert plan[..1] == [RequestEvent] && Whole(plan);
    ghost var before := journal.lines;
    var stored := journal.Append(id, DecisionEvent(verdict));
    AppendPlanned(start, before, journal.lines, stored, id, plan, 1);
    if !stored {
      return Err(AuditUnavailable), ran;
    }
    if verdict == Allow {
      before := journal.lines;
      stored := journal.Append(id, ActionEvent);
      AppendPlanned(start, before, journal.lines, stored, id, plan, 2);
      if !stored {
        return Err(AuditUnavailable), ran;
      }
      ran := true;
      assert plan[..3] == [RequestEvent, DecisionEvent(Allow), ActionEvent];
    }
    ghost var k := |plan| - 1;
    before := journal.lines;
    stored := journal.Append(id, ResultEvent(status));
    AppendPlanned(start, before, journal.lines, stored, id, plan, k);
    if !stored {
      return Err(AuditUnavailable), ran;
    }
    assert plan[..k + 1] == plan;
    r := Ok(status);
  }

  /** The journal got the action event of this attempt. */
  ghost predicate HasRun(start: seq<Line>, lines: seq<Line>, id: Id) {
    start + Tag(id, [RequestEvent, DecisionEvent(Allow), ActionEvent]) <= lines
  }

  lemma TagOne(id: Id, e: Event)
    ensures Tag(id, [e]) == [Entry(id, e)]
  {
  }

  method ExecuteLocked(
    request: Request, catalog: map<string, Operation>, fits: bool, rules: seq<Rule>, principals: seq<string>,
    approved: bool, handled: HandlerResult, journal: AuditJournal)
    returns (r: Result<Status, BrokerError>, ran: bool)
    modifies journal
    // A request with a stored terminal result, or an unreadable journal, changes nothing.
    ensures r == Err(AuditCorrupt) ==> HasCorrupt(old(journal.lines))
    ensures r == Err(DuplicateRequest) ==>
              !HasCorrupt(old(journal.lines)) && HasTerminal(old(journal.lines), request.id)
    ensures HasCorrupt(old(journal.lines)) || HasTerminal(old(journal.lines), request.id) ==>
              r.Err? && !ran && journal.lines == old(journal.lines)
    // The first call on the journal that fails stops the attempt.
    ensures r == Err(AuditUnavailable) <==> journal.failures > old(journal.failures)
    ensures r == Err(AuditUnavailable) ==> Stopped(old(journal.lines), journal.lines, request.id)
    // The handler runs only for a permitted request, after its action event.
    ensures ran ==>
              && Permitted(request, catalog, fits, rules, principals, approved)
              && HasRun(old(journal.lines), journal.lines, request.id)
    ensures r.Ok? ==>
              && (ran <==> Permitted(request, catalog, fits, rules, principals, approved))
              && (r.value == StatusApprovalRequired <==> MustWait(request, catalog, fits, rules, principals, approved))
              && (r.value == StatusOk <==> ran && handled == Provided(true))
              && (r.value == StatusDenied <==>
                    && request.operation in catalog && fits
                    && !Permitted(request, catalog, fits, rules, principals, approved)
                    && !MustWait(request, catalog, fits, rules, principals, approved))
              && exists events {:trigger Whole(events)} ::
                   && Whole(events) && events[|events| - 1] == ResultEvent(r.value)
                   && journal.lines == old(journal.lines) + Tag(request.id, events)
  {
    ran := false;
    ghost var start := journal.lines;
    var complete := journal.IsComplete(request.id);
    if complete.Err? {
      FailedAppend(start, start, journal.lines, request.id, WAITING, 0);
      return Err(complete.error), ran;
    }
    if complete.value {
      return Err(DuplicateRequest), ran;
    }
    var stored := journal.Append(request.id, RequestEvent);
    if !stored {
      FailedAppend(start, start, journal.lines, request.id, WAITING, 0);
      return Err(AuditUnavailable), ran;
    }
    TagOne(request.id, RequestEvent);
    var verdict, denial := Decide(request, catalog, fits, rules, principals, approved);
    r, ran := RecordAttempt(request.id, verdict, denial, handled, journal, start);
    assert r.Ok? ==> Whole(AttemptEvents(verdict, denial, r.value));
  }

  lemma WalkStep(before: seq<Event>, e: Event)
    ensures Walk(before + [e]) == if Walk(before).None? then None else Advance(Walk(before).value, e)
  {
    assert (before + [e])[..|before|] == before;
  }

  lemma WalkThree(before: seq<Event>, a: Event, b: Event, c: Event)
    requires Walk(before) == Some(Fresh) && a == RequestEvent && b.DecisionEvent?
    ensures Walk(before + [a, b, c]) == Advance(Decided(b.verdict), c)
  {
    WalkStep(before, a);
    WalkStep(before + [a], b);
    assert before + [a] + [b] == before + [a, b];
    WalkStep(before + [a, b], c);
    assert before + [a, b] + [c] == before + [a, b, c];
  }

  /**
   An attempt that comes to its end leaves the events of its request in an allowed order, and those
   of every other request as they were.
   */
  lemma AttemptKeepsOrder(lines: seq<Line>, id: Id, events: seq<Event>)
    requires Walk(EventsOf(lines, id)) == Some(Fresh) && Whole(events)
    ensures Walk(EventsOf(lines + Tag(id, events), id)) == Some(if events == WAITING then Fresh else Complete)
    ensures forall other :: other != id ==> EventsOf(lines + Tag(id, events), other) == EventsOf(lines, other)
  {
    OwnEvents(lines, events, id);
    forall other | other != id
      ensures EventsOf(lines + Tag(id, events), other) == EventsOf(lines, other)
    {
      OtherEvents(lines, events, id, other);
    }
    WholeKeepsOrder(EventsOf(lines, id), events);
  }

  lemma WalkFour(before: seq<Event>, c: Event, d: Event)
    requires Walk(before) == Some(Fresh) && c == ActionEvent
    ensures Walk(before + [RequestEvent, DecisionEvent(Allow), c, d]) == Advance(Acting, d)
  {
    var three := [RequestEvent, DecisionEvent(Allow), c];
    WalkThree(before, RequestEvent, DecisionEvent(Allow), c);
    WalkStep(before + three, d);
    assert before + three + [d] == before + [RequestEvent, DecisionEvent(Allow), c, d];
  }

  lemma WholeKeepsOrder(before: seq<Event>, events: seq<Event>)
    requires Walk(before) == Some(Fresh) && Whole(events)
    ensures Walk(before + events) == Some(if events == WAITING then Fresh else Complete)
  {
    if |events| == 3 {
      assert events == [events[0], events[1], events[2]];
      WalkThree(before, events[0], events[1], events[2]);
    } else {
      assert events == [events[0], events[1], events[2], events[3]];
      WalkFour(before, events[2], events[3]);
    }
  }
}
