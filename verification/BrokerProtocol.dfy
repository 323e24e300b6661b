/**
 All interleavings of broker processes over one journal. A process can fail at every point; a
 failing append can lose its line, can have stored it, or can leave it cut short. A line that
 follows a line cut short merges with it and is unreadable too.
 */
module BrokerProtocol {
  import opened Wrappers
  import opened Journal
  import Broker

  type Pid = nat

  /** Where an attempt stands. `Judged` knows the decision that is still to be recorded. */
  datatype Pc =
    | Arrived
    | Locked
    | Cleared
    | Logged
    | Judged(verdict: Verdict, denial: Status)
    | Ruled(verdict: Verdict, denial: Status)
    | Acted
    | Ran(result: Status)
    | Answered
    | Done
    | Dead

  datatype Attempt = Attempt(id: Id, pc: Pc)

  datatype World = World(
    lines: seq<Line>,
    torn: bool,
    holder: map<Id, Pid>,
    attempts: map<Pid, Attempt>,
    /** Handler runs so far, by request. */
    runs: map<Id, nat>,
    /** Attempts that failed after their action event was stored, by request. */
    interrupted: map<Id, nat>)

  const EMPTY := World([], false, map[], map[], map[], map[])

  datatype Effect = Nothing | Stored | CutShort

  datatype Step =
    | Arrive(pid: Pid, id: Id)
    | Acquire(pid: Pid)
    | CheckComplete(pid: Pid)
    | Judge(pid: Pid, verdict: Verdict, denial: Status)
    | Append(pid: Pid)
    | Handle(pid: Pid, result: Status)
    | Release(pid: Pid)
    | Fail(pid: Pid, effect: Effect)

  function Count(m: map<Id, nat>, id: Id): nat {
    if id in m then m[id] else 0
  }

  function Increment(m: map<Id, nat>, id: Id): map<Id, nat> {
    m[id := Count(m, id) + 1]
  }

  predicate InSection(pc: Pc) {
    pc != Arrived && pc != Done && pc != Dead
  }

  /** The event that the attempt appends next, if it is about to append one. */
  function Pending(pc: Pc): Option<Event> {
    match pc
    case Cleared => Some(RequestEvent)
    case Judged(v, _) => Some(DecisionEvent(v))
    case Ruled(v, denial) =>
      (match v
       case Allow => Some(ActionEvent)
       case Deny => Some(ResultEvent(denial))
       case RequireApproval => Some(ResultEvent(StatusApprovalRequired)))
    case Ran(s) => Some(ResultEvent(s))
    case _ => None
  }

  function AfterAppend(pc: Pc): Pc
    requires Pending(pc).Some?
  {
    match pc
    case Cleared => Logged
    case Judged(v, denial) => Ruled(v, denial)
    case Ruled(v, _) => if v == Allow then Acted else Answered
    case _ => Answered
  }

  function AddLine(w: World, line: Line): World {
    if w.torn then w.(torn := false) else w.(lines := w.lines + [line])
  }

  predicate Complete(w: World, id: Id) {
    HasTerminal(w.lines, id) || HasCorrupt(w.lines)
  }

  predicate Enabled(w: World, step: Step) {
    match step
    case Arrive(pid, _) => pid !in w.attempts
    case Acquire(pid) => pid in w.attempts && w.attempts[pid].pc == Arrived && w.attempts[pid].id !in w.holder
    case CheckComplete(pid) => pid in w.attempts && w.attempts[pid].pc == Locked
    case Judge(pid, v, denial) =>
      pid in w.attempts && w.attempts[pid].pc == Logged && (denial == StatusDenied || denial == StatusError)
    case Append(pid) => pid in w.attempts && Pending(w.attempts[pid].pc).Some?
    case Handle(pid, s) => pid in w.attempts && w.attempts[pid].pc == Acted && (s == StatusOk || s == StatusError)
    case Release(pid) => pid in w.attempts && w.attempts[pid].pc == Answered
    case Fail(pid, effect) =>
      pid in w.attempts && w.attempts[pid].pc != Done && w.attempts[pid].pc != Dead &&
      (effect != Nothing ==> Pending(w.attempts[pid].pc).Some?)
  }

  function At(w: World, pid: Pid, pc: Pc): World
    requires pid in w.attempts
  {
    w.(attempts := w.attempts[pid := w.attempts[pid].(pc := pc)])
  }

  function Leave(w: World, pid: Pid, pc: Pc): World
    requires pid in w.attempts
  {
    At(if InSection(w.attempts[pid].pc) then w.(holder := w.holder - {w.attempts[pid].id}) else w, pid, pc)
  }

  /** The attempt has stored its action event, or the failing append stored it. */
  predicate PastAction(pc: Pc, effect: Effect) {
    pc == Acted || pc.Ran? || (pc.Ruled? && pc.verdict == Allow && effect == Stored)
  }

  /** The journal after a failing append. */
  function Written(w: World, pid: Pid, effect: Effect): World
    requires pid in w.attempts && (effect != Nothing ==> Pending(w.attempts[pid].pc).Some?)
  {
    match effect
    case Nothing => w
    case Stored => AddLine(w, Entry(w.attempts[pid].id, Pending(w.attempts[pid].pc).value))
    case CutShort => if w.torn then w else w.(lines := w.lines + [Corrupt], torn := true)
  }

  function Charge(w: World, pid: Pid, effect: Effect): World
    requires pid in w.attempts
  {
    if PastAction(w.attempts[pid].pc, effect)
    then w.(interrupted := Increment(w.interrupted, w.attempts[pid].id))
    else w
  }

  function Do(w: World, step: Step): World
    requires Enabled(w, step)
  {
    match step
    case Arrive(pid, id) => w.(attempts := w.attempts[pid := Attempt(id, Arrived)])
    case Acquire(pid) => At(w.(holder := w.holder[w.attempts[pid].id := pid]), pid, Locked)
    case CheckComplete(pid) =>
      if Complete(w, w.attempts[pid].id) then Leave(w, pid, Done) else At(w, pid, Cleared)
    case Judge(pid, v, denial) => At(w, pid, Judged(v, denial))
    case Append(pid) =>
      var a := w.attempts[pid];
      At(AddLine(w, Entry(a.id, Pending(a.pc).value)), pid, AfterAppend(a.pc))
    case Handle(pid, s) => At(w.(runs := Increment(w.runs, w.attempts[pid].id)), pid, Ran(s))
    case Release(pid) => Leave(w, pid, Done)
    case Fail(pid, effect) => Leave(Charge(Written(w, pid, effect), pid, effect), pid, Dead)
  }

  // ---------------------------------------------------------------- the invariant, with failures

  predicate HolderOk(w: World, id: Id) {
    id in w.holder ==>
      w.holder[id] in w.attempts && w.attempts[w.holder[id]].id == id && InSection(w.attempts[w.holder[id]].pc)
  }

  predicate SectionOk(w: World, pid: Pid) {
    pid in w.attempts && InSection(w.attempts[pid].pc) ==>
      w.attempts[pid].id in w.holder && w.holder[w.attempts[pid].id] == pid
  }

  /** Results that an attempt carries are of the kind its decision permits. */
  predicate CarriesOk(pc: Pc) {
    && (pc.Judged? || pc.Ruled? ==> pc.denial == StatusDenied || pc.denial == StatusError)
    && (pc.Ran? ==> pc.result == StatusOk || pc.result == StatusError)
  }

  /** The attempt passed the check and has not run its handler yet. */
  predicate BeforeRun(pc: Pc) {
    pc == Cleared || pc == Logged || pc.Judged? || pc.Ruled? || pc == Acted
  }

  /** An attempt between its check and its handler: no terminal result is stored, and no run is unaccounted for. */
  predicate AttemptOk(w: World, pid: Pid) {
    pid in w.attempts ==>
      && CarriesOk(w.attempts[pid].pc)
      && (BeforeRun(w.attempts[pid].pc) ==>
            && !HasTerminal(w.lines, w.attempts[pid].id)
            && Count(w.runs, w.attempts[pid].id) <= Count(w.interrupted, w.attempts[pid].id))
  }

  predicate HolderRan(w: World, id: Id) {
    id in w.holder && w.holder[id] in w.attempts && w.attempts[w.holder[id]].pc.Ran?
  }

  /** Handler runs are interrupted attempts, plus at most one that is finished or about to be. */
  predicate RunsOk(w: World, id: Id) {
    Count(w.runs, id) <= Count(w.interrupted, id) + if Complete(w, id) || HolderRan(w, id) then 1 else 0
  }

  ghost predicate Inv(w: World) {
    && (w.torn ==> HasCorrupt(w.lines))
    && (forall id :: HolderOk(w, id))
    && (forall pid :: SectionOk(w, pid))
    && (forall pid :: AttemptOk(w, pid))
    && (forall id :: RunsOk(w, id))
  }

  /** One step moves one attempt, and the lock of its request only. */
  predicate Moves(w: World, next: World, pid: Pid) {
    && pid in next.attempts && next.attempts == w.attempts[pid := next.attempts[pid]]
    && (pid in w.attempts ==> next.attempts[pid].id == w.attempts[pid].id)
    && var id, was := next.attempts[pid].id, pid in w.attempts && InSection(w.attempts[pid].pc);
       match (was, InSection(next.attempts[pid].pc))
       case (false, true) => id !in w.holder && next.holder == w.holder[id := pid]
       case (true, false) => next.holder == w.holder - {id}
       case _ => next.holder == w.holder
  }

  lemma WrittenTouchesJournalOnly(w: World, pid: Pid, effect: Effect)
    requires pid in w.attempts && (effect != Nothing ==> Pending(w.attempts[pid].pc).Some?)
    ensures var next := Written(w, pid, effect); next == w.(lines := next.lines, torn := next.torn)
  {
  }

  lemma FailMoves(w: World, step: Step)
    requires Enabled(w, step) && step.Fail?
    ensures Moves(w, Do(w, step), step.pid)
  {
    WrittenTouchesJournalOnly(w, step.pid, step.effect);
    var charged := Charge(Written(w, step.pid, step.effect), step.pid, step.effect);
    assert charged.attempts == w.attempts && charged.holder == w.holder;
  }

  lemma AppendMoves(w: World, step: Step)
    requires Enabled(w, step) && step.Append?
    ensures Moves(w, Do(w, step), step.pid)
  {
  }

  lemma LeavingMoves(w: World, step: Step)
    requires Enabled(w, step) && (step.CheckComplete? || step.Release?)
    ensures Moves(w, Do(w, step), step.pid)
  {
  }

  lemma StepMoves(w: World, step: Step)
    requires Enabled(w, step)
    ensures Moves(w, Do(w, step), step.pid)
  {
    if step.Fail? {
      FailMoves(w, step);
    } else if step.Append? {
      AppendMoves(w, step);
    } else if step.CheckComplete? || step.Release? {
      LeavingMoves(w, step);
    }
  }

  lemma MovesKeepLocks(w: World, next: World, mover: Pid)
    requires (forall id :: HolderOk(w, id)) && (forall pid :: SectionOk(w, pid)) && Moves(w, next, mover)
    ensures forall id :: HolderOk(next, id)
    ensures forall pid :: SectionOk(next, pid)
  {
    forall id
      ensures HolderOk(next, id)
    {
      assert HolderOk(w, id) && SectionOk(w, mover);
    }
    forall pid
      ensures SectionOk(next, pid)
    {
      assert SectionOk(w, pid) && SectionOk(w, mover);
    }
  }

  lemma LinesGrow(lines: seq<Line>, line: Line, id: Id)
    ensures HasTerminal(lines + [line], id) <==>
              HasTerminal(lines, id) || (line.Entry? && line.id == id && Terminal(line.event))
    ensures HasCorrupt(lines + [line]) <==> HasCorrupt(lines) || line == Corrupt
  {
    TerminalSplit(lines + [line], id);
    assert (lines + [line])[..|lines|] == lines;
  }

  lemma AddedLine(w: World, line: Line, id: Id)
    requires w.torn ==> HasCorrupt(w.lines)
    ensures var next := AddLine(w, line);
            && (HasCorrupt(w.lines) ==> HasCorrupt(next.lines))
            && (HasTerminal(w.lines, id) ==> HasTerminal(next.lines, id))
            && (HasTerminal(next.lines, id) && !HasTerminal(w.lines, id) ==>
                  line.Entry? && line.id == id && Terminal(line.event))
            && !next.torn
  {
    LinesGrow(w.lines, line, id);
  }

  /** Only an append of the attempt itself stores a terminal result, and for its own request. */
  ghost predicate CanStoreTerminal(w: World, pid: Pid, id: Id) {
    pid in w.attempts && w.attempts[pid].id == id &&
    Pending(w.attempts[pid].pc).Some? && Terminal(Pending(w.attempts[pid].pc).value)
  }

  lemma WrittenAndTerminals(w: World, pid: Pid, effect: Effect, id: Id)
    requires w.torn ==> HasCorrupt(w.lines)
    requires pid in w.attempts && (effect != Nothing ==> Pending(w.attempts[pid].pc).Some?)
    ensures var next := Written(w, pid, effect);
            && (HasCorrupt(w.lines) ==> HasCorrupt(next.lines))
            && (HasTerminal(w.lines, id) ==> HasTerminal(next.lines, id))
            && (HasTerminal(next.lines, id) && !HasTerminal(w.lines, id) ==> CanStoreTerminal(w, pid, id))
            && (next.torn ==> HasCorrupt(next.lines))
  {
    match effect {
      case Nothing =>
      case Stored => AddedLine(w, Entry(w.attempts[pid].id, Pending(w.attempts[pid].pc).value), id);
      case CutShort => LinesGrow(w.lines, Corrupt, id);
    }
  }

  /** What one step does to the terminal results: only the acting attempt can store one, for its own request. */
  lemma StepAndTerminals(w: World, step: Step, id: Id)
    requires Inv(w) && Enabled(w, step)
    ensures var next := Do(w, step);
            && (HasCorrupt(w.lines) ==> HasCorrupt(next.lines))
            && (HasTerminal(w.lines, id) ==> HasTerminal(next.lines, id))
            && (HasTerminal(next.lines, id) && !HasTerminal(w.lines, id) ==> CanStoreTerminal(w, step.pid, id))
            && (next.torn ==> HasCorrupt(next.lines))
  {
    match step {
      case Append(pid) => AddedLine(w, Entry(w.attempts[pid].id, Pending(w.attempts[pid].pc).value), id);
      case Fail(pid, effect) => WrittenAndTerminals(w, pid, effect, id);
      case _ =>
    }
  }

  lemma OthersKeepTheirCounts(w: World, step: Step, id: Id)
    requires Enabled(w, step) && (step.Arrive? || w.attempts[step.pid].id != id)
    ensures Count(Do(w, step).runs, id) == Count(w.runs, id)
    ensures Count(Do(w, step).interrupted, id) == Count(w.interrupted, id)
  {
    if step.Fail? {
      WrittenTouchesJournalOnly(w, step.pid, step.effect);
      assert Do(w, step).runs == w.runs;
    }
  }

  lemma FailKeepsAttempt(w: World, step: Step)
    requires Enabled(w, step) && step.Fail?
    ensures AttemptOk(Do(w, step), step.pid)
  {
  }

  lemma ActorKeepsAttempt(w: World, step: Step)
    requires Inv(w) && Enabled(w, step)
    ensures AttemptOk(Do(w, step), step.pid)
  {
    assert AttemptOk(w, step.pid);
    if step.Fail? {
      FailKeepsAttempt(w, step);
    } else if !step.Arrive? {
      StepAndTerminals(w, step, w.attempts[step.pid].id);
      assert RunsOk(w, w.attempts[step.pid].id) && SectionOk(w, step.pid);
    }
  }

  lemma StepKeepsAttempts(w: World, step: Step)
    requires Inv(w) && Enabled(w, step)
    ensures forall pid :: AttemptOk(Do(w, step), pid)
  {
    StepMoves(w, step);
    forall pid
      ensures AttemptOk(Do(w, step), pid)
    {
      if pid == step.pid {
        ActorKeepsAttempt(w, step);
      } else if pid in w.attempts {
        assert AttemptOk(w, pid) && SectionOk(w, pid) && SectionOk(w, step.pid);
        var id := w.attempts[pid].id;
        StepAndTerminals(w, step, id);
        if step.Arrive? || w.attempts[step.pid].id != id {
          OthersKeepTheirCounts(w, step, id);
        } else {
          // Only the holder of the lock is in its section; any other step on this request is harmless.
          assert InSection(w.attempts[pid].pc) ==> !InSection(w.attempts[step.pid].pc);
        }
      }
    }
  }

  lemma FailKeepsRuns(w: World, step: Step, id: Id)
    requires Inv(w) && Enabled(w, step) && step.Fail? && w.attempts[step.pid].id == id
    ensures RunsOk(Do(w, step), id)
  {
    assert RunsOk(w, id) && HolderOk(w, id) && SectionOk(w, step.pid) && AttemptOk(w, step.pid);
    StepAndTerminals(w, step, id);
    WrittenTouchesJournalOnly(w, step.pid, step.effect);
  }

  lemma AppendKeepsRuns(w: World, step: Step, id: Id)
    requires Inv(w) && Enabled(w, step) && step.Append? && w.attempts[step.pid].id == id
    ensures RunsOk(Do(w, step), id)
  {
    var pc := w.attempts[step.pid].pc;
    assert RunsOk(w, id) && SectionOk(w, step.pid) && AttemptOk(w, step.pid);
    StepAndTerminals(w, step, id);
    LinesGrow(w.lines, Entry(id, Pending(pc).value), id);
  }

  lemma ActorKeepsRuns(w: World, step: Step, id: Id)
    requires Inv(w) && Enabled(w, step) && !step.Arrive? && w.attempts[step.pid].id == id
    ensures RunsOk(Do(w, step), id)
  {
    if step.Fail? {
      FailKeepsRuns(w, step, id);
    } else if step.Append? {
      AppendKeepsRuns(w, step, id);
    } else {
      assert RunsOk(w, id) && HolderOk(w, id) && SectionOk(w, step.pid) && AttemptOk(w, step.pid);
    }
  }

  lemma StepKeepsRuns(w: World, step: Step)
    requires Inv(w) && Enabled(w, step)
    ensures forall id :: RunsOk(Do(w, step), id)
  {
    StepMoves(w, step);
    forall id
      ensures RunsOk(Do(w, step), id)
    {
      if step.Arrive? || w.attempts[step.pid].id != id {
        assert RunsOk(w, id) && HolderOk(w, id);
        StepAndTerminals(w, step, id);
        OthersKeepTheirCounts(w, step, id);
      } else {
        ActorKeepsRuns(w, step, id);
      }
    }
  }

  lemma StepKeepsInv(w: World, step: Step)
    requires Inv(w) && Enabled(w, step)
    ensures Inv(Do(w, step))
  {
    StepMoves(w, step);
    MovesKeepLocks(w, Do(w, step), step.pid);
    StepKeepsAttempts(w, step);
    StepKeepsRuns(w, step);
    StepAndTerminals(w, step, "");
  }

  predicate Legal(w: World, steps: seq<Step>)
    decreases |steps|
  {
    steps == [] || (Enabled(w, steps[0]) && Legal(Do(w, steps[0]), steps[1..]))
  }

  function Run(w: World, steps: seq<Step>): World
    requires Legal(w, steps)
    decreases |steps|
  {
    if steps == [] then w else Run(Do(w, steps[0]), steps[1..])
  }

  lemma {:induction false} RunKeepsInv(w: World, steps: seq<Step>)
    requires Inv(w) && Legal(w, steps)
    ensures Inv(Run(w, steps))
    decreases |steps|
  {
    if steps != [] {
      StepKeepsInv(w, steps[0]);
      RunKeepsInv(Do(w, steps[0]), steps[1..]);
    }
  }

  /**
   In every run, with any failures: the handler of a request runs at most once, plus once for every
   attempt that was interrupted after its action event.
   */
  lemma HandlerRunsAreBounded(steps: seq<Step>, id: Id)
    requires Legal(EMPTY, steps)
    ensures Count(Run(EMPTY, steps).runs, id) <= 1 + Count(Run(EMPTY, steps).interrupted, id)
  {
    RunKeepsInv(EMPTY, steps);
    assert RunsOk(Run(EMPTY, steps), id);
  }

  /** How often the handler of a request runs, step by step. */
  function HandlerSteps(w: World, steps: seq<Step>, id: Id): nat
    requires Legal(w, steps)
    decreases |steps|
  {
    if steps == [] then 0
    else
      (if steps[0].Handle? && w.attempts[steps[0].pid].id == id then 1 else 0)
      + HandlerSteps(Do(w, steps[0]), steps[1..], id)
  }

  /** The step is a failure of an attempt on `id` whose action event is stored, or is stored by the failing append. */
  predicate FailsPastAction(w: World, step: Step, id: Id)
    requires Enabled(w, step)
  {
    step.Fail? && w.attempts[step.pid].id == id &&
    match w.attempts[step.pid].pc
    case Acted => true
    case Ran(_) => true
    case Ruled(v, _) => v == Allow && step.effect == Stored
    case _ => false
  }

  function FailuresPastAction(w: World, steps: seq<Step>, id: Id): nat
    requires Legal(w, steps)
    decreases |steps|
  {
    if steps == [] then 0
    else (if FailsPastAction(w, steps[0], id) then 1 else 0) + FailuresPastAction(Do(w, steps[0]), steps[1..], id)
  }

  lemma StepCounts(w: World, step: Step, id: Id)
    requires Enabled(w, step)
    ensures Count(Do(w, step).runs, id)
         == Count(w.runs, id) + if step.Handle? && w.attempts[step.pid].id == id then 1 else 0
    ensures Count(Do(w, step).interrupted, id)
         == Count(w.interrupted, id) + if FailsPastAction(w, step, id) then 1 else 0
  {
    if step.Fail? {
      WrittenTouchesJournalOnly(w, step.pid, step.effect);
    }
  }

  lemma {:induction false} RunCounts(w: World, steps: seq<Step>, id: Id)
    requires Legal(w, steps)
    ensures Count(Run(w, steps).runs, id) == Count(w.runs, id) + HandlerSteps(w, steps, id)
    ensures Count(Run(w, steps).interrupted, id) == Count(w.interrupted, id) + FailuresPastAction(w, steps, id)
    decreases |steps|
  {
    if steps != [] {
      StepCounts(w, steps[0], id);
      RunCounts(Do(w, steps[0]), steps[1..], id);
    }
  }

  /**
   The same, counted in the steps of the run: the handler runs at most once, plus once for each failure
   of an attempt that came after its action event.
   */
  lemma HandlerRunsInSteps(steps: seq<Step>, id: Id)
    requires Legal(EMPTY, steps)
    ensures HandlerSteps(EMPTY, steps, id) <= 1 + FailuresPastAction(EMPTY, steps, id)
  {
    RunCounts(EMPTY, steps, id);
    HandlerRunsAreBounded(steps, id);
  }

  /** In every run, with any failures: no handler runs once a terminal result of its request is stored. */
  lemma NoRunAfterTerminal(steps: seq<Step>, pid: Pid, result: Status)
    requires Legal(EMPTY, steps) && Enabled(Run(EMPTY, steps), Handle(pid, result))
    ensures !HasTerminal(Run(EMPTY, steps).lines, Run(EMPTY, steps).attempts[pid].id)
  {
    RunKeepsInv(EMPTY, steps);
    assert AttemptOk(Run(EMPTY, steps), pid);
  }

  // ---------------------------------------------------------------- runs without failures

  predicate PhaseFits(pc: Pc, p: Phase) {
    match pc
    case Locked => p == Fresh || p == Phase.Complete
    case Cleared => p == Fresh
    case Logged => p == Requested
    case Judged(_, _) => p == Requested
    case Ruled(v, _) => p == Decided(v)
    case Acted => p == Acting
    case Ran(_) => p == Acting
    case _ => p == Fresh || p == Phase.Complete
  }

  /** The stored events of a request have come to `phase`, which fits the attempt that is in its section. */
  predicate PhaseOk(w: World, id: Id, phase: Option<Phase>) {
    phase.Some? &&
    if id in w.holder && w.holder[id] in w.attempts then PhaseFits(w.attempts[w.holder[id]].pc, phase.value)
    else phase.value == Fresh || phase.value == Phase.Complete
  }

  /** The stored events of a request are in order, and fit the attempt that is in its section. */
  predicate OrderOk(w: World, id: Id) {
    PhaseOk(w, id, Walk(EventsOf(w.lines, id)))
  }

  ghost predicate InOrder(w: World) {
    Inv(w) && !w.torn && !HasCorrupt(w.lines) && forall id :: OrderOk(w, id)
  }

  lemma WalkAppend(events: seq<Event>, e: Event)
    requires Walk(events).Some?
    ensures Walk(events + [e]) == Advance(Walk(events).value, e)
  {
    assert (events + [e])[..|events|] == events;
  }

  lemma AppendAdvances(lines: seq<Line>, id: Id, e: Event, other: Id)
    requires Walk(EventsOf(lines, other)).Some?
    ensures Walk(EventsOf(lines + [Entry(id, e)], other))
         == if other == id then Advance(Walk(EventsOf(lines, other)).value, e) else Walk(EventsOf(lines, other))
  {
    EventsOfAppend(lines, Entry(id, e), other);
    if other == id {
      WalkAppend(EventsOf(lines, other), e);
    } else {
      assert EventsOf(lines, other) + [] == EventsOf(lines, other);
    }
  }

  /** Every append that the code makes is one that the order allows. */
  lemma PendingIsAllowed(pc: Pc, p: Phase)
    requires CarriesOk(pc) && Pending(pc).Some? && PhaseFits(pc, p)
    ensures Advance(p, Pending(pc).value).Some? && PhaseFits(AfterAppend(pc), Advance(p, Pending(pc).value).value)
  {
  }

  lemma AppendKeepsOrder(w: World, pid: Pid, id: Id)
    requires InOrder(w) && Enabled(w, Append(pid))
    ensures OrderOk(Do(w, Append(pid)), id)
  {
    var a, next := w.attempts[pid], Do(w, Append(pid));
    assert next.lines == w.lines + [Entry(a.id, Pending(a.pc).value)] && next.holder == w.holder;
    assert OrderOk(w, id) && SectionOk(w, pid) && HolderOk(w, id);
    AppendAdvances(w.lines, a.id, Pending(a.pc).value, id);
    if a.id == id {
      assert AttemptOk(w, pid);
      PendingIsAllowed(a.pc, Walk(EventsOf(w.lines, id)).value);
    }
  }

  /** The check finds a terminal result exactly when the request is complete. */
  lemma CheckMeansComplete(w: World, id: Id)
    requires InOrder(w)
    ensures Complete(w, id) <==> Walk(EventsOf(w.lines, id)) == Some(Phase.Complete)
  {
    assert OrderOk(w, id);
    TerminalInEvents(w.lines, id);
    AtMostOneOfEach(EventsOf(w.lines, id));
  }

  /** The check of an attempt, when it finds a terminal result exactly if the request is complete. */
  lemma CheckKeepsPhase(w: World, pid: Pid, id: Id, phase: Option<Phase>)
    requires Inv(w) && Enabled(w, CheckComplete(pid)) && PhaseOk(w, id, phase)
    requires Complete(w, id) <==> phase == Some(Phase.Complete)
    ensures PhaseOk(Do(w, CheckComplete(pid)), id, phase)
  {
    assert SectionOk(w, pid) && HolderOk(w, id);
  }

  lemma OtherStepKeepsPhase(w: World, step: Step, id: Id, phase: Option<Phase>)
    requires Inv(w) && Enabled(w, step) && !step.Fail? && !step.Append? && !step.CheckComplete?
    requires PhaseOk(w, id, phase)
    ensures PhaseOk(Do(w, step), id, phase)
  {
    assert SectionOk(w, step.pid) && HolderOk(w, id);
  }

  lemma OtherStepKeepsOrder(w: World, step: Step, id: Id)
    requires InOrder(w) && Enabled(w, step) && !step.Fail? && !step.Append?
    ensures OrderOk(Do(w, step), id)
  {
    var phase := Walk(EventsOf(w.lines, id));
    assert OrderOk(w, id) && Do(w, step).lines == w.lines;
    if step.CheckComplete? {
      CheckMeansComplete(w, id);
      CheckKeepsPhase(w, step.pid, id, phase);
    } else {
      OtherStepKeepsPhase(w, step, id, phase);
    }
  }

  lemma StepKeepsOrder(w: World, step: Step)
    requires InOrder(w) && Enabled(w, step) && !step.Fail?
    ensures InOrder(Do(w, step))
  {
    var next := Do(w, step);
    StepKeepsInv(w, step);
    if step.Append? {
      LinesGrow(w.lines, Entry(w.attempts[step.pid].id, Pending(w.attempts[step.pid].pc).value), "");
    }
    forall id
      ensures OrderOk(next, id)
    {
      if step.Append? {
        AppendKeepsOrder(w, step.pid, id);
      } else {
        OtherStepKeepsOrder(w, step, id);
      }
    }
  }

  predicate FaultFree(steps: seq<Step>) {
    forall i :: 0 <= i < |steps| ==> !steps[i].Fail?
  }

  lemma {:induction false} RunKeepsOrder(w: World, steps: seq<Step>)
    requires InOrder(w) && Legal(w, steps) && FaultFree(steps)
    ensures InOrder(Run(w, steps))
    decreases |steps|
  {
    if steps != [] {
      StepKeepsOrder(w, steps[0]);
      RunKeepsOrder(Do(w, steps[0]), steps[1..]);
    }
  }

  /**
   In every interleaving without failures, the journal read for one request ID is some number of
   attempts that wait for approval, followed by one attempt that may have come to its end.
   */
  lemma JournalOrder(steps: seq<Step>, id: Id) returns (n: nat, w: seq<Event>)
    requires Legal(EMPTY, steps) && FaultFree(steps)
    ensures var events := EventsOf(Run(EMPTY, steps).lines, id);
            && Walk(events).Some? && events == Repeat(n) + w && Tail(w, Walk(events).value)
            && CountActions(events) <= 1 && CountTerminal(events) <= 1
  {
    assert forall id :: OrderOk(EMPTY, id);
    RunKeepsOrder(EMPTY, steps);
    assert OrderOk(Run(EMPTY, steps), id);
    var events := EventsOf(Run(EMPTY, steps).lines, id);
    n, w := AllowedShape(events);
    AtMostOneOfEach(events);
  }

  // ---------------------------------------------------------------- one attempt on its own

  /** One step, and then the rest of a run. */
  lemma Then(w: World, step: Step, rest: seq<Step>)
    requires Enabled(w, step) && Legal(Do(w, step), rest)
    ensures Legal(w, [step] + rest) && Run(w, [step] + rest) == Run(Do(w, step), rest)
  {
    assert ([step] + rest)[1..] == rest;
  }

  /** A call that appends, without failing, at the end of a journal that is not torn. */
  lemma AppendStep(w: World, pid: Pid)
    requires pid in w.attempts && !w.torn && Pending(w.attempts[pid].pc).Some?
    ensures var a := w.attempts[pid];
            Do(w, Append(pid)) == w.(lines := w.lines + [Entry(a.id, Pending(a.pc).value)],
                                     attempts := w.attempts[pid := Attempt(a.id, AfterAppend(a.pc))])
  {
  }

  /** The action event is stored, and the handler runs. */
  lemma ActsAndRuns(w: World, pid: Pid, result: Status)
    requires pid in w.attempts && w.attempts[pid].pc.Ruled? && w.attempts[pid].pc.verdict == Allow && !w.torn
    requires result == StatusOk || result == StatusError
    ensures Legal(w, [Append(pid), Handle(pid, result)])
    ensures var id := w.attempts[pid].id;
            Run(w, [Append(pid), Handle(pid, result)])
              == w.(lines := w.lines + [Entry(id, ActionEvent)], runs := Increment(w.runs, id),
                    attempts := w.attempts[pid := Attempt(id, Ran(result))])
  {
    AppendStep(w, pid);
    TwoSteps(w, Append(pid), Handle(pid, result));
  }

  /** The result event is stored, and the lock is released. */
  lemma AnswersAndLeaves(w: World, pid: Pid)
    requires pid in w.attempts && Pending(w.attempts[pid].pc).Some? && AfterAppend(w.attempts[pid].pc) == Answered
    requires !w.torn
    ensures Legal(w, [Append(pid), Release(pid)])
    ensures var a, last := w.attempts[pid], Run(w, [Append(pid), Release(pid)]);
            && last.lines == w.lines + [Entry(a.id, Pending(a.pc).value)] && last.runs == w.runs
            && pid in last.attempts && last.attempts[pid].pc == Done
  {
    AppendStep(w, pid);
    TwoSteps(w, Append(pid), Release(pid));
  }

  lemma ActingSteps(w: World, pid: Pid, result: Status) returns (steps: seq<Step>)
    requires pid in w.attempts && w.attempts[pid].pc.Ruled? && w.attempts[pid].pc.verdict == Allow && !w.torn
    requires result == StatusOk || result == StatusError
    ensures Legal(w, steps) && FaultFree(steps)
    ensures var id, last := w.attempts[pid].id, Run(w, steps);
            && last.lines == w.lines + [Entry(id, ActionEvent), Entry(id, ResultEvent(result))]
            && last.runs == Increment(w.runs, id)
            && pid in last.attempts && last.attempts[pid].pc == Done
  {
    var a, b := [Append(pid), Handle(pid, result)], [Append(pid), Release(pid)];
    ActsAndRuns(w, pid, result);
    AnswersAndLeaves(Run(w, a), pid);
    RunInTwoParts(w, a, b);
    steps := a + b;
  }

  lemma LastSteps(w: World, pid: Pid, result: Status) returns (steps: seq<Step>)
    requires pid in w.attempts && w.attempts[pid].pc.Ruled? && !w.torn
    requires result == StatusOk || result == StatusError
    ensures Legal(w, steps) && FaultFree(steps)
    ensures var id, pc, last := w.attempts[pid].id, w.attempts[pid].pc, Run(w, steps);
            && last.lines == w.lines + Tag(id, Broker.AttemptEvents(pc.verdict, pc.denial, result)[2..])
            && Count(last.runs, id) == Count(w.runs, id) + (if pc.verdict == Allow then 1 else 0)
            && pid in last.attempts && last.attempts[pid].pc == Done
  {
    if w.attempts[pid].pc.verdict == Allow {
      steps := ActingSteps(w, pid, result);
    } else {
      AnswersAndLeaves(w, pid);
      steps := [Append(pid), Release(pid)];
    }
  }

  lemma RunOneMore(w: World, steps: seq<Step>)
    requires steps != [] && Legal(w, steps)
    ensures Enabled(w, steps[0]) && Legal(Do(w, steps[0]), steps[1..])
    ensures Run(w, steps) == Run(Do(w, steps[0]), steps[1..])
  {
  }

  lemma {:induction false} RunInTwoParts(w: World, a: seq<Step>, b: seq<Step>)
    requires Legal(w, a) && Legal(Run(w, a), b)
    ensures Legal(w, a + b) && Run(w, a + b) == Run(Run(w, a), b)
    decreases |a|
  {
    if a == [] {
      assert a + b == b;
    } else {
      RunOneMore(w, a);
      RunInTwoParts(Do(w, a[0]), a[1..], b);
      OneStepEarlier(w, a, b);
    }
  }

  lemma OneStepEarlier(w: World, a: seq<Step>, b: seq<Step>)
    requires a != [] && Enabled(w, a[0]) && Legal(Do(w, a[0]), a[1..] + b)
    ensures Legal(w, a + b) && Run(w, a + b) == Run(Do(w, a[0]), a[1..] + b)
  {
    assert (a + b)[0] == a[0] && (a + b)[1..] == a[1..] + b;
  }

  /** Two steps in a row. */
  lemma TwoSteps(w: World, a: Step, b: Step)
    requires Enabled(w, a) && Enabled(Do(w, a), b)
    ensures Legal(w, [a, b]) && Run(w, [a, b]) == Do(Do(w, a), b)
  {
    Then(Do(w, a), b, []);
    Then(w, a, [b]);
    assert [a] + [b] == [a, b];
  }

  lemma ChecksAndLogs(w: World, pid: Pid)
    requires pid in w.attempts && w.attempts[pid].pc == Locked && !w.torn && !Complete(w, w.attempts[pid].id)
    ensures Legal(w, [CheckComplete(pid), Append(pid)])
    ensures var id := w.attempts[pid].id;
            Run(w, [CheckComplete(pid), Append(pid)])
              == w.(lines := w.lines + [Entry(id, RequestEvent)], attempts := w.attempts[pid := Attempt(id, Logged)])
  {
    AppendStep(Do(w, CheckComplete(pid)), pid);
    TwoSteps(w, CheckComplete(pid), Append(pid));
  }

  lemma JudgesAndRules(w: World, pid: Pid, v: Verdict, denial: Status)
    requires pid in w.attempts && w.attempts[pid].pc == Logged && !w.torn
    requires denial == StatusDenied || denial == StatusError
    ensures Legal(w, [Judge(pid, v, denial), Append(pid)])
    ensures var id := w.attempts[pid].id;
            Run(w, [Judge(pid, v, denial), Append(pid)])
              == w.(lines := w.lines + [Entry(id, DecisionEvent(v))],
                    attempts := w.attempts[pid := Attempt(id, Ruled(v, denial))])
  {
    AppendStep(Do(w, Judge(pid, v, denial)), pid);
    TwoSteps(w, Judge(pid, v, denial), Append(pid));
  }

  /** The attempt before its decision is stored: the check, the request event, and the decision event. */
  lemma FirstSteps(w: World, pid: Pid, v: Verdict, denial: Status) returns (steps: seq<Step>)
    requires pid in w.attempts && w.attempts[pid].pc == Locked && !w.torn && !Complete(w, w.attempts[pid].id)
    requires denial == StatusDenied || denial == StatusError
    ensures Legal(w, steps) && FaultFree(steps)
    ensures var id := w.attempts[pid].id;
            Run(w, steps) == w.(lines := w.lines + Tag(id, [RequestEvent, DecisionEvent(v)]),
                                attempts := w.attempts[pid := Attempt(id, Ruled(v, denial))])
  {
    var id := w.attempts[pid].id;
    var a, b := [CheckComplete(pid), Append(pid)], [Judge(pid, v, denial), Append(pid)];
    ChecksAndLogs(w, pid);
    JudgesAndRules(Run(w, a), pid, v, denial);
    RunInTwoParts(w, a, b);
    steps := a + b;
    assert Tag(id, [RequestEvent, DecisionEvent(v)]) == [Entry(id, RequestEvent)] + [Entry(id, DecisionEvent(v))];
  }

  /**
   The steps of one attempt that nothing disturbs append exactly the events of the sequential code
   (`Broker.AttemptEvents`), and run the handler exactly when the verdict is to allow.
   */
  lemma UndisturbedAttempt(w: World, pid: Pid, v: Verdict, denial: Status, result: Status) returns (steps: seq<Step>)
    requires pid in w.attempts && w.attempts[pid].pc == Locked && !w.torn && !Complete(w, w.attempts[pid].id)
    requires denial == StatusDenied || denial == StatusError
    requires result == StatusOk || result == StatusError
    ensures Legal(w, steps) && FaultFree(steps)
    ensures var id, last := w.attempts[pid].id, Run(w, steps);
            && last.lines == w.lines + Tag(id, Broker.AttemptEvents(v, denial, result))
            && Count(last.runs, id) == Count(w.runs, id) + (if v == Allow then 1 else 0)
            && pid in last.attempts && last.attempts[pid].pc == Done
  {
    var first := FirstSteps(w, pid, v, denial);
    var ruled := Run(w, first);
    var last := LastSteps(ruled, pid, result);
    RunInTwoParts(w, first, last);
    steps := first + last;
    StoredInTwoParts(w.lines, w.attempts[pid].id, v, denial, result);
  }

  lemma StoredInTwoParts(lines: seq<Line>, id: Id, v: Verdict, denial: Status, result: Status)
    ensures var events := Broker.AttemptEvents(v, denial, result);
            lines + Tag(id, [RequestEvent, DecisionEvent(v)]) + Tag(id, events[2..]) == lines + Tag(id, events)
  {
    var events := Broker.AttemptEvents(v, denial, result);
    assert events[..2] == [RequestEvent, DecisionEvent(v)];
    assert Tag(id, events) == Tag(id, events[..2]) + Tag(id, events[2..]);
  }
}
