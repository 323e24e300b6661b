/**
 All interleavings of operations on stored proposals, with a crash or an uncaught exception
 possible at every point.

 A call takes the lock of its proposal, reads the record, decides on what it read, and saves. A
 lock ends with the process that holds it. A save is one atomic replacement; a save that fails is
 an abort before it, a crash right after one is an abort after it.
 */
module PromotionProtocol {
  import opened Lifecycle

  type Pid = nat
  type Id = string

  datatype Op = Create | Classify | Approve | Reject | Promote

  /** Where a call stands. `read` is the state in the record that the call read. */
  datatype Pc =
    | Waiting(op: Op)
    | Holding(op: Op)
    | Ready(op: Op, read: State)
    | InFlight
    | Saved
    | Finished
    | Dead

  datatype Call = Call(id: Id, pc: Pc)

  /** One change of the configuration tree, by the call that made it. */
  datatype Change = Change(pid: Pid, id: Id)

  datatype World = World(
    directories: set<Id>,
    records: map<Id, State>,
    holder: map<Id, Pid>,
    calls: map<Pid, Call>,
    changes: seq<Change>,
    enteredBy: map<Id, Pid>)

  const EMPTY := World({}, map[], map[], map[], [], map[])

  datatype Step =
    | Begin(pid: Pid, op: Op, id: Id)
    | Acquire(pid: Pid)
    | Read(pid: Pid)
    | Refuse(pid: Pid)
    | Save(pid: Pid)
    | Touch(pid: Pid)
    | Settle(pid: Pid, final: State)
    | Release(pid: Pid)
    | Abort(pid: Pid)

  predicate Allowed(op: Op, s: State) {
    match op
    case Create => false
    case Classify => s == Draft
    case Approve => s == Classified
    case Reject => s == Draft || s == Classified
    case Promote => s == Approved
  }

  function Target(op: Op): State {
    match op
    case Create => Draft
    case Classify => Classified
    case Approve => Approved
    case Reject => Rejected
    case Promote => Applying
  }

  /** An operation goes on exactly from the states from which the graph leads to its target. */
  lemma AllowedMeansEdge(op: Op, s: State)
    requires op != Create
    ensures Allowed(op, s) <==> Edge(s, Target(op))
  {
  }

  predicate Locked(pc: Pc) {
    pc.Holding? || pc.Ready? || pc.InFlight? || pc.Saved?
  }

  predicate Creating(pc: Pc) {
    (pc.Waiting? && pc.op == Create) || (pc.Holding? && pc.op == Create) || (pc.Ready? && pc.op == Create)
  }

  predicate Enabled(w: World, step: Step) {
    match step
    case Begin(pid, _, _) => pid !in w.calls
    case Acquire(pid) => pid in w.calls && w.calls[pid].pc.Waiting? && w.calls[pid].id !in w.holder
    case Read(pid) => pid in w.calls && w.calls[pid].pc.Holding?
    case Refuse(pid) => pid in w.calls && w.calls[pid].pc.Ready?
    case Save(pid) => pid in w.calls && w.calls[pid].pc.Ready?
    case Touch(pid) => pid in w.calls && w.calls[pid].pc.InFlight?
    case Settle(pid, final) =>
      pid in w.calls && w.calls[pid].pc.InFlight? && Ended(final)
    case Release(pid) => pid in w.calls && w.calls[pid].pc.Saved?
    case Abort(pid) => pid in w.calls && w.calls[pid].pc != Finished && w.calls[pid].pc != Dead
  }

  function At(w: World, pid: Pid, pc: Pc): World
    requires pid in w.calls
  {
    w.(calls := w.calls[pid := w.calls[pid].(pc := pc)])
  }

  function Unlock(w: World, pid: Pid): World
    requires pid in w.calls
  {
    if Locked(w.calls[pid].pc) then w.(holder := w.holder - {w.calls[pid].id}) else w
  }

  function Do(w: World, step: Step): World
    requires Enabled(w, step)
  {
    match step
    case Begin(pid, op, id) =>
      // Creating the proposal directory is exclusive; every other operation needs it to exist.
      var refused := (op == Create) == (id in w.directories);
      w.(calls := w.calls[pid := Call(id, if refused then Finished else Waiting(op))],
         directories := if op == Create then w.directories + {id} else w.directories)
    case Acquire(pid) =>
      At(w, pid, Holding(w.calls[pid].pc.op)).(holder := w.holder[w.calls[pid].id := pid])
    case Read(pid) =>
      var id, op := w.calls[pid].id, w.calls[pid].pc.op;
      if op == Create then At(w, pid, Ready(op, Draft))
      else if id in w.records && Allowed(op, w.records[id]) then At(w, pid, Ready(op, w.records[id]))
      else At(Unlock(w, pid), pid, Finished)
    case Refuse(pid) => At(Unlock(w, pid), pid, Finished)
    case Save(pid) =>
      var id, op := w.calls[pid].id, w.calls[pid].pc.op;
      var saved := w.(records := w.records[id := Target(op)]);
      if op == Promote then At(saved, pid, InFlight).(enteredBy := w.enteredBy[id := pid])
      else At(saved, pid, Saved)
    case Touch(pid) => w.(changes := w.changes + [Change(pid, w.calls[pid].id)])
    case Settle(pid, final) => At(w.(records := w.records[w.calls[pid].id := final]), pid, Saved)
    case Release(pid) => At(Unlock(w, pid), pid, Finished)
    case Abort(pid) => At(Unlock(w, pid), pid, Dead)
  }

  // ---------------------------------------------------------------- the invariant

  /** The lock of `id`, if held, belongs to a call on `id` inside its locked section. */
  predicate HolderOk(w: World, id: Id) {
    id in w.holder ==> w.holder[id] in w.calls && w.calls[w.holder[id]].id == id && Locked(w.calls[w.holder[id]].pc)
  }

  /** A call inside its locked section holds the lock. */
  predicate LockedOk(w: World, pid: Pid) {
    pid in w.calls && Locked(w.calls[pid].pc) ==> w.calls[pid].id in w.holder && w.holder[w.calls[pid].id] == pid
  }

  /** A proposal that is being created has its directory and no record. */
  predicate CreatorOk(w: World, pid: Pid) {
    pid in w.calls && Creating(w.calls[pid].pc) ==> w.calls[pid].id in w.directories && w.calls[pid].id !in w.records
  }

  /** At most one call creates a given proposal. */
  predicate OneCreator(w: World, p: Pid, q: Pid) {
    && p in w.calls && q in w.calls
    && Creating(w.calls[p].pc) && Creating(w.calls[q].pc) && w.calls[p].id == w.calls[q].id
    ==> p == q
  }

  /** What a call read is still what the record says, until the call saves. */
  predicate ReadOk(w: World, pid: Pid) {
    pid in w.calls && w.calls[pid].pc.Ready? && w.calls[pid].pc.op != Create ==>
      && w.calls[pid].id in w.records
      && w.records[w.calls[pid].id] == w.calls[pid].pc.read
      && Allowed(w.calls[pid].pc.op, w.calls[pid].pc.read)
  }

  /** Whoever stored `applying` is known; it is still at work, or dead, as long as `applying` stands. */
  predicate EntryOk(w: World, id: Id) {
    && (id in w.enteredBy <==> id in w.records && Underway(w.records[id]))
    && (id in w.enteredBy ==> w.enteredBy[id] in w.calls && w.calls[w.enteredBy[id]].id == id)
    && (id in w.enteredBy && w.records[id] == Applying ==>
          w.calls[w.enteredBy[id]].pc.InFlight? || w.calls[w.enteredBy[id]].pc.Dead?)
  }

  predicate FlightOk(w: World, pid: Pid) {
    pid in w.calls && w.calls[pid].pc.InFlight? ==>
      var id := w.calls[pid].id;
      id in w.enteredBy && w.enteredBy[id] == pid && id in w.records && w.records[id] == Applying
  }

  /** A change of the tree was made by the call that stored `applying`. */
  predicate ChangeOk(w: World, c: Change) {
    c.id in w.enteredBy && w.enteredBy[c.id] == c.pid
  }

  ghost predicate Inv(w: World) {
    && w.records.Keys <= w.directories
    && (forall id :: HolderOk(w, id))
    && (forall pid :: LockedOk(w, pid))
    && (forall pid :: CreatorOk(w, pid))
    && (forall p, q :: OneCreator(w, p, q))
    && (forall pid :: ReadOk(w, pid))
    && (forall id :: EntryOk(w, id))
    && (forall pid :: FlightOk(w, pid))
    && (forall c <- w.changes :: ChangeOk(w, c))
  }

  lemma StepKeepsHolders(w: World, step: Step)
    requires Inv(w) && Enabled(w, step)
    ensures forall id :: HolderOk(Do(w, step), id)
  {
    forall id
      ensures HolderOk(Do(w, step), id)
    {
      assert HolderOk(w, id) && LockedOk(w, step.pid);
    }
  }

  lemma StepKeepsLocked(w: World, step: Step)
    requires Inv(w) && Enabled(w, step)
    ensures forall pid :: LockedOk(Do(w, step), pid)
  {
    forall pid
      ensures LockedOk(Do(w, step), pid)
    {
      assert LockedOk(w, pid) && LockedOk(w, step.pid);
    }
  }

  /** Only a new call starts to create. */
  lemma StillCreating(w: World, step: Step, pid: Pid)
    requires Enabled(w, step) && (step.Begin? ==> pid != step.pid)
    requires pid in Do(w, step).calls && Creating(Do(w, step).calls[pid].pc)
    ensures pid in w.calls && Creating(w.calls[pid].pc) && w.calls[pid].id == Do(w, step).calls[pid].id
  {
  }

  lemma StepKeepsDirectories(w: World, step: Step)
    requires Inv(w) && Enabled(w, step)
    ensures w.directories <= Do(w, step).directories && Do(w, step).records.Keys <= Do(w, step).directories
  {
    assert CreatorOk(w, step.pid) && ReadOk(w, step.pid) && FlightOk(w, step.pid);
  }

  /** A record that is new was stored by the call that creates it. */
  lemma NewRecord(w: World, step: Step, id: Id)
    requires Inv(w) && Enabled(w, step) && id in Do(w, step).records && id !in w.records
    ensures step.Save? && w.calls[step.pid].id == id && Creating(w.calls[step.pid].pc)
    ensures !Creating(Do(w, step).calls[step.pid].pc)
  {
    assert ReadOk(w, step.pid) && FlightOk(w, step.pid);
  }

  lemma StepKeepsCreation(w: World, step: Step)
    requires Inv(w) && Enabled(w, step)
    ensures forall pid :: CreatorOk(Do(w, step), pid)
  {
    var next := Do(w, step);
    StepKeepsDirectories(w, step);
    forall pid | pid in next.calls && Creating(next.calls[pid].pc)
      ensures CreatorOk(next, pid)
    {
      if !step.Begin? || pid != step.pid {
        StillCreating(w, step, pid);
        assert CreatorOk(w, pid) && OneCreator(w, pid, step.pid);
        if next.calls[pid].id in next.records {
          NewRecord(w, step, next.calls[pid].id);
        }
      }
    }
  }

  lemma StepKeepsOneCreator(w: World, step: Step)
    requires Inv(w) && Enabled(w, step)
    ensures forall p, q :: OneCreator(Do(w, step), p, q)
  {
    forall p, q
      ensures OneCreator(Do(w, step), p, q)
    {
      OneCreatorStays(w, step, p, q);
    }
  }

  lemma OneCreatorStays(w: World, step: Step, p: Pid, q: Pid)
    requires Inv(w) && Enabled(w, step)
    ensures OneCreator(Do(w, step), p, q)
  {
    var next := Do(w, step);
    assert OneCreator(w, p, q) && CreatorOk(w, p) && CreatorOk(w, q);
    if p in next.calls && q in next.calls && Creating(next.calls[p].pc) && Creating(next.calls[q].pc) {
      if !step.Begin? || p != step.pid {
        StillCreating(w, step, p);
      }
      if !step.Begin? || q != step.pid {
        StillCreating(w, step, q);
      }
    }
  }

  lemma OtherCallsStay(w: World, step: Step, pid: Pid)
    requires Enabled(w, step) && pid != step.pid
    ensures pid in Do(w, step).calls <==> pid in w.calls
    ensures pid in w.calls ==> Do(w, step).calls[pid] == w.calls[pid]
  {
  }

  /** A stored record changes only by a call on it that is inside its locked section. */
  lemma OtherRecordsStay(w: World, step: Step, id: Id)
    requires Enabled(w, step) && id in w.records
    requires step.pid in w.calls && Locked(w.calls[step.pid].pc) ==> w.calls[step.pid].id != id
    ensures id in Do(w, step).records && Do(w, step).records[id] == w.records[id]
  {
  }

  /** The call that has just read, or has read before and did not move. */
  lemma OwnRead(w: World, step: Step)
    requires Inv(w) && Enabled(w, step)
    ensures ReadOk(Do(w, step), step.pid)
  {
  }

  lemma StepKeepsReads(w: World, step: Step)
    requires Inv(w) && Enabled(w, step)
    ensures forall pid :: ReadOk(Do(w, step), pid)
  {
    forall pid
      ensures ReadOk(Do(w, step), pid)
    {
      if pid == step.pid {
        OwnRead(w, step);
      } else {
        OtherCallsStay(w, step, pid);
        assert ReadOk(w, pid) && LockedOk(w, pid) && LockedOk(w, step.pid);
        if pid in w.calls && w.calls[pid].pc.Ready? && w.calls[pid].pc.op != Create {
          OtherRecordsStay(w, step, w.calls[pid].id);
        }
      }
    }
  }

  /** A save or a settlement by a call on `id` itself. */
  lemma StoreKeepsEntry(w: World, step: Step)
    requires Inv(w) && Enabled(w, step) && (step.Save? || step.Settle?)
    ensures EntryOk(Do(w, step), w.calls[step.pid].id)
  {
    assert CreatorOk(w, step.pid) && ReadOk(w, step.pid) && FlightOk(w, step.pid);
    assert EntryOk(w, w.calls[step.pid].id);
  }

  /** Any other step leaves the record and the entry, and no flight ends except by a death. */
  lemma OtherStepKeepsEntry(w: World, step: Step, id: Id)
    requires Inv(w) && Enabled(w, step)
    requires step.Save? || step.Settle? ==> w.calls[step.pid].id != id
    ensures EntryOk(Do(w, step), id)
  {
    assert EntryOk(w, id) && FlightOk(w, step.pid);
  }

  lemma StepKeepsEntries(w: World, step: Step)
    requires Inv(w) && Enabled(w, step)
    ensures forall id :: EntryOk(Do(w, step), id)
  {
    forall id
      ensures EntryOk(Do(w, step), id)
    {
      if (step.Save? || step.Settle?) && w.calls[step.pid].id == id {
        StoreKeepsEntry(w, step);
      } else {
        OtherStepKeepsEntry(w, step, id);
      }
    }
  }

  lemma StepKeepsChanges(w: World, step: Step)
    requires Inv(w) && Enabled(w, step)
    ensures forall c <- Do(w, step).changes :: ChangeOk(Do(w, step), c)
  {
    assert CreatorOk(w, step.pid) && ReadOk(w, step.pid) && FlightOk(w, step.pid);
    forall c | c in Do(w, step).changes
      ensures ChangeOk(Do(w, step), c)
    {
      assert EntryOk(w, c.id);
      assert c in w.changes ==> ChangeOk(w, c);
    }
  }

  lemma OwnFlight(w: World, step: Step)
    requires Inv(w) && Enabled(w, step)
    ensures FlightOk(Do(w, step), step.pid)
  {
    assert FlightOk(w, step.pid);
  }

  lemma OtherEntriesStay(w: World, step: Step, id: Id)
    requires Enabled(w, step) && id in w.enteredBy
    requires step.pid in w.calls && Locked(w.calls[step.pid].pc) ==> w.calls[step.pid].id != id
    ensures id in Do(w, step).enteredBy && Do(w, step).enteredBy[id] == w.enteredBy[id]
  {
  }

  lemma StepKeepsFlights(w: World, step: Step)
    requires Inv(w) && Enabled(w, step)
    ensures forall pid :: FlightOk(Do(w, step), pid)
  {
    forall pid
      ensures FlightOk(Do(w, step), pid)
    {
      if pid == step.pid {
        OwnFlight(w, step);
      } else {
        OtherCallsStay(w, step, pid);
        assert FlightOk(w, pid) && LockedOk(w, pid) && LockedOk(w, step.pid);
        if pid in w.calls && w.calls[pid].pc.InFlight? {
          OtherRecordsStay(w, step, w.calls[pid].id);
          OtherEntriesStay(w, step, w.calls[pid].id);
        }
      }
    }
  }

  lemma StepKeepsInv(w: World, step: Step)
    requires Inv(w) && Enabled(w, step)
    ensures Inv(Do(w, step))
  {
    StepKeepsHolders(w, step);
    StepKeepsLocked(w, step);
    StepKeepsDirectories(w, step);
    StepKeepsCreation(w, step);
    StepKeepsOneCreator(w, step);
    StepKeepsReads(w, step);
    StepKeepsEntries(w, step);
    StepKeepsChanges(w, step);
    StepKeepsFlights(w, step);
  }

  // ---------------------------------------------------------------- runs

  predicate Legal(w: World, steps: seq<Step>)
    decreases |steps|
  {
    steps == [] || (Enabled(w, steps[0]) && Legal(Do(w, steps[0]), steps[1..]))
  }

  function Run(w: World, steps: seq<Step>): World
    requires Legal(w, steps)
    decreases |steps|
  {
    if steps == [] then w else Run(Do(w, steps[0]), steps[1..])
  }

  lemma {:induction false} RunKeepsInv(w: World, steps: seq<Step>)
    requires Inv(w) && Legal(w, steps)
    ensures Inv(Run(w, steps))
    decreases |steps|
  {
    if steps != [] {
      StepKeepsInv(w, steps[0]);
      RunKeepsInv(Do(w, steps[0]), steps[1..]);
    }
  }

  lemma EmptyWorldIsFine()
    ensures Inv(EMPTY)
  {
  }

  /** In every run, all changes of the tree for one proposal come from one call. */
  lemma AtMostOneCallChangesTheTree(steps: seq<Step>)
    requires Legal(EMPTY, steps)
    ensures forall c, d :: c in Run(EMPTY, steps).changes && d in Run(EMPTY, steps).changes && c.id == d.id ==> c == d
  {
    EmptyWorldIsFine();
    RunKeepsInv(EMPTY, steps);
    var w := Run(EMPTY, steps);
    forall c, d | c in w.changes && d in w.changes && c.id == d.id
      ensures c == d
    {
      assert ChangeOk(w, c) && ChangeOk(w, d);
    }
  }

  /** A step that changes the tree is one change by a call that holds the lock while `applying` is stored. */
  ghost predicate ChangeIsGuarded(w: World, step: Step, next: World) {
    next.changes != w.changes ==>
      step.pid in w.calls &&
      var c := Change(step.pid, w.calls[step.pid].id);
      && next.changes == w.changes + [c]
      && c.id in w.records && w.records[c.id] == Applying
      && c.id in w.holder && w.holder[c.id] == c.pid
  }

  /** A record appears as a draft and then follows the graph. */
  ghost predicate FollowsTheGraph(w: World, next: World, id: Id) {
    && (id in next.records && id !in w.records ==> next.records[id] == Draft)
    && (id in w.records ==>
          id in next.records && (next.records[id] == w.records[id] || Edge(w.records[id], next.records[id])))
  }

  /** The call that entered `applying` stays the same for ever, and only it takes the record out of `applying`. */
  ghost predicate EntrantStays(w: World, step: Step, next: World, id: Id) {
    && (id in w.enteredBy ==> id in next.enteredBy && next.enteredBy[id] == w.enteredBy[id])
    && (StillApplying(w, id) && !StillApplying(next, id) ==> id in w.enteredBy && step.pid == w.enteredBy[id])
  }

  predicate StillApplying(w: World, id: Id) {
    id in w.records && w.records[id] == Applying
  }

  lemma StepFollowsTheGraph(w: World, step: Step, id: Id)
    requires Inv(w) && Enabled(w, step)
    ensures FollowsTheGraph(w, Do(w, step), id)
  {
    assert CreatorOk(w, step.pid) && ReadOk(w, step.pid) && FlightOk(w, step.pid);
  }

  lemma StepKeepsEntrant(w: World, step: Step, id: Id)
    requires Inv(w) && Enabled(w, step)
    ensures EntrantStays(w, step, Do(w, step), id)
  {
    assert CreatorOk(w, step.pid) && ReadOk(w, step.pid) && FlightOk(w, step.pid) && EntryOk(w, id);
  }

  lemma StepGuardsChange(w: World, step: Step)
    requires Inv(w) && Enabled(w, step)
    ensures ChangeIsGuarded(w, step, Do(w, step))
  {
    assert FlightOk(w, step.pid) && LockedOk(w, step.pid);
  }

  /** What one step of any run can do to the tree, to a record, and to the entry into `applying`. */
  lemma EveryStep(steps: seq<Step>, step: Step, id: Id)
    requires Legal(EMPTY, steps) && Enabled(Run(EMPTY, steps), step)
    ensures var w, next := Run(EMPTY, steps), Do(Run(EMPTY, steps), step);
            ChangeIsGuarded(w, step, next) && FollowsTheGraph(w, next, id) && EntrantStays(w, step, next, id)
  {
    EmptyWorldIsFine();
    RunKeepsInv(EMPTY, steps);
    var w := Run(EMPTY, steps);
    StepGuardsChange(w, step);
    StepFollowsTheGraph(w, step, id);
    StepKeepsEntrant(w, step, id);
  }

  /** The proposal is stuck: its promotion died after storing `applying`. */
  predicate Orphaned(w: World, id: Id) {
    && id in w.records && w.records[id] == Applying
    && id in w.enteredBy && w.enteredBy[id] in w.calls && w.calls[w.enteredBy[id]].pc.Dead?
  }

  function ChangesOf(changes: seq<Change>, id: Id): seq<Change> {
    if changes == [] then []
    else
      var last := changes[|changes| - 1];
      ChangesOf(changes[..|changes| - 1], id) + if last.id == id then [last] else []
  }

  lemma StepKeepsOrphan(w: World, step: Step, id: Id)
    requires Inv(w) && Enabled(w, step) && Orphaned(w, id)
    ensures Orphaned(Do(w, step), id)
    ensures ChangesOf(Do(w, step).changes, id) == ChangesOf(w.changes, id)
  {
    assert CreatorOk(w, step.pid) && ReadOk(w, step.pid) && FlightOk(w, step.pid);
    if step.Touch? {
      var changes := Do(w, step).changes;
      assert changes[..|changes| - 1] == w.changes;
    }
  }

  /** Nothing ever happens again to such a proposal, and no call touches the tree for it. */
  lemma {:induction false} OrphanStaysOrphaned(w: World, steps: seq<Step>, id: Id)
    requires Inv(w) && Legal(w, steps) && Orphaned(w, id)
    ensures Orphaned(Run(w, steps), id)
    ensures ChangesOf(Run(w, steps).changes, id) == ChangesOf(w.changes, id)
    decreases |steps|
  {
    if steps != [] {
      StepKeepsOrphan(w, steps[0], id);
      StepKeepsInv(w, steps[0]);
      OrphanStaysOrphaned(Do(w, steps[0]), steps[1..], id);
    }
  }

  // ---------------------------------------------------------------- one call on its own

  /** One step, and then the rest of a run. */
  lemma Then(w: World, step: Step, rest: seq<Step>)
    requires Enabled(w, step) && Legal(Do(w, step), rest)
    ensures Legal(w, [step] + rest) && Run(w, [step] + rest) == Run(Do(w, step), rest)
  {
    assert ([step] + rest)[1..] == rest;
  }

  lemma {:induction false} RunInTwoParts(w: World, a: seq<Step>, b: seq<Step>)
    requires Legal(w, a) && Legal(Run(w, a), b)
    ensures Legal(w, a + b) && Run(w, a + b) == Run(Run(w, a), b)
    decreases |a|
  {
    if a == [] {
      assert a + b == b;
    } else {
      var next, rest := Do(w, a[0]), a[1..];
      RunInTwoParts(next, rest, b);
      assert a + b == [a[0]] + (rest + b);
      Then(w, a[0], rest + b);
    }
  }

  /** The call `pid` can start on `id`: nobody holds the lock, and the record is in the right state. */
  predicate CanCall(w: World, pid: Pid, op: Op, id: Id) {
    && pid !in w.calls && id !in w.holder
    && if op == Create then id !in w.directories
       else id in w.directories && id in w.records && Allowed(op, w.records[id])
  }

  /** The call has the lock and has read a record that lets it go on. */
  function ReadyWorld(w: World, pid: Pid, op: Op, id: Id): World {
    w.(calls := w.calls[pid := Call(id, Ready(op, if op == Create || id !in w.records then Draft else w.records[id]))],
       holder := w.holder[id := pid],
       directories := if op == Create then w.directories + {id} else w.directories)
  }

  lemma CallGetsReady(w: World, pid: Pid, op: Op, id: Id) returns (steps: seq<Step>)
    requires CanCall(w, pid, op, id)
    ensures |steps| == 3 && Legal(w, steps) && Run(w, steps) == ReadyWorld(w, pid, op, id)
  {
    var begun := Do(w, Begin(pid, op, id));
    assert begun.calls[pid] == Call(id, Waiting(op));
    var held := Do(begun, Acquire(pid));
    assert held.calls[pid] == Call(id, Holding(op));
    Then(held, Read(pid), []);
    Then(begun, Acquire(pid), [Read(pid)]);
    Then(w, Begin(pid, op, id), [Acquire(pid)] + [Read(pid)]);
    steps := [Begin(pid, op, id)] + ([Acquire(pid)] + [Read(pid)]);
    assert Do(held, Read(pid)) == ReadyWorld(w, pid, op, id);
  }

  /** The world after an undisturbed call that is not a promotion. */
  function StoredWorld(w: World, pid: Pid, op: Op, id: Id): World {
    w.(calls := w.calls[pid := Call(id, Finished)], records := w.records[id := Target(op)],
       directories := if op == Create then w.directories + {id} else w.directories)
  }

  lemma SavesAndReleases(w: World, pid: Pid, op: Op, id: Id)
    requires CanCall(w, pid, op, id) && op != Promote
    ensures var ready := ReadyWorld(w, pid, op, id);
            && Legal(ready, [Save(pid), Release(pid)])
            && Run(ready, [Save(pid), Release(pid)]) == StoredWorld(w, pid, op, id)
  {
    var ready := ReadyWorld(w, pid, op, id);
    var saved := Do(ready, Save(pid));
    Then(saved, Release(pid), []);
    Then(ready, Save(pid), [Release(pid)]);
    assert [Save(pid)] + [Release(pid)] == [Save(pid), Release(pid)];
    assert saved.holder - {id} == w.holder;
  }

  /** An undisturbed call that is not a promotion stores exactly the state that its operation is for. */
  lemma UndisturbedCall(w: World, pid: Pid, op: Op, id: Id) returns (steps: seq<Step>)
    requires CanCall(w, pid, op, id) && op != Promote
    ensures |steps| == 5 && Legal(w, steps) && Run(w, steps) == StoredWorld(w, pid, op, id)
  {
    var first := CallGetsReady(w, pid, op, id);
    SavesAndReleases(w, pid, op, id);
    RunInTwoParts(w, first, [Save(pid), Release(pid)]);
    steps := first + [Save(pid), Release(pid)];
  }

  function Touches(pid: Pid, n: nat): seq<Step> {
    seq(n, _ => Touch(pid))
  }

  function ChangesBy(pid: Pid, id: Id, n: nat): seq<Change> {
    seq(n, _ => Change(pid, id))
  }

  lemma {:induction false} TouchRun(w: World, pid: Pid, n: nat)
    requires pid in w.calls && w.calls[pid].pc.InFlight?
    ensures Legal(w, Touches(pid, n))
    ensures Run(w, Touches(pid, n)) == w.(changes := w.changes + ChangesBy(pid, w.calls[pid].id, n))
    decreases n
  {
    var c := Change(pid, w.calls[pid].id);
    if n == 0 {
      assert w.changes + [] == w.changes;
    } else {
      var next := Do(w, Touch(pid));
      TouchRun(next, pid, n - 1);
      Then(w, Touch(pid), Touches(pid, n - 1));
      assert Touches(pid, n) == [Touch(pid)] + Touches(pid, n - 1);
      assert w.changes + ChangesBy(pid, c.id, n) == (w.changes + [c]) + ChangesBy(pid, c.id, n - 1);
    }
  }

  /** The world in which the promotion has stored `applying`; no change of the tree has happened. */
  function StartedWorld(w: World, pid: Pid, id: Id): World {
    w.(calls := w.calls[pid := Call(id, InFlight)], holder := w.holder[id := pid],
       records := w.records[id := Applying], enteredBy := w.enteredBy[id := pid])
  }

  /** The world after a promotion that made `n` changes and stored its final state. */
  function EndedWorld(w: World, pid: Pid, id: Id, final: State, n: nat): World {
    w.(calls := w.calls[pid := Call(id, Finished)], records := w.records[id := final],
       changes := w.changes + ChangesBy(pid, id, n), enteredBy := w.enteredBy[id := pid])
  }

  lemma PromotionStarts(w: World, pid: Pid, id: Id) returns (steps: seq<Step>)
    requires CanCall(w, pid, Promote, id)
    ensures |steps| == 4 && Legal(w, steps) && Run(w, steps) == StartedWorld(w, pid, id)
  {
    var first := CallGetsReady(w, pid, Promote, id);
    Then(ReadyWorld(w, pid, Promote, id), Save(pid), []);
    RunInTwoParts(w, first, [Save(pid)]);
    steps := first + [Save(pid)];
  }

  lemma SettlesAndReleases(w: World, pid: Pid, final: State)
    requires pid in w.calls && w.calls[pid].pc.InFlight? && Ended(final)
    ensures Legal(w, [Settle(pid, final), Release(pid)])
    ensures var id := w.calls[pid].id;
            Run(w, [Settle(pid, final), Release(pid)])
              == w.(calls := w.calls[pid := Call(id, Finished)], holder := w.holder - {id},
                    records := w.records[id := final])
  {
    var settled := Do(w, Settle(pid, final));
    Then(settled, Release(pid), []);
    Then(w, Settle(pid, final), [Release(pid)]);
    assert [Settle(pid, final)] + [Release(pid)] == [Settle(pid, final), Release(pid)];
  }

  /** The rest of a promotion that has stored `applying`: `n` changes, the final state, and the release. */
  lemma PromotionEnds(w: World, pid: Pid, id: Id, final: State, n: nat) returns (steps: seq<Step>)
    requires CanCall(w, pid, Promote, id) && Ended(final)
    ensures Legal(StartedWorld(w, pid, id), steps)
    ensures Run(StartedWorld(w, pid, id), steps) == EndedWorld(w, pid, id, final, n)
  {
    var started := StartedWorld(w, pid, id);
    TouchRun(started, pid, n);
    SettlesAndReleases(Run(started, Touches(pid, n)), pid, final);
    RunInTwoParts(started, Touches(pid, n), [Settle(pid, final), Release(pid)]);
    steps := Touches(pid, n) + [Settle(pid, final), Release(pid)];
    assert started.holder - {id} == w.holder;
  }

  /**
   An undisturbed promotion, from the record that `life` describes to the one that `Settled` allows:
   its steps store `applying`, then make any number of changes, then store the final state.
   */
  lemma UndisturbedPromotion(w: World, pid: Pid, id: Id, life: Life, end: Life, n: nat)
    returns (first: seq<Step>, rest: seq<Step>)
    requires CanCall(w, pid, Promote, id) && life.state == w.records[id] && Settled(Transition(life, Applying), end)
    ensures Legal(w, first) && Run(w, first) == StartedWorld(w, pid, id)
    ensures Legal(w, first + rest) && Run(w, first + rest) == EndedWorld(w, pid, id, end.state, n)
  {
    first := PromotionStarts(w, pid, id);
    rest := PromotionEnds(w, pid, id, end.state, n);
    RunInTwoParts(w, first, rest);
  }

  // ---------------------------------------------------------------- the stuck proposal

  /** Three calls one after the other: the proposal is created, classified and approved. */
  lemma ApprovedIsReachable(id: Id) returns (steps: seq<Step>)
    ensures |steps| == 15 && Legal(EMPTY, steps) && CanCall(Run(EMPTY, steps), 3, Promote, id)
  {
    var created := StoredWorld(EMPTY, 0, Create, id);
    var classified := StoredWorld(created, 1, Classify, id);
    var a := UndisturbedCall(EMPTY, 0, Create, id);
    var b := UndisturbedCall(created, 1, Classify, id);
    RunInTwoParts(EMPTY, a, b);
    var c := UndisturbedCall(classified, 2, Approve, id);
    RunInTwoParts(EMPTY, a + b, c);
    steps := a + b + c;
  }

  /** The promotion then stores `applying` and dies. */
  lemma PromotionCanDie(w: World, pid: Pid, id: Id) returns (steps: seq<Step>)
    requires CanCall(w, pid, Promote, id)
    ensures |steps| == 5 && Legal(w, steps) && Orphaned(Run(w, steps), id)
  {
    var first := PromotionStarts(w, pid, id);
    Then(Run(w, first), Abort(pid), []);
    RunInTwoParts(w, first, [Abort(pid)]);
    steps := first + [Abort(pid)];
  }

  /** A run that leaves a proposal stuck. */
  lemma OrphanIsReachable(id: Id) returns (steps: seq<Step>)
    ensures |steps| == 20 && Legal(EMPTY, steps) && Orphaned(Run(EMPTY, steps), id)
  {
    var a := ApprovedIsReachable(id);
    var b := PromotionCanDie(Run(EMPTY, a), 3, id);
    RunInTwoParts(EMPTY, a, b);
    steps := a + b;
  }

  /**
   A proposal in `applying` is stuck for ever exactly when the call that stored `applying` is dead:
   otherwise that call can still settle it.
   */
  lemma StuckMeansOrphaned(steps: seq<Step>, id: Id)
    requires Legal(EMPTY, steps) && id in Run(EMPTY, steps).records && Run(EMPTY, steps).records[id] == Applying
    ensures var w := Run(EMPTY, steps);
            Orphaned(w, id) <==> forall more :: Legal(w, more) ==> StillApplying(Run(w, more), id)
  {
    EmptyWorldIsFine();
    RunKeepsInv(EMPTY, steps);
    var w := Run(EMPTY, steps);
    assert EntryOk(w, id);
    if Orphaned(w, id) {
      forall more | Legal(w, more)
        ensures StillApplying(Run(w, more), id)
      {
        OrphanStaysOrphaned(w, more, id);
      }
    } else {
      var settle := Settle(w.enteredBy[id], Failed);
      Then(w, settle, []);
      assert [settle] + [] == [settle];
      assert !StillApplying(Run(w, [settle]), id);
    }
  }
}
