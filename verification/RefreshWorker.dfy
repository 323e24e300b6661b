/**
 The worker that keeps the state cache fresh. Timers and watchers put requests into a bounded queue;
 the worker takes one, waits a moment, merges all the others that are waiting, and collects once.
 */
module RefreshWorker {
  import opened Wrappers
  import opened Catalog
  import opened StateCache

  datatype Request = All | OfOneClass(refreshClass: RefreshClass)

  const QUEUE_LIMIT: nat := 16

  predicate Covers(request: Request, refreshClass: RefreshClass) {
    request.All? || request.refreshClass == refreshClass
  }

  function SpecsOf(catalog: seq<FactSpec>, request: Request): (specs: seq<FactSpec>)
    ensures Distinct(catalog) ==> Distinct(specs)
    ensures forall spec :: spec in specs <==> spec in catalog && Covers(request, spec.refreshClass)
  {
    match request
    case All => catalog
    case OfOneClass(c) => OfClass(catalog, c)
  }

  function Combine(left: Request, right: Request): Request {
    if left.All? || right.All? then All
    else if left.refreshClass != right.refreshClass then All
    else left
  }

  /** Combined requests ask for the facts of both and for no other fact. */
  lemma CombineCovers(catalog: seq<FactSpec>, left: Request, right: Request, spec: FactSpec)
    ensures spec in SpecsOf(catalog, Combine(left, right)) <==>
              spec in SpecsOf(catalog, left) || spec in SpecsOf(catalog, right)
  {
    assert Covers(Combine(left, right), spec.refreshClass)
      <==> Covers(left, spec.refreshClass) || Covers(right, spec.refreshClass);
  }

  function CombineAll(requests: seq<Request>): Request
    requires requests != []
  {
    var n := |requests| - 1;
    if n == 0 then requests[0] else Combine(CombineAll(requests[..n]), requests[n])
  }

  ghost predicate SomeCovers(requests: seq<Request>, refreshClass: RefreshClass) {
    exists request <- requests :: Covers(request, refreshClass)
  }

  lemma {:induction false} CombineAllCovers(requests: seq<Request>, refreshClass: RefreshClass)
    requires requests != []
    ensures Covers(CombineAll(requests), refreshClass) <==> SomeCovers(requests, refreshClass)
  {
    var n := |requests| - 1;
    assert requests == requests[..n] + [requests[n]] && requests[n] in requests;
    assert forall request :: request in requests <==> request in requests[..n] || request == requests[n];
    if n > 0 {
      CombineAllCovers(requests[..n], refreshClass);
    }
  }

  /** A merged request asks for exactly the facts that some request in the queue asks for. */
  lemma CoalescingLosesNothing(catalog: seq<FactSpec>, requests: seq<Request>, spec: FactSpec)
    requires requests != []
    ensures spec in SpecsOf(catalog, CombineAll(requests)) <==>
              exists request <- requests :: spec in SpecsOf(catalog, request)
  {
    CombineAllCovers(requests, spec.refreshClass);
    assert forall request <- requests ::
        spec in SpecsOf(catalog, request) <==> spec in catalog && Covers(request, spec.refreshClass);
  }

  /** The worker's loop over the requests that wait behind the first one. */
  method Drain(first: Request, waiting: seq<Request>) returns (request: Request)
    ensures request == CombineAll([first] + waiting)
    ensures forall c :: Covers(request, c) <==> Covers(first, c) || SomeCovers(waiting, c)
  {
    request := first;
    for n := 0 to |waiting|
      invariant request == CombineAll([first] + waiting[..n])
    {
      assert ([first] + waiting[..n + 1])[..n + 1] == [first] + waiting[..n];
      request := Combine(request, waiting[n]);
    }
    assert waiting[..|waiting|] == waiting;
    forall c
      ensures Covers(request, c) <==> Covers(first, c) || SomeCovers(waiting, c)
    {
      CombineAllCovers([first] + waiting, c);
    }
  }

  // ---------------------------------------------------------------- one collection

  type Collected = Result<seq<Outcome>, CollectionError>

  /** The result of one task of the collector; `None` is a task that stopped. */
  type TaskResult = Option<Result<CachedFact, CollectionError>>

  function NamedFor(id: string, error: CollectionError): CollectionError {
    error.(factId := Some(id))
  }

  function OutcomeOf(spec: FactSpec, result: TaskResult, stopped: CollectionError): Outcome {
    Outcome(spec.id,
            match result
            case Some(Ok(fact)) => Ok(fact)
            case Some(Err(error)) => Err(NamedFor(spec.id, error))
            case None => Err(NamedFor(spec.id, stopped)))
  }

  /** One outcome for each fact, in the order of the facts, and each error names its fact. */
  ghost predicate OutcomePerFact(specs: seq<FactSpec>, outcomes: seq<Outcome>) {
    && |outcomes| == |specs|
    && forall i :: 0 <= i < |specs| ==>
         && outcomes[i].factId == specs[i].id
         && (outcomes[i].result.Err? ==> outcomes[i].result.error.factId == Some(specs[i].id))
  }

  method Collect(specs: seq<FactSpec>, provider: Result<seq<TaskResult>, CollectionError>, stopped: CollectionError)
    returns (collected: Collected)
    requires provider.Ok? ==> |provider.value| == |specs|
    ensures provider.Err? ==> collected == Err(provider.error)
    ensures provider.Ok? ==> collected.Ok? && OutcomePerFact(specs, collected.value)
    ensures provider.Ok? ==> forall i :: 0 <= i < |specs| ==>
                               match provider.value[i]
                               case Some(Ok(fact)) => collected.value[i].result == Ok(fact)
                               case Some(Err(e)) => collected.value[i].result == Err(e.(factId := Some(specs[i].id)))
                               case None => collected.value[i].result == Err(stopped.(factId := Some(specs[i].id)))
  {
    if provider.Err? {
      return Err(provider.error);
    }
    var outcomes: seq<Outcome> := [];
    for n := 0 to |specs|
      invariant |outcomes| == n
      invariant forall i :: 0 <= i < n ==> outcomes[i] == OutcomeOf(specs[i], provider.value[i], stopped)
    {
      outcomes := outcomes + [OutcomeOf(specs[n], provider.value[n], stopped)];
    }
    return Ok(outcomes);
  }

  function Ids(specs: seq<FactSpec>): (ids: seq<string>)
    ensures |ids| == |specs| && forall i :: 0 <= i < |specs| ==> ids[i] == specs[i].id
  {
    seq(|specs|, i requires 0 <= i < |specs| => specs[i].id)
  }

  /** What one collection adds to the cache, whether the provider works or fails as a whole. */
  function Outcomes(specs: seq<FactSpec>, collected: Collected): seq<Outcome> {
    match collected
    case Ok(outcomes) => outcomes
    case Err(error) => ProviderOutcomes(Ids(specs), error)
  }

  method RefreshOnce(cache: StateCache, specs: seq<FactSpec>, collected: Collected, now: int)
    modifies cache
    ensures cache.State() == RecordAll(old(cache.State()), Outcomes(specs, collected))
    ensures var outcomes := Outcomes(specs, collected);
            && cache.lastRefreshErrors == ErrorsOf(outcomes, |outcomes|) && cache.lastRefreshAt == now
            && cache.epoch == if ChangesN(old(cache.State()), outcomes, |outcomes|)
                                 && old(cache.epoch) < 0xFFFF_FFFF_FFFF_FFFF
                              then old(cache.epoch) + 1 else old(cache.epoch)
  {
    match collected {
      case Ok(outcomes) => var _ := cache.Apply(outcomes, now);
      case Err(error) => var _ := cache.RecordProviderError(Ids(specs), error, now);
    }
  }

  // ---------------------------------------------------------------- the daemon as a machine

  /** A request that the queue has accepted, with the time of the acceptance. */
  datatype Ticket = Ticket(request: Request, at: int)

  datatype Worker =
    | Idle
    | Holding(tickets: seq<Ticket>)
    | Collecting(tickets: seq<Ticket>, started: int)

  /** The last finished attempt to collect a fact: when its collection started, and whether it gave a value. */
  datatype Try = Try(started: int, ok: bool)

  datatype Daemon = Daemon(
    catalog: seq<FactSpec>,
    clock: int, queue: seq<Ticket>, worker: Worker, cache: Snapshot, accepted: set<Ticket>, tries: map<string, Try>)

  datatype Step =
    | Accept(request: Request)
    | Take
    | Merge
    | Start
    | Finish(collected: Collected)

  function RequestOf(tickets: seq<Ticket>): Request
    requires tickets != []
  {
    CombineAll(seq(|tickets|, i requires 0 <= i < |tickets| => tickets[i].request))
  }

  ghost predicate Observed(outcomes: seq<Outcome>, started: int, now: int) {
    forall i :: 0 <= i < |outcomes| && outcomes[i].result.Ok? ==> started <= outcomes[i].result.value.observedAt <= now
  }

  /** What `Collect` can give for a collection that runs from `started` to `now`. */
  ghost predicate CanBeCollected(specs: seq<FactSpec>, collected: Collected, started: int, now: int) {
    collected.Ok? ==> OutcomePerFact(specs, collected.value) && Observed(collected.value, started, now)
  }

  function TriesAfter(tries: map<string, Try>, outcomes: seq<Outcome>, n: nat, started: int): map<string, Try>
    requires n <= |outcomes|
  {
    if n == 0 then tries
    else TriesAfter(tries, outcomes, n - 1, started)[outcomes[n - 1].factId := Try(started, outcomes[n - 1].result.Ok?)]
  }

  function Tried(tries: map<string, Try>, outcomes: seq<Outcome>, started: int): map<string, Try> {
    TriesAfter(tries, outcomes, |outcomes|, started)
  }

  ghost predicate Enabled(d: Daemon, step: Step, now: int) {
    && d.clock <= now
    && match step
       case Accept(_) => |d.queue| < QUEUE_LIMIT
       case Take => d.worker.Idle? && d.queue != []
       case Merge => d.worker.Holding? && d.queue != []
       case Start => d.worker.Holding? && d.queue == [] && d.worker.tickets != []
       case Finish(collected) =>
         && d.worker.Collecting? && d.worker.tickets != []
         && CanBeCollected(SpecsOf(d.catalog, RequestOf(d.worker.tickets)), collected, d.worker.started, now)
  }

  function After(d: Daemon, step: Step, now: int): Daemon
    requires Enabled(d, step, now)
  {
    match step
    case Accept(request) =>
      var ticket := Ticket(request, now);
      d.(clock := now, queue := d.queue + [ticket], accepted := d.accepted + {ticket})
    case Take => d.(clock := now, queue := d.queue[1..], worker := Holding([d.queue[0]]))
    case Merge => d.(clock := now, queue := d.queue[1..], worker := Holding(d.worker.tickets + [d.queue[0]]))
    case Start => d.(clock := now, worker := Collecting(d.worker.tickets, now))
    case Finish(collected) =>
      var outcomes := Outcomes(SpecsOf(d.catalog, RequestOf(d.worker.tickets)), collected);
      d.(clock := now, worker := Idle, cache := RecordAll(d.cache, outcomes),
         tries := Tried(d.tries, outcomes, d.worker.started))
  }

  /** The daemon when it starts to serve: an empty queue, and one collection of all facts in the cache. */
  ghost predicate Initial(d: Daemon, collected: Collected, started: int) {
    && Distinct(d.catalog) && CanBeCollected(d.catalog, collected, started, d.clock)
    && d.queue == [] && d.worker == Idle && d.accepted == {}
    && d.cache == RecordAll(EMPTY, Outcomes(d.catalog, collected))
    && d.tries == Tried(map[], Outcomes(d.catalog, collected), started)
  }

  datatype Move = Move(step: Step, now: int)

  ghost predicate Runs(d: Daemon, moves: seq<Move>, end: Daemon)
    decreases |moves|
  {
    if moves == [] then end == d
    else Enabled(d, moves[0].step, moves[0].now) && Runs(After(d, moves[0].step, moves[0].now), moves[1..], end)
  }

  // ---------------------------------------------------------------- invariants

  function IdSet(specs: seq<FactSpec>): set<string> {
    set spec | spec in specs :: spec.id
  }

  function KeysOf(cache: Snapshot): set<string> {
    cache.facts.Keys + cache.errors.Keys
  }

  /** Every catalog fact has a value or an error, not both, and nothing else is in the cache. */
  ghost predicate Complete(cache: Snapshot, catalog: seq<FactSpec>) {
    cache.facts.Keys !! cache.errors.Keys && KeysOf(cache) == IdSet(catalog)
  }

  ghost predicate Waiting(d: Daemon, ticket: Ticket) {
    ticket in d.queue || (!d.worker.Idle? && ticket in d.worker.tickets)
  }

  ghost predicate TriedSince(tries: map<string, Try>, id: string, at: int) {
    id in tries && at <= tries[id].started
  }

  ghost predicate Done(catalog: seq<FactSpec>, tries: map<string, Try>, ticket: Ticket) {
    forall spec <- SpecsOf(catalog, ticket.request) :: TriedSince(tries, spec.id, ticket.at)
  }

  ghost predicate NothingLost(d: Daemon) {
    forall ticket <- d.accepted :: Waiting(d, ticket) || Done(d.catalog, d.tries, ticket)
  }

  ghost predicate InOrder(d: Daemon) {
    && |d.queue| <= QUEUE_LIMIT
    && (forall ticket <- d.queue :: ticket.at <= d.clock)
    && (!d.worker.Idle? ==> d.worker.tickets != [] && forall ticket <- d.worker.tickets :: ticket.at <= d.clock)
    && (d.worker.Collecting? ==>
          d.worker.started <= d.clock && forall ticket <- d.worker.tickets :: ticket.at <= d.worker.started)
  }

  ghost predicate ObservedBy(d: Daemon, limit: int) {
    && (forall id <- d.cache.facts :: d.cache.facts[id].observedAt <= limit)
    && (forall id <- d.tries :: d.tries[id].started <= limit)
  }

  /** A fact whose last attempt gave a value has a value that was observed during that attempt. */
  ghost predicate Fresh(d: Daemon) {
    forall id <- d.tries :: d.tries[id].ok ==>
      id in d.cache.facts && d.tries[id].started <= d.cache.facts[id].observedAt
  }

  ghost predicate Inv(d: Daemon) {
    && Distinct(d.catalog) && Complete(d.cache, d.catalog) && NothingLost(d) && InOrder(d) && Fresh(d)
    && ObservedBy(d, if d.worker.Collecting? then d.worker.started else d.clock)
  }

  // ---------------------------------------------------------------- what one collection does

  ghost predicate Batch(specs: seq<FactSpec>, outcomes: seq<Outcome>, started: int, now: int) {
    && |outcomes| == |specs|
    && (forall i :: 0 <= i < |specs| ==> outcomes[i].factId == specs[i].id)
    && DistinctIds(outcomes) && Observed(outcomes, started, now)
  }

  lemma OutcomesAreABatch(specs: seq<FactSpec>, collected: Collected, started: int, now: int)
    requires Distinct(specs) && CanBeCollected(specs, collected, started, now)
    ensures Batch(specs, Outcomes(specs, collected), started, now)
  {
  }

  ghost predicate Unchanged(before: Snapshot, after: Snapshot, id: string) {
    Lookup(after.facts, id) == Lookup(before.facts, id) && Lookup(after.errors, id) == Lookup(before.errors, id)
  }

  /** A value is taken over; an error never touches a value, old or new. */
  ghost predicate Effect(before: Snapshot, after: Snapshot, o: Outcome) {
    && (o.result.Ok? ==> o.factId in after.facts && after.facts[o.factId] == o.result.value)
    && (o.result.Err? ==> Lookup(after.facts, o.factId) == Lookup(before.facts, o.factId))
  }

  lemma EffectOfBatch(s: Snapshot, outcomes: seq<Outcome>, k: nat)
    requires k < |outcomes| && DistinctIds(outcomes)
    ensures Effect(s, RecordAll(s, outcomes), outcomes[k])
  {
    var id := outcomes[k].factId;
    OthersDoNotMatter(s, outcomes, 0, k, id);
    OthersDoNotMatter(s, outcomes, k + 1, |outcomes|, id);
    assert RecordN(s, outcomes, k + 1) == Record(RecordN(s, outcomes, k), outcomes[k]);
  }

  lemma EffectOnFact(s: Snapshot, outcomes: seq<Outcome>, id: string)
    requires DistinctIds(outcomes)
    ensures || Unchanged(s, RecordAll(s, outcomes), id)
            || exists k ::
                 0 <= k < |outcomes| && outcomes[k].factId == id && Effect(s, RecordAll(s, outcomes), outcomes[k])
  {
    if k :| 0 <= k < |outcomes| && outcomes[k].factId == id {
      EffectOfBatch(s, outcomes, k);
    } else {
      OthersDoNotMatter(s, outcomes, 0, |outcomes|, id);
    }
  }

  lemma KeysOfRecord(s: Snapshot, o: Outcome)
    requires s.facts.Keys !! s.errors.Keys
    ensures Record(s, o).facts.Keys !! Record(s, o).errors.Keys
    ensures KeysOf(Record(s, o)) == KeysOf(s) + {o.factId}
  {
  }

  function OutcomeIds(outcomes: seq<Outcome>, n: nat): set<string>
    requires n <= |outcomes|
  {
    if n == 0 then {} else OutcomeIds(outcomes, n - 1) + {outcomes[n - 1].factId}
  }

  lemma {:induction false} OutcomeIdsAre(outcomes: seq<Outcome>, n: nat, id: string)
    requires n <= |outcomes|
    ensures id in OutcomeIds(outcomes, n) <==> exists i :: 0 <= i < n && outcomes[i].factId == id
  {
    if n > 0 {
      OutcomeIdsAre(outcomes, n - 1, id);
    }
  }

  lemma {:induction false} KeysOfBatch(s: Snapshot, outcomes: seq<Outcome>, n: nat)
    requires n <= |outcomes| && s.facts.Keys !! s.errors.Keys
    ensures RecordN(s, outcomes, n).facts.Keys !! RecordN(s, outcomes, n).errors.Keys
    ensures KeysOf(RecordN(s, outcomes, n)) == KeysOf(s) + OutcomeIds(outcomes, n)
  {
    if n > 0 {
      KeysOfBatch(s, outcomes, n - 1);
      KeysOfRecord(RecordN(s, outcomes, n - 1), outcomes[n - 1]);
    }
  }

  lemma CompleteAfterBatch(s: Snapshot, specs: seq<FactSpec>, outcomes: seq<Outcome>, started: int, now: int)
    requires s.facts.Keys !! s.errors.Keys && Batch(specs, outcomes, started, now)
    ensures RecordAll(s, outcomes).facts.Keys !! RecordAll(s, outcomes).errors.Keys
    ensures KeysOf(RecordAll(s, outcomes)) == KeysOf(s) + IdSet(specs)
  {
    KeysOfBatch(s, outcomes, |outcomes|);
    forall id
      ensures id in OutcomeIds(outcomes, |outcomes|) <==> id in IdSet(specs)
    {
      OutcomeIdsAre(outcomes, |outcomes|, id);
      if i :| 0 <= i < |outcomes| && outcomes[i].factId == id {
        assert specs[i] in specs;
      }
      if spec :| spec in specs && spec.id == id {
        var i :| 0 <= i < |specs| && specs[i] == spec;
        assert outcomes[i].factId == id;
      }
    }
  }

  lemma {:induction false} TriesOfBatch(tries: map<string, Try>, outcomes: seq<Outcome>, n: nat, started: int)
    requires n <= |outcomes|
    ensures forall i :: 0 <= i < n ==> outcomes[i].factId in TriesAfter(tries, outcomes, n, started)
    ensures forall id <- tries :: id in TriesAfter(tries, outcomes, n, started)
    ensures forall id <- TriesAfter(tries, outcomes, n, started) ::
              TryIsKnown(tries, outcomes, n, started, id, TriesAfter(tries, outcomes, n, started)[id])
  {
    if n > 0 {
      TriesOfBatch(tries, outcomes, n - 1, started);
    }
  }

  ghost predicate TryIsKnown(tries: map<string, Try>, outcomes: seq<Outcome>, n: nat, started: int, id: string, t: Try)
    requires n <= |outcomes|
  {
    || (id in tries && t == tries[id] && forall i :: 0 <= i < n ==> outcomes[i].factId != id)
    || (t.started == started && exists i :: 0 <= i < n && outcomes[i].factId == id && t.ok == outcomes[i].result.Ok?)
  }

  lemma FreshAfterBatch(d: Daemon, specs: seq<FactSpec>, outcomes: seq<Outcome>, started: int, now: int)
    requires Fresh(d) && Batch(specs, outcomes, started, now) && ObservedBy(d, started) && started <= now
    ensures Fresh(d.(cache := RecordAll(d.cache, outcomes), tries := Tried(d.tries, outcomes, started)))
    ensures ObservedBy(d.(cache := RecordAll(d.cache, outcomes), tries := Tried(d.tries, outcomes, started)), now)
  {
    var cache, tries := RecordAll(d.cache, outcomes), Tried(d.tries, outcomes, started);
    TriesOfBatch(d.tries, outcomes, |outcomes|, started);
    forall id | id in tries
      ensures tries[id].ok ==> id in cache.facts && tries[id].started <= cache.facts[id].observedAt
      ensures tries[id].started <= now
    {
      assert TryIsKnown(d.tries, outcomes, |outcomes|, started, id, tries[id]);
      if i :| 0 <= i < |outcomes| && outcomes[i].factId == id {
        EffectOfBatch(d.cache, outcomes, i);
      } else {
        OthersDoNotMatter(d.cache, outcomes, 0, |outcomes|, id);
      }
    }
    forall id | id in cache.facts
      ensures cache.facts[id].observedAt <= now
    {
      EffectOnFact(d.cache, outcomes, id);
    }
  }

  lemma TriedSinceIsKept(
    d: Daemon, specs: seq<FactSpec>, outcomes: seq<Outcome>, started: int, now: int, id: string, at: int)
    requires Batch(specs, outcomes, started, now) && ObservedBy(d, started)
    ensures TriedSince(d.tries, id, at) || (at <= started && id in IdSet(specs)) ==>
              TriedSince(Tried(d.tries, outcomes, started), id, at)
  {
    TriesOfBatch(d.tries, outcomes, |outcomes|, started);
    if id in IdSet(specs) {
      var i :| 0 <= i < |specs| && specs[i].id == id;
      assert outcomes[i].factId == id;
    }
    var tries := Tried(d.tries, outcomes, started);
    assert id in tries ==> TryIsKnown(d.tries, outcomes, |outcomes|, started, id, tries[id]);
  }

  // ---------------------------------------------------------------- every step

  lemma SpecsAreInTheCatalog(catalog: seq<FactSpec>, request: Request)
    ensures IdSet(SpecsOf(catalog, request)) <= IdSet(catalog)
  {
  }

  lemma RequestCoversTicket(catalog: seq<FactSpec>, tickets: seq<Ticket>, ticket: Ticket)
    requires ticket in tickets
    ensures IdSet(SpecsOf(catalog, ticket.request)) <= IdSet(SpecsOf(catalog, RequestOf(tickets)))
  {
    var requests := seq(|tickets|, i requires 0 <= i < |tickets| => tickets[i].request);
    var i :| 0 <= i < |tickets| && tickets[i] == ticket;
    assert requests[i] in requests;
    forall spec | spec in SpecsOf(catalog, ticket.request)
      ensures spec in SpecsOf(catalog, RequestOf(tickets))
    {
      CoalescingLosesNothing(catalog, requests, spec);
    }
  }

  lemma DoneIsKept(d: Daemon, outcomes: seq<Outcome>, ticket: Ticket)
    requires d.worker.Collecting? && d.worker.tickets != [] && ObservedBy(d, d.worker.started)
    requires Batch(SpecsOf(d.catalog, RequestOf(d.worker.tickets)), outcomes, d.worker.started, d.clock)
    requires Done(d.catalog, d.tries, ticket) || (ticket in d.worker.tickets && ticket.at <= d.worker.started)
    ensures Done(d.catalog, Tried(d.tries, outcomes, d.worker.started), ticket)
  {
    var specs := SpecsOf(d.catalog, RequestOf(d.worker.tickets));
    forall spec | spec in SpecsOf(d.catalog, ticket.request)
      ensures TriedSince(Tried(d.tries, outcomes, d.worker.started), spec.id, ticket.at)
    {
      if !Done(d.catalog, d.tries, ticket) {
        RequestCoversTicket(d.catalog, d.worker.tickets, ticket);
      }
      TriedSinceIsKept(d, specs, outcomes, d.worker.started, d.clock, spec.id, ticket.at);
    }
  }

  lemma FinishKeepsInv(d: Daemon, collected: Collected, now: int)
    requires Inv(d) && Enabled(d, Finish(collected), now)
    ensures Inv(After(d, Finish(collected), now))
  {
    var specs, started := SpecsOf(d.catalog, RequestOf(d.worker.tickets)), d.worker.started;
    var outcomes := Outcomes(specs, collected);
    var end, at := After(d, Finish(collected), now), d.(clock := now);
    OutcomesAreABatch(specs, collected, started, now);
    CompleteAfterBatch(d.cache, specs, outcomes, started, now);
    SpecsAreInTheCatalog(d.catalog, RequestOf(d.worker.tickets));
    FreshAfterBatch(d, specs, outcomes, started, now);
    forall ticket | ticket in end.accepted
      ensures Waiting(end, ticket) || Done(end.catalog, end.tries, ticket)
    {
      if ticket !in d.queue {
        DoneIsKept(at, outcomes, ticket);
        assert Done(end.catalog, end.tries, ticket);
      }
    }
  }

  lemma WaitingIsKept(d: Daemon, step: Step, now: int, ticket: Ticket)
    requires Enabled(d, step, now) && !step.Finish? && Waiting(d, ticket)
    ensures Waiting(After(d, step, now), ticket)
  {
    assert d.queue == [] || d.queue == [d.queue[0]] + d.queue[1..];
  }

  lemma QueueStepLosesNothing(d: Daemon, step: Step, now: int)
    requires NothingLost(d) && Enabled(d, step, now) && !step.Finish?
    ensures NothingLost(After(d, step, now))
  {
    var end := After(d, step, now);
    forall ticket | ticket in end.accepted
      ensures Waiting(end, ticket) || Done(end.catalog, end.tries, ticket)
    {
      if ticket in d.accepted && Waiting(d, ticket) {
        WaitingIsKept(d, step, now, ticket);
      }
    }
  }

  lemma QueueStepKeepsOrder(d: Daemon, step: Step, now: int)
    requires InOrder(d) && Enabled(d, step, now) && !step.Finish?
    ensures InOrder(After(d, step, now))
  {
  }

  lemma StepKeepsInv(d: Daemon, step: Step, now: int)
    requires Inv(d) && Enabled(d, step, now)
    ensures Inv(After(d, step, now))
  {
    if step.Finish? {
      FinishKeepsInv(d, step.collected, now);
    } else {
      QueueStepLosesNothing(d, step, now);
      QueueStepKeepsOrder(d, step, now);
    }
  }

  lemma InitialInv(d: Daemon, collected: Collected, started: int)
    requires Initial(d, collected, started) && started <= d.clock
    ensures Inv(d)
  {
    var outcomes := Outcomes(d.catalog, collected);
    var empty := d.(cache := EMPTY, tries := map[]);
    OutcomesAreABatch(d.catalog, collected, started, d.clock);
    CompleteAfterBatch(EMPTY, d.catalog, outcomes, started, d.clock);
    assert Fresh(empty) && ObservedBy(empty, started);
    FreshAfterBatch(empty, d.catalog, outcomes, started, d.clock);
    assert d == empty.(cache := d.cache, tries := d.tries);
  }

  lemma {:induction false} RunKeepsInv(d: Daemon, moves: seq<Move>, end: Daemon)
    requires Inv(d) && Runs(d, moves, end)
    ensures Inv(end) && end.catalog == d.catalog
    decreases |moves|
  {
    if moves != [] {
      StepKeepsInv(d, moves[0].step, moves[0].now);
      RunKeepsInv(After(d, moves[0].step, moves[0].now), moves[1..], end);
    }
  }

  // ---------------------------------------------------------------- what the daemon promises

  /** A query always accounts for every selected fact, so it is `ok` exactly when all have values. */
  lemma QueryIsComplete(cache: Snapshot, catalog: seq<FactSpec>, factIds: set<string>)
    requires Complete(cache, catalog) && factIds <= IdSet(catalog)
    ensures var r := QueryOf(cache, factIds);
            && r.facts.Keys !! r.errors.Keys && r.facts.Keys + r.errors.Keys == factIds
            && (r.status.QueryOk? <==> r.facts.Keys == factIds)
            && (r.status.QueryError? <==> factIds != {} && r.facts.Keys == {})
  {
    var r := QueryOf(cache, factIds);
    assert forall id <- factIds :: id in KeysOf(cache);
    assert r.errors == map[] <==> r.errors.Keys == {};
    assert r.facts == map[] <==> r.facts.Keys == {};
  }

  /** The catalog has the fact and the selectors ask for it. */
  ghost predicate Wanted(catalog: seq<FactSpec>, selectors: seq<string>, id: string) {
    id in IdSet(catalog) && (selectors == [] || Asked(selectors, id))
  }

  /** The response to one request: the facts that the selectors name, or the selectors that name none. */
  method BuildResponse(cache: StateCache, catalog: seq<FactSpec>, selectors: seq<string>)
    returns (r: Result<Response, seq<string>>)
    requires Distinct(catalog) && Complete(cache.State(), catalog)
    ensures r.Ok? <==> forall selector <- selectors :: Known(catalog, selector)
    ensures r.Err? ==> r.error == Unknown(catalog, selectors, |selectors|)
    ensures r.Ok? ==>
              && r.value.facts.Keys !! r.value.errors.Keys
              && (forall id :: id in r.value.facts.Keys + r.value.errors.Keys <==> Wanted(catalog, selectors, id))
              && (forall id <- r.value.facts :: id in cache.facts && r.value.facts[id] == cache.facts[id])
              && (forall id <- r.value.errors :: id in cache.errors && r.value.errors[id] == cache.errors[id])
              && (r.value.status.QueryOk? <==> forall id :: Wanted(catalog, selectors, id) ==> id in r.value.facts)
              && (r.value.status.QueryError? <==> r.value.errors != map[] && r.value.facts == map[])
  {
    var specs := SelectFacts(catalog, selectors);
    if specs.Err? {
      return Err(specs.error);
    }
    var ids := IdSet(specs.value);
    var response := cache.Query(ids);
    assert forall id :: id in ids <==> Wanted(catalog, selectors, id);
    QueryIsComplete(cache.State(), catalog, ids);
    r := Ok(response);
  }

  /** Nothing is forgotten, and no older observation takes the place of a newer one. */
  ghost predicate NeverOlder(before: Snapshot, after: Snapshot) {
    forall id <- before.facts ::
      id in after.facts && before.facts[id].observedAt <= after.facts[id].observedAt
  }

  lemma StepIsNeverOlder(d: Daemon, step: Step, now: int)
    requires Inv(d) && Enabled(d, step, now)
    ensures NeverOlder(d.cache, After(d, step, now).cache)
  {
    if step.Finish? {
      var specs, started := SpecsOf(d.catalog, RequestOf(d.worker.tickets)), d.worker.started;
      OutcomesAreABatch(specs, step.collected, started, now);
      forall id | id in d.cache.facts
        ensures var end := After(d, step, now).cache;
                id in end.facts && d.cache.facts[id].observedAt <= end.facts[id].observedAt
      {
        EffectOnFact(d.cache, Outcomes(specs, step.collected), id);
      }
    }
  }

  lemma {:induction false} RunIsNeverOlder(d: Daemon, moves: seq<Move>, end: Daemon)
    requires Inv(d) && Runs(d, moves, end)
    ensures NeverOlder(d.cache, end.cache)
    decreases |moves|
  {
    if moves != [] {
      var next := After(d, moves[0].step, moves[0].now);
      StepKeepsInv(d, moves[0].step, moves[0].now);
      StepIsNeverOlder(d, moves[0].step, moves[0].now);
      RunIsNeverOlder(next, moves[1..], end);
    }
  }

  ghost predicate AtRest(d: Daemon) {
    d.worker.Idle? && d.queue == []
  }

  /**
   When the worker is at rest, every fact of every request that the queue ever accepted has been
   collected in an attempt that started after the acceptance; if the last attempt gave a value, the
   cached value was observed after the acceptance.
   */
  lemma RequestsAreServed(d: Daemon, moves: seq<Move>, end: Daemon, ticket: Ticket, spec: FactSpec)
    requires Inv(d) && Runs(d, moves, end) && AtRest(end)
    requires ticket in end.accepted && spec in SpecsOf(d.catalog, ticket.request)
    ensures TriedSince(end.tries, spec.id, ticket.at)
    ensures end.tries[spec.id].ok ==> spec.id in end.cache.facts && ticket.at <= end.cache.facts[spec.id].observedAt
  {
    RunKeepsInv(d, moves, end);
    assert !Waiting(end, ticket);
    assert Done(end.catalog, end.tries, ticket);
  }

  /** A collection starts only with all the accepted requests that are not served yet: none waits for the next one. */
  lemma StartTakesAll(d: Daemon, now: int)
    requires Inv(d) && Enabled(d, Start, now)
    ensures var next := After(d, Start, now);
            && next.queue == [] && next.worker.Collecting? && next.worker.started == now
            && forall ticket <- d.accepted :: ticket in next.worker.tickets || Done(d.catalog, d.tries, ticket)
  {
  }

  /** A request that the queue takes in is accepted from then on, with the time at which it was taken. */
  lemma {:induction false} AcceptedIsRemembered(d: Daemon, moves: seq<Move>, end: Daemon, k: nat)
    requires Runs(d, moves, end) && k < |moves| && moves[k].step.Accept?
    ensures Ticket(moves[k].step.request, moves[k].now) in end.accepted
    decreases |moves|
  {
    var next := After(d, moves[0].step, moves[0].now);
    if k == 0 {
      AcceptedStays(next, moves[1..], end, Ticket(moves[0].step.request, moves[0].now));
    } else {
      AcceptedIsRemembered(next, moves[1..], end, k - 1);
    }
  }

  lemma {:induction false} AcceptedStays(d: Daemon, moves: seq<Move>, end: Daemon, ticket: Ticket)
    requires Runs(d, moves, end) && ticket in d.accepted
    ensures ticket in end.accepted
    decreases |moves|
  {
    if moves != [] {
      AcceptedStays(After(d, moves[0].step, moves[0].now), moves[1..], end, ticket);
    }
  }

  /** So every request of a run is served: its facts were collected in an attempt that started after it. */
  lemma EveryRequestIsServed(d: Daemon, moves: seq<Move>, end: Daemon, k: nat, spec: FactSpec)
    requires Inv(d) && Runs(d, moves, end) && AtRest(end)
    requires k < |moves| && moves[k].step.Accept?
    requires spec in d.catalog && Covers(moves[k].step.request, spec.refreshClass)
    ensures spec.id in end.tries && moves[k].now <= end.tries[spec.id].started
    ensures end.tries[spec.id].ok ==>
              spec.id in end.cache.facts && moves[k].now <= end.cache.facts[spec.id].observedAt
  {
    AcceptedIsRemembered(d, moves, end, k);
    RequestsAreServed(d, moves, end, Ticket(moves[k].step.request, moves[k].now), spec);
  }

  /** How much the worker still has to do if no more requests arrive. */
  function Work(d: Daemon): nat {
    3 * |d.queue| + match d.worker case Idle => 0 case Holding(_) => 2 case Collecting(_, _) => 1
  }

  /** The worker comes to rest: until then it can always move, and each of its moves leaves less work. */
  lemma WorkerComesToRest(d: Daemon) returns (step: Step)
    requires Inv(d) && !AtRest(d)
    ensures !step.Accept? && Enabled(d, step, d.clock)
    ensures forall s, now | Enabled(d, s, now) && !s.Accept? :: Work(After(d, s, now)) < Work(d)
  {
    step := match d.worker
      case Idle => Take
      case Holding(_) => if d.queue == [] then Start else Merge
      case Collecting(_, _) => Finish(Err(CollectionError("", "", false, None, None)));
  }
}
