/**
 The cache of machine facts. Of every fact it keeps the last value that was ever collected, or
 the last error while there is no value. Its epoch counts the changes of that state.
 */
module StateCache {
  import opened Wrappers
  import opened Json

  datatype Source = Source(id: string, kind: string, locator: string)

  datatype CachedFact = CachedFact(value: Value, source: Source, observedAt: int, fixture: bool)

  datatype CollectionError = CollectionError(
    code: string, message: string, retryable: bool, factId: Option<string>, source: Option<Source>)

  datatype Outcome = Outcome(factId: string, result: Result<CachedFact, CollectionError>)

  datatype Snapshot = Snapshot(facts: map<string, CachedFact>, errors: map<string, CollectionError>)

  const EMPTY := Snapshot(map[], map[])

  const MAX_EPOCH: nat := 0xFFFF_FFFF_FFFF_FFFF

  /** Equal except for the observation time. */
  predicate SemanticEq(a: CachedFact, b: CachedFact)
    ensures SemanticEq(a, b) <==> b == a.(observedAt := b.observedAt)
  {
    a.value == b.value && a.source == b.source && a.fixture == b.fixture
  }

  function Record(s: Snapshot, o: Outcome): Snapshot {
    match o.result
    case Ok(fact) => Snapshot(s.facts[o.factId := fact], s.errors - {o.factId})
    case Err(error) => if o.factId in s.facts then s else s.(errors := s.errors[o.factId := error])
  }

  function RecordN(s: Snapshot, outcomes: seq<Outcome>, n: nat): Snapshot
    requires n <= |outcomes|
  {
    if n == 0 then s else Record(RecordN(s, outcomes, n - 1), outcomes[n - 1])
  }

  function RecordAll(s: Snapshot, outcomes: seq<Outcome>): Snapshot {
    RecordN(s, outcomes, |outcomes|)
  }

  /** The flag that one outcome raises. */
  predicate Changes(s: Snapshot, o: Outcome) {
    match o.result
    case Ok(fact) =>
      o.factId !in s.facts || !SemanticEq(s.facts[o.factId], fact) || o.factId in s.errors
    case Err(error) =>
      o.factId !in s.facts && (o.factId !in s.errors || s.errors[o.factId] != error)
  }

  predicate ChangesN(s: Snapshot, outcomes: seq<Outcome>, n: nat)
    requires n <= |outcomes|
  {
    n > 0 && (ChangesN(s, outcomes, n - 1) || Changes(RecordN(s, outcomes, n - 1), outcomes[n - 1]))
  }

  function NextEpoch(epoch: nat, changed: bool): nat {
    if changed && epoch < MAX_EPOCH then epoch + 1 else epoch
  }

  function ErrorsOf(outcomes: seq<Outcome>, n: nat): seq<CollectionError>
    requires n <= |outcomes|
  {
    if n == 0 then []
    else ErrorsOf(outcomes, n - 1) + if outcomes[n - 1].result.Err? then [outcomes[n - 1].result.error] else []
  }

  /** A provider that fails as a whole gives every fact the same error, under the fact's own ID. */
  function ProviderOutcomes(factIds: seq<string>, error: CollectionError): (outcomes: seq<Outcome>)
    ensures |outcomes| == |factIds|
  {
    seq(|factIds|, i requires 0 <= i < |factIds| => Outcome(factIds[i], Err(error.(factId := Some(factIds[i])))))
  }

  datatype QueryStatus = QueryOk | QueryError | QueryPartial

  /** Of a response: the facts, the errors by fact ID, and the status. */
  datatype Response = Response(
    facts: map<string, CachedFact>, errors: map<string, CollectionError>, status: QueryStatus)

  function StatusOf(noFacts: bool, noErrors: bool): QueryStatus {
    if noErrors then QueryOk else if noFacts then QueryError else QueryPartial
  }

  /** The part of the state about the given facts. */
  function Only(s: Snapshot, factIds: set<string>): Snapshot {
    Snapshot(
      map id | id in s.facts && id in factIds :: s.facts[id],
      map id | id in s.errors && id in factIds :: s.errors[id])
  }

  /** The answer to a query: the values and the errors of the asked facts as they are in the cache. */
  function QueryOf(s: Snapshot, factIds: set<string>): (r: Response)
    ensures forall id :: id in r.facts <==> id in s.facts && id in factIds
    ensures forall id :: id in r.errors <==> id in s.errors && id in factIds
    ensures forall id <- r.facts :: r.facts[id] == s.facts[id]
    ensures forall id <- r.errors :: r.errors[id] == s.errors[id]
    ensures r.status.QueryOk? <==> r.errors == map[]
    ensures r.status.QueryError? <==> r.errors != map[] && r.facts == map[]
  {
    var part := Only(s, factIds);
    Response(part.facts, part.errors, StatusOf(part.facts == map[], part.errors == map[]))
  }

  class StateCache {
    var facts: map<string, CachedFact>
    var errors: map<string, CollectionError>
    var epoch: nat
    var refreshedAt: int
    var lastRefreshAt: int
    var lastRefreshErrors: seq<CollectionError>

    function State(): Snapshot
      reads this
    {
      Snapshot(facts, errors)
    }

    constructor (now: int)
      ensures State() == EMPTY && epoch == 0 && lastRefreshErrors == []
      ensures refreshedAt == lastRefreshAt == now
    {
      facts, errors, epoch := map[], map[], 0;
      refreshedAt, lastRefreshAt, lastRefreshErrors := now, now, [];
    }

    method Apply(outcomes: seq<Outcome>, now: int) returns (changed: bool)
      modifies this
      ensures State() == RecordAll(old(State()), outcomes)
      ensures changed == ChangesN(old(State()), outcomes, |outcomes|)
      ensures epoch == if changed && old(epoch) < 0xFFFF_FFFF_FFFF_FFFF then old(epoch) + 1 else old(epoch)
      ensures lastRefreshErrors == ErrorsOf(outcomes, |outcomes|)
      ensures lastRefreshAt == now
      ensures refreshedAt == if exists i :: 0 <= i < |outcomes| && outcomes[i].result.Ok? then now else old(refreshedAt)
    {
      changed := false;
      var successful := false;
      var refreshErrors: seq<CollectionError> := [];
      for n := 0 to |outcomes|
        invariant State() == RecordN(old(State()), outcomes, n)
        invariant changed == ChangesN(old(State()), outcomes, n)
        invariant successful <==> exists i :: 0 <= i < n && outcomes[i].result.Ok?
        invariant refreshErrors == ErrorsOf(outcomes, n)
        invariant epoch == old(epoch) && refreshedAt == old(refreshedAt)
      {
        var id := outcomes[n].factId;
        match outcomes[n].result {
          case Ok(fact) =>
            successful := true;
            changed := changed || id !in facts || !SemanticEq(facts[id], fact);
            changed := changed || id in errors;
            errors := errors - {id};
            facts := facts[id := fact];
          case Err(error) =>
            refreshErrors := refreshErrors + [error];
            if id !in facts {
              changed := changed || id !in errors || errors[id] != error;
              errors := errors[id := error];
            }
        }
      }
      lastRefreshAt := now;
      if successful {
        refreshedAt := now;
      }
      lastRefreshErrors := refreshErrors;
      epoch := NextEpoch(epoch, changed);
    }

    method RecordProviderError(factIds: seq<string>, error: CollectionError, now: int) returns (changed: bool)
      modifies this
      ensures State() == RecordAll(old(State()), ProviderOutcomes(factIds, error))
      ensures changed == ChangesN(old(State()), ProviderOutcomes(factIds, error), |factIds|)
      ensures epoch == if changed && old(epoch) < 0xFFFF_FFFF_FFFF_FFFF then old(epoch) + 1 else old(epoch)
      ensures lastRefreshErrors == ErrorsOf(ProviderOutcomes(factIds, error), |factIds|)
      ensures lastRefreshAt == now && refreshedAt == old(refreshedAt)
    {
      changed := false;
      var refreshErrors: seq<CollectionError> := [];
      ghost var outcomes := ProviderOutcomes(factIds, error);
      for n := 0 to |factIds|
        invariant State() == RecordN(old(State()), outcomes, n)
        invariant changed == ChangesN(old(State()), outcomes, n)
        invariant refreshErrors == ErrorsOf(outcomes, n)
        invariant epoch == old(epoch) && refreshedAt == old(refreshedAt)
      {
        var factError := error.(factId := Some(factIds[n]));
        refreshErrors := refreshErrors + [factError];
        if factIds[n] !in facts {
          changed := changed || factIds[n] !in errors || errors[factIds[n]] != factError;
          errors := errors[factIds[n] := factError];
        }
      }
      lastRefreshAt := now;
      lastRefreshErrors := refreshErrors;
      epoch := NextEpoch(epoch, changed);
    }

    function Query(factIds: set<string>): Response
      reads this
    {
      QueryOf(State(), factIds)
    }
  }

  // ---------------------------------------------------------------- what the cache holds

  /** The last successful outcome for a fact among the first `n`. */
  function LastFact(outcomes: seq<Outcome>, n: nat, id: string): Option<CachedFact>
    requires n <= |outcomes|
  {
    if n == 0 then None
    else if outcomes[n - 1].factId == id && outcomes[n - 1].result.Ok? then Some(outcomes[n - 1].result.value)
    else LastFact(outcomes, n - 1, id)
  }

  function LastError(outcomes: seq<Outcome>, n: nat, id: string): Option<CollectionError>
    requires n <= |outcomes|
  {
    if n == 0 then None
    else if outcomes[n - 1].factId == id && outcomes[n - 1].result.Err? then Some(outcomes[n - 1].result.error)
    else LastError(outcomes, n - 1, id)
  }

  function Lookup<V>(m: map<string, V>, id: string): Option<V> {
    if id in m then Some(m[id]) else None
  }

  /**
   After any outcomes at all, the cache holds for each fact the last value ever seen, and the last
   error exactly while there was never a value. So no fact is in both maps and none disappears.
   */
  lemma {:induction false} CacheHoldsTheLastWord(outcomes: seq<Outcome>, n: nat, id: string)
    requires n <= |outcomes|
    ensures var s := RecordN(EMPTY, outcomes, n);
            && Lookup(s.facts, id) == LastFact(outcomes, n, id)
            && Lookup(s.errors, id) == if id in s.facts then None else LastError(outcomes, n, id)
  {
    if n > 0 {
      CacheHoldsTheLastWord(outcomes, n - 1, id);
    }
  }

  lemma {:induction false} RecordInTwoParts(s: Snapshot, a: seq<Outcome>, b: seq<Outcome>, n: nat)
    requires n <= |b|
    ensures RecordN(s, a + b, |a| + n) == RecordN(RecordAll(s, a), b, n)
    decreases n
  {
    if n == 0 {
      RecordOfPrefix(s, a, b, |a|);
    } else {
      RecordInTwoParts(s, a, b, n - 1);
    }
  }

  lemma {:induction false} RecordOfPrefix(s: Snapshot, a: seq<Outcome>, b: seq<Outcome>, n: nat)
    requires n <= |a|
    ensures RecordN(s, a + b, n) == RecordN(s, a, n)
  {
    if n > 0 {
      RecordOfPrefix(s, a, b, n - 1);
    }
  }

  /** Batches add up: a run of the cache is the record of all its outcomes in order. */
  lemma BatchesAddUp(s: Snapshot, a: seq<Outcome>, b: seq<Outcome>)
    ensures RecordAll(RecordAll(s, a), b) == RecordAll(s, a + b)
  {
    RecordInTwoParts(s, a, b, |b|);
  }

  lemma RecordOneMore(s: Snapshot, a: seq<Outcome>, last: Outcome)
    ensures RecordAll(s, a + [last]) == Record(RecordAll(s, a), last)
    ensures a + [] == a
  {
    RecordOfPrefix(s, a, [last], |a|);
  }

  // ---------------------------------------------------------------- the epoch

  /** Equal facts apart from observation times, and equal errors. */
  ghost predicate SameMeaning(a: Snapshot, b: Snapshot) {
    && a.errors == b.errors && a.facts.Keys == b.facts.Keys
    && forall id :: id in a.facts ==> SameValue(a.facts[id], b.facts[id])
  }

  ghost predicate SameValue(a: CachedFact, b: CachedFact) {
    a.value == b.value && a.source == b.source && a.fixture == b.fixture
  }

  lemma UnflaggedStep(s: Snapshot, o: Outcome)
    requires !Changes(s, o)
    ensures SameMeaning(s, Record(s, o))
  {
    if o.result.Ok? {
      assert s.errors - {o.factId} == s.errors;
    }
  }

  lemma {:induction false} UnflaggedBatch(s: Snapshot, outcomes: seq<Outcome>, n: nat)
    requires n <= |outcomes| && !ChangesN(s, outcomes, n)
    ensures SameMeaning(s, RecordN(s, outcomes, n))
  {
    if n > 0 {
      UnflaggedBatch(s, outcomes, n - 1);
      UnflaggedStep(RecordN(s, outcomes, n - 1), outcomes[n - 1]);
    }
  }

  ghost predicate DistinctIds(outcomes: seq<Outcome>) {
    forall i, j :: 0 <= i < j < |outcomes| ==> outcomes[i].factId != outcomes[j].factId
  }

  /** Outcomes for other facts do not matter for one fact. */
  lemma {:induction false} OthersDoNotMatter(s: Snapshot, outcomes: seq<Outcome>, k: nat, n: nat, id: string)
    requires k <= n <= |outcomes| && forall i :: k <= i < n ==> outcomes[i].factId != id
    ensures Lookup(RecordN(s, outcomes, n).facts, id) == Lookup(RecordN(s, outcomes, k).facts, id)
    ensures Lookup(RecordN(s, outcomes, n).errors, id) == Lookup(RecordN(s, outcomes, k).errors, id)
    decreases n
  {
    if k < n {
      OthersDoNotMatter(s, outcomes, k, n - 1, id);
    }
  }

  lemma {:induction false} FlaggedOutcome(s: Snapshot, outcomes: seq<Outcome>, n: nat) returns (i: nat)
    requires n <= |outcomes| && ChangesN(s, outcomes, n)
    ensures i < n && Changes(RecordN(s, outcomes, i), outcomes[i])
  {
    if ChangesN(s, outcomes, n - 1) {
      i := FlaggedOutcome(s, outcomes, n - 1);
    } else {
      i := n - 1;
    }
  }

  lemma FlaggedIsVisible(s: Snapshot, outcomes: seq<Outcome>, i: nat)
    requires DistinctIds(outcomes) && i < |outcomes| && Changes(RecordN(s, outcomes, i), outcomes[i])
    ensures !SameMeaning(s, RecordAll(s, outcomes))
  {
    var id, last := outcomes[i].factId, RecordAll(s, outcomes);
    OthersDoNotMatter(s, outcomes, 0, i, id);
    OthersDoNotMatter(s, outcomes, i + 1, |outcomes|, id);
    var next := Record(RecordN(s, outcomes, i), outcomes[i]);
    assert RecordN(s, outcomes, i + 1) == next;
    assert Lookup(last.facts, id) == Lookup(next.facts, id) && Lookup(last.errors, id) == Lookup(next.errors, id);
    SemanticOnFact(s, last, id);
  }

  lemma SemanticOnFact(a: Snapshot, b: Snapshot, id: string)
    ensures SameMeaning(a, b) ==>
              && Lookup(a.errors, id) == Lookup(b.errors, id)
              && (id in a.facts <==> id in b.facts)
              && (id in a.facts ==> SameValue(a.facts[id], b.facts[id]))
  {
    assert id in a.facts <==> id in a.facts.Keys;
    assert id in b.facts <==> id in b.facts.Keys;
  }

  /**
   For a batch with distinct fact IDs, as every collection is, the flag (and with it the epoch)
   says exactly whether the state has changed. In any batch, a changed state raises the flag.
   */
  lemma FlagIsExact(s: Snapshot, outcomes: seq<Outcome>)
    ensures !SameMeaning(s, RecordAll(s, outcomes)) ==> ChangesN(s, outcomes, |outcomes|)
    ensures DistinctIds(outcomes) ==>
              (ChangesN(s, outcomes, |outcomes|) <==> !SameMeaning(s, RecordAll(s, outcomes)))
  {
    if !ChangesN(s, outcomes, |outcomes|) {
      UnflaggedBatch(s, outcomes, |outcomes|);
    } else if DistinctIds(outcomes) {
      var i := FlaggedOutcome(s, outcomes, |outcomes|);
      FlaggedIsVisible(s, outcomes, i);
    }
  }

  /** Distinct IDs are needed: a batch that goes away from a value and comes back raises the flag. */
  lemma RepeatedIdCanRaiseTheFlagForNothing(id: string, a: CachedFact, b: CachedFact)
    requires !SemanticEq(a, b)
    ensures var s, outcomes := EMPTY.(facts := map[id := a]), [Outcome(id, Ok(b)), Outcome(id, Ok(a))];
            ChangesN(s, outcomes, 2) && RecordAll(s, outcomes) == s
  {
    var s, outcomes := EMPTY.(facts := map[id := a]), [Outcome(id, Ok(b)), Outcome(id, Ok(a))];
    assert RecordN(s, outcomes, 0) == s;
    assert Changes(RecordN(s, outcomes, 0), outcomes[0]);
    assert ChangesN(s, outcomes, 1);
    assert RecordN(s, outcomes, 1) == Record(s, outcomes[0]);
    assert s.errors - {id} == s.errors;
  }

  /** The cache after the first `n` batches of a run, with its epoch. */
  function StateAt(batches: seq<seq<Outcome>>, n: nat): Snapshot
    requires n <= |batches|
  {
    if n == 0 then EMPTY else RecordAll(StateAt(batches, n - 1), batches[n - 1])
  }

  function EpochAt(batches: seq<seq<Outcome>>, n: nat): nat
    requires n <= |batches|
  {
    if n == 0 then 0
    else NextEpoch(EpochAt(batches, n - 1), ChangesN(StateAt(batches, n - 1), batches[n - 1], |batches[n - 1]|))
  }

  lemma {:induction false} EpochGrows(batches: seq<seq<Outcome>>, i: nat, j: nat)
    requires i <= j <= |batches|
    ensures EpochAt(batches, i) <= EpochAt(batches, j)
    decreases j
  {
    if i < j {
      EpochGrows(batches, i, j - 1);
    }
  }

  lemma SameMeaningChain(a: Snapshot, b: Snapshot, c: Snapshot)
    ensures SameMeaning(a, b) && SameMeaning(b, c) ==> SameMeaning(a, c)
  {
  }

  lemma OneEpochOneStep(batches: seq<seq<Outcome>>, j: nat)
    requires 0 < j <= |batches| && EpochAt(batches, j - 1) == EpochAt(batches, j) < MAX_EPOCH
    ensures SameMeaning(StateAt(batches, j - 1), StateAt(batches, j))
  {
    FlagIsExact(StateAt(batches, j - 1), batches[j - 1]);
  }

  /** At one unsaturated epoch, every query gives the same values and the same errors. */
  lemma {:induction false} OneEpochOneAnswer(batches: seq<seq<Outcome>>, i: nat, j: nat)
    requires i <= j <= |batches| && EpochAt(batches, i) == EpochAt(batches, j) < MAX_EPOCH
    ensures SameMeaning(StateAt(batches, i), StateAt(batches, j))
    decreases j
  {
    if i < j {
      EpochGrows(batches, i, j - 1);
      EpochGrows(batches, j - 1, j);
      OneEpochOneAnswer(batches, i, j - 1);
      OneEpochOneStep(batches, j);
      SameMeaningChain(StateAt(batches, i), StateAt(batches, j - 1), StateAt(batches, j));
    }
  }

  lemma SameMeaningSameAnswer(a: Snapshot, b: Snapshot, factIds: set<string>)
    requires SameMeaning(a, b)
    ensures var x, y := QueryOf(a, factIds), QueryOf(b, factIds);
            && x.status == y.status && x.errors == y.errors && x.facts.Keys == y.facts.Keys
            && forall id <- x.facts ::
                 && x.facts[id].value == y.facts[id].value && x.facts[id].source == y.facts[id].source
                 && x.facts[id].fixture == y.facts[id].fixture
  {
    var x, y := QueryOf(a, factIds), QueryOf(b, factIds);
    assert x.facts.Keys == y.facts.Keys;
    assert x.facts == map[] <==> x.facts.Keys == {};
    assert y.facts == map[] <==> y.facts.Keys == {};
  }

  /** Along any run, two queries at one unsaturated epoch have the same values, errors and status. */
  lemma OneEpochOneResponse(batches: seq<seq<Outcome>>, i: nat, j: nat, factIds: set<string>)
    requires i <= j <= |batches| && EpochAt(batches, i) == EpochAt(batches, j) < 0xFFFF_FFFF_FFFF_FFFF
    ensures var x, y := QueryOf(StateAt(batches, i), factIds), QueryOf(StateAt(batches, j), factIds);
            && x.status == y.status && x.errors == y.errors && x.facts.Keys == y.facts.Keys
            && forall id <- x.facts :: x.facts[id].value == y.facts[id].value
  {
    OneEpochOneAnswer(batches, i, j);
    SameMeaningSameAnswer(StateAt(batches, i), StateAt(batches, j), factIds);
  }

  // ---------------------------------------------------------------- direct collection

  datatype DirectResponse = DirectResponse(
    facts: map<string, CachedFact>, errors: seq<CollectionError>, status: QueryStatus)

  function FactsOf(outcomes: seq<Outcome>, n: nat): map<string, CachedFact>
    requires n <= |outcomes|
  {
    if n == 0 then map[]
    else
      var before := FactsOf(outcomes, n - 1);
      if outcomes[n - 1].result.Ok? then before[outcomes[n - 1].factId := outcomes[n - 1].result.value] else before
  }

  method Direct(outcomes: seq<Outcome>) returns (r: DirectResponse)
    ensures r.facts == FactsOf(outcomes, |outcomes|) && r.errors == ErrorsOf(outcomes, |outcomes|)
    ensures (r.status.QueryOk? <==> r.errors == []) && (r.status.QueryError? <==> r.errors != [] && r.facts == map[])
  {
    var facts: map<string, CachedFact> := map[];
    var errors: seq<CollectionError> := [];
    for n := 0 to |outcomes|
      invariant facts == FactsOf(outcomes, n) && errors == ErrorsOf(outcomes, n)
    {
      match outcomes[n].result {
        case Ok(fact) => facts := facts[outcomes[n].factId := fact];
        case Err(error) => errors := errors + [error];
      }
    }
    r := DirectResponse(facts, errors, StatusOf(facts == map[], errors == []));
  }

  lemma {:induction false} FreshFacts(outcomes: seq<Outcome>, n: nat)
    requires n <= |outcomes|
    ensures RecordN(EMPTY, outcomes, n).facts == FactsOf(outcomes, n)
    ensures forall id <- FactsOf(outcomes, n) :: exists i :: 0 <= i < n && outcomes[i].factId == id
  {
    if n > 0 {
      FreshFacts(outcomes, n - 1);
    }
  }

  /** In a fresh cache, the error under an ID is the one of the only outcome with that ID. */
  lemma FreshError(outcomes: seq<Outcome>, k: nat)
    requires DistinctIds(outcomes) && k < |outcomes|
    ensures Lookup(RecordAll(EMPTY, outcomes).errors, outcomes[k].factId)
         == if outcomes[k].result.Err? then Some(outcomes[k].result.error) else None
  {
    var id := outcomes[k].factId;
    OthersDoNotMatter(EMPTY, outcomes, 0, k, id);
    OthersDoNotMatter(EMPTY, outcomes, k + 1, |outcomes|, id);
    assert RecordN(EMPTY, outcomes, k + 1) == Record(RecordN(EMPTY, outcomes, k), outcomes[k]);
  }

  lemma {:induction false} ErrorsListed(outcomes: seq<Outcome>, n: nat, e: CollectionError)
    requires n <= |outcomes|
    ensures e in ErrorsOf(outcomes, n) <==> exists i :: 0 <= i < n && outcomes[i].result == Err(e)
  {
    if n > 0 {
      ErrorsListed(outcomes, n - 1, e);
    }
  }

  /** The outcomes, among the first `n`, of the facts that are asked for. */
  function Restricted(outcomes: seq<Outcome>, n: nat, factIds: set<string>): (selected: seq<Outcome>)
    requires n <= |outcomes|
    ensures forall o <- selected :: o.factId in factIds && o in outcomes[..n]
  {
    if n == 0 then []
    else Restricted(outcomes, n - 1, factIds) + if outcomes[n - 1].factId in factIds then [outcomes[n - 1]] else []
  }

  lemma {:induction false} RestrictedIsDistinct(outcomes: seq<Outcome>, n: nat, factIds: set<string>)
    requires DistinctIds(outcomes) && n <= |outcomes|
    ensures DistinctIds(Restricted(outcomes, n, factIds))
  {
    if n > 0 {
      RestrictedIsDistinct(outcomes, n - 1, factIds);
    }
  }

  lemma OnlyOfRecord(s: Snapshot, o: Outcome, factIds: set<string>)
    ensures Only(Record(s, o), factIds) == if o.factId in factIds then Record(Only(s, factIds), o) else Only(s, factIds)
  {
  }

  /** Asking the cache for some facts is the same as recording only their outcomes. */
  lemma {:induction false} RestrictionCommutes(outcomes: seq<Outcome>, n: nat, factIds: set<string>)
    requires n <= |outcomes|
    ensures Only(RecordN(EMPTY, outcomes, n), factIds) == RecordAll(EMPTY, Restricted(outcomes, n, factIds))
  {
    if n > 0 {
      RestrictionCommutes(outcomes, n - 1, factIds);
      OnlyOfRecord(RecordN(EMPTY, outcomes, n - 1), outcomes[n - 1], factIds);
      RecordOneMore(EMPTY, Restricted(outcomes, n - 1, factIds), outcomes[n - 1]);
    }
  }

  lemma SameMembersSameEmptiness(m: map<string, CollectionError>, s: seq<CollectionError>)
    ensures (forall e :: e in m.Values <==> e in s) ==> (m == map[] <==> s == [])
  {
    assert s == [] || s[0] in s;
    assert forall id :: id in m ==> m[id] in m.Values;
  }

  lemma FreshErrors(outcomes: seq<Outcome>, e: CollectionError)
    requires DistinctIds(outcomes)
    ensures e in RecordAll(EMPTY, outcomes).errors.Values <==> e in ErrorsOf(outcomes, |outcomes|)
  {
    var errors := RecordAll(EMPTY, outcomes).errors;
    ErrorsListed(outcomes, |outcomes|, e);
    if id :| id in errors && errors[id] == e {
      if k :| 0 <= k < |outcomes| && outcomes[k].factId == id {
        FreshError(outcomes, k);
      } else {
        OthersDoNotMatter(EMPTY, outcomes, 0, |outcomes|, id);
      }
    }
    if k :| 0 <= k < |outcomes| && outcomes[k].result == Err(e) {
      FreshError(outcomes, k);
      assert errors[outcomes[k].factId] == e;
    }
  }

  /**
   A fresh daemon that is fed one collection answers a query just as a direct collection of the
   selected facts with the same outcomes does: the same facts, the same errors, the same status.
   */
  lemma DaemonAgreesWithDirect(outcomes: seq<Outcome>, factIds: set<string>, direct: DirectResponse)
    requires DistinctIds(outcomes)
    requires var selected := Restricted(outcomes, |outcomes|, factIds);
             && direct.facts == FactsOf(selected, |selected|)
             && direct.errors == ErrorsOf(selected, |selected|)
             && (direct.status.QueryOk? <==> direct.errors == [])
             && (direct.status.QueryError? <==> direct.errors != [] && direct.facts == map[])
    ensures var response := QueryOf(RecordAll(EMPTY, outcomes), factIds);
            && response.facts == direct.facts
            && (forall e :: e in response.errors.Values <==> e in direct.errors)
            && response.status == direct.status
  {
    var selected := Restricted(outcomes, |outcomes|, factIds);
    var response := QueryOf(RecordAll(EMPTY, outcomes), factIds);
    RestrictedIsDistinct(outcomes, |outcomes|, factIds);
    RestrictionCommutes(outcomes, |outcomes|, factIds);
    FreshFacts(selected, |selected|);
    assert response.errors == RecordAll(EMPTY, selected).errors;
    forall e
      ensures e in response.errors.Values <==> e in direct.errors
    {
      FreshErrors(selected, e);
    }
    SameMembersSameEmptiness(response.errors, direct.errors);
  }
}
