/**
 The refresh as the producer runs it: the publication transaction on the stored cache, the
 boundary-fetching loop, one snapshot attempt, and the bounded retry around it. Each is proved
 to do what the protocol's steps do.
 */
module EpochRefresh {
  import opened Prelude
  import opened NbitsTable
  import opened Chain
  import opened HeaderStore
  import opened CacheShape
  import opened RefreshProtocol
  import opened RefreshTraces
  import VerdictRuns

  const SNAPSHOT_ATTEMPTS := 3

  /** The stored cache: the header rows and the singleton state row. */
  class HeaderCache {
    var rows: Rows
    var horizonTime: int
    var revision: nat
    var generation: nat
    var recheck: Recheck

    function State(): CacheState
      reads this
    {
      CacheState(rows, horizonTime, revision, generation, recheck)
    }

    constructor ()
      ensures State() == NO_HEADERS
    {
      rows, horizonTime, revision, generation := map[], 0, 0, 0;
      recheck := Recheck(0, false, 0, None);
    }

    /** What the other sessions have committed by now leaves the cache at `s`. */
    method Overtaken(s: CacheState)
      requires Later(State(), s)
      modifies this
      ensures State() == s
    {
      rows, horizonTime, revision, generation, recheck := s.rows, s.horizonTime, s.revision, s.generation, s.recheck;
    }

    /** The publication transaction: nothing is kept unless every row is recorded. */
    method Publish(p: Staged, queued: bool) returns (outcome: Outcome)
      modifies this
      ensures outcome == Replace(old(State()), p, queued)
      ensures State() == if outcome.Published? then outcome.state else old(State())
    {
      hide HighestFinal, ShallowReorged, OverlapsPriorHorizon, MaxRowTime, StagedIsWellFormed, HorizonTooLow, FinalRows;
      if !StagedIsWellFormed(p) {
        return IntegrityFailure;
      }
      if queued || revision != p.expectedRevision {
        return NotCurrent;
      }
      if HorizonTooLow(rows, p) {
        return IntegrityFailure;
      }
      var pending := FinalRows(rows);
      var i := 0;
      while i < |p.finals|
        invariant 0 <= i <= |p.finals|
        invariant RecordAll(FinalRows(rows), p.finals[..i], true) == Some(pending)
        invariant State() == old(State())
      {
        assert p.finals[..i + 1][..i] == p.finals[..i];
        var recorded := Record(pending, p.finals[i], true);
        if recorded.None? {
          RecordAllStops(FinalRows(rows), p.finals, i + 1);
          return IntegrityFailure;
        }
        pending := recorded.value;
        i := i + 1;
      }
      assert p.finals[..|p.finals|] == p.finals;
      if p.shallow.Some? {
        var recorded := Record(pending, p.shallow.value, false);
        if recorded.None? {
          return IntegrityFailure;
        }
        pending := recorded.value;
      }
      var recorded := Record(pending, p.horizon,
                             p.horizon.height == p.finalEpoch || HighestFinal(rows) == Some(p.horizon.height));
      if recorded.None? {
        return IntegrityFailure;
      }
      pending := recorded.value;
      assert p.horizon.height in pending;
      var next := NextState(State(), p, pending);
      rows, horizonTime, revision := pending, next.horizonTime, next.revision;
      generation, recheck := next.generation, next.recheck;
      outcome := Published(next);
    }
  }

  lemma {:induction false} RecordAllStops(rows: Rows, headers: seq<CoreHeader>, i: nat)
    requires i <= |headers|
    requires RecordAll(rows, headers[..i], true).None?
    ensures RecordAll(rows, headers, true).None?
    decreases |headers| - i
  {
    if i == |headers| {
      assert headers[..i] == headers;
    } else {
      assert headers[..i + 1][..i] == headers[..i];
      RecordAllStops(rows, headers, i + 1);
    }
  }

  // ----- One attempt -----

  /**
   Fetch the boundaries `first..=last`, one read each, starting with the read numbered `read`.
   Each header is the one Core serves at its height at the moment of its own read; the fetch
   fails exactly when some read does.
   */
  method FetchFinalEpochs(scenes: nat -> Scene, read: nat, first: int, last: int)
    returns (epochs: Option<seq<CoreHeader>>, fetched: seq<CoreHeader>)
    ensures forall i :: 0 <= i < |fetched| ==> Served(scenes, read, first, i) == Some(fetched[i])
    ensures epochs.Some? ==> |fetched| == EpochsBetween(first, last) && epochs.value == fetched
    ensures epochs.None? ==> |fetched| < EpochsBetween(first, last) && Served(scenes, read, first, |fetched|).None?
  {
    fetched := [];
    var height := first;
    while height <= last
      invariant height == first + EPOCH * |fetched|
      invariant |fetched| <= EpochsBetween(first, last)
      invariant height > last ==> |fetched| == EpochsBetween(first, last)
      invariant forall i :: 0 <= i < |fetched| ==> Served(scenes, read, first, i) == Some(fetched[i])
      decreases last - height
    {
      var header := CanonicalHeader(scenes(read + |fetched|).core, height);
      if header.None? {
        return None, fetched;
      }
      fetched := fetched + [header.value];
      height := height + EPOCH;
    }
    epochs := Some(fetched);
  }

  datatype SnapshotResult =
    | Refreshed(table: Table)
    | SnapshotMoved
    | CoreFailed
    | IntegrityFailed
    | BootstrapPending

  /** What the other sessions make of a published cache before the publisher loads its table. */
  ghost predicate Settles(settle: CacheState -> CacheState) {
    forall s :: Ok(s) ==> Ok(settle(s)) && Later(s, settle(s))
  }

  /** What a confirmed snapshot's publication means to the caller, and leaves in the cache. */
  ghost predicate ReportsPublication(r: Reads, s: CacheState, outcome: Outcome, settle: CacheState -> CacheState,
                                     s': CacheState, result: SnapshotResult) {
    match outcome
    case NotCurrent => s' == s && result == SnapshotMoved
    case IntegrityFailure => s' == s && result == IntegrityFailed
    case Published(next) =>
      if HorizonHeight(r) < r.tip then s' == next && result == BootstrapPending
      else s' == settle(next) && Ok(s') && s'.rows != map[] && result == Refreshed(VerdictRuns.Loaded(s'))
  }

  /**
   An attempt whose reads see `scenes` did what the protocol does: `steps` reads, and one
   publication onto the cache as it then is when they confirm a snapshot.
   */
  ghost predicate AttemptMatches(live: bool, scenes: nat -> Scene, queued: bool, settle: CacheState -> CacheState,
                                 steps: nat, s': CacheState, result: SnapshotResult) {
    var j := Trace(Idle(live), scenes, 0, steps);
    var s := scenes(steps).store;
    if j.Confirmed? then ReportsPublication(j.seen, s, Replace(s, j.staged, queued), settle, s', result)
    else steps > 0 && j.Idle? && s' == s && (result == CoreFailed || result == SnapshotMoved)
  }

  /** The opening reads: tip, stored cache, horizon, and whether the prior horizon moved. */
  method OpenSnapshot(cache: HeaderCache, live: bool, scenes: nat -> Scene)
    returns (opening: Option<(Reads, CoreHeader, bool)>, read: nat)
    requires Evolves(scenes) && cache.State() == scenes(0).store
    modifies cache
    ensures read >= 3 && cache.State() == scenes(3).store
    ensures opening.Some? ==>
              Trace(Idle(live), scenes, 0, read) == Fetching(opening.value.0, opening.value.1, opening.value.2, [])
    ensures opening.None? ==> Trace(Idle(live), scenes, 0, read).Idle?
  {
    hide Ok, Later, HighestFinal, HorizonRow;
    var tip := Height(scenes(0).core);
    cache.Overtaken(scenes(1).store);
    var revision := cache.revision;
    cache.Overtaken(scenes(2).store);
    var highest := HighestFinal(cache.rows);
    cache.Overtaken(scenes(3).store);
    var prior := HorizonRow(cache.rows);
    var r := Reads(live, tip, revision, highest, prior);
    StoreReadsTrace(scenes, live);
    TraceNext(Idle(live), scenes, 0, 4);
    var horizon := CanonicalHeader(scenes(4).core, HorizonHeight(r));
    if horizon.None? {
      return None, 5;
    }
    TraceNext(Idle(live), scenes, 0, 5);
    var reorged := false;
    if prior.Some? && prior.value.height < HorizonHeight(r) {
      var observed := CanonicalHeader(scenes(5).core, prior.value.height);
      if observed.None? {
        return None, 6;
      }
      reorged := observed.value.hash != prior.value.hash;
    }
    return Some((r, horizon.value, reorged)), 6;
  }

  /** The closing reads: the shallow boundary, then the tip and the horizon once more. */
  method CloseSnapshot(scenes: nat -> Scene, read: nat, r: Reads, opening: CoreHeader, reorged: bool,
                       finals: seq<CoreHeader>)
    returns (staged: Result<Staged, SnapshotResult>, steps: nat)
    requires |finals| == FinalsToFetch(r)
    ensures staged.Success? ==>
              Trace(Fetching(r, opening, reorged, finals), scenes, read, steps) == Confirmed(r, staged.value)
    ensures staged.Failure? ==>
              && Trace(Fetching(r, opening, reorged, finals), scenes, read, steps).Idle?
              && (staged.error == CoreFailed || staged.error == SnapshotMoved)
  {
    ClosingTrace(scenes, read, r, opening, reorged, finals);
    var shallow: Option<CoreHeader> := None;
    if ShallowToFetch(r) {
      shallow := CanonicalHeader(scenes(read + 1).core, EpochStart(HorizonHeight(r)));
      if shallow.None? {
        return Failure(CoreFailed), 2;
      }
    }
    var closingTip := Height(scenes(read + 2).core);
    var closing := CanonicalHeader(scenes(read + 3).core, HorizonHeight(r));
    if closing.None? {
      return Failure(CoreFailed), 4;
    }
    if !(r.tip == closingTip && opening == closing.value) {
      return Failure(SnapshotMoved), 4;
    }
    return Success(Staged(FinalEpochOf(HorizonHeight(r)), finals, shallow, opening, reorged, r.revision)), 4;
  }

  /** Gather one snapshot from Core, in the order the producer reads it. */
  method StageSnapshot(cache: HeaderCache, live: bool, scenes: nat -> Scene)
    returns (staged: Result<(Reads, Staged), SnapshotResult>, steps: nat)
    requires Evolves(scenes) && cache.State() == scenes(0).store
    modifies cache
    ensures steps > 0 && cache.State() == scenes(steps).store
    ensures staged.Success? ==> Trace(Idle(live), scenes, 0, steps) == Confirmed(staged.value.0, staged.value.1)
    ensures staged.Failure? ==>
              && Trace(Idle(live), scenes, 0, steps).Idle?
              && (staged.error == CoreFailed || staged.error == SnapshotMoved)
  {
    hide Ok, Later, Trace, Fetching, FinalsToFetch, HorizonHeight;
    var opening, read := OpenSnapshot(cache, live, scenes);
    if opening.None? {
      cache.Overtaken(scenes(read).store);
      return Failure(CoreFailed), read;
    }
    var (r, horizon, reorged) := opening.value;
    var finals, fetched := FetchFinalEpochs(scenes, read, NextEpoch(r.highest), FinalEpochOf(HorizonHeight(r)));
    PlannedFetch(r);
    if finals.None? {
      FailedTrace(scenes, read, r, horizon, reorged, fetched);
      TraceCompose(Idle(live), scenes, 0, read, |fetched| + 1);
      steps := read + (|fetched| + 1);
      cache.Overtaken(scenes(steps).store);
      return Failure(CoreFailed), steps;
    }
    var closing, k := CloseSnapshot(scenes, read + |fetched|, r, horizon, reorged, fetched);
    StagedTrace(scenes, live, read, r, horizon, reorged, fetched, k);
    steps := read + |fetched| + k;
    cache.Overtaken(scenes(steps).store);
    if closing.Failure? {
      return Failure(closing.error), steps;
    }
    return Success((r, closing.value)), steps;
  }

  lemma PlannedFetch(r: Reads)
    ensures EpochsBetween(NextEpoch(r.highest), FinalEpochOf(HorizonHeight(r))) == FinalsToFetch(r)
  {
  }

  /** One attempt: gather a snapshot, publish it, and load the table when the horizon is the tip. */
  method RefreshSnapshot(cache: HeaderCache, live: bool, scenes: nat -> Scene, queued: bool,
                         settle: CacheState -> CacheState)
    returns (result: SnapshotResult, steps: nat)
    requires Evolves(scenes) && Settles(settle) && cache.State() == scenes(0).store
    modifies cache
    ensures Ok(cache.State())
    ensures AttemptMatches(live, scenes, queued, settle, steps, cache.State(), result)
    ensures result.Refreshed? || result.BootstrapPending? <==> cache.revision > scenes(steps).store.revision
    ensures result.Refreshed? ==> cache.rows != map[] && result.table == VerdictRuns.Loaded(cache.State())
    ensures !result.Refreshed? && !result.BootstrapPending? ==> cache.State() == scenes(steps).store
  {
    hide Ok, Later, Trace, Replace;
    var staged;
    staged, steps := StageSnapshot(cache, live, scenes);
    if staged.Failure? {
      return staged.error, steps;
    }
    var (r, p) := staged.value;
    ghost var s := cache.State();
    var outcome := cache.Publish(p, queued);
    match outcome
    case NotCurrent => return SnapshotMoved, steps;
    case IntegrityFailure => return IntegrityFailed, steps;
    case Published(next) =>
      ConfirmedTraceConforms(scenes, live, steps, r, p, queued);
      PublicationEffect(s, p, queued);
      if HorizonHeight(r) < r.tip {
        return BootstrapPending, steps;
      }
      LaterThan(s, next, settle(next));
      cache.Overtaken(settle(next));
      var table := LoadTable(cache);
      return Refreshed(table), steps;
  }

  lemma LaterThan(s: CacheState, next: CacheState, s': CacheState)
    requires s.revision < next.revision && next.rows != map[] && Later(next, s')
    ensures s.revision < s'.revision && s'.rows != map[]
  {
  }

  /** The stored rows, in height order, through the table constructor. */
  method LoadTable(cache: HeaderCache) returns (table: Table)
    requires Ok(cache.State()) && cache.rows != map[]
    ensures table == VerdictRuns.Loaded(cache.State())
  {
    hide Shaped, Listing, TableOf;
    ghost var s := cache.State();
    NonEmptyHasBoundary(s);
    ShapedIsAcceptable(s.rows, FinalCount(s), BoundaryCount(s));
    var r := FromHeaders(Listing(cache.rows), cache.horizonTime);
    table := r.value;
  }

  /**
   Any interleaving refines to the attempt: when refresh `id` makes its reads among the actions of
   others and then publishes, the store is what `AttemptMatches` says of the scenes it saw.
   */
  lemma AttemptAmong(w: World, before: seq<Action>, id: nat, others: nat -> seq<Action>, live: bool, k: nat, queued: bool)
    requires Initial(w) && id in After(w, before).jobs && After(w, before).jobs[id] == Idle(live)
    requires forall i: nat :: Foreign(id, others(i))
    ensures var w1 := After(w, before); var scenes := ScenesOf(w1, id, others);
            var j := Trace(Idle(live), scenes, 0, k); var w2 := WorldAt(w1, id, others, k);
            && Evolves(scenes)
            && id in w2.jobs && w2.jobs[id] == j && w2.store == scenes(k).store
            && (j.Confirmed? ==>
                  var outcome := Replace(scenes(k).store, j.staged, queued);
                  Step(w2, Publishes(id, queued)).store == if outcome.Published? then outcome.state else scenes(k).store)
  {
    hide After, Trace, Replace, Evolves, WorldAt, Foreign;
    var w1 := After(w, before);
    RunScenesEvolve(w, before, id, others);
    TraceAmong(w1, id, others, k);
    MeanwhileKeepsJob(w1, id, others, k);
  }

  // ----- Retry -----

  datatype RefreshResult = Done(result: SnapshotResult) | PublicationPending

  /** The attempt found the snapshot moved, and published nothing. */
  ghost predicate AttemptMoved(live: bool, scenes: nat -> Scene, queued: bool, settle: CacheState -> CacheState) {
    exists k :: AttemptMatches(live, scenes, queued, settle, k, scenes(k).store, SnapshotMoved)
  }

  lemma NoteMoved(live: bool, scenes: nat -> Scene, queued: bool, settle: CacheState -> CacheState, k: nat)
    requires AttemptMatches(live, scenes, queued, settle, k, scenes(k).store, SnapshotMoved)
    ensures AttemptMoved(live, scenes, queued, settle)
  {
    hide AttemptMatches;
  }

  /**
   The refresh: up to three attempts while the snapshot keeps moving. `scenes` says what each
   attempt's reads see, and `queues` whether its publication finds reconcile work or no lock. It
   publishes in its last attempt or not at all, and reports so exactly when it did.
   */
  method Refresh(cache: HeaderCache, live: bool, scenes: nat -> (nat -> Scene), queues: nat -> bool,
                 settle: CacheState -> CacheState)
    returns (result: RefreshResult, last: nat, steps: nat)
    requires Settles(settle) && forall a: nat :: Evolves(scenes(a))
    requires forall a: nat, k: nat :: Later(scenes(a)(k).store, scenes(a + 1)(0).store)
    requires cache.State() == scenes(0)(0).store
    modifies cache
    ensures Ok(cache.State()) && last < SNAPSHOT_ATTEMPTS
    ensures forall a: nat :: a < last ==> AttemptMoved(live, scenes(a), queues(a), settle)
    ensures AttemptMatches(live, scenes(last), queues(last), settle, steps, cache.State(),
                           if result.Done? then result.result else SnapshotMoved)
    ensures if result.Done? then !result.result.SnapshotMoved? else last == SNAPSHOT_ATTEMPTS - 1
    ensures result.Done? && (result.result.Refreshed? || result.result.BootstrapPending?)
            <==> cache.revision > scenes(last)(steps).store.revision
    ensures result.Done? && result.result.Refreshed? ==>
              cache.rows != map[] && result.result.table == VerdictRuns.Loaded(cache.State())
  {
    hide Ok, AttemptMatches, AttemptMoved, Later, Evolves, Settles;
    last := 0;
    while true
      invariant last < SNAPSHOT_ATTEMPTS && cache.State() == scenes(last)(0).store
      invariant forall a: nat :: a < last ==> AttemptMoved(live, scenes(a), queues(a), settle)
      decreases SNAPSHOT_ATTEMPTS - last
    {
      var snapshot;
      snapshot, steps := RefreshSnapshot(cache, live, scenes(last), queues(last), settle);
      if !snapshot.SnapshotMoved? {
        return Done(snapshot), last, steps;
      }
      if last + 1 == SNAPSHOT_ATTEMPTS {
        return PublicationPending, last, steps;
      }
      NoteMoved(live, scenes(last), queues(last), settle, steps);
      cache.Overtaken(scenes(last + 1)(0).store);
      last := last + 1;
    }
  }
}
