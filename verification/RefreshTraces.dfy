/**
 One refresh among others: its reads in order, each seeing Core and the stored cache as they are
 at that moment, and the protocol run they are part of.
 */
module RefreshTraces {
  import opened Prelude
  import opened NbitsTable
  import opened Chain
  import opened HeaderStore
  import opened CacheShape
  import opened RefreshProtocol

  /** What one read can see: Core's tip and the stored cache. */
  datatype Scene = Scene(core: Block, store: CacheState)

  /** The job `k` reads later, when the read numbered `i` sees `scenes(i)`. */
  ghost function Trace(j: Job, scenes: nat -> Scene, from: nat, k: nat): Job
    decreases k
  {
    if k == 0 then j else Trace(Advance(j, scenes(from).core, scenes(from).store), scenes, from + 1, k - 1)
  }

  lemma {:induction false} TraceNext(j: Job, scenes: nat -> Scene, from: nat, k: nat)
    ensures Trace(j, scenes, from, k + 1) ==
            Advance(Trace(j, scenes, from, k), scenes(from + k).core, scenes(from + k).store)
    decreases k
  {
    hide Advance;
    if k > 0 {
      TraceNext(Advance(j, scenes(from).core, scenes(from).store), scenes, from + 1, k - 1);
    }
  }

  lemma {:induction false} TraceCompose(j: Job, scenes: nat -> Scene, from: nat, a: nat, b: nat)
    ensures Trace(j, scenes, from, a + b) == Trace(Trace(j, scenes, from, a), scenes, from + a, b)
    decreases b
  {
    hide Advance;
    if b > 0 {
      TraceCompose(j, scenes, from, a, b - 1);
      TraceNext(j, scenes, from, a + (b - 1));
      TraceNext(Trace(j, scenes, from, a), scenes, from + a, b - 1);
      assert a + (b - 1) + 1 == a + b;
    }
  }

  // ----- What others may do between two reads -----

  /** `s'` is what publications and recheck passes can make of `s`. */
  ghost predicate Later(s: CacheState, s': CacheState) {
    && s.revision <= s'.revision
    && (s.revision == s'.revision ==> s.rows == s'.rows)
    && (s.rows != map[] ==> s'.rows != map[])
  }

  ghost predicate Evolves(scenes: nat -> Scene) {
    && (forall i: nat :: Ok(scenes(i).store))
    && (forall i: nat, j: nat :: i <= j ==> Later(scenes(i).store, scenes(j).store))
  }

  lemma JobLater(j: Job, s: CacheState, s': CacheState)
    requires JobOk(j, s) && Later(s, s')
    ensures JobOk(j, s')
  {
    hide GatheringOk, Conforms, HighestOk;
  }

  lemma {:induction false} TraceJobOk(scenes: nat -> Scene, live: bool, k: nat)
    requires Evolves(scenes)
    ensures JobOk(Trace(Idle(live), scenes, 0, k), scenes(k).store)
  {
    hide Ok, JobOk, Advance, Later;
    if k > 0 {
      TraceJobOk(scenes, live, k - 1);
      TraceNext(Idle(live), scenes, 0, k - 1);
      JobStep(Trace(Idle(live), scenes, 0, k - 1), scenes(k - 1).core, scenes(k - 1).store);
      assert Later(scenes(k - 1).store, scenes(k).store);
      JobLater(Trace(Idle(live), scenes, 0, k), scenes(k - 1).store, scenes(k).store);
    } else {
      IdleOk(live, scenes(0).store);
    }
  }

  lemma IdleOk(live: bool, s: CacheState)
    ensures JobOk(Idle(live), s)
  {
  }

  /** However the others acted meanwhile, an accepted snapshot was planned from the cache it replaces. */
  lemma ConfirmedTraceConforms(scenes: nat -> Scene, live: bool, k: nat, r: Reads, p: Staged, queued: bool)
    requires Evolves(scenes) && Trace(Idle(live), scenes, 0, k) == Confirmed(r, p)
    requires Replace(scenes(k).store, p, queued).Published?
    ensures Conforms(FinalCount(scenes(k).store), p)
  {
    hide Ok, JobOk, Trace, Replace, Conforms, Later;
    TraceJobOk(scenes, live, k);
    PublishSawCurrentStore(World(scenes(k).core, scenes(k).store, map[0 := Confirmed(r, p)]), 0, queued);
  }

  // ----- The stretches of a refresh -----

  /** What the first four reads see, each at its own moment. */
  ghost function ReadsOf(scenes: nat -> Scene, live: bool): Reads {
    Reads(live, Height(scenes(0).core), scenes(1).store.revision, HighestFinal(scenes(2).store.rows),
          HorizonRow(scenes(3).store.rows))
  }

  lemma StoreReadsTrace(scenes: nat -> Scene, live: bool)
    ensures Trace(Idle(live), scenes, 0, 4) ==
            PriorRead(ReadsOf(scenes, live))
  {
    var j1 := TipRead(live, Height(scenes(0).core));
    var j2 := RevisionRead(live, Height(scenes(0).core), scenes(1).store.revision);
    var j3 := HighestRead(live, Height(scenes(0).core), scenes(1).store.revision, HighestFinal(scenes(2).store.rows));
    TraceNext(Idle(live), scenes, 0, 0);
    assert Trace(Idle(live), scenes, 0, 1) == j1;
    TraceNext(Idle(live), scenes, 0, 1);
    assert Trace(Idle(live), scenes, 0, 2) == j2;
    TraceNext(Idle(live), scenes, 0, 2);
    assert Trace(Idle(live), scenes, 0, 3) == j3;
    TraceNext(Idle(live), scenes, 0, 3);
  }

  /** The six reads that open an attempt, when none of them fails. */
  lemma OpeningTrace(scenes: nat -> Scene, r: Reads, opening: CoreHeader, reorged: bool)
    requires r == ReadsOf(scenes, r.live)
    requires CanonicalHeader(scenes(4).core, HorizonHeight(r)) == Some(opening)
    requires if r.prior.Some? && r.prior.value.height < HorizonHeight(r) then
               var observed := CanonicalHeader(scenes(5).core, r.prior.value.height);
               observed.Some? && reorged == (observed.value.hash != r.prior.value.hash)
             else !reorged
    ensures Trace(Idle(r.live), scenes, 0, 6) == Fetching(r, opening, reorged, [])
  {
    StoreReadsTrace(scenes, r.live);
    TraceNext(Idle(r.live), scenes, 0, 4);
    assert Trace(Idle(r.live), scenes, 0, 5) == Gathering(r, opening, CheckPrior, false, [], None);
    TraceNext(Idle(r.live), scenes, 0, 5);
  }

  /** The last four steps of an attempt whose boundaries are fetched. */
  lemma ClosingTrace(scenes: nat -> Scene, from: nat, r: Reads, opening: CoreHeader, reorged: bool,
                     finals: seq<CoreHeader>)
    requires |finals| == FinalsToFetch(r)
    ensures var shallow := CanonicalHeader(scenes(from + 1).core, EpochStart(HorizonHeight(r)));
            var j := Fetching(r, opening, reorged, finals);
            if ShallowToFetch(r) && shallow.None? then Trace(j, scenes, from, 2) == Idle(r.live)
            else
              Trace(j, scenes, from, 4) ==
                if CanonicalHeader(scenes(from + 3).core, HorizonHeight(r)) == Some(opening) && Height(scenes(from + 2).core) == r.tip
                then Confirmed(r, StagedOf(r, opening, reorged, finals, if ShallowToFetch(r) then shallow else None))
                else Idle(r.live)
  {
    var shallow := CanonicalHeader(scenes(from + 1).core, EpochStart(HorizonHeight(r)));
    var j := Fetching(r, opening, reorged, finals);
    var j1 := j.(stage := FetchShallow);
    TraceNext(j, scenes, from, 0);
    assert Trace(j, scenes, from, 1) == j1;
    TraceNext(j, scenes, from, 1);
    if !ShallowToFetch(r) || shallow.Some? {
      var j2 := j1.(stage := RecheckTip, shallow := if ShallowToFetch(r) then shallow else None);
      assert Trace(j, scenes, from, 2) == j2;
      TraceNext(j, scenes, from, 2);
      var j3 := j2.(stage := RecheckHorizon(Height(scenes(from + 2).core)));
      assert Trace(j, scenes, from, 3) == j3;
      TraceNext(j, scenes, from, 3);
    }
  }

  /** What Core serves for the `i`th boundary of a fetch that starts with the read numbered `read`. */
  function Served(scenes: nat -> Scene, read: nat, first: int, i: nat): Option<CoreHeader> {
    CanonicalHeader(scenes(read + i).core, first + EPOCH * i)
  }

  /** A job about to fetch its boundaries. */
  function Fetching(r: Reads, opening: CoreHeader, reorged: bool, finals: seq<CoreHeader>): Job {
    Gathering(r, opening, FetchFinals, reorged, finals, None)
  }

  lemma {:induction false} FetchedTrace(scenes: nat -> Scene, read: nat, r: Reads, opening: CoreHeader,
                                        reorged: bool, finals: seq<CoreHeader>)
    requires |finals| <= FinalsToFetch(r)
    requires forall i :: 0 <= i < |finals| ==> Served(scenes, read, NextEpoch(r.highest), i) == Some(finals[i])
    ensures Trace(Fetching(r, opening, reorged, []), scenes, read, |finals|) == Fetching(r, opening, reorged, finals)
  {
    hide FinalsToFetch, NextEpoch, CanonicalHeader;
    if finals != [] {
      var k := |finals| - 1;
      var init := finals[..k];
      FetchedTrace(scenes, read, r, opening, reorged, init);
      TraceNext(Fetching(r, opening, reorged, []), scenes, read, k);
      assert Served(scenes, read, NextEpoch(r.highest), k) == Some(finals[k]);
      assert init + [finals[k]] == finals;
    }
  }

  lemma FailedTrace(scenes: nat -> Scene, read: nat, r: Reads, opening: CoreHeader, reorged: bool,
                    finals: seq<CoreHeader>)
    requires |finals| < FinalsToFetch(r) && Served(scenes, read, NextEpoch(r.highest), |finals|).None?
    requires forall i :: 0 <= i < |finals| ==> Served(scenes, read, NextEpoch(r.highest), i) == Some(finals[i])
    ensures Trace(Fetching(r, opening, reorged, []), scenes, read, |finals| + 1) == Idle(r.live)
  {
    FetchedTrace(scenes, read, r, opening, reorged, finals);
    TraceNext(Fetching(r, opening, reorged, []), scenes, read, |finals|);
  }

  lemma StagedTrace(scenes: nat -> Scene, live: bool, read: nat, r: Reads, opening: CoreHeader,
                    reorged: bool, finals: seq<CoreHeader>, k: nat)
    requires |finals| == FinalsToFetch(r)
    requires Trace(Idle(live), scenes, 0, read) == Fetching(r, opening, reorged, [])
    requires forall i :: 0 <= i < |finals| ==> Served(scenes, read, NextEpoch(r.highest), i) == Some(finals[i])
    ensures Trace(Idle(live), scenes, 0, read + |finals| + k) ==
            Trace(Fetching(r, opening, reorged, finals), scenes, read + |finals|, k)
  {
    FetchedTrace(scenes, read, r, opening, reorged, finals);
    TraceCompose(Idle(live), scenes, 0, read, |finals|);
    TraceCompose(Idle(live), scenes, 0, read + |finals|, k);
  }

  // ----- A trace is a run -----

  lemma {:induction false} AfterCompose(w: World, a: seq<Action>, b: seq<Action>)
    ensures After(w, a + b) == After(After(w, a), b)
    decreases |b|
  {
    hide Step;
    if b == [] {
      assert a + b == a;
    } else {
      var init := b[..|b| - 1];
      assert (a + b)[..|a + b| - 1] == a + init;
      AfterCompose(w, a, init);
    }
  }

  lemma AfterOne(w: World, a: Action)
    ensures After(w, [a]) == Step(w, a)
  {
    hide Step;
    assert After(w, [a][..0]) == w;
  }

  lemma AfterTwo(w: World, a: Action, b: Action)
    ensures After(w, [a, b]) == Step(Step(w, a), b)
  {
    hide Step;
    assert [a, b] == [a] + [b];
    AfterCompose(w, [a], [b]);
    AfterOne(w, a);
    AfterOne(Step(w, a), b);
  }

  /** None of `actions` is an action of refresh `id`. */
  ghost predicate Foreign(id: nat, actions: seq<Action>) {
    forall i :: 0 <= i < |actions| && (actions[i].Advances? || actions[i].Aborts? || actions[i].Publishes?) ==>
      actions[i].id != id
  }

  /** The first `k` reads of refresh `id`, with `others(i)` happening before the read numbered `i`. */
  ghost function ReadsAmong(id: nat, others: nat -> seq<Action>, k: nat): seq<Action> {
    if k == 0 then [] else ReadsAmong(id, others, k - 1) + others(k - 1) + [Advances(id)]
  }

  /** The world the read numbered `i` sees. */
  ghost function WorldAt(w: World, id: nat, others: nat -> seq<Action>, i: nat): World {
    After(w, ReadsAmong(id, others, i) + others(i))
  }

  ghost function ScenesOf(w: World, id: nat, others: nat -> seq<Action>): nat -> Scene {
    (i: nat) => Scene(WorldAt(w, id, others, i).core, WorldAt(w, id, others, i).store)
  }

  lemma {:induction false} ForeignKeepsJob(w: World, id: nat, actions: seq<Action>)
    requires id in w.jobs && Foreign(id, actions)
    ensures id in After(w, actions).jobs && After(w, actions).jobs[id] == w.jobs[id]
  {
    hide Advance, Replace;
    if actions != [] {
      ForeignKeepsJob(w, id, actions[..|actions| - 1]);
    }
  }

  lemma NextRead(w: World, id: nat, others: nat -> seq<Action>, k: nat)
    ensures After(w, ReadsAmong(id, others, k + 1)) == Step(WorldAt(w, id, others, k), Advances(id))
  {
    hide Step;
    AfterCompose(w, ReadsAmong(id, others, k) + others(k), [Advances(id)]);
    AfterOne(WorldAt(w, id, others, k), Advances(id));
  }

  lemma MeanwhileKeepsJob(w: World, id: nat, others: nat -> seq<Action>, k: nat)
    requires Foreign(id, others(k)) && id in After(w, ReadsAmong(id, others, k)).jobs
    ensures id in WorldAt(w, id, others, k).jobs
    ensures WorldAt(w, id, others, k).jobs[id] == After(w, ReadsAmong(id, others, k)).jobs[id]
  {
    hide After;
    AfterCompose(w, ReadsAmong(id, others, k), others(k));
    ForeignKeepsJob(After(w, ReadsAmong(id, others, k)), id, others(k));
  }

  /** In any interleaving, the job is the trace of what its reads see. */
  lemma {:induction false} TraceAmong(w: World, id: nat, others: nat -> seq<Action>, k: nat)
    requires id in w.jobs && forall i: nat :: Foreign(id, others(i))
    ensures id in After(w, ReadsAmong(id, others, k)).jobs
    ensures After(w, ReadsAmong(id, others, k)).jobs[id] == Trace(w.jobs[id], ScenesOf(w, id, others), 0, k)
  {
    hide Advance, WorldAt, After, Foreign;
    if k == 0 {
      NoReads(w, id, others);
    } else {
      TraceAmong(w, id, others, k - 1);
      TraceNext(w.jobs[id], ScenesOf(w, id, others), 0, k - 1);
      MeanwhileKeepsJob(w, id, others, k - 1);
      NextRead(w, id, others, k - 1);
    }
  }

  lemma NoReads(w: World, id: nat, others: nat -> seq<Action>)
    ensures After(w, ReadsAmong(id, others, 0)) == w
  {
  }

  // ----- The scenes of a run evolve -----

  lemma PublishedIsLater(s: CacheState, p: Staged, queued: bool)
    requires Replace(s, p, queued).Published?
    ensures Later(s, Replace(s, p, queued).state)
  {
    hide RecordAll, ShallowReorged, OverlapsPriorHorizon, MaxRowTime, HorizonTooLow, StagedIsWellFormed;
    assert p.horizon.height in ReplacedRows(s.rows, p).value;
  }

  lemma StepIsLater(w: World, a: Action)
    ensures Later(w.store, Step(w, a).store)
  {
    hide Advance, Replace;
    if a.Publishes? && a.id in w.jobs && w.jobs[a.id].Confirmed?
       && Replace(w.store, w.jobs[a.id].staged, a.queued).Published? {
      PublishedIsLater(w.store, w.jobs[a.id].staged, a.queued);
    }
  }

  lemma LaterTransitive(s: CacheState, s': CacheState, s'': CacheState)
    requires Later(s, s') && Later(s', s'')
    ensures Later(s, s'')
  {
  }

  lemma {:induction false} RunIsLater(w: World, actions: seq<Action>)
    ensures Later(w.store, After(w, actions).store)
  {
    hide Step, Later;
    if actions != [] {
      var init := actions[..|actions| - 1];
      RunIsLater(w, init);
      StepIsLater(After(w, init), actions[|actions| - 1]);
      LaterTransitive(w.store, After(w, init).store, After(w, actions).store);
    } else {
      LaterReflexive(w.store);
    }
  }

  lemma LaterReflexive(s: CacheState)
    ensures Later(s, s)
  {
  }

  lemma {:induction false} WorldsLater(w: World, id: nat, others: nat -> seq<Action>, i: nat, j: nat)
    requires i <= j
    ensures Later(WorldAt(w, id, others, i).store, WorldAt(w, id, others, j).store)
    decreases j
  {
    hide Step, Later, After;
    if i == j {
      LaterReflexive(WorldAt(w, id, others, i).store);
    } else {
      WorldsLater(w, id, others, i, j - 1);
      NextRead(w, id, others, j - 1);
      StepIsLater(WorldAt(w, id, others, j - 1), Advances(id));
      AfterCompose(w, ReadsAmong(id, others, j), others(j));
      RunIsLater(After(w, ReadsAmong(id, others, j)), others(j));
      LaterTransitive(WorldAt(w, id, others, j - 1).store, After(w, ReadsAmong(id, others, j)).store,
                      WorldAt(w, id, others, j).store);
      LaterTransitive(WorldAt(w, id, others, i).store, WorldAt(w, id, others, j - 1).store,
                      WorldAt(w, id, others, j).store);
    }
  }

  /** What the reads of a refresh see, in a run from any reachable world, is what `Evolves` allows. */
  lemma RunScenesEvolve(w: World, before: seq<Action>, id: nat, others: nat -> seq<Action>)
    requires Initial(w)
    ensures Evolves(ScenesOf(After(w, before), id, others))
  {
    hide Step, Later, Ok, WorldAt, Inv;
    var w1 := After(w, before);
    forall i: nat ensures Ok(ScenesOf(w1, id, others)(i).store) {
      WorldOk(w, before, id, others, i);
    }
    forall i: nat, j: nat | i <= j
      ensures Later(ScenesOf(w1, id, others)(i).store, ScenesOf(w1, id, others)(j).store)
    {
      WorldsLater(w1, id, others, i, j);
    }
  }

  lemma WorldOk(w: World, before: seq<Action>, id: nat, others: nat -> seq<Action>, i: nat)
    requires Initial(w)
    ensures Ok(WorldAt(After(w, before), id, others, i).store)
  {
    hide Ok, JobOk, After;
    var more := ReadsAmong(id, others, i) + others(i);
    AfterCompose(w, before, more);
    RunKeepsInv(w, before + more);
  }

  // ----- A refresh on its own -----

  /** Core is at `view(i)` for the read numbered `i`, and nobody else acts. */
  function Moves(view: nat -> Block): nat -> seq<Action> {
    (i: nat) => [CoreMoves(view(i))]
  }

  function Alone(view: nat -> Block, s: CacheState): nat -> Scene {
    (i: nat) => Scene(view(i), s)
  }

  lemma {:induction false} AloneIsRun(w: World, id: nat, view: nat -> Block, k: nat)
    requires id in w.jobs
    ensures After(w, ReadsAmong(id, Moves(view), k)) ==
            World(if k == 0 then w.core else view(k - 1), w.store,
                  w.jobs[id := Trace(w.jobs[id], Alone(view, w.store), 0, k)])
  {
    hide Advance, After;
    if k > 0 {
      AloneIsRun(w, id, view, k - 1);
      TraceNext(w.jobs[id], Alone(view, w.store), 0, k - 1);
      var init := ReadsAmong(id, Moves(view), k - 1);
      assert ReadsAmong(id, Moves(view), k) == init + [CoreMoves(view(k - 1)), Advances(id)];
      AfterCompose(w, init, [CoreMoves(view(k - 1)), Advances(id)]);
      AfterTwo(After(w, init), CoreMoves(view(k - 1)), Advances(id));
    } else {
      NoReads(w, id, Moves(view));
      assert w.jobs[id := w.jobs[id]] == w.jobs;
    }
  }

  /** An attempt that confirms its snapshot after `k` reads, and publishes it. */
  ghost function AttemptActions(id: nat, view: nat -> Block, k: nat): seq<Action> {
    ReadsAmong(id, Moves(view), k) + [Publishes(id, false)]
  }

  lemma AttemptIsRun(w: World, id: nat, view: nat -> Block, k: nat, r: Reads, p: Staged)
    requires id in w.jobs && w.jobs[id] == Idle(r.live) && k > 0
    requires Trace(Idle(r.live), Alone(view, w.store), 0, k) == Confirmed(r, p)
    requires Replace(w.store, p, false).Published?
    ensures After(w, AttemptActions(id, view, k)) == World(view(k - 1), Replace(w.store, p, false).state, w.jobs)
  {
    hide Trace, ReadsAmong, After, Replace;
    AloneIsRun(w, id, view, k);
    var trace := ReadsAmong(id, Moves(view), k);
    AfterCompose(w, trace, [Publishes(id, false)]);
    AfterOne(After(w, trace), Publishes(id, false));
    assert w.jobs[id := Confirmed(r, p)][id := Idle(r.live)] == w.jobs;
  }
}
