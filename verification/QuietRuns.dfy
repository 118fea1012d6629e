/**
 Runs of the refresh protocol while Core stands still: any number of live refreshes, in any
 interleaving, with aborts and recheck passes.
 */
module QuietRuns {
  import opened Prelude
  import opened NbitsTable
  import opened Chain
  import opened HeaderStore
  import opened CacheShape
  import opened RefreshProtocol
  import opened RefreshTraces
  import opened ColdStart

  ghost predicate CoreStands(w: World, actions: seq<Action>) {
    forall i :: 0 <= i < |actions| && actions[i].CoreMoves? ==> actions[i].next == w.core
  }

  ghost predicate ColdAndLive(w: World) {
    w.store == NO_HEADERS && forall id :: id in w.jobs ==> w.jobs[id] == Idle(true)
  }

  /** The two caches differ at most in their recheck bookkeeping. */
  ghost predicate SameCache(s: CacheState, s': CacheState) {
    s.(recheck := s'.recheck) == s'
  }

  // ----- A quiet refresh is a run -----

  ghost function QuietActions(id: nat, core: Block, s: CacheState): seq<Action> {
    AttemptActions(id, Still(core), FinalsToFetch(QuietReads(core, s, true)) + 10)
  }

  lemma {:induction false} ReadsStand(w: World, id: nat, k: nat)
    ensures CoreStands(w, ReadsAmong(id, Moves(Still(w.core)), k))
  {
    if k > 0 {
      ReadsStand(w, id, k - 1);
      StandsLonger(w, id, ReadsAmong(id, Moves(Still(w.core)), k - 1));
      assert ReadsAmong(id, Moves(Still(w.core)), k) ==
             ReadsAmong(id, Moves(Still(w.core)), k - 1) + [CoreMoves(w.core), Advances(id)];
    }
  }

  lemma StandsLonger(w: World, id: nat, actions: seq<Action>)
    requires CoreStands(w, actions)
    ensures CoreStands(w, actions + [CoreMoves(w.core), Advances(id)])
  {
  }

  /** A quiet refresh from any well-formed cache, when its publication is accepted. */
  lemma QuietAttemptIsRun(w: World, id: nat)
    requires id in w.jobs && w.jobs[id] == Idle(true) && Ok(w.store)
    requires Replace(w.store, QuietStaged(w.core, w.store, true), false).Published?
    ensures CoreStands(w, QuietActions(id, w.core, w.store))
    ensures After(w, QuietActions(id, w.core, w.store)) ==
            w.(store := Replace(w.store, QuietStaged(w.core, w.store, true), false).state)
  {
    hide After, Ok, Replace, FinalsToFetch, QuietStaged, Trace, ReadsAmong;
    var k := FinalsToFetch(QuietReads(w.core, w.store, true)) + 10;
    ReadsStand(w, id, k);
    assert QuietActions(id, w.core, w.store) == ReadsAmong(id, Moves(Still(w.core)), k) + [Publishes(id, false)];
    QuietConfirms(w.core, w.store, true);
    AttemptIsRun(w, id, Still(w.core), k, QuietReads(w.core, w.store, true), QuietStaged(w.core, w.store, true));
  }

  lemma QuietRefreshIsRun(w: World, id: nat)
    requires id in w.jobs && w.jobs[id] == Idle(true) && CachedFrom(w.store, w.core)
    ensures CoreStands(w, QuietActions(id, w.core, w.store))
    ensures After(w, QuietActions(id, w.core, w.store)) == w.(store := Refreshed(w.core, w.store))
  {
    hide After, Ok, Replace, QuietActions, QuietStaged;
    QuietPublishes(w.core, w.store, true);
    QuietAttemptIsRun(w, id);
  }

  /** For every `k` there is a run from cold with `k` publications, Core standing still throughout. */
  lemma {:induction false} ColdStartIsRun(w: World, id: nat, k: nat) returns (actions: seq<Action>)
    requires ColdAndLive(w) && id in w.jobs
    ensures CoreStands(w, actions)
    ensures After(w, actions) == w.(store := QuietStart(w.core, k))
  {
    hide QuietActions, CachedFrom, Refreshed;
    if k == 0 {
      actions := [];
    } else {
      var init := ColdStartIsRun(w, id, k - 1);
      var w1 := After(w, init);
      QuietRefreshIsRun(w1, id);
      actions := init + QuietActions(id, w1.core, w1.store);
      AfterCompose(w, init, QuietActions(id, w1.core, w1.store));
    }
  }

  // ----- Every run while Core stands still -----

  /** What a live refresh can have read from a Core standing at `core`. */
  ghost predicate StillJob(j: Job, core: Block) {
    match j
    case Idle(live) => live
    case TipRead(live, tip) => live && tip == Height(core)
    case RevisionRead(live, tip, _) => live && tip == Height(core)
    case HighestRead(live, tip, _, _) => live && tip == Height(core)
    case PriorRead(r) => r.live && r.tip == Height(core)
    case Gathering(r, opening, stage, reorged, finals, shallow) =>
      && StillReads(r, core) && opening == HeaderAt(core, HorizonHeight(r))
      && reorged == (!stage.CheckPrior? && PriorMoved(core, r))
      && |finals| <= FinalsToFetch(r) && finals == QuietFinals(core, r, |finals|)
      && (stage.FetchShallow? || stage.RecheckTip? || stage.RecheckHorizon? ==> |finals| == FinalsToFetch(r))
      && shallow == (if stage.RecheckTip? || stage.RecheckHorizon? then QuietShallow(core, r) else None)
    case Confirmed(r, p) => StillReads(r, core) && p == QuietStagedBy(core, r)
  }

  ghost predicate StillReads(r: Reads, core: Block) {
    && r.live && r.tip == Height(core)
    && HighestOk(r.highest) && 0 <= HorizonHeight(r) <= Height(core)
    && (r.prior.Some? ==> Genuine(r.prior.value))
  }

  lemma StillGathering(j: Job, core: Block)
    requires j.Gathering? && StillJob(j, core)
    ensures StillJob(AdvanceGathering(j, core), core)
  {
    hide FinalsToFetch, NextEpoch, HorizonHeight, EpochStart;
    var r := j.seen;
    if j.stage.FetchFinals? && |j.finals| < FinalsToFetch(r) {
      QuietFetch(core, r, |j.finals|);
      assert j == QuietGathering(core, r, |j.finals|);
    }
  }

  lemma StillAdvance(j: Job, core: Block, s: CacheState)
    requires Ok(s) && JobOk(j, s) && StillJob(j, core)
    ensures StillJob(Advance(j, core, s), core)
  {
    hide Ok, AdvanceGathering, FinalsToFetch, PriorMoved, QuietShallow;
    if j.Gathering? {
      StillGathering(j, core);
    } else if j.PriorRead? {
      assert QuietFinals(core, j.seen, 0) == [];
    }
  }

  /** A still publication does what one quiet refresh does. */
  lemma StillPublishes(w: World, id: nat, queued: bool)
    requires Inv(w) && CachedFrom(w.store, w.core)
    requires id in w.jobs && w.jobs[id].Confirmed? && StillJob(w.jobs[id], w.core)
    requires Replace(w.store, w.jobs[id].staged, queued).Published?
    ensures Replace(w.store, w.jobs[id].staged, queued).state == Refreshed(w.core, w.store)
  {
    hide Ok, Conforms, ReplacedRows, NextState, QuietStagedBy;
    PublishSawCurrentStore(w, id, queued);
    assert w.jobs[id].seen == QuietReads(w.core, w.store, true);
  }

  lemma RefreshForgetsRecheck(core: Block, s: CacheState, s': CacheState)
    requires CachedFrom(s, core) && SameCache(s, s')
    ensures CachedFrom(s', core) && SameCache(Refreshed(core, s), Refreshed(core, s'))
  {
    hide Ok, FinalsToFetch, ShallowReorged, OverlapsPriorHorizon, MaxRowTime, RecordAll, HighestFinal, HorizonRow;
    SameCacheOk(s, s');
    QuietPublishes(core, s, true);
    QuietPublishes(core, s', true);
  }

  lemma SameCacheOk(s: CacheState, s': CacheState)
    requires Ok(s) && SameCache(s, s')
    ensures Ok(s')
  {
    hide Shaped;
  }

  /** The store is where that many quiet refreshes from empty would leave it. */
  ghost predicate StillInv(w: World, core: Block) {
    && w.core == core && Inv(w)
    && (forall id :: id in w.jobs ==> StillJob(w.jobs[id], core))
    && SameCache(QuietStart(core, w.store.revision), w.store)
  }

  lemma StillStep(w: World, a: Action)
    requires StillInv(w, w.core) && (a.CoreMoves? ==> a.next == w.core)
    ensures StillInv(Step(w, a), w.core)
  {
    hide Ok, StillJob, JobOk, Advance, Replace, SameCache, QuietStart, Refreshed;
    StepKeepsInv(w, a);
    match a
    case CoreMoves(_) =>
    case Advances(id) =>
      if id in w.jobs {
        StillAdvance(w.jobs[id], w.core, w.store);
      }
    case Aborts(id) =>
      if id in w.jobs {
        StillAborts(w.jobs[id], w.core);
      }
    case Publishes(id, queued) =>
      if id in w.jobs && w.jobs[id].Confirmed? {
        StillAborts(w.jobs[id], w.core);
        if Replace(w.store, w.jobs[id].staged, queued).Published? {
          StillPublished(w, id, queued);
        }
      }
    case BindsPass => SameRecheck(w.core, w.store, PassBound(w.store.recheck));
    case EndsPass => SameRecheck(w.core, w.store, PassAcknowledged(w.store.recheck));
  }

  lemma StillAborts(j: Job, core: Block)
    requires StillJob(j, core)
    ensures JobLive(j) && StillJob(Idle(true), core)
  {
  }

  lemma SameRecheck(core: Block, s: CacheState, recheck: Recheck)
    requires SameCache(QuietStart(core, s.revision), s)
    ensures SameCache(QuietStart(core, s.revision), s.(recheck := recheck))
  {
    hide QuietStart;
  }

  lemma StillPublished(w: World, id: nat, queued: bool)
    requires StillInv(w, w.core) && id in w.jobs && w.jobs[id].Confirmed?
    requires Replace(w.store, w.jobs[id].staged, queued).Published?
    ensures var s' := Replace(w.store, w.jobs[id].staged, queued).state;
            s'.revision == w.store.revision + 1 && SameCache(QuietStart(w.core, s'.revision), s')
  {
    hide Ok, StillJob, JobOk, Replace, Refreshed, CachedFrom;
    var s := QuietStart(w.core, w.store.revision);
    RefreshForgetsRecheck(w.core, s, w.store);
    StillPublishes(w, id, queued);
    PublishedRevisionRises(w.store, w.jobs[id].staged, queued);
    assert QuietStart(w.core, w.store.revision + 1) == Refreshed(w.core, s);
  }

  lemma PublishedRevisionRises(s: CacheState, p: Staged, queued: bool)
    requires Replace(s, p, queued).Published?
    ensures Replace(s, p, queued).state.revision == s.revision + 1
  {
  }

  /** Whatever the interleaving, only the number of publications matters. */
  lemma {:induction false} EveryStillRun(w: World, actions: seq<Action>)
    requires ColdAndLive(w) && CoreStands(w, actions)
    ensures StillInv(After(w, actions), w.core)
  {
    hide Step, SameCache, QuietStart, StillJob, Inv;
    if actions == [] {
      ColdIsStill(w);
    } else {
      var init := actions[..|actions| - 1];
      EveryStillRun(w, init);
      StillStep(After(w, init), actions[|actions| - 1]);
    }
  }

  lemma ColdIsStill(w: World)
    requires ColdAndLive(w)
    ensures StillInv(w, w.core)
  {
    InitialInv(w);
    assert QuietStart(w.core, 0) == NO_HEADERS;
  }

  /**
   In every run from cold in which Core stands still and the refreshes are live, however they
   interleave: the cached horizon is Core's tip if and only if `RefreshesToTip` publications
   have been made.
   */
  lemma StillRunReachesTip(w: World, actions: seq<Action>)
    requires ColdAndLive(w) && CoreStands(w, actions)
    ensures var s := After(w, actions).store;
            HorizonRow(s.rows) == Some(HeaderAt(w.core, Height(w.core))) <==>
              s.revision >= RefreshesToTip(Height(w.core))
  {
    hide QuietStart, HorizonRow, After, RefreshesToTip, HeaderAt, ColdAndLive, CoreStands;
    StillRunRows(w, actions);
    QuietReachesTip(w.core, After(w, actions).store.revision);
  }

  lemma QuietReachesTip(core: Block, k: nat)
    ensures HorizonRow(QuietStart(core, k).rows) == Some(HeaderAt(core, Height(core))) <==> k >= RefreshesToTip(Height(core))
  {
    hide QuietStart, HorizonRow, RefreshesToTip, HeaderAt;
    if k > 0 {
      ColdStartReachesTip(core, k);
    } else {
      ColdHasNoHorizon(core);
    }
  }

  lemma StillRunRows(w: World, actions: seq<Action>)
    requires ColdAndLive(w) && CoreStands(w, actions)
    ensures After(w, actions).store.rows == QuietStart(w.core, After(w, actions).store.revision).rows
  {
    hide Inv, StillJob, QuietStart, After;
    EveryStillRun(w, actions);
    var s := After(w, actions).store;
    SameCacheRows(QuietStart(w.core, s.revision), s);
  }

  lemma SameCacheRows(s: CacheState, s': CacheState)
    requires SameCache(s, s')
    ensures s.rows == s'.rows && s.revision == s'.revision
  {
  }

  lemma ColdHasNoHorizon(core: Block)
    ensures HorizonRow(QuietStart(core, 0).rows) == None && RefreshesToTip(Height(core)) > 0
  {
    assert QuietStart(core, 0) == NO_HEADERS;
  }
}
