/**
 How far one live refresh gets, and how many it takes: batches of 25 final boundaries, and a
 bound on the refreshes that leave a bootstrap pending.
 */
module ColdStart {
  import opened Prelude
  import opened NbitsTable
  import opened Chain
  import opened HeaderStore
  import opened CacheShape
  import opened RefreshProtocol
  import opened RefreshSafety
  import opened RefreshTraces

  // ----- One batch -----

  /** A live refresh fetches at most 25 final boundaries, and exactly 25 when it stops short of the tip. */
  lemma LiveBatch(r: Reads)
    requires HighestOk(r.highest) && r.live
    ensures FinalsToFetch(r) <= BATCH
    ensures HorizonHeight(r) < r.tip ==>
              && FinalsToFetch(r) == BATCH
              && !ShallowToFetch(r)
              && FinalEpochOf(HorizonHeight(r)) == NextEpoch(r.highest) + (BATCH - 1) * EPOCH
  {
  }

  // ----- Batches over a run -----

  /** Action `a` publishes a live snapshot whose horizon is below the tip it read. */
  ghost predicate PublishesShort(w: World, a: Action) {
    && a.Publishes? && a.id in w.jobs && w.jobs[a.id].Confirmed?
    && Replace(w.store, w.jobs[a.id].staged, a.queued).Published?
    && w.jobs[a.id].seen.live
    && HorizonHeight(w.jobs[a.id].seen) < w.jobs[a.id].seen.tip
  }

  ghost predicate PublishesLive(w: World, a: Action) {
    && a.Publishes? && a.id in w.jobs && w.jobs[a.id].Confirmed?
    && Replace(w.store, w.jobs[a.id].staged, a.queued).Published?
    && w.jobs[a.id].seen.live
  }

  lemma StepFinals(w: World, a: Action)
    requires Inv(w)
    ensures FinalCount(w.store) <= FinalCount(Step(w, a).store)
    ensures PublishesLive(w, a) ==> FinalCount(Step(w, a).store) <= FinalCount(w.store) + BATCH
    ensures PublishesShort(w, a) ==> FinalCount(Step(w, a).store) == FinalCount(w.store) + BATCH
    ensures PublishesLive(w, a) && !PublishesShort(w, a) ==>
              && HorizonRow(Step(w, a).store.rows).Some?
              && HorizonRow(Step(w, a).store.rows).value.height == w.jobs[a.id].seen.tip
  {
    hide Shaped, Conforms, Replace, PublishedRows, NewFinals, AdvanceGathering;
    if a.Publishes? && a.id in w.jobs && w.jobs[a.id].Confirmed?
       && Replace(w.store, w.jobs[a.id].staged, a.queued).Published? {
      var r := w.jobs[a.id].seen;
      assert JobOk(w.jobs[a.id], w.store);
      PublishSawCurrentStore(w, a.id, a.queued);
      PublicationEffect(w.store, w.jobs[a.id].staged, a.queued);
      PlanInEpochs(r);
      ShapedHighestFinal(w.store.rows, FinalCount(w.store), BoundaryCount(w.store));
      if r.live {
        LiveBatch(r);
      }
    }
  }

  /** How many publications of the run stopped short of their tip. */
  ghost function ShortPublications(w: World, actions: seq<Action>): nat {
    if actions == [] then 0
    else
      var init := actions[..|actions| - 1];
      ShortPublications(w, init) + if PublishesShort(After(w, init), actions[|actions| - 1]) then 1 else 0
  }

  lemma {:induction false} ShortPublicationsRaiseFinals(w: World, actions: seq<Action>)
    requires Initial(w)
    ensures BATCH * ShortPublications(w, actions) <= FinalCount(After(w, actions).store)
  {
    if actions != [] {
      var init := actions[..|actions| - 1];
      ShortPublicationsRaiseFinals(w, init);
      RunKeepsInv(w, init);
      StepFinals(After(w, init), actions[|actions| - 1]);
    }
  }

  /** Every tip the run's Core ever had is at most `limit` high. */
  ghost predicate TipsAtMost(w: World, actions: seq<Action>, limit: nat) {
    forall i :: 0 <= i <= |actions| ==> Height(Moment(w, actions, i).core) <= limit
  }

  ghost predicate JobTipAtMost(j: Job, limit: nat) {
    match j
    case Idle(_) => true
    case TipRead(_, tip) => tip <= limit
    case RevisionRead(_, tip, _) => tip <= limit
    case HighestRead(_, tip, _, _) => tip <= limit
    case PriorRead(r) => r.tip <= limit
    case Gathering(r, _, _, _, _, _) => r.tip <= limit
    case Confirmed(r, _) => r.tip <= limit
  }

  ghost predicate Below(w: World, limit: nat) {
    && (forall id :: id in w.jobs ==> JobTipAtMost(w.jobs[id], limit))
    && (FinalCount(w.store) > 0 ==> EPOCH * (FinalCount(w.store) - 1) + REORG_SAFE_DEPTH <= limit)
  }

  lemma AdvanceKeepsTip(j: Job, core: Block, s: CacheState, limit: nat)
    requires JobTipAtMost(j, limit) && Height(core) <= limit
    ensures JobTipAtMost(Advance(j, core, s), limit)
  {
  }

  lemma StepBelow(w: World, a: Action, limit: nat)
    requires Inv(w) && Below(w, limit) && Height(w.core) <= limit
    ensures Below(Step(w, a), limit)
  {
    hide Shaped, Conforms, Replace, PublishedRows, NewFinals, ReadsOk, Advance;
    if a.Advances? && a.id in w.jobs {
      AdvanceKeepsTip(w.jobs[a.id], w.core, w.store, limit);
    }
    if a.Publishes? && a.id in w.jobs && w.jobs[a.id].Confirmed?
       && Replace(w.store, w.jobs[a.id].staged, a.queued).Published? {
      var p := w.jobs[a.id].staged;
      assert JobOk(w.jobs[a.id], w.store) && JobTipAtMost(w.jobs[a.id], limit);
      PublishSawCurrentStore(w, a.id, a.queued);
      PublicationEffect(w.store, p, a.queued);
      NewFinalsBuried(FinalCount(w.store), p.horizon.height);
    }
  }

  lemma NewFinalsBuried(n: nat, h: int)
    ensures NewFinals(n, h) > 0 ==> EPOCH * (n + NewFinals(n, h) - 1) + REORG_SAFE_DEPTH <= h
  {
  }

  lemma {:induction false} RunBelow(w: World, actions: seq<Action>, i: nat, limit: nat)
    requires Initial(w) && i <= |actions| && TipsAtMost(w, actions, limit)
    ensures Below(Moment(w, actions, i), limit)
  {
    if i == 0 {
      InitialInv(w);
      ShapedHighestFinal(w.store.rows, 0, 0);
    } else {
      RunBelow(w, actions, i - 1, limit);
      RunKeepsInv(w, actions[..i - 1]);
      NextMoment(w, actions, i - 1);
      assert Height(Moment(w, actions, i - 1).core) <= limit;
      StepBelow(Moment(w, actions, i - 1), actions[i - 1], limit);
    }
  }

  /**
   In every run from an empty cache, at most (limit + 2016) / 50,400 live publications leave the
   bootstrap pending, where `limit` bounds the tips.
   */
  lemma BootstrapPendingIsBounded(w: World, actions: seq<Action>, limit: nat)
    requires Initial(w) && TipsAtMost(w, actions, limit)
    ensures ShortPublications(w, actions) <= (limit + EPOCH) / (BATCH * EPOCH)
  {
    ShortPublicationsRaiseFinals(w, actions);
    RunBelow(w, actions, |actions|, limit);
    assert actions[..|actions|] == actions;
  }

  // ----- A quiet cold start -----

  /** What a refresh stages while Core stands still at `core`. */
  ghost function QuietReads(core: Block, s: CacheState, live: bool): Reads {
    Reads(live, Height(core), s.revision, HighestFinal(s.rows), HorizonRow(s.rows))
  }

  /** Core at `core` for every read. */
  function Still(core: Block): nat -> Block {
    (_: nat) => core
  }

  /** Every cached row is the block Core serves at its height, and no final row is above the tip. */
  ghost predicate CachedFrom(s: CacheState, core: Block) {
    && Ok(s)
    && (forall k :: k in s.rows && s.rows[k].isFinal ==> 0 <= k <= Height(core) && s.rows[k].header == HeaderAt(core, k))
  }

  /** What a still Core serves for the `i`th boundary of the plan. */
  ghost function QuietFinal(core: Block, r: Reads, i: nat): CoreHeader
    requires HighestOk(r.highest)
    requires i < FinalsToFetch(r) && HorizonHeight(r) <= Height(core)
  {
    assert 0 <= NextEpoch(r.highest) + EPOCH * i <= HorizonHeight(r);
    HeaderAt(core, NextEpoch(r.highest) + EPOCH * i)
  }

  ghost function QuietFinals(core: Block, r: Reads, count: nat): (f: seq<CoreHeader>)
    requires HighestOk(r.highest)
    requires count <= FinalsToFetch(r) && HorizonHeight(r) <= Height(core)
    ensures |f| == count && forall i :: 0 <= i < count ==> f[i] == QuietFinal(core, r, i)
  {
    seq(count, i requires 0 <= i < count => QuietFinal(core, r, i))
  }

  ghost function QuietShallow(core: Block, r: Reads): Option<CoreHeader>
    requires 0 <= HorizonHeight(r) <= Height(core)
  {
    if ShallowToFetch(r) then Some(HeaderAt(core, EpochStart(HorizonHeight(r)))) else None
  }

  ghost function PriorMoved(core: Block, r: Reads): bool
    requires r.prior.Some? ==> Genuine(r.prior.value)
    requires HorizonHeight(r) <= Height(core)
  {
    r.prior.Some? && r.prior.value.height < HorizonHeight(r)
    && HeaderAt(core, r.prior.value.height).hash != r.prior.value.hash
  }

  lemma QuietHorizon(core: Block, s: CacheState, live: bool)
    requires Ok(s)
    ensures var r := QuietReads(core, s, live);
            HighestOk(r.highest) && 0 <= HorizonHeight(r) <= Height(core)
            && (r.prior.Some? ==> Genuine(r.prior.value))
  {
    OkReads(s);
  }

  ghost function QuietGathering(core: Block, r: Reads, count: nat): Job
    requires HighestOk(r.highest) && 0 <= HorizonHeight(r) <= Height(core)
    requires r.prior.Some? ==> Genuine(r.prior.value)
    requires count <= FinalsToFetch(r)
  {
    Gathering(r, HeaderAt(core, HorizonHeight(r)), FetchFinals, PriorMoved(core, r),
              QuietFinals(core, r, count), None)
  }

  lemma QuietServes(core: Block, r: Reads, i: nat)
    requires HighestOk(r.highest) && 0 <= HorizonHeight(r) <= Height(core)
    requires i < FinalsToFetch(r)
    ensures CanonicalHeader(core, NextEpoch(r.highest) + EPOCH * i) == Some(QuietFinal(core, r, i))
  {
    FetchHeightsBelowHorizon(r, i);
    hide FinalsToFetch, NextEpoch, HorizonHeight;
  }

  lemma FinalFetched(j: Job, core: Block, header: CoreHeader)
    requires j.Gathering? && j.stage.FetchFinals? && |j.finals| < FinalsToFetch(j.seen)
    requires CanonicalHeader(core, NextEpoch(j.seen.highest) + EPOCH * |j.finals|) == Some(header)
    ensures AdvanceGathering(j, core) == j.(finals := j.finals + [header])
  {
    hide FinalsToFetch, NextEpoch, CanonicalHeader;
  }

  lemma QuietFinalsGrow(core: Block, r: Reads, count: nat)
    requires HighestOk(r.highest) && HorizonHeight(r) <= Height(core) && count < FinalsToFetch(r)
    ensures QuietFinals(core, r, count) + [QuietFinal(core, r, count)] == QuietFinals(core, r, count + 1)
  {
    hide FinalsToFetch, NextEpoch, HorizonHeight, QuietFinal;
  }

  lemma QuietFetch(core: Block, r: Reads, count: nat)
    requires HighestOk(r.highest) && 0 <= HorizonHeight(r) <= Height(core)
    requires r.prior.Some? ==> Genuine(r.prior.value)
    requires count < FinalsToFetch(r)
    ensures AdvanceGathering(QuietGathering(core, r, count), core) == QuietGathering(core, r, count + 1)
  {
    hide FinalsToFetch, NextEpoch, HorizonHeight, QuietFinal, QuietFinals, CanonicalHeader, PriorMoved, AdvanceGathering;
    QuietServes(core, r, count);
    FinalFetched(QuietGathering(core, r, count), core, QuietFinal(core, r, count));
    QuietFinalsGrow(core, r, count);
  }

  ghost function QuietStagedBy(core: Block, r: Reads): Staged
    requires HighestOk(r.highest) && 0 <= HorizonHeight(r) <= Height(core)
    requires r.prior.Some? ==> Genuine(r.prior.value)
  {
    StagedOf(r, HeaderAt(core, HorizonHeight(r)), PriorMoved(core, r),
             QuietFinals(core, r, FinalsToFetch(r)), QuietShallow(core, r))
  }

  ghost function QuietStaged(core: Block, s: CacheState, live: bool): Staged
    requires Ok(s)
  {
    QuietHorizon(core, s, live);
    QuietStagedBy(core, QuietReads(core, s, live))
  }

  /** With Core and the store standing still, the refresh confirms its snapshot. */
  lemma QuietConfirms(core: Block, s: CacheState, live: bool)
    requires Ok(s)
    ensures var r := QuietReads(core, s, live);
            Trace(Idle(live), Alone(Still(core), s), 0, FinalsToFetch(r) + 10) == Confirmed(r, QuietStaged(core, s, live))
  {
    hide Trace, FinalsToFetch, ShallowToFetch, HorizonHeight, EpochStart, NextEpoch;
    var r := QuietReads(core, s, live);
    QuietHorizon(core, s, live);
    var scenes := Alone(Still(core), s);
    var opening, reorged := HeaderAt(core, HorizonHeight(r)), PriorMoved(core, r);
    OpeningTrace(scenes, r, opening, reorged);
    var finals := QuietFinals(core, r, FinalsToFetch(r));
    forall i | 0 <= i < |finals| ensures Served(scenes, 6, NextEpoch(r.highest), i) == Some(finals[i]) {
      QuietServes(core, r, i);
    }
    StagedTrace(scenes, live, 6, r, opening, reorged, finals, 4);
    FetchHeightsBelowHorizon(r, 0);
    ClosingTrace(scenes, 6 + |finals|, r, opening, reorged, finals);
  }

  lemma QuietConforms(core: Block, s: CacheState, live: bool, r: Reads, p: Staged)
    requires Ok(s) && r == QuietReads(core, s, live) && p == QuietStaged(core, s, live)
    ensures Conforms(FinalCount(s), p)
    ensures FinalsUpTo(r.highest) == FinalCount(s) && HighestOk(r.highest)
    ensures p.horizon.height == HorizonHeight(r) && 0 <= HorizonHeight(r) <= Height(core)
    ensures p.horizon == HeaderAt(core, HorizonHeight(r))
  {
    QuietHorizon(core, s, live);
    ShapedHighestFinal(s.rows, FinalCount(s), BoundaryCount(s));
    StagedByConforms(core, r);
  }

  lemma StagedByConforms(core: Block, r: Reads)
    requires HighestOk(r.highest) && 0 <= HorizonHeight(r) <= Height(core)
    requires r.prior.Some? ==> Genuine(r.prior.value)
    ensures FinalsUpTo(r.highest) >= 0 && Conforms(FinalsUpTo(r.highest), QuietStagedBy(core, r))
  {
    PlanInEpochs(r);
    var finals := QuietFinals(core, r, FinalsToFetch(r));
    forall i | 0 <= i < |finals|
      ensures finals[i].height == NextEpoch(r.highest) + EPOCH * i && Genuine(finals[i])
    {
      assert 0 <= NextEpoch(r.highest) + EPOCH * i <= HorizonHeight(r);
    }
  }

  lemma ConformsIsWellFormed(n: nat, p: Staged)
    requires Conforms(n, p)
    ensures StagedIsWellFormed(p)
  {
    forall i | 0 <= i < |p.finals| ensures IsBoundary(p.finals[i].height) && p.finals[i].height <= p.finalEpoch {
      assert p.finals[i].height == EPOCH * (n + i);
    }
  }

  lemma QuietHorizonHigh(core: Block, s: CacheState, live: bool)
    requires CachedFrom(s, core)
    ensures !HorizonTooLow(s.rows, QuietStaged(core, s, live))
  {
    var highest := HighestFinal(s.rows);
    QuietHorizon(core, s, live);
    if highest.Some? {
      assert highest.value in FinalHeights(s.rows);
    }
  }

  /** A quiet refresh of a cache taken from Core's chain publishes. */
  lemma QuietPublishes(core: Block, s: CacheState, live: bool)
    requires CachedFrom(s, core)
    ensures Replace(s, QuietStaged(core, s, live), false).Published?
  {
    var p := QuietStaged(core, s, live);
    QuietConforms(core, s, live, QuietReads(core, s, live), p);
    ConformsIsWellFormed(FinalCount(s), p);
    QuietHorizonHigh(core, s, live);
    RecordsAgree(s.rows, FinalCount(s), BoundaryCount(s), p);
    QuietShallowIsHorizon(core, QuietReads(core, s, live));
  }

  lemma QuietShallowIsHorizon(core: Block, r: Reads)
    requires 0 <= HorizonHeight(r) <= Height(core)
    ensures var shallow := QuietShallow(core, r);
            shallow.Some? && shallow.value.height == HorizonHeight(r) ==>
              shallow.value == HeaderAt(core, HorizonHeight(r))
  {
  }

  ghost function Refreshed(core: Block, s: CacheState): CacheState
    requires CachedFrom(s, core)
  {
    QuietPublishes(core, s, true);
    Replace(s, QuietStaged(core, s, true), false).state
  }

  /** What one quiet live refresh leaves. */
  lemma RefreshedEffect(core: Block, s: CacheState)
    requires CachedFrom(s, core)
    ensures var s' := Refreshed(core, s); var h := HorizonHeight(QuietReads(core, s, true));
            && CachedFrom(s', core)
            && 0 <= h <= Height(core) && HorizonRow(s'.rows) == Some(HeaderAt(core, h))
            && (h < Height(core) ==> FinalCount(s') == FinalCount(s) + BATCH)
  {
    var p, r := QuietStaged(core, s, true), QuietReads(core, s, true);
    QuietPublishes(core, s, true);
    QuietConforms(core, s, true, r, p);
    PublicationEffect(s, p, false);
    PlanInEpochs(r);
    LiveBatch(r);
    var s' := Refreshed(core, s);
    forall k | k in s'.rows && s'.rows[k].isFinal
      ensures 0 <= k <= Height(core) && s'.rows[k].header == HeaderAt(core, k)
    {
      if !(k in s.rows && s.rows[k].isFinal) {
        QuietFinalRow(core, r, p, s.rows, s'.rows, k);
      }
    }
  }

  lemma QuietFinalRow(core: Block, r: Reads, p: Staged, rows: Rows, rows': Rows, k: int)
    requires HighestOk(r.highest) && 0 <= HorizonHeight(r) <= Height(core)
    requires p.finals == QuietFinals(core, r, FinalsToFetch(r))
    requires PublishedRows(rows, p, rows')
    requires k in rows' && k == rows'[k].header.height && rows'[k].isFinal && !(k in rows && rows[k].isFinal)
    ensures 0 <= k <= Height(core) && rows'[k].header == HeaderAt(core, k)
  {
    FinalRowIsStaged(rows, p, rows', k);
    var f :| 0 <= f < |p.finals| && rows'[k].header == p.finals[f];
    assert 0 <= NextEpoch(r.highest) + EPOCH * f <= HorizonHeight(r);
  }

  /** The cache after `k` live refreshes, each of them quiet, from an empty cache. */
  ghost function QuietStart(core: Block, k: nat): (s: CacheState)
    ensures CachedFrom(s, core)
  {
    if k == 0 then
      StoreOkIsOk(NO_HEADERS, 0, 0);
      NO_HEADERS
    else
      RefreshedEffect(core, QuietStart(core, k - 1));
      Refreshed(core, QuietStart(core, k - 1))
  }

  /** Where the `k`th refresh of a cold start puts the horizon. */
  function ColdStartHorizon(tip: nat, k: nat): int {
    Min(tip, EPOCH * (BATCH * k - 1) + REORG_SAFE_DEPTH)
  }

  lemma FirstHorizon(core: Block)
    ensures HorizonHeight(QuietReads(core, NO_HEADERS, true)) == ColdStartHorizon(Height(core), 1)
    ensures FinalCount(NO_HEADERS) == 0
  {
    assert FinalHeights(NO_HEADERS.rows) == {};
  }

  /** The next refresh of a cache whose horizon is short of the tip after `k` batches, or at the tip. */
  lemma NextHorizon(core: Block, s: CacheState, k: nat)
    requires CachedFrom(s, core) && k > 0
    requires HorizonRow(s.rows).Some?
    requires HorizonRow(s.rows).value.height == ColdStartHorizon(Height(core), k)
    requires ColdStartHorizon(Height(core), k) < Height(core) ==> FinalCount(s) == BATCH * k
    ensures HorizonHeight(QuietReads(core, s, true)) == ColdStartHorizon(Height(core), k + 1)
  {
    var n, m := FinalCount(s), BoundaryCount(s);
    ShapedHighestFinal(s.rows, n, m);
    ShapedTop(s.rows, n, m);
  }

  /** The horizon and the final boundaries after `k` refreshes. */
  ghost predicate ColdStartAt(core: Block, s: CacheState, k: nat) {
    var h := ColdStartHorizon(Height(core), k);
    && 0 <= h <= Height(core)
    && HorizonRow(s.rows) == Some(HeaderAt(core, h))
    && (h < Height(core) ==> FinalCount(s) == BATCH * k)
  }

  lemma RefreshedAt(core: Block, s: CacheState, k: nat)
    requires CachedFrom(s, core)
    requires HorizonHeight(QuietReads(core, s, true)) == ColdStartHorizon(Height(core), k + 1)
    requires ColdStartHorizon(Height(core), k + 1) < Height(core) ==> FinalCount(s) == BATCH * k
    ensures ColdStartAt(core, Refreshed(core, s), k + 1)
  {
    RefreshedEffect(core, s);
  }

  lemma ColdStartFirst(core: Block)
    requires CachedFrom(NO_HEADERS, core)
    ensures ColdStartAt(core, Refreshed(core, NO_HEADERS), 1)
  {
    FirstHorizon(core);
    RefreshedAt(core, NO_HEADERS, 0);
  }

  lemma ColdStartNext(core: Block, s: CacheState, k: nat)
    requires CachedFrom(s, core) && k > 0 && ColdStartAt(core, s, k)
    ensures ColdStartAt(core, Refreshed(core, s), k + 1)
  {
    NextHorizon(core, s, k);
    RefreshedAt(core, s, k);
  }

  lemma {:induction false} ColdStartStep(core: Block, k: nat)
    requires k > 0
    ensures ColdStartAt(core, QuietStart(core, k), k)
  {
    if k == 1 {
      assert QuietStart(core, 0) == NO_HEADERS;
      ColdStartFirst(core);
    } else {
      ColdStartStep(core, k - 1);
      ColdStartNext(core, QuietStart(core, k - 1), k - 1);
    }
  }

  /** How many refreshes a cold start needs: one per 25 epochs below the reorg-safe depth. */
  function RefreshesToTip(tip: nat): nat {
    (tip + EPOCH - REORG_SAFE_DEPTH + BATCH * EPOCH - 1) / (BATCH * EPOCH)
  }

  /**
   A cold start against an unchanging Core has its horizon at the tip after `RefreshesToTip` live
   refreshes, for every tip height, and not one refresh earlier.
   */
  lemma ColdStartReachesTip(core: Block, k: nat)
    requires k > 0
    ensures HorizonRow(QuietStart(core, k).rows) == Some(HeaderAt(core, Height(core))) <==>
              k >= RefreshesToTip(Height(core))
  {
    ColdStartStep(core, k);
    var h := ColdStartHorizon(Height(core), k);
    assert h == Height(core) <==> k >= RefreshesToTip(Height(core));
  }

  // ----- Convergence on a moving Core -----

  /** Where a live publication puts the horizon, in terms of the cache it replaces. */
  lemma LivePublicationHorizon(w: World, a: Action)
    requires Inv(w) && PublishesLive(w, a)
    ensures var s' := Step(w, a).store;
            && HorizonRow(s'.rows).Some?
            && HorizonRow(s'.rows).value.height ==
               Min(w.jobs[a.id].seen.tip, EPOCH * (FinalCount(w.store) + BATCH - 1) + REORG_SAFE_DEPTH)
  {
    hide Shaped, Conforms, Replace, PublishedRows, NewFinals, JobOk;
    var r := w.jobs[a.id].seen;
    ConfirmedHorizon(w, a.id);
    PublishSawCurrentStore(w, a.id, a.queued);
    PublicationEffect(w.store, w.jobs[a.id].staged, a.queued);
    PlanInEpochs(r);
    ShapedHighestFinal(w.store.rows, FinalCount(w.store), BoundaryCount(w.store));
  }

  lemma ConfirmedHorizon(w: World, id: nat)
    requires Inv(w) && id in w.jobs && w.jobs[id].Confirmed?
    ensures HighestOk(w.jobs[id].seen.highest)
    ensures w.jobs[id].staged.horizon.height == HorizonHeight(w.jobs[id].seen)
  {
    assert JobOk(w.jobs[id], w.store);
  }

  /**
   In every run from an empty cache, however Core moves: once one publication fewer than
   `RefreshesToTip(t)` has stopped short, every live publication that read tip `t` puts the
   horizon at height `t`.
   */
  lemma LivePublicationReachesTip(w: World, actions: seq<Action>, a: Action)
    requires Initial(w) && PublishesLive(After(w, actions), a)
    requires ShortPublications(w, actions) + 1 >= RefreshesToTip(After(w, actions).jobs[a.id].seen.tip)
    ensures var w1 := After(w, actions); var s' := Step(w1, a).store;
            HorizonRow(s'.rows).Some? && HorizonRow(s'.rows).value.height == w1.jobs[a.id].seen.tip
  {
    hide Step, FinalCount, HorizonRow, Replace;
    RunKeepsInv(w, actions);
    ShortPublicationsRaiseFinals(w, actions);
    LivePublicationHorizon(After(w, actions), a);
    EnoughFinals(After(w, actions).jobs[a.id].seen.tip, ShortPublications(w, actions), FinalCount(After(w, actions).store));
  }

  lemma EnoughFinals(tip: nat, short: nat, finals: nat)
    requires short + 1 >= RefreshesToTip(tip) && finals >= BATCH * short
    ensures tip <= EPOCH * (finals + BATCH - 1) + REORG_SAFE_DEPTH
  {
  }
}
