/** Where the cache's promises end: runs of the protocol that show each exception is real. */
module CacheLimits {
  import opened Prelude
  import opened NbitsTable
  import opened Lineage
  import opened Chain
  import opened HeaderStore
  import opened CacheShape
  import opened CacheVerdicts
  import opened RefreshProtocol
  import opened RefreshSafety
  import opened RefreshTraces
  import opened ColdStart
  import opened QuietRuns
  import opened VerdictRuns

  /** A chain of `n` blocks above `base`, all with time 1 and bits 1. */
  function Tower(base: Block, n: nat): (b: Block)
    ensures Height(b) == Height(base) + n
    ensures OnChain(base, b)
    ensures n > 0 ==> b.time == 1 && b.bits == 1
  {
    if n == 0 then base
    else
      OnChainTransitive(base, Tower(base, n - 1), Child(Tower(base, n - 1), 1, 1));
      Child(Tower(base, n - 1), 1, 1)
  }

  /** The cache of `core`, a chain between 100 and 2,015 high: genesis final, the tip as horizon. */
  function FirstCache(core: Block, recheck: Recheck): (s: CacheState)
    requires REORG_SAFE_DEPTH <= Height(core) < EPOCH
    ensures s.rows != map[]
  {
    var rows := map[0 := Row(HeaderAt(core, 0), true), Height(core) := Row(HeaderAt(core, Height(core)), false)];
    assert 0 in rows;
    CacheState(rows, Max(At(core, 0).time, core.time), 1, 0, recheck)
  }

  lemma FirstCacheShaped(core: Block, recheck: Recheck)
    requires REORG_SAFE_DEPTH <= Height(core) < EPOCH
    ensures Shaped(FirstCache(core, recheck).rows, 1, 1)
  {
    hide HighestFinal, MaxOf;
  }

  lemma FirstCacheOk(core: Block, recheck: Recheck)
    requires REORG_SAFE_DEPTH <= Height(core) < EPOCH
    ensures var s := FirstCache(core, recheck);
            && StoreOk(s, 1, 1) && CachedFrom(s, core)
            && FinalCount(s) == 1 && BoundaryCount(s) == 1
            && HighestFinal(s.rows) == Some(0)
            && HorizonRow(s.rows) == Some(HeaderAt(core, Height(core)))
  {
    var s := FirstCache(core, recheck);
    FirstCacheShaped(core, recheck);
    hide Shaped, HighestFinal;
    StoreOkIsOk(s, 1, 1);
    ShapedHighestFinal(s.rows, 1, 1);
    assert s.rows.Keys == {0, Height(core)};
    assert Height(core) in s.rows.Keys;
  }

  lemma ColdCached(core: Block)
    ensures CachedFrom(NO_HEADERS, core) && FinalHeights(NO_HEADERS.rows) == {}
  {
    StoreOkIsOk(NO_HEADERS, 0, 0);
  }

  lemma FirstPlan(core: Block, r: Reads)
    requires REORG_SAFE_DEPTH <= Height(core) < EPOCH && r == Reads(true, Height(core), 0, None, None)
    ensures HorizonHeight(r) == Height(core) && FinalEpochOf(Height(core)) == 0
    ensures NextEpoch(r.highest) == 0 && FinalsToFetch(r) == 1 && !ShallowToFetch(r)
  {
  }

  lemma FirstStaged(core: Block, p: Staged)
    requires REORG_SAFE_DEPTH <= Height(core) < EPOCH && Ok(NO_HEADERS)
    requires p == QuietStaged(core, NO_HEADERS, true)
    ensures p == Staged(0, [HeaderAt(core, 0)], None, HeaderAt(core, Height(core)), false, 0)
  {
    ColdCached(core);
    var r := QuietReads(core, NO_HEADERS, true);
    FirstPlan(core, r);
    hide HorizonHeight, FinalsToFetch, ShallowToFetch, FinalEpochOf, NextEpoch;
    assert QuietFinals(core, r, 1) == [HeaderAt(core, 0)];
  }

  /** A first refresh schedules a recheck of everything, classified orphans included. */
  lemma FirstRefresh(core: Block)
    requires REORG_SAFE_DEPTH <= Height(core) < EPOCH && At(core, 0).time > 0
    ensures CachedFrom(NO_HEADERS, core)
    ensures Refreshed(core, NO_HEADERS) == FirstCache(core, Recheck(1, true, 0, None))
  {
    hide QuietStaged, Ok;
    ColdCached(core);
    QuietPublishes(core, NO_HEADERS, true);
    var p := QuietStaged(core, NO_HEADERS, true);
    FirstStaged(core, p);
    FirstRows(core, p);
    FirstTimes(core);
  }

  lemma FirstRows(core: Block, p: Staged)
    requires REORG_SAFE_DEPTH <= Height(core) < EPOCH
    requires p == Staged(0, [HeaderAt(core, 0)], None, HeaderAt(core, Height(core)), false, 0)
    ensures ReplacedRows(NO_HEADERS.rows, p) == Some(FirstCache(core, NO_HEADERS.recheck).rows)
    ensures !ShallowReorged(NO_HEADERS.rows, p)
    ensures At(core, 0).time > 0 ==> !OverlapsPriorHorizon(NO_HEADERS.rows, p, 0)
  {
    assert FinalRows(NO_HEADERS.rows) == map[];
    assert FinalHeights(NO_HEADERS.rows) == {};
    assert p.finals[..0] == [];
    assert RecordAll(map[], p.finals, true) == Some(map[0 := Row(p.finals[0], true)]);
    assert Incoming(p) == [p.finals[0], p.horizon];
  }

  lemma FirstTimes(core: Block)
    requires REORG_SAFE_DEPTH <= Height(core) < EPOCH
    ensures MaxRowTime(FirstCache(core, NO_HEADERS.recheck).rows) == Max(At(core, 0).time, core.time)
  {
    var rows := FirstCache(core, NO_HEADERS.recheck).rows;
    assert rows[0].header.time == At(core, 0).time && rows[Height(core)].header.time == core.time;
    var times := set k | k in rows :: rows[k].header.time;
    assert times == {At(core, 0).time, core.time};
  }

  // ----- An excluded verdict that no generation change announces -----

  function OldTip(): (b: Block)
    ensures Height(b) == EPOCH - 1 && b.time == 1 && b.bits == 1
    ensures At(b, 0) == Genesis(1, 1)
  {
    Tower(Genesis(1, 1), EPOCH - 1)
  }

  /** One block later the retarget changes the bits from 1 to 2. */
  function NewTip(): (b: Block)
    ensures Height(b) == EPOCH && b.time == 2 && b.bits == 2
    ensures OnChain(OldTip(), b)
  {
    var b := Child(OldTip(), 2, 2);
    assert At(b, Height(OldTip())) == OldTip();
    b
  }

  /** The cache of `OldTip` once the recheck of its first refresh has been bound and acknowledged. */
  function OldCache(): CacheState {
    FirstCache(OldTip(), Recheck(1, false, 1, None))
  }

  lemma NextEpochStaged(p: Staged)
    requires CachedFrom(OldCache(), NewTip())
    requires p == QuietStaged(NewTip(), OldCache(), true)
    ensures p.finals == [] && p.horizon == HeaderAt(NewTip(), EPOCH) && p.shallow == Some(p.horizon)
    ensures !p.priorHorizonReorged
  {
    var s := OldCache();
    FirstCacheOk(OldTip(), s.recheck);
    QuietConforms(NewTip(), s, true, QuietReads(NewTip(), s, true), p);
    var r := QuietReads(NewTip(), s, true);
    assert HorizonHeight(r) == EPOCH;
    assert FinalsToFetch(r) == 0;
    assert ShallowToFetch(r);
    assert HeaderAt(NewTip(), EPOCH - 1).hash == OldTip();
  }

  lemma NextEpochQuietly(p: Staged)
    requires p.finals == [] && p.horizon == HeaderAt(NewTip(), EPOCH) && p.shallow == Some(p.horizon)
    requires !p.priorHorizonReorged
    ensures var s := OldCache();
            !ShallowReorged(s.rows, p) && !OverlapsPriorHorizon(s.rows, p, s.horizonTime)
  {
    var s := OldCache();
    assert Incoming(p) == [p.horizon, p.horizon];
    forall h | h in ShallowHeaders(s.rows) ensures h.height == EPOCH - 1 {
    }
  }

  lemma CachedFromNewTip()
    ensures CachedFrom(OldCache(), NewTip())
  {
    FirstCacheOk(OldTip(), OldCache().recheck);
    AtOfAt(NewTip(), EPOCH - 1, 0);
  }

  /**
   A header at time 1 with the next epoch's bits: excluded under the old cache, a weak orphan under
   the new one. The refresh between them announces nothing: the generation stays, no recheck pass
   is in flight, and the one it schedules does not revisit classified orphans.
   */
  lemma ExcludedBecomesWeak()
    ensures var s := OldCache();
            && CachedFrom(s, NewTip()) && s.rows != map[] && Valid(Loaded(s))
            && (var s' := Refreshed(NewTip(), s);
                && Ok(s') && s'.rows != map[] && Valid(Loaded(s'))
                && s'.generation == s.generation && !s'.recheck.orphans && s'.recheck.pass.None?
                && 1 <= s.horizonTime
                && ClassifyOrphan(Loaded(s), 1, 2, None) == Excluded(Reason.NonBtcEpochBits)
                && ClassifyOrphan(Loaded(s'), 1, 2, None) == Weak)
  {
    hide Tower, Shaped, Conforms, Listing, TableOf, NewFinals, Extends, AddsOnlyAfter, ClassifyOrphan;
    var s := OldCache();
    FirstCacheOk(OldTip(), s.recheck);
    CachedFromNewTip();
    var p := QuietStaged(NewTip(), s, true);
    NextEpochStaged(p);
    NextEpochQuietly(p);
    QuietPublishes(NewTip(), s, true);
    QuietConforms(NewTip(), s, true, QuietReads(NewTip(), s, true), p);
    PublicationEffect(s, p, false);
    var s' := Refreshed(NewTip(), s);
    LoadedIsValid(s);
    LoadedIsValid(s');
    UnchangedGenerationGrowsTable(s, 1, 1, p, false, FinalCount(s'), BoundaryCount(s'));
    NextEpochAdmitsHere(s, s');
    OrphanVerdictUnderGrowth(Loaded(s), Loaded(s'), 1, 2, None);
  }

  /**
   A run from an empty cache that does it: `before` refreshes at the old tip and completes the
   recheck, `later` moves Core one block on and refreshes again.
   */
  lemma ExcludedChangesUnannounced(w: World, id: nat) returns (before: seq<Action>, later: seq<Action>)
    requires ColdAndLive(w) && w.core == OldTip() && id in w.jobs
    ensures var s, s' := After(w, before).store, After(w, before + later).store;
            && Ok(s) && s.rows != map[] && Valid(Loaded(s))
            && Ok(s') && s'.rows != map[] && Valid(Loaded(s'))
            && s'.generation == s.generation && !s'.recheck.orphans && s'.recheck.pass.None?
            && 1 <= s.horizonTime
            && ClassifyOrphan(Loaded(s), 1, 2, None) == Excluded(Reason.NonBtcEpochBits)
            && ClassifyOrphan(Loaded(s'), 1, 2, None) == Weak
  {
    hide OldTip, NewTip, Ok, QuietActions, Refreshed, CachedFrom, Loaded, ClassifyOrphan, After, FirstCache;
    FirstRefresh(w.core);
    QuietRefreshIsRun(w, id);
    var first := QuietActions(id, w.core, w.store);
    var w1 := After(w, first);
    before := first + [BindsPass, EndsPass];
    AfterCompose(w, first, [BindsPass, EndsPass]);
    AfterTwo(w1, BindsPass, EndsPass);
    var w2 := After(w, before);
    RecheckCompleted(OldTip());
    assert w2.store == OldCache();
    ExcludedBecomesWeak();
    CachedIsOk(OldCache(), NewTip());
    var w3 := Step(w2, CoreMoves(NewTip()));
    QuietRefreshIsRun(w3, id);
    var second := QuietActions(id, w3.core, w3.store);
    later := [CoreMoves(NewTip())] + second;
    AfterCompose(w, before, later);
    AfterCompose(w2, [CoreMoves(NewTip())], second);
    AfterOne(w2, CoreMoves(NewTip()));
  }

  lemma RecheckCompleted(core: Block)
    requires REORG_SAFE_DEPTH <= Height(core) < EPOCH
    ensures var s := FirstCache(core, Recheck(1, true, 0, None));
            s.(recheck := PassAcknowledged(PassBound(s.recheck))) == FirstCache(core, Recheck(1, false, 1, None))
  {
  }

  lemma NextEpochAdmitsHere(s: CacheState, s': CacheState)
    requires StoreOk(s, 1, 1) && FinalCount(s) == 1 && BoundaryCount(s) == 1
    requires s.horizonTime == 1 && 0 in s.rows && s.rows[0].header.time == 1 && s.rows[0].header.bits == 1
    requires Ok(s') && s'.rows != map[]
    requires EPOCH in s'.rows && s'.rows[EPOCH].header.bits == 2
    ensures Valid(Loaded(s)) && NextEpochAdmits(Loaded(s), Loaded(s'), OrphanInput(1, 2, None))
  {
    hide Shaped, Listing, TableOf, EpochHeightForTime;
    OldTableFacts(s);
    CachedBits(s', EPOCH);
  }

  lemma CachedBits(s: CacheState, k: int)
    requires Ok(s) && k in s.rows && IsBoundary(k)
    ensures EpochBitsAre(Loaded(s), k, s.rows[k].header.bits)
  {
    TableForBoundaries(s, FinalCount(s), BoundaryCount(s));
  }

  lemma OldTableFacts(s: CacheState)
    requires StoreOk(s, 1, 1)
    requires s.horizonTime == 1 && 0 in s.rows && s.rows[0].header.time == 1 && s.rows[0].header.bits == 1
    ensures var t := TableFor(s, 1, 1);
            && Valid(t) && t.coveredMax == 0 && EpochHeightForTime(t, 1) == Some(0)
            && EpochBitsAre(t, 0, 1) && -EPOCH !in t.byEpoch
  {
    TableForRows(s, 1, 1);
    TableForBoundaries(s, 1, 1);
    var t := TableFor(s, 1, 1);
    SearchSelects(t, 1);
    assert IsBoundary(0);
    assert (1, 0) in t.epochsByTime;
    SelectedIsCached(t, 1);
    assert EpochHeightForTime(t, 1).value == 0;
  }

  // ----- A reorganisation deeper than 100 blocks -----

  /** A first refresh of a chain past height 2116 makes boundary 2016 final. */
  lemma SecondBoundaryFinal(core: Block)
    requires EPOCH + REORG_SAFE_DEPTH <= Height(core)
    ensures CachedFrom(NO_HEADERS, core)
    ensures var s := Refreshed(core, NO_HEADERS);
            && CachedFrom(s, core)
            && EPOCH in s.rows && s.rows[EPOCH] == Row(HeaderAt(core, EPOCH), true)
            && HighestFinal(s.rows).Some? && 0 <= HighestFinal(s.rows).value < Height(core)
  {
    hide Shaped, Conforms;
    ColdCached(core);
    RefreshedEffect(core, NO_HEADERS);
    FirstHorizon(core);
    var s, p := Refreshed(core, NO_HEADERS), QuietStaged(core, NO_HEADERS, true);
    QuietPublishes(core, NO_HEADERS, true);
    QuietConforms(core, NO_HEADERS, true, QuietReads(core, NO_HEADERS, true), p);
    PublicationEffect(NO_HEADERS, p, false);
    PlanArithmetic(0, p.horizon.height);
    ShapedHighestFinal(s.rows, FinalCount(s), BoundaryCount(s));
    assert FinalCount(s) >= 2;
    BoundaryIsFinal(s, EPOCH);
  }

  lemma BoundaryIsFinal(s: CacheState, k: int)
    requires Ok(s) && 0 <= k < EPOCH * FinalCount(s) && IsBoundary(k)
    ensures k in s.rows && s.rows[k].isFinal
  {
  }

  /** A longer chain's refresh is accepted, whatever that chain shares with the cached one. */
  lemma LongerChainPublishes(s: CacheState, core: Block)
    requires Ok(s) && HighestFinal(s.rows).Some? && 0 <= HighestFinal(s.rows).value < Height(core)
    ensures Replace(s, QuietStaged(core, s, true), false).Published?
  {
    var r, p := QuietReads(core, s, true), QuietStaged(core, s, true);
    QuietConforms(core, s, true, r, p);
    ConformsIsWellFormed(FinalCount(s), p);
    RecordsAgree(s.rows, FinalCount(s), BoundaryCount(s), p);
    QuietShallowIsHorizon(core, r);
    hide Shaped, Conforms;
    ShapedHighestFinal(s.rows, FinalCount(s), BoundaryCount(s));
  }

  /**
   Core is refreshed from at one chain, then moves to another of at least its length that left it
   below height 2016, and is refreshed from again. The second refresh publishes onto the first
   one's final boundary, and the cache is on no one chain.
   */
  lemma DeepReorgMixesChains(w: World, id: nat, b: Block) returns (actions: seq<Action>)
    requires ColdAndLive(w) && id in w.jobs
    requires EPOCH + REORG_SAFE_DEPTH <= Height(w.core) <= Height(b)
    requires At(w.core, 0) == At(b, 0) && At(w.core, EPOCH) != At(b, EPOCH)
    ensures var rows := After(w, actions).store.rows;
            && EPOCH in rows && rows[EPOCH] == Row(HeaderAt(w.core, EPOCH), true)
            && HorizonRow(rows).Some? && OnChain(HorizonRow(rows).value.hash, b)
            && !OneChain(rows)
  {
    hide QuietActions, Refreshed, CachedFrom, After, Replace, QuietStaged;
    SecondBoundaryFinal(w.core);
    QuietRefreshIsRun(w, id);
    var first := QuietActions(id, w.core, w.store);
    var w1 := After(w, first);
    CachedIsOk(w1.store, w.core);
    LongerChainPublishes(w1.store, b);
    var w2 := Step(w1, CoreMoves(b));
    QuietAttemptIsRun(w2, id);
    var second := QuietActions(id, b, w1.store);
    actions := first + ([CoreMoves(b)] + second);
    AfterCompose(w, first, [CoreMoves(b)] + second);
    AfterCompose(w1, [CoreMoves(b)], second);
    AfterOne(w1, CoreMoves(b));
    FinalRowOffChain(w1.store, b);
  }

  lemma CachedIsOk(s: CacheState, core: Block)
    requires CachedFrom(s, core)
    ensures Ok(s)
  {
  }

  lemma FinalRowOffChain(s: CacheState, b: Block)
    requires Ok(s) && EPOCH in s.rows && s.rows[EPOCH].isFinal && Height(s.rows[EPOCH].header.hash) == EPOCH
    requires EPOCH <= Height(b) && s.rows[EPOCH].header.hash != At(b, EPOCH)
    requires Replace(s, QuietStaged(b, s, true), false).Published?
    ensures var rows := Replace(s, QuietStaged(b, s, true), false).state.rows;
            && EPOCH in rows && rows[EPOCH] == s.rows[EPOCH]
            && HorizonRow(rows).Some? && OnChain(HorizonRow(rows).value.hash, b)
            && HorizonRow(rows).value.height == Height(HorizonRow(rows).value.hash)
            && !OneChain(rows)
  {
    hide Shaped, Conforms, Replace;
    var p := QuietStaged(b, s, true);
    QuietConforms(b, s, true, QuietReads(b, s, true), p);
    PublicationEffect(s, p, false);
    if EPOCH <= p.horizon.height {
      AtOfAt(b, p.horizon.height, EPOCH);
    }
  }

  // ----- A horizon that leaves and returns within one refresh -----

  /** Core is on `away` for the eighth read of a refresh, and on `home` for all others. */
  function Detour(home: Block, away: Block): nat -> Block {
    (i: nat) => if i == 7 then away else home
  }

  lemma DetourConfirms(home: Block, away: Block)
    requires EPOCH + REORG_SAFE_DEPTH <= Height(home) < 2 * EPOCH && EPOCH <= Height(away)
    ensures var r := Reads(true, Height(home), 0, None, None);
            Trace(Idle(true), Alone(Detour(home, away), NO_HEADERS), 0, 12) ==
              Confirmed(r, StagedOf(r, HeaderAt(home, Height(home)), false,
                                    [HeaderAt(home, 0), HeaderAt(away, EPOCH)], None))
  {
    hide Trace;
    ColdCached(home);
    var r := Reads(true, Height(home), 0, None, None);
    var opening := HeaderAt(home, Height(home));
    var finals := [HeaderAt(home, 0), HeaderAt(away, EPOCH)];
    var scenes := Alone(Detour(home, away), NO_HEADERS);
    SecondPlan(Height(home), r);
    hide HorizonHeight, FinalsToFetch, ShallowToFetch, FinalEpochOf, NextEpoch, EpochStart;
    OpeningTrace(scenes, r, opening, false);
    assert Served(scenes, 6, 0, 0) == Some(finals[0]) && Served(scenes, 6, 0, 1) == Some(finals[1]);
    StagedTrace(scenes, true, 6, r, opening, false, finals, 4);
    ClosingTrace(scenes, 8, r, opening, false, finals);
  }

  /** A first refresh between heights 2116 and 4031 fetches boundaries 0 and 2016, and no shallow one. */
  lemma SecondPlan(h: nat, r: Reads)
    requires EPOCH + REORG_SAFE_DEPTH <= h < 2 * EPOCH && r == Reads(true, h, 0, None, None)
    ensures HorizonHeight(r) == h && FinalEpochOf(h) == EPOCH && NextEpoch(r.highest) == 0
    ensures FinalsToFetch(r) == 2 && !ShallowToFetch(r) && NewFinals(0, h) == 2 && !WantsShallow(0, h)
  {
  }

  lemma HeaderIsGenuine(view: Block, height: nat)
    requires height <= Height(view)
    ensures Genuine(HeaderAt(view, height)) && HeaderAt(view, height).height == height
  {
  }

  lemma DetourConforms(home: Block, away: Block, r: Reads, p: Staged)
    requires EPOCH + REORG_SAFE_DEPTH <= Height(home) < 2 * EPOCH && EPOCH <= Height(away)
    requires r == Reads(true, Height(home), 0, None, None)
    requires p == StagedOf(r, HeaderAt(home, Height(home)), false, [HeaderAt(home, 0), HeaderAt(away, EPOCH)], None)
    ensures p.horizon == HeaderAt(home, Height(home)) && p.finals == [HeaderAt(home, 0), HeaderAt(away, EPOCH)]
    ensures p.shallow.None? && p.expectedRevision == 0
    ensures Conforms(0, p)
  {
    hide HeaderAt, Genuine, NewFinals, WantsShallow, FinalEpochOf, HorizonHeight;
    SecondPlan(Height(home), r);
    HeaderIsGenuine(home, Height(home));
    HeaderIsGenuine(home, 0);
    HeaderIsGenuine(away, EPOCH);
  }

  lemma ColdAccepts(p: Staged)
    requires Conforms(0, p) && p.shallow.None? && p.expectedRevision == 0
    ensures Replace(NO_HEADERS, p, false).Published?
  {
    ColdShaped();
    ConformsIsWellFormed(0, p);
    PlanArithmetic(0, p.horizon.height);
    ColdNotTooLow(p);
    hide Shaped, Conforms, ReplacedRows, StagedIsWellFormed, HorizonTooLow, NextState;
    RecordsAgree(NO_HEADERS.rows, 0, 0, p);
  }

  lemma ColdShaped()
    ensures Shaped(NO_HEADERS.rows, 0, 0)
  {
  }

  lemma ColdNotTooLow(p: Staged)
    requires Conforms(0, p)
    ensures !HorizonTooLow(NO_HEADERS.rows, p)
  {
    assert FinalHeights(NO_HEADERS.rows) == {};
  }

  lemma DetourPublishes(home: Block, away: Block, r: Reads, p: Staged)
    requires EPOCH + REORG_SAFE_DEPTH <= Height(home) < 2 * EPOCH && EPOCH <= Height(away)
    requires r == Reads(true, Height(home), 0, None, None)
    requires p == StagedOf(r, HeaderAt(home, Height(home)), false, [HeaderAt(home, 0), HeaderAt(away, EPOCH)], None)
    ensures Replace(NO_HEADERS, p, false).Published?
    ensures var rows := Replace(NO_HEADERS, p, false).state.rows;
            && EPOCH in rows && rows[EPOCH] == Row(HeaderAt(away, EPOCH), true)
            && HorizonRow(rows) == Some(HeaderAt(home, Height(home)))
  {
    hide Shaped, Conforms, Replace, StagedOf, HorizonRow, At, Height, NewFinals;
    DetourConforms(home, away, r, p);
    ColdAccepts(p);
    ColdShaped();
    StoreOkIsOk(NO_HEADERS, 0, 0);
    PublicationEffect(NO_HEADERS, p, false);
    assert p.finals[1] == HeaderAt(away, EPOCH);
  }

  /**
   A refresh opens on one chain, reads boundary 2016 while Core is on another, and finds the first
   one active again when it closes. The closing check passes, and the published boundary is not an
   ancestor of the published horizon.
   */
  lemma ReturningHorizonMixesChains(w: World, id: nat, away: Block) returns (actions: seq<Action>)
    requires ColdAndLive(w) && id in w.jobs
    requires EPOCH + REORG_SAFE_DEPTH <= Height(w.core) < 2 * EPOCH && EPOCH <= Height(away)
    requires At(w.core, 0) == At(away, 0) && At(w.core, EPOCH) != At(away, EPOCH)
    ensures var rows := After(w, actions).store.rows;
            && EPOCH in rows && rows[EPOCH] == Row(HeaderAt(away, EPOCH), true)
            && HorizonRow(rows) == Some(HeaderAt(w.core, Height(w.core)))
            && !OneChain(rows)
  {
    hide Trace, After, Replace, AttemptActions, StagedOf, HorizonRow;
    var view := Detour(w.core, away);
    var r := Reads(true, Height(w.core), 0, None, None);
    var p := StagedOf(r, HeaderAt(w.core, Height(w.core)), false, [HeaderAt(w.core, 0), HeaderAt(away, EPOCH)], None);
    DetourConfirms(w.core, away);
    DetourPublishes(w.core, away, r, p);
    actions := AttemptActions(id, view, 12);
    AttemptIsRun(w, id, view, 12, r, p);
  }
}
