/**
 Safety of every run of the refresh protocol: what is published lies on one chain, and a snapshot
 staged before another publication changes nothing.
 */
module RefreshSafety {
  import opened Prelude
  import opened NbitsTable
  import opened Chain
  import opened HeaderStore
  import opened CacheShape
  import opened RefreshProtocol

  // ----- Stale snapshots -----

  /**
   A publication changes the store only if no other publication came between its revision read
   and its commit; then it raises the revision by one, and planned from the rows it replaces.
   */
  lemma StaleSnapshotNeverOverwrites(w: World, actions: seq<Action>, id: nat, queued: bool)
    requires Initial(w)
    requires id in After(w, actions).jobs && After(w, actions).jobs[id].Confirmed?
    ensures var w1 := After(w, actions); var w2 := Step(w1, Publishes(id, queued)); var r := w1.jobs[id].seen;
            if r.revision == w1.store.revision && w2.store != w1.store
            then && w2.store.revision == w1.store.revision + 1
                 && r.highest == HighestFinal(w1.store.rows)
                 && r.prior == HorizonRow(w1.store.rows)
                 && HorizonRow(w2.store.rows) == Some(w1.jobs[id].staged.horizon)
            else w2.store == w1.store
  {
    RunKeepsInv(w, actions);
    var w1 := After(w, actions);
    assert JobOk(w1.jobs[id], w1.store);
    if Replace(w1.store, w1.jobs[id].staged, queued).Published? {
      PublishSawCurrentStore(w1, id, queued);
      PublicationEffect(w1.store, w1.jobs[id].staged, queued);
    }
  }

  // ----- One chain per snapshot -----

  /** While a refresh is gathering, an opening horizon that Core has dropped does not come back. */
  ghost predicate NoReturn(w: World, a: Action) {
    a.CoreMoves? ==>
      forall id :: id in w.jobs && w.jobs[id].Gathering? && !OnChain(w.jobs[id].opening.hash, w.core) ==>
        !OnChain(w.jobs[id].opening.hash, a.next)
  }

  ghost predicate NoReturns(w: World, actions: seq<Action>) {
    forall i :: 0 <= i < |actions| ==> NoReturn(After(w, actions[..i]), actions[i])
  }

  /** The fetched headers are ancestors of the horizon, and the prior horizon's check is right. */
  ghost predicate Linked(r: Reads, horizon: CoreHeader, checked: bool, reorged: bool,
                         finals: seq<CoreHeader>, shallow: Option<CoreHeader>) {
    && (forall i :: 0 <= i < |finals| ==> OnChain(finals[i].hash, horizon.hash))
    && (shallow.Some? ==> OnChain(shallow.value.hash, horizon.hash))
    && (checked && r.prior.Some? && r.prior.value.height < HorizonHeight(r) ==>
          (reorged <==> !OnChain(r.prior.value.hash, horizon.hash)))
    && (checked && !(r.prior.Some? && r.prior.value.height < HorizonHeight(r)) ==> !reorged)
  }

  ghost predicate ChainOk(j: Job, core: Block) {
    match j
    case Gathering(r, opening, stage, reorged, finals, shallow) =>
      && (OnChain(opening.hash, core) ==> Linked(r, opening, !stage.CheckPrior?, reorged, finals, shallow))
      && (stage.CheckPrior? ==> !reorged)
    case Confirmed(r, p) => Linked(r, p.horizon, true, p.priorHorizonReorged, p.finals, p.shallow)
    case _ => true
  }

  ghost predicate ChainInv(w: World) {
    Inv(w) && forall id :: id in w.jobs ==> ChainOk(w.jobs[id], w.core)
  }

  /** A header Core serves below a block of its active chain is that block's ancestor. */
  lemma ServedBelow(core: Block, b: Block, height: nat)
    requires OnChain(b, core) && height <= Height(b)
    ensures At(core, height) == At(b, height)
    ensures OnChain(At(core, height), b)
  {
    AtOfAt(core, Height(b), height);
  }

  lemma FetchHeightsBelowHorizon(r: Reads, i: nat)
    requires HighestOk(r.highest) && 0 <= HorizonHeight(r)
    ensures i < FinalsToFetch(r) ==> 0 <= NextEpoch(r.highest) + EPOCH * i <= HorizonHeight(r)
    ensures 0 <= EpochStart(HorizonHeight(r)) <= HorizonHeight(r)
  {
    PlanInEpochs(r);
  }

  lemma CheckPriorChain(j: Job, core: Block)
    requires j.Gathering? && j.stage.CheckPrior? && GatheringOk(j) && ChainOk(j, core)
    requires j.seen.prior.Some? ==> Genuine(j.seen.prior.value)
    ensures ChainOk(AdvanceGathering(j, core), core)
  {
    hide FinalsToFetch, ShallowToFetch, HorizonHeight, NextEpoch;
    var r := j.seen;
    if OnChain(j.opening.hash, core) && r.prior.Some? && r.prior.value.height < HorizonHeight(r) {
      ServedBelow(core, j.opening.hash, r.prior.value.height);
    }
  }

  lemma FetchFinalsChain(j: Job, core: Block)
    requires j.Gathering? && j.stage.FetchFinals? && GatheringOk(j) && ChainOk(j, core)
    ensures ChainOk(AdvanceGathering(j, core), core)
  {
    hide FinalsToFetch, ShallowToFetch, HorizonHeight, NextEpoch;
    var r := j.seen;
    FetchHeightsBelowHorizon(r, |j.finals|);
    if OnChain(j.opening.hash, core) && |j.finals| < FinalsToFetch(r) {
      ServedBelow(core, j.opening.hash, NextEpoch(r.highest) + EPOCH * |j.finals|);
    }
  }

  lemma FetchShallowChain(j: Job, core: Block)
    requires j.Gathering? && j.stage.FetchShallow? && GatheringOk(j) && ChainOk(j, core)
    ensures ChainOk(AdvanceGathering(j, core), core)
  {
    hide EpochStart, FinalsToFetch, ShallowToFetch, HorizonHeight, NextEpoch;
    FetchHeightsBelowHorizon(j.seen, 0);
    if OnChain(j.opening.hash, core) {
      ServedBelow(core, j.opening.hash, EpochStart(HorizonHeight(j.seen)));
    }
  }

  lemma ClosingChain(j: Job, core: Block)
    requires j.Gathering? && (j.stage.RecheckTip? || j.stage.RecheckHorizon?) && GatheringOk(j) && ChainOk(j, core)
    ensures ChainOk(AdvanceGathering(j, core), core)
  {
    hide FinalsToFetch, ShallowToFetch, HorizonHeight, NextEpoch, EpochStart, FinalEpochOf;
    if !OnChain(j.opening.hash, core) && j.stage.RecheckHorizon? {
      assert CanonicalHeader(core, HorizonHeight(j.seen)) != Some(j.opening);
    }
  }

  lemma GatheringChain(j: Job, core: Block)
    requires j.Gathering? && GatheringOk(j) && ChainOk(j, core)
    requires j.seen.prior.Some? ==> Genuine(j.seen.prior.value)
    ensures ChainOk(AdvanceGathering(j, core), core)
  {
    hide GatheringOk, ChainOk, AdvanceGathering;
    match j.stage
    case CheckPrior => CheckPriorChain(j, core);
    case FetchFinals => FetchFinalsChain(j, core);
    case FetchShallow => FetchShallowChain(j, core);
    case RecheckTip => ClosingChain(j, core);
    case RecheckHorizon(_) => ClosingChain(j, core);
  }

  lemma StepKeepsChainInv(w: World, a: Action)
    requires ChainInv(w) && NoReturn(w, a)
    ensures ChainInv(Step(w, a))
  {
    hide Ok, OnChain, AdvanceGathering, Conforms;
    StepKeepsInv(w, a);
    match a
    case CoreMoves(next) =>
      forall id | id in w.jobs ensures ChainOk(w.jobs[id], next) {
        assert ChainOk(w.jobs[id], w.core);
      }
    case Advances(id) =>
      if id in w.jobs && w.jobs[id].Gathering? {
        assert JobOk(w.jobs[id], w.store);
        GatheringChain(w.jobs[id], w.core);
      }
    case Aborts(_) =>
    case Publishes(_, _) =>
    case BindsPass =>
    case EndsPass =>
  }

  lemma {:induction false} RunKeepsChainInv(w: World, actions: seq<Action>)
    requires Initial(w) && NoReturns(w, actions)
    ensures ChainInv(After(w, actions))
  {
    if actions == [] {
      InitialInv(w);
    } else {
      var init := actions[..|actions| - 1];
      assert forall i :: 0 <= i < |init| ==> init[..i] == actions[..i];
      RunKeepsChainInv(w, init);
      StepKeepsChainInv(After(w, init), actions[|actions| - 1]);
    }
  }

  // ----- One chain per cache -----

  /** Every row is the horizon row or an ancestor of it. */
  ghost predicate OneChain(rows: Rows) {
    HorizonRow(rows).Some? ==>
      forall k :: k in rows ==> OnChain(rows[k].header.hash, HorizonRow(rows).value.hash)
  }

  /** The block of the highest final row is an ancestor of `b`. */
  ghost predicate HighestFinalOn(rows: Rows, b: Block) {
    var highest := HighestFinal(rows);
    highest.Some? && highest.value in rows ==> OnChain(rows[highest.value].header.hash, b)
  }

  lemma FreshRowsOnChain(s: CacheState, p: Staged, rows': Rows, k: int)
    requires PublishedRows(s.rows, p, rows')
    requires forall i :: 0 <= i < |p.finals| ==> OnChain(p.finals[i].hash, p.horizon.hash)
    requires p.shallow.Some? ==> OnChain(p.shallow.value.hash, p.horizon.hash)
    requires k in rows' && !(k in s.rows && s.rows[k].isFinal)
    ensures OnChain(rows'[k].header.hash, p.horizon.hash)
  {
    if k != p.horizon.height && !(p.shallow.Some? && p.shallow.value.height == k) {
      var i :| 0 <= i < |p.finals| && p.finals[i].height == k;
    }
  }

  lemma FinalsBelowHighest(s: CacheState, b: Block)
    requires Ok(s) && OneChain(s.rows)
    requires HighestFinalOn(s.rows, b)
    ensures forall k :: k in s.rows && s.rows[k].isFinal ==> OnChain(s.rows[k].header.hash, b)
  {
    hide IsBoundary, OnChain, HighestFinal;
    ShapedHighestFinal(s.rows, FinalCount(s), BoundaryCount(s));
    forall k | k in s.rows && s.rows[k].isFinal ensures OnChain(s.rows[k].header.hash, b) {
      var top := HighestFinal(s.rows).value;
      var horizon := HorizonRow(s.rows).value.hash;
      BoundaryBelow(k, FinalCount(s));
      MultipleIsBoundary(FinalCount(s) - 1);
      OnChainOrdered(s.rows[k].header.hash, s.rows[top].header.hash, horizon);
      OnChainTransitive(s.rows[k].header.hash, s.rows[top].header.hash, b);
    }
  }

  lemma ReplacementOnOneChain(s: CacheState, p: Staged, rows': Rows)
    requires Ok(s) && OneChain(s.rows)
    requires PublishedRows(s.rows, p, rows') && HorizonRow(rows') == Some(p.horizon)
    requires forall k :: k in rows' && !(k in s.rows && s.rows[k].isFinal) ==>
               OnChain(rows'[k].header.hash, p.horizon.hash)
    ensures OneChain(rows') <==> HighestFinalOn(s.rows, p.horizon.hash)
  {
    if HighestFinalOn(s.rows, p.horizon.hash) {
      FinalsBelowHighest(s, p.horizon.hash);
    } else {
      var top := HighestFinal(s.rows).value;
      assert top in rows' && rows'[top] == s.rows[top];
    }
  }

  /** Every row of `rows'` that is not a final row of `rows` is an ancestor of `horizon`. */
  ghost predicate WrittenOnChain(rows: Rows, rows': Rows, horizon: CoreHeader) {
    && HorizonRow(rows') == Some(horizon)
    && forall k :: k in rows' && !(k in rows && rows[k].isFinal) ==> OnChain(rows'[k].header.hash, horizon.hash)
  }

  /**
   One publication onto any cache: the boundaries, shallow row and horizon it writes are ancestors
   of the new horizon. Onto a one-chain cache, the whole is one chain again exactly when the
   highest boundary made final earlier is still an ancestor of it.
   */
  lemma PublicationOnOneChain(w: World, id: nat, queued: bool)
    requires ChainInv(w)
    requires id in w.jobs && w.jobs[id].Confirmed?
    requires Replace(w.store, w.jobs[id].staged, queued).Published?
    ensures var s' := Step(w, Publishes(id, queued)).store; var horizon := w.jobs[id].staged.horizon;
            && WrittenOnChain(w.store.rows, s'.rows, horizon)
            && (OneChain(w.store.rows) ==> (OneChain(s'.rows) <==> HighestFinalOn(w.store.rows, horizon.hash)))
  {
    hide Shaped, Conforms, JobOk, Replace, PublishedRows, OneChain, HighestFinalOn;
    assert ChainOk(w.jobs[id], w.core);
    var p := w.jobs[id].staged;
    PublishSawCurrentStore(w, id, queued);
    PublicationEffect(w.store, p, queued);
    var rows' := Replace(w.store, p, queued).state.rows;
    forall k | k in rows' && !(k in w.store.rows && w.store.rows[k].isFinal)
      ensures OnChain(rows'[k].header.hash, p.horizon.hash)
    {
      FreshRowsOnChain(w.store, p, rows', k);
    }
    if OneChain(w.store.rows) {
      ReplacementOnOneChain(w.store, p, rows');
    }
  }

  /**
   In every run in which dropped opening horizons stay dropped, whatever else Core reorganises
   between any two reads, every publication writes only ancestors of its horizon.
   */
  lemma EveryPublicationOnOneChain(w: World, actions: seq<Action>, id: nat, queued: bool)
    requires Initial(w) && NoReturns(w, actions)
    requires var w1 := After(w, actions);
             && id in w1.jobs && w1.jobs[id].Confirmed?
             && Replace(w1.store, w1.jobs[id].staged, queued).Published?
    ensures var w1 := After(w, actions);
            WrittenOnChain(w1.store.rows, Step(w1, Publishes(id, queued)).store.rows, w1.jobs[id].staged.horizon)
  {
    hide WrittenOnChain, Step, Replace;
    RunKeepsChainInv(w, actions);
    PublicationOnOneChain(After(w, actions), id, queued);
  }

  // ----- One chain in every run -----

  /** The world after the first `i` actions of a run. */
  ghost function Moment(w: World, actions: seq<Action>, i: nat): World
    requires i <= |actions|
  {
    After(w, actions[..i])
  }

  lemma NextMoment(w: World, actions: seq<Action>, i: nat)
    requires i < |actions|
    ensures Moment(w, actions, i + 1) == Step(Moment(w, actions, i), actions[i])
  {
    assert actions[..i + 1][..i] == actions[..i];
  }

  /** A block buried 100 deep in an active chain of the run is on every later active chain. */
  ghost predicate ReorgSafe(w: World, actions: seq<Action>) {
    forall i, j :: 0 <= i <= j <= |actions| ==>
      BuriedStays(Moment(w, actions, i).core, Moment(w, actions, j).core)
  }

  ghost predicate BuriedStays(core: Block, later: Block) {
    Height(core) >= REORG_SAFE_DEPTH ==> OnChain(At(core, Height(core) - REORG_SAFE_DEPTH), later)
  }

  /** `b` is on the active chain from moment `i` to the end of the run. */
  ghost predicate Stays(w: World, actions: seq<Action>, i: nat, b: Block) {
    forall j :: i <= j <= |actions| ==> OnChain(b, Moment(w, actions, j).core)
  }

  lemma BuriedBlockStays(w: World, actions: seq<Action>, i: nat, b: Block, horizon: Block)
    requires i <= |actions| && ReorgSafe(w, actions)
    requires OnChain(b, horizon) && OnChain(horizon, Moment(w, actions, i).core)
    requires Height(b) + REORG_SAFE_DEPTH <= Height(horizon)
    ensures Stays(w, actions, i, b)
  {
    var core := Moment(w, actions, i).core;
    var depth := At(core, Height(core) - REORG_SAFE_DEPTH);
    OnChainTransitive(b, horizon, core);
    ServedBelow(core, core, Height(core) - REORG_SAFE_DEPTH);
    OnChainOrdered(b, depth, core);
    forall j | i <= j <= |actions| ensures OnChain(b, Moment(w, actions, j).core) {
      assert BuriedStays(core, Moment(w, actions, j).core);
      OnChainTransitive(b, depth, Moment(w, actions, j).core);
    }
  }

  ghost predicate FinalRowsStay(w: World, actions: seq<Action>, i: nat, rows: Rows) {
    forall k :: k in rows && rows[k].isFinal ==> Stays(w, actions, i, rows[k].header.hash)
  }

  /** A confirmed snapshot: its new finals stay, and it extends the store it read. */
  ghost predicate ConfirmedSafe(w: World, actions: seq<Action>, i: nat, j: Job, s: CacheState) {
    j.Confirmed? ==>
      && (forall f :: 0 <= f < |j.staged.finals| ==> Stays(w, actions, i, j.staged.finals[f].hash))
      && (j.seen.revision == s.revision ==>
            forall k :: k in s.rows && s.rows[k].isFinal && k <= j.staged.horizon.height ==>
              OnChain(s.rows[k].header.hash, j.staged.horizon.hash))
  }

  ghost predicate Settled(w: World, actions: seq<Action>, i: nat)
    requires i <= |actions|
  {
    var now := Moment(w, actions, i);
    && ChainInv(now)
    && OneChain(now.store.rows)
    && FinalRowsStay(w, actions, i, now.store.rows)
    && forall id :: id in now.jobs ==> ConfirmedSafe(w, actions, i, now.jobs[id], now.store)
  }

  lemma ConfirmIsSafe(w: World, actions: seq<Action>, i: nat, j: Job)
    requires i < |actions| && ReorgSafe(w, actions)
    requires var now := Moment(w, actions, i);
             && Ok(now.store) && FinalRowsStay(w, actions, i, now.store.rows)
             && j.Gathering? && GatheringOk(j) && ChainOk(j, now.core)
             && AdvanceGathering(j, now.core).Confirmed?
    ensures var now := Moment(w, actions, i);
            ConfirmedSafe(w, actions, i + 1, AdvanceGathering(j, now.core), now.store)
  {
    var now := Moment(w, actions, i);
    var horizon := j.opening.hash;
    assert OnChain(horizon, now.core);
    PlanInEpochs(j.seen);
    forall f | 0 <= f < |j.finals| ensures Stays(w, actions, i + 1, j.finals[f].hash) {
      assert j.finals[f].height <= FinalEpochOf(HorizonHeight(j.seen));
      BuriedBlockStays(w, actions, i, j.finals[f].hash, horizon);
    }
    forall k | k in now.store.rows && now.store.rows[k].isFinal && k <= j.opening.height
      ensures OnChain(now.store.rows[k].header.hash, horizon)
    {
      assert Stays(w, actions, i, now.store.rows[k].header.hash);
      OnChainOrdered(now.store.rows[k].header.hash, horizon, now.core);
    }
  }

  lemma PublishedFinalsStay(w: World, actions: seq<Action>, i: nat, rows: Rows, p: Staged, rows': Rows)
    requires i < |actions| && FinalRowsStay(w, actions, i, rows) && PublishedRows(rows, p, rows')
    requires forall f :: 0 <= f < |p.finals| ==> Stays(w, actions, i, p.finals[f].hash)
    ensures FinalRowsStay(w, actions, i + 1, rows')
  {
    hide Moment, OnChain;
    forall k | k in rows' && rows'[k].isFinal ensures Stays(w, actions, i + 1, rows'[k].header.hash) {
      if k in rows && rows[k].isFinal {
        assert Stays(w, actions, i, rows[k].header.hash);
      } else {
        FinalRowIsStaged(rows, p, rows', k);
      }
    }
  }

  lemma PublishIsSafe(w: World, actions: seq<Action>, i: nat, id: nat, queued: bool)
    requires i < |actions| && Settled(w, actions, i)
    requires var now := Moment(w, actions, i);
             && id in now.jobs && now.jobs[id].Confirmed?
             && Replace(now.store, now.jobs[id].staged, queued).Published?
    ensures var s' := Replace(Moment(w, actions, i).store, Moment(w, actions, i).jobs[id].staged, queued).state;
            OneChain(s'.rows) && FinalRowsStay(w, actions, i + 1, s'.rows)
  {
    hide Shaped, Conforms, OnChain, JobOk, Replace, Moment, FinalRowsStay, OneChain, PublishedRows, Stays, ChainOk;
    var now := Moment(w, actions, i);
    var p := now.jobs[id].staged;
    PublishSawCurrentStore(now, id, queued);
    PublicationEffect(now.store, p, queued);
    assert ConfirmedSafe(w, actions, i, now.jobs[id], now.store);
    PublicationOnOneChain(now, id, queued);
    HighestFinalStays(now.store, p);
    PublishedNotTooLow(now.store, p, queued);
    PublishedFinalsStay(w, actions, i, now.store.rows, p, Replace(now.store, p, queued).state.rows);
  }

  lemma PublishedNotTooLow(s: CacheState, p: Staged, queued: bool)
    requires Replace(s, p, queued).Published?
    ensures !HorizonTooLow(s.rows, p)
  {
  }

  lemma HighestFinalStays(s: CacheState, p: Staged)
    requires forall k :: k in s.rows && s.rows[k].isFinal && k <= p.horizon.height ==>
               OnChain(s.rows[k].header.hash, p.horizon.hash)
    ensures !HorizonTooLow(s.rows, p) ==> HighestFinalOn(s.rows, p.horizon.hash)
  {
    hide OnChain;
  }

  lemma FinalRowIsStaged(rows: Rows, p: Staged, rows': Rows, k: int)
    requires PublishedRows(rows, p, rows')
    requires k in rows' && rows'[k].isFinal && !(k in rows && rows[k].isFinal)
    ensures exists f :: 0 <= f < |p.finals| && rows'[k].header == p.finals[f]
  {
    var f :| 0 <= f < |p.finals| && p.finals[f].height == k;
  }

  /** When the store and the confirmed snapshots stand, so does what is settled. */
  lemma SettledStands(w: World, actions: seq<Action>, i: nat)
    requires i < |actions| && Settled(w, actions, i)
    requires var now, next := Moment(w, actions, i), Moment(w, actions, i + 1);
             && ChainInv(next) && next.store.rows == now.store.rows && next.store.revision == now.store.revision
             && (forall id :: id in next.jobs && next.jobs[id].Confirmed? ==>
                   (id in now.jobs && now.jobs[id] == next.jobs[id])
                   || ConfirmedSafe(w, actions, i + 1, next.jobs[id], now.store))
    ensures Settled(w, actions, i + 1)
  {
    hide ChainInv, OneChain, OnChain, Moment;
    var now, next := Moment(w, actions, i), Moment(w, actions, i + 1);
    forall id | id in next.jobs && next.jobs[id].Confirmed?
      ensures ConfirmedSafe(w, actions, i + 1, next.jobs[id], next.store)
    {
      if id in now.jobs && now.jobs[id] == next.jobs[id] {
        assert ConfirmedSafe(w, actions, i, now.jobs[id], now.store);
      }
    }
  }

  lemma SettledAdvance(w: World, actions: seq<Action>, i: nat, id: nat)
    requires i < |actions| && ReorgSafe(w, actions) && Settled(w, actions, i)
    requires actions[i] == Advances(id) && id in Moment(w, actions, i).jobs
    requires Moment(w, actions, i + 1) == Step(Moment(w, actions, i), actions[i]) && ChainInv(Moment(w, actions, i + 1))
    ensures Settled(w, actions, i + 1)
  {
    hide Ok, ChainOk, OneChain, OnChain, ReorgSafe, AdvanceGathering, Conforms, GatheringOk, FinalRowsStay, Stays, Moment,
      ConfirmedSafe;
    var now, next := Moment(w, actions, i), Moment(w, actions, i + 1);
    if now.jobs[id].Gathering? && next.jobs[id].Confirmed? {
      assert JobOk(now.jobs[id], now.store) && ChainOk(now.jobs[id], now.core);
      ConfirmIsSafe(w, actions, i, now.jobs[id]);
    }
    SettledStands(w, actions, i);
  }

  lemma SettledPublish(w: World, actions: seq<Action>, i: nat, id: nat, queued: bool)
    requires i < |actions| && Settled(w, actions, i)
    requires actions[i] == Publishes(id, queued)
    requires Moment(w, actions, i + 1) == Step(Moment(w, actions, i), actions[i]) && ChainInv(Moment(w, actions, i + 1))
    requires var now := Moment(w, actions, i);
             && id in now.jobs && now.jobs[id].Confirmed?
             && Replace(now.store, now.jobs[id].staged, queued).Published?
    ensures Settled(w, actions, i + 1)
  {
    hide ChainOk, OneChain, OnChain, FinalRowsStay, Moment, Ok, JobOk;
    PublishIsSafe(w, actions, i, id, queued);
    PublishedRevision(Moment(w, actions, i), id, queued);
    var now, next := Moment(w, actions, i), Moment(w, actions, i + 1);
    hide Replace;
    forall k | k in next.jobs && next.jobs[k].Confirmed? ensures ConfirmedSafe(w, actions, i + 1, next.jobs[k], next.store) {
      assert k in now.jobs && now.jobs[k] == next.jobs[k];
      assert ConfirmedSafe(w, actions, i, now.jobs[k], now.store);
    }
  }

  lemma SettledStep(w: World, actions: seq<Action>, i: nat)
    requires i < |actions| && ReorgSafe(w, actions)
    requires Settled(w, actions, i)
    requires NoReturn(Moment(w, actions, i), actions[i])
    ensures Settled(w, actions, i + 1)
  {
    hide ChainOk, Inv, OneChain, ReorgSafe, FinalRowsStay, ConfirmedSafe, Moment, NoReturn, Advance, Replace;
    var now := Moment(w, actions, i);
    NextMoment(w, actions, i);
    StepKeepsChainInv(now, actions[i]);
    if actions[i].Advances? && actions[i].id in now.jobs {
      SettledAdvance(w, actions, i, actions[i].id);
    } else if actions[i].Publishes? && actions[i].id in now.jobs && now.jobs[actions[i].id].Confirmed?
              && Replace(now.store, now.jobs[actions[i].id].staged, actions[i].queued).Published? {
      SettledPublish(w, actions, i, actions[i].id, actions[i].queued);
    } else {
      SettledStands(w, actions, i);
    }
  }

  lemma PublishedRevision(w: World, id: nat, queued: bool)
    requires Inv(w) && id in w.jobs && w.jobs[id].Confirmed?
    requires Replace(w.store, w.jobs[id].staged, queued).Published?
    ensures forall k :: k in w.jobs && w.jobs[k].Confirmed? ==>
              w.jobs[k].seen.revision < Step(w, Publishes(id, queued)).store.revision
  {
    hide Shaped, Conforms, ReplacedRows;
    forall k | k in w.jobs && w.jobs[k].Confirmed?
      ensures w.jobs[k].seen.revision < Step(w, Publishes(id, queued)).store.revision
    {
      assert JobOk(w.jobs[k], w.store);
    }
  }

  lemma {:induction false} RunSettled(w: World, actions: seq<Action>, i: nat)
    requires i <= |actions|
    requires Initial(w) && NoReturns(w, actions) && ReorgSafe(w, actions)
    ensures Settled(w, actions, i)
  {
    if i == 0 {
      InitialInv(w);
    } else {
      RunSettled(w, actions, i - 1);
      assert NoReturn(After(w, actions[..i - 1]), actions[i - 1]);
      SettledStep(w, actions, i - 1);
    }
  }

  /**
   In every run in which dropped opening horizons stay dropped and blocks 100 deep stay put,
   every cached row is the horizon or an ancestor of it, at every moment.
   */
  lemma EveryRunPublishesOneChain(w: World, actions: seq<Action>)
    requires Initial(w) && NoReturns(w, actions) && ReorgSafe(w, actions)
    ensures OneChain(After(w, actions).store.rows)
  {
    RunSettled(w, actions, |actions|);
    assert actions[..|actions|] == actions;
  }
}
