/**
 The cache refresh as a state machine. Any number of refreshes run at once; every read of Core or
 of the store is a step of its own, Core may switch to another chain between any two steps, and
 the publication transaction is one step.
 */
module RefreshProtocol {
  import opened Prelude
  import opened NbitsTable
  import opened Chain
  import opened HeaderStore
  import opened CacheShape
  import opened CacheVerdicts

  /** A live refresh yields after this many final boundaries. */
  const BATCH := 25

  // ----- One refresh -----

  /** What a refresh has read before it fetches any header. */
  datatype Reads = Reads(
    live: bool, tip: nat, revision: nat, highest: Option<int>, prior: Option<CoreHeader>)

  datatype Stage = CheckPrior | FetchFinals | FetchShallow | RecheckTip | RecheckHorizon(closingTip: nat)

  datatype Job =
    | Idle(live: bool)
    | TipRead(live: bool, tip: nat)
    | RevisionRead(live: bool, tip: nat, revision: nat)
    | HighestRead(live: bool, tip: nat, revision: nat, highest: Option<int>)
    | PriorRead(seen: Reads)
    | Gathering(seen: Reads, opening: CoreHeader, stage: Stage, reorged: bool,
                finals: seq<CoreHeader>, shallow: Option<CoreHeader>)
    | Confirmed(seen: Reads, staged: Staged)

  function NextEpoch(highest: Option<int>): int {
    if highest.None? then 0 else highest.value + EPOCH
  }

  /** A live refresh stops at the horizon that makes its 25th boundary final. */
  function HorizonHeight(r: Reads): int {
    if r.live
    then Min(r.tip, NextEpoch(r.highest) + (BATCH - 1) * EPOCH + REORG_SAFE_DEPTH)
    else r.tip
  }

  /** How many boundaries `first..=last` in steps of one epoch hold. */
  function EpochsBetween(first: int, last: int): nat {
    if first > last then 0 else (last - first) / EPOCH + 1
  }

  function FinalsToFetch(r: Reads): nat {
    EpochsBetween(NextEpoch(r.highest), FinalEpochOf(HorizonHeight(r)))
  }

  predicate ShallowToFetch(r: Reads) {
    var current := EpochStart(HorizonHeight(r));
    current > FinalEpochOf(HorizonHeight(r)) && (r.highest.None? || current > r.highest.value)
  }

  /** Core serves a header at a height of its active chain, and an error above its tip. */
  function CanonicalHeader(core: Block, height: int): Option<CoreHeader> {
    if 0 <= height <= Height(core) then Some(HeaderAt(core, height)) else None
  }

  function StagedOf(r: Reads, opening: CoreHeader, reorged: bool, finals: seq<CoreHeader>,
                    shallow: Option<CoreHeader>): Staged {
    Staged(FinalEpochOf(HorizonHeight(r)), finals, shallow, opening, reorged, r.revision)
  }

  function AdvanceGathering(j: Job, core: Block): Job
    requires j.Gathering?
  {
    var r := j.seen;
    match j.stage
    case CheckPrior =>
      if r.prior.Some? && r.prior.value.height < HorizonHeight(r) then
        var observed := CanonicalHeader(core, r.prior.value.height);
        if observed.None? then Idle(r.live)
        else j.(stage := FetchFinals, reorged := observed.value.hash != r.prior.value.hash)
      else j.(stage := FetchFinals)
    case FetchFinals =>
      if |j.finals| == FinalsToFetch(r) then j.(stage := FetchShallow)
      else
        var header := CanonicalHeader(core, NextEpoch(r.highest) + EPOCH * |j.finals|);
        if header.None? then Idle(r.live) else j.(finals := j.finals + [header.value])
    case FetchShallow =>
      if ShallowToFetch(r) then
        var header := CanonicalHeader(core, EpochStart(HorizonHeight(r)));
        if header.None? then Idle(r.live) else j.(stage := RecheckTip, shallow := header)
      else j.(stage := RecheckTip)
    case RecheckTip => j.(stage := RecheckHorizon(Height(core)))
    case RecheckHorizon(closingTip) =>
      var closing := CanonicalHeader(core, HorizonHeight(r));
      if closing == Some(j.opening) && closingTip == r.tip
      then Confirmed(r, StagedOf(r, j.opening, j.reorged, j.finals, j.shallow))
      else Idle(r.live)
  }

  /** The next read of a refresh; an error or a snapshot that moved ends the attempt. */
  function Advance(j: Job, core: Block, store: CacheState): Job {
    match j
    case Idle(live) => TipRead(live, Height(core))
    case TipRead(live, tip) => RevisionRead(live, tip, store.revision)
    case RevisionRead(live, tip, revision) => HighestRead(live, tip, revision, HighestFinal(store.rows))
    case HighestRead(live, tip, revision, highest) =>
      PriorRead(Reads(live, tip, revision, highest, HorizonRow(store.rows)))
    case PriorRead(r) =>
      var opening := CanonicalHeader(core, HorizonHeight(r));
      if opening.None? then Idle(r.live)
      else Gathering(r, opening.value, CheckPrior, false, [], None)
    case Gathering(_, _, _, _, _, _) => AdvanceGathering(j, core)
    case Confirmed(_, _) => j
  }

  // ----- The world -----

  datatype World = World(core: Block, store: CacheState, jobs: map<nat, Job>)

  datatype Action =
    | CoreMoves(next: Block)
    | Advances(id: nat)
    | Aborts(id: nat)
    | Publishes(id: nat, queued: bool)
    | BindsPass
    | EndsPass

  function JobLive(j: Job): bool {
    if j.PriorRead? || j.Gathering? || j.Confirmed? then j.seen.live else j.live
  }

  function Step(w: World, a: Action): World {
    match a
    case CoreMoves(next) => w.(core := next)
    case Advances(id) =>
      if id in w.jobs then w.(jobs := w.jobs[id := Advance(w.jobs[id], w.core, w.store)]) else w
    case Aborts(id) =>
      if id in w.jobs then w.(jobs := w.jobs[id := Idle(JobLive(w.jobs[id]))]) else w
    case Publishes(id, queued) =>
      if id in w.jobs && w.jobs[id].Confirmed? then
        var outcome := Replace(w.store, w.jobs[id].staged, queued);
        World(w.core,
              if outcome.Published? then outcome.state else w.store,
              w.jobs[id := Idle(w.jobs[id].seen.live)])
      else w
    case BindsPass => w.(store := w.store.(recheck := PassBound(w.store.recheck)))
    case EndsPass => w.(store := w.store.(recheck := PassAcknowledged(w.store.recheck)))
  }

  predicate Initial(w: World) {
    w.store == NO_HEADERS && forall id :: id in w.jobs ==> w.jobs[id].Idle?
  }

  /** The world after `actions`, in order. */
  function After(w: World, actions: seq<Action>): World {
    if actions == [] then w
    else Step(After(w, actions[..|actions| - 1]), actions[|actions| - 1])
  }

  // ----- The invariant of every run -----

  /** The final boundaries and all boundaries of a shaped cache, read off its rows. */
  ghost function FinalCount(s: CacheState): nat {
    var highest := HighestFinal(s.rows);
    if highest.None? || highest.value < 0 then 0 else highest.value / EPOCH + 1
  }

  ghost function BoundaryCount(s: CacheState): nat {
    var top := MaxOf(s.rows.Keys);
    if top.None? || top.value < 0 then 0 else top.value / EPOCH + 1
  }

  ghost predicate Ok(s: CacheState) {
    StoreOk(s, FinalCount(s), BoundaryCount(s))
  }

  lemma StoreOkIsOk(s: CacheState, n: nat, m: nat)
    requires StoreOk(s, n, m)
    ensures n == FinalCount(s) && m == BoundaryCount(s) && Ok(s)
  {
    ShapedHighestFinal(s.rows, n, m);
    if m > 0 {
      ShapedTop(s.rows, n, m);
    }
  }

  lemma NonEmptyHasBoundary(s: CacheState)
    requires Ok(s) && s.rows != map[]
    ensures BoundaryCount(s) > 0
  {
  }

  ghost predicate HighestOk(highest: Option<int>) {
    highest.Some? ==> highest.value >= 0 && IsBoundary(highest.value)
  }

  /** What the store reads of a refresh mean while no publication has intervened. */
  ghost predicate ReadsOk(r: Reads, s: CacheState) {
    && r.revision <= s.revision
    && HighestOk(r.highest)
    && (r.revision == s.revision ==> r.highest == HighestFinal(s.rows) && r.prior == HorizonRow(s.rows))
    && (r.prior.Some? ==> Genuine(r.prior.value))
  }

  ghost predicate GatheringOk(j: Job)
    requires j.Gathering?
  {
    var r := j.seen;
    && HighestOk(r.highest)
    && 0 <= HorizonHeight(r)
    && j.opening.height == HorizonHeight(r) && Genuine(j.opening)
    && |j.finals| <= FinalsToFetch(r)
    && (forall i :: 0 <= i < |j.finals| ==>
          j.finals[i].height == NextEpoch(r.highest) + EPOCH * i && Genuine(j.finals[i]))
    && (j.stage.FetchShallow? || j.stage.RecheckTip? || j.stage.RecheckHorizon? ==>
          |j.finals| == FinalsToFetch(r))
    && (if j.stage.RecheckTip? || j.stage.RecheckHorizon?
        then j.shallow.Some? <==> ShallowToFetch(r)
        else j.shallow.None?)
    && (j.shallow.Some? ==> j.shallow.value.height == EpochStart(HorizonHeight(r)) && Genuine(j.shallow.value))
  }

  ghost predicate JobOk(j: Job, s: CacheState) {
    match j
    case Idle(_) => true
    case TipRead(_, _) => true
    case RevisionRead(_, _, revision) => revision <= s.revision
    case HighestRead(_, _, revision, highest) =>
      revision <= s.revision && HighestOk(highest) && (revision == s.revision ==> highest == HighestFinal(s.rows))
    case PriorRead(r) => ReadsOk(r, s)
    case Gathering(r, _, _, _, _, _) => ReadsOk(r, s) && GatheringOk(j)
    case Confirmed(r, p) =>
      && ReadsOk(r, s)
      && p.expectedRevision == r.revision
      && p.horizon.height == HorizonHeight(r)
      && Conforms(FinalsUpTo(r.highest), p)
  }

  ghost predicate Inv(w: World) {
    Ok(w.store) && forall id :: id in w.jobs ==> JobOk(w.jobs[id], w.store)
  }

  lemma OkReads(s: CacheState)
    requires Ok(s)
    ensures HighestOk(HighestFinal(s.rows))
    ensures HorizonRow(s.rows).Some? ==> Genuine(HorizonRow(s.rows).value)
  {
    ShapedHighestFinal(s.rows, FinalCount(s), BoundaryCount(s));
  }

  /** The plan in epochs: the source's height arithmetic and the shape's counts agree. */
  lemma PlanInEpochs(r: Reads)
    requires HighestOk(r.highest)
    ensures var n := FinalsUpTo(r.highest); var h := HorizonHeight(r);
            && NextEpoch(r.highest) == EPOCH * n && n >= 0
            && FinalsToFetch(r) == NewFinals(n, h)
            && (ShallowToFetch(r) <==> WantsShallow(n, h))
  {
  }

  lemma FetchFinalStep(j: Job, core: Block)
    requires j.Gathering? && GatheringOk(j) && j.stage.FetchFinals?
    ensures AdvanceGathering(j, core).Gathering? ==> GatheringOk(AdvanceGathering(j, core))
  {
    var header := CanonicalHeader(core, NextEpoch(j.seen.highest) + EPOCH * |j.finals|);
    if |j.finals| < FinalsToFetch(j.seen) && header.Some? {
      assert Genuine(header.value);
    }
  }

  lemma ConfirmStep(j: Job)
    requires j.Gathering? && GatheringOk(j) && j.stage.RecheckHorizon?
    ensures Conforms(FinalsUpTo(j.seen.highest), StagedOf(j.seen, j.opening, j.reorged, j.finals, j.shallow))
  {
    PlanInEpochs(j.seen);
  }

  lemma GatheringStep(j: Job, core: Block, s: CacheState)
    requires j.Gathering? && JobOk(j, s)
    ensures JobOk(AdvanceGathering(j, core), s)
  {
    hide Conforms, FinalsToFetch, ShallowToFetch, HorizonHeight, EpochStart;
    match j.stage
    case CheckPrior =>
    case FetchFinals => FetchFinalStep(j, core);
    case FetchShallow =>
    case RecheckTip =>
    case RecheckHorizon(_) => ConfirmStep(j);
  }

  lemma JobStep(j: Job, core: Block, s: CacheState)
    requires Ok(s) && JobOk(j, s)
    ensures JobOk(Advance(j, core, s), s)
  {
    OkReads(s);
    if j.Gathering? {
      GatheringStep(j, core, s);
    } else if j.PriorRead? {
      PlanInEpochs(j.seen);
    }
  }

  /** A successful publication saw the store it replaces. */
  lemma PublishSawCurrentStore(w: World, id: nat, queued: bool)
    requires Inv(w)
    requires id in w.jobs && w.jobs[id].Confirmed?
    requires Replace(w.store, w.jobs[id].staged, queued).Published?
    ensures var r := w.jobs[id].seen;
            && r.revision == w.store.revision
            && r.highest == HighestFinal(w.store.rows)
            && r.prior == HorizonRow(w.store.rows)
            && Conforms(FinalCount(w.store), w.jobs[id].staged)
  {
    var j := w.jobs[id];
    assert JobOk(j, w.store);
    PlanInEpochs(j.seen);
    ShapedHighestFinal(w.store.rows, FinalCount(w.store), BoundaryCount(w.store));
  }

  lemma JobOutlivesPublication(j: Job, s: CacheState, s': CacheState)
    requires JobOk(j, s)
    requires s'.revision > s.revision
    ensures JobOk(j, s')
  {
  }

  /** The publication's effect on a well-formed store, in epochs. */
  lemma PublicationEffect(s: CacheState, p: Staged, queued: bool)
    requires Ok(s) && Conforms(FinalCount(s), p)
    requires Replace(s, p, queued).Published?
    ensures var s' := Replace(s, p, queued).state;
            && Ok(s')
            && PublishedRows(s.rows, p, s'.rows)
            && s'.revision == s.revision + 1
            && s'.rows != map[]
            && HorizonRow(s'.rows) == Some(p.horizon)
            && FinalCount(s') == FinalCount(s) + NewFinals(FinalCount(s), p.horizon.height)
  {
    hide Shaped, Conforms, Replace, NewFinals, WantsShallow;
    var n := FinalCount(s);
    PublicationStoreOk(s, n, BoundaryCount(s), p, queued);
    var n' := n + NewFinals(n, p.horizon.height);
    StoreOkIsOk(Replace(s, p, queued).state, n', if WantsShallow(n, p.horizon.height) then n' + 1 else n');
  }

  lemma PublishStep(w: World, id: nat, queued: bool)
    requires Inv(w)
    ensures Inv(Step(w, Publishes(id, queued)))
  {
    hide Shaped, ReplacedRows, NextState;
    if id in w.jobs && w.jobs[id].Confirmed? && Replace(w.store, w.jobs[id].staged, queued).Published? {
      PublishSawCurrentStore(w, id, queued);
      PublicationEffect(w.store, w.jobs[id].staged, queued);
      var s' := Replace(w.store, w.jobs[id].staged, queued).state;
      forall k | k in w.jobs ensures JobOk(w.jobs[k], s') {
        JobOutlivesPublication(w.jobs[k], w.store, s');
      }
    }
  }

  lemma StepKeepsInv(w: World, a: Action)
    requires Inv(w)
    ensures Inv(Step(w, a))
  {
    match a
    case CoreMoves(_) =>
    case Advances(id) =>
      if id in w.jobs {
        JobStep(w.jobs[id], w.core, w.store);
      }
    case Aborts(_) =>
    case Publishes(id, queued) => PublishStep(w, id, queued);
    case BindsPass => RecheckStep(w, PassBound(w.store.recheck));
    case EndsPass => RecheckStep(w, PassAcknowledged(w.store.recheck));
  }

  lemma RecheckStep(w: World, recheck: Recheck)
    requires Inv(w)
    ensures Inv(w.(store := w.store.(recheck := recheck)))
  {
    hide Shaped;
  }

  lemma InitialInv(w: World)
    requires Initial(w)
    ensures Inv(w)
  {
    StoreOkIsOk(w.store, 0, 0);
  }

  lemma {:induction false} RunKeepsInv(w: World, actions: seq<Action>)
    requires Initial(w)
    ensures Inv(After(w, actions))
  {
    if actions == [] {
      InitialInv(w);
    } else {
      RunKeepsInv(w, actions[..|actions| - 1]);
      StepKeepsInv(After(w, actions[..|actions| - 1]), actions[|actions| - 1]);
    }
  }

  // ----- What every run publishes -----

  /** However Core behaves, a non-empty cache loads as a table whose horizon is the cache's horizon. */
  lemma EveryRunPublishesTables(w: World, actions: seq<Action>)
    requires Initial(w)
    ensures var s := After(w, actions).store;
            s.rows != map[] ==>
              && Acceptable(Listing(s.rows))
              && (var t := TableOf(Listing(s.rows), s.horizonTime);
                  && Valid(t)
                  && t.horizonTime == s.horizonTime
                  && HorizonRow(s.rows).Some?
                  && t.horizonHeight == HorizonRow(s.rows).value.height)
  {
    RunKeepsInv(w, actions);
    var s := After(w, actions).store;
    if s.rows != map[] {
      var n, m := FinalCount(s), BoundaryCount(s);
      ShapedIsAcceptable(s.rows, n, m);
      ShapedTop(s.rows, n, m);
      TableForRows(s, n, m);
    }
  }
}
