/**
 Verdicts across a run of the refresh protocol: what a reader may rely on while the cache
 generation stands still, the one verdict that does not wait for it, and the recheck that follows
 when the generation moves.
 */
module VerdictRuns {
  import opened Prelude
  import opened NbitsTable
  import opened Lineage
  import opened HeaderStore
  import opened CacheShape
  import opened CacheVerdicts
  import opened RefreshProtocol
  import opened RefreshSafety

  /** The table a reader loads from a non-empty, well-formed cache. */
  ghost function Loaded(s: CacheState): Table
    requires Ok(s) && s.rows != map[]
  {
    TableFor(s, FinalCount(s), BoundaryCount(s))
  }

  lemma LoadedIsValid(s: CacheState)
    requires Ok(s) && s.rows != map[]
    ensures Valid(Loaded(s)) && Loaded(s).horizonTime == s.horizonTime
  {
    TableForRows(s, FinalCount(s), BoundaryCount(s));
  }

  ghost predicate Grows(s: CacheState, s': CacheState)
    requires Ok(s) && s.rows != map[]
  {
    && Ok(s') && s'.rows != map[]
    && Extends(Loaded(s), Loaded(s'))
    && AddsOnlyAfter(Loaded(s), Loaded(s'), s.horizonTime)
  }

  lemma StepGrows(w: World, a: Action)
    requires Inv(w)
    ensures w.store.generation <= Step(w, a).store.generation
    ensures w.store.rows != map[] && Step(w, a).store.generation == w.store.generation ==>
              Grows(w.store, Step(w, a).store)
  {
    hide Shaped, Conforms, PublishedRows, AdvanceGathering, Listing, TableOf, ReplacedRows;
    if a.Publishes? && a.id in w.jobs && w.jobs[a.id].Confirmed?
       && Replace(w.store, w.jobs[a.id].staged, a.queued).Published? {
      var s := w.store;
      var p := w.jobs[a.id].staged;
      PublishSawCurrentStore(w, a.id, a.queued);
      PublicationEffect(s, p, a.queued);
      var s' := Replace(s, p, a.queued).state;
      if s.rows != map[] && s'.generation == s.generation {
        NonEmptyHasBoundary(s);
        NonEmptyHasBoundary(s');
        UnchangedGenerationGrowsTable(s, FinalCount(s), BoundaryCount(s), p, a.queued, FinalCount(s'), BoundaryCount(s'));
      }
    }
  }

  lemma GrowsTransitive(s: CacheState, s': CacheState, s'': CacheState)
    requires Ok(s) && s.rows != map[] && Grows(s, s') && Grows(s', s'')
    ensures Grows(s, s'')
  {
    LoadedIsValid(s);
    LoadedIsValid(s');
    assert s.horizonTime <= s'.horizonTime;
    assert AddsOnlyAfter(Loaded(s'), Loaded(s''), s.horizonTime);
    ExtendsIsTransitive(Loaded(s), Loaded(s'), Loaded(s''), s.horizonTime);
  }

  /** The store of `w` is the store `s` grew into, unless the generation has moved. */
  ghost predicate GrewFrom(s: CacheState, w: World)
    requires Ok(s) && s.rows != map[]
  {
    && s.generation <= w.store.generation
    && (w.store.generation == s.generation ==> Grows(s, w.store))
  }

  lemma GrewFromStep(s: CacheState, w: World, a: Action)
    requires Ok(s) && s.rows != map[] && Inv(w) && GrewFrom(s, w)
    ensures GrewFrom(s, Step(w, a))
  {
    StepGrows(w, a);
    if Step(w, a).store.generation == s.generation {
      GrowsTransitive(s, w.store, Step(w, a).store);
    }
  }

  lemma {:induction false} RunGrows(w: World, actions: seq<Action>, i: nat, j: nat)
    requires Initial(w) && i <= j <= |actions|
    requires Ok(Moment(w, actions, i).store) && Moment(w, actions, i).store.rows != map[]
    ensures GrewFrom(Moment(w, actions, i).store, Moment(w, actions, j))
    decreases j
  {
    hide Shaped, Inv, Step, Listing, TableOf;
    if i < j {
      RunKeepsInv(w, actions[..j - 1]);
      RunGrows(w, actions, i, j - 1);
      NextMoment(w, actions, j - 1);
      GrewFromStep(Moment(w, actions, i).store, Moment(w, actions, j - 1), actions[j - 1]);
    }
  }

  /**
   In every run, between any two moments with the same cache generation: an orphan verdict of a
   header whose time the earlier cache covers is Strict, Weak or Excluded; Strict and Weak are
   the same at the later moment; Excluded changes, to Weak, exactly when the run cached the
   epoch after the last one known and that epoch admits the header.
   */
  lemma VerdictsHoldWhileGenerationHolds(w: World, actions: seq<Action>, i: nat, j: nat,
                                         time: int, bits: nat, strictHeight: Option<int>)
    requires Initial(w) && i <= j <= |actions|
    requires Moment(w, actions, i).store.rows != map[]
    requires Moment(w, actions, j).store.generation == Moment(w, actions, i).store.generation
    requires time <= Moment(w, actions, i).store.horizonTime
    ensures var s, s' := Moment(w, actions, i).store, Moment(w, actions, j).store;
            && Ok(s) && Ok(s') && s'.rows != map[]
            && Valid(Loaded(s)) && Valid(Loaded(s'))
            && (var v := ClassifyOrphan(Loaded(s), time, bits, strictHeight);
                var v' := ClassifyOrphan(Loaded(s'), time, bits, strictHeight);
                && !v.Undecided?
                && (v.Strict? || v.Weak? ==> v' == v)
                && (v' != v <==> NextEpochAdmits(Loaded(s), Loaded(s'), OrphanInput(time, bits, strictHeight)))
                && (v' != v ==> v == Excluded(Reason.NonBtcEpochBits) && v' == Weak))
  {
    RunKeepsInv(w, actions[..i]);
    RunGrows(w, actions, i, j);
    var s, s' := Moment(w, actions, i).store, Moment(w, actions, j).store;
    LoadedIsValid(s);
    LoadedIsValid(s');
    assert AddsOnlyAfter(Loaded(s), Loaded(s'), time);
    CoveredOrphanDecided(Loaded(s), time, bits, strictHeight);
    OrphanVerdictUnderGrowth(Loaded(s), Loaded(s'), time, bits, strictHeight);
  }

  // ----- A moved generation is followed up -----

  /** Step `b` binds a pass that revisits classified orphans, and it is in flight at moment `m`. */
  ghost predicate OrphanPassSince(w: World, actions: seq<Action>, b: nat, m: nat) {
    && b < m <= |actions| && actions[b].BindsPass?
    && Moment(w, actions, b).store.recheck.pass.None?
    && Moment(w, actions, b + 1).store.recheck.pass.Some? && Moment(w, actions, b + 1).store.recheck.pass.value.orphans
    && Moment(w, actions, m).store.recheck.pass == Moment(w, actions, b + 1).store.recheck.pass
  }

  /** After step `i`, classified orphans are due: for the next pass, or in one bound since. */
  ghost predicate OrphansOwed(w: World, actions: seq<Action>, i: nat, j: nat) {
    && i < j <= |actions|
    && (Moment(w, actions, j).store.recheck.orphans || exists b :: i < b && OrphanPassSince(w, actions, b, j))
  }

  /** Between `i` and `j`, step `b` binds a pass that revisits classified orphans and step `m` acknowledges it. */
  ghost predicate OrphanPassDone(w: World, actions: seq<Action>, i: nat, j: nat, b: nat, m: nat) {
    i < b < m < j <= |actions| && actions[m].EndsPass? && OrphanPassSince(w, actions, b, m)
  }

  lemma MoveOwesOrphans(w: World, a: Action)
    requires Step(w, a).store.generation != w.store.generation
    ensures Step(w, a).store.recheck.orphans
  {
    hide ReplacedRows, Advance, ShallowReorged, OverlapsPriorHorizon, MaxRowTime;
  }

  /** Pending orphans wait until a pass takes them up. */
  lemma PendingStep(w: World, a: Action)
    requires w.store.recheck.orphans && !Step(w, a).store.recheck.orphans
    ensures a.BindsPass? && w.store.recheck.pass.None?
    ensures Step(w, a).store.recheck.pass.Some? && Step(w, a).store.recheck.pass.value.orphans
  {
    hide ReplacedRows, Advance, ShallowReorged, OverlapsPriorHorizon, MaxRowTime;
  }

  /** A pass in flight stays, unless it is acknowledged or everything is due again. */
  lemma FlightStep(w: World, a: Action)
    requires w.store.recheck.pass.Some?
    ensures || Step(w, a).store.recheck.pass == w.store.recheck.pass
            || Step(w, a).store.recheck.orphans
            || a.EndsPass?
  {
    hide ReplacedRows, Advance, ShallowReorged, OverlapsPriorHorizon, MaxRowTime;
  }

  lemma OwedStep(w: World, actions: seq<Action>, i: nat, j: nat)
    requires 0 < j <= |actions| && OrphansOwed(w, actions, i, j - 1)
    ensures OrphansOwed(w, actions, i, j) || exists b, m :: OrphanPassDone(w, actions, i, j, b, m)
  {
    hide Step, Moment;
    var now, next := Moment(w, actions, j - 1), Moment(w, actions, j);
    NextMoment(w, actions, j - 1);
    if now.store.recheck.orphans {
      if !next.store.recheck.orphans {
        PendingStep(now, actions[j - 1]);
        assert OrphanPassSince(w, actions, j - 1, j);
      }
    } else {
      var b :| i < b && OrphanPassSince(w, actions, b, j - 1);
      FlightStep(now, actions[j - 1]);
      if next.store.recheck.pass == now.store.recheck.pass {
        assert OrphanPassSince(w, actions, b, j);
      } else if !next.store.recheck.orphans {
        assert OrphanPassDone(w, actions, i, j, b, j - 1);
      }
    }
  }

  /**
   In every run, after a step that moves the generation: classified orphans stay due for a recheck
   until a pass that revisits them, bound after that step, is acknowledged.
   */
  lemma {:induction false} RecheckNotLost(w: World, actions: seq<Action>, i: nat, j: nat)
    requires i < j <= |actions|
    requires Moment(w, actions, i + 1).store.generation != Moment(w, actions, i).store.generation
    ensures OrphansOwed(w, actions, i, j) || exists b, m :: OrphanPassDone(w, actions, i, j, b, m)
    decreases j
  {
    hide Step, Moment, OrphanPassSince;
    if j == i + 1 {
      NextMoment(w, actions, i);
      MoveOwesOrphans(Moment(w, actions, i), actions[i]);
    } else {
      RecheckNotLost(w, actions, i, j - 1);
      if OrphansOwed(w, actions, i, j - 1) {
        OwedStep(w, actions, i, j);
      } else {
        var b, m :| OrphanPassDone(w, actions, i, j - 1, b, m);
        assert OrphanPassDone(w, actions, i, j, b, m);
      }
    }
  }
}
