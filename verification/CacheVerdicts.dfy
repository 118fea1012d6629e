/**
 The table a published cache loads as, and what a publication's generation counter promises
 about verdicts given under the previous cache.
 */
module CacheVerdicts {
  import opened Prelude
  import opened NbitsTable
  import opened Lineage
  import opened HeaderStore
  import opened CacheShape

  /** Shaped rows whose times the persisted high-water mark covers. */
  ghost predicate StoreOk(s: CacheState, n: nat, m: nat) {
    && Shaped(s.rows, n, m)
    && forall k :: k in s.rows ==> s.rows[k].header.time <= s.horizonTime
  }

  /** The table readers load from a non-empty cache. */
  ghost function TableFor(s: CacheState, n: nat, m: nat): Table
    requires StoreOk(s, n, m) && m > 0
  {
    ShapedIsAcceptable(s.rows, n, m);
    TableOf(Listing(s.rows), s.horizonTime)
  }

  lemma TableForRows(s: CacheState, n: nat, m: nat)
    requires StoreOk(s, n, m) && m > 0
    ensures var t := TableFor(s, n, m);
            && Valid(t)
            && t.coveredMax == EPOCH * (m - 1)
            && t.horizonTime == s.horizonTime
            && Some(t.horizonHeight) == MaxOf(s.rows.Keys)
  {
    ShapedIsAcceptable(s.rows, n, m);
    ConstructedTableValid(Listing(s.rows), s.horizonTime);
    ListingMembers(s.rows);
    var l := Listing(s.rows);
    var e :| e in l && e.time == MaxTime(l);
    assert e.height in s.rows && e == Entry(s.rows, e.height);
  }

  lemma TableForTime(s: CacheState, n: nat, m: nat, b: Boundary)
    requires StoreOk(s, n, m) && m > 0
    ensures b in TableFor(s, n, m).epochsByTime <==>
              IsBoundary(b.1) && b.1 in s.rows && b.0 == s.rows[b.1].header.time
  {
    hide IsBoundary, EpochRows, BitsByHeight, SortBoundaries, Listing, Shaped, MaxTime, Contiguous, StrictlyOrdered;
    ShapedIsAcceptable(s.rows, n, m);
    ListingMembers(s.rows);
    var rows := EpochRows(Listing(s.rows));
    TimeIndexComplete(rows, TableFor(s, n, m).epochsByTime);
    if b in TableFor(s, n, m).epochsByTime {
      var i :| 0 <= i < |rows| && b == (rows[i].time, rows[i].height);
      assert rows[i] in Listing(s.rows);
    }
    if IsBoundary(b.1) && b.1 in s.rows && b.0 == s.rows[b.1].header.time {
      BoundaryRow(s.rows, b.1);
      var i :| 0 <= i < |rows| && rows[i] == Entry(s.rows, b.1);
      assert (rows[i].time, rows[i].height) == b;
    }
  }

  lemma TableForBits(s: CacheState, n: nat, m: nat, h: int)
    requires StoreOk(s, n, m) && m > 0
    ensures h in TableFor(s, n, m).byEpoch <==> IsBoundary(h) && h in s.rows
    ensures h in TableFor(s, n, m).byEpoch ==> TableFor(s, n, m).byEpoch[h] == s.rows[h].header.bits
  {
    hide IsBoundary, EpochRows, BitsByHeight, SortBoundaries, Listing, Shaped, MaxTime, Contiguous, StrictlyOrdered;
    ShapedIsAcceptable(s.rows, n, m);
    ListingMembers(s.rows);
    var rows := EpochRows(Listing(s.rows));
    if h in TableFor(s, n, m).byEpoch {
      var i :| 0 <= i < |rows| && rows[i].height == h;
      assert rows[i] in Listing(s.rows);
    }
    if IsBoundary(h) && h in s.rows {
      BoundaryRow(s.rows, h);
      var i :| 0 <= i < |rows| && rows[i] == Entry(s.rows, h);
      assert rows[i].height == h;
    }
  }

  lemma TableForBoundaries(s: CacheState, n: nat, m: nat)
    requires StoreOk(s, n, m) && m > 0
    ensures var t := TableFor(s, n, m);
            && (forall b :: b in t.epochsByTime <==>
                  IsBoundary(b.1) && b.1 in s.rows && b.0 == s.rows[b.1].header.time)
            && (forall h :: h in t.byEpoch <==> IsBoundary(h) && h in s.rows)
            && (forall h :: h in t.byEpoch ==> t.byEpoch[h] == s.rows[h].header.bits)
  {
    hide IsBoundary, TableFor, Shaped;
    var t := TableFor(s, n, m);
    forall b ensures b in t.epochsByTime <==> IsBoundary(b.1) && b.1 in s.rows && b.0 == s.rows[b.1].header.time {
      TableForTime(s, n, m, b);
    }
    forall h ensures h in t.byEpoch <==> IsBoundary(h) && h in s.rows {
      TableForBits(s, n, m, h);
    }
    forall h | h in t.byEpoch ensures t.byEpoch[h] == s.rows[h].header.bits {
      TableForBits(s, n, m, h);
    }
  }

  lemma BoundaryRow(rows: Rows, k: int)
    requires k in rows && IsBoundary(k)
    ensures Entry(rows, k) in EpochRows(Listing(rows))
  {
    ListingMembers(rows);
  }

  // ----- Publication keeps the store well formed -----

  lemma PublicationStoreOk(s: CacheState, n: nat, m: nat, p: Staged, queued: bool)
    requires StoreOk(s, n, m) && Conforms(n, p)
    requires Replace(s, p, queued).Published?
    ensures var s' := Replace(s, p, queued).state;
            var n' := n + NewFinals(n, p.horizon.height);
            && PublishedRows(s.rows, p, s'.rows)
            && StoreOk(s', n', if WantsShallow(n, p.horizon.height) then n' + 1 else n')
            && MaxOf(s'.rows.Keys) == Some(p.horizon.height)
            && s'.revision == s.revision + 1
  {
    hide Shaped, Conforms, ReplacedRows, StagedIsWellFormed, HorizonTooLow, ShallowReorged, OverlapsPriorHorizon;
    var s' := Replace(s, p, queued).state;
    PublicationRows(s.rows, n, m, p);
    PublicationShape(s.rows, n, m, p, s'.rows);
    forall k | k in s'.rows ensures s'.rows[k].header.time <= s'.horizonTime {
      var times := set j | j in s'.rows :: s'.rows[j].header.time;
      assert s'.rows[k].header.time in times;
    }
  }

  // ----- What an unchanged generation promises -----

  /** The first incoming header of a plan on `n` finals is boundary `n`, when the horizon reaches it. */
  lemma FirstIncoming(n: nat, p: Staged)
    requires Conforms(n, p) && EPOCH * n <= p.horizon.height
    ensures Incoming(p)[0].height == EPOCH * n
    ensures Incoming(p)[0] == if p.finals != [] then p.finals[0] else p.shallow.value
    ensures p.finals != [] || p.shallow.Some?
  {
    hide IsBoundary, Genuine;
    PlanArithmetic(n, p.horizon.height);
    if p.finals == [] {
      assert WantsShallow(n, p.horizon.height);
    }
  }

  /** The shallow row at boundary `n` is met first, so it is kept or the suffix has been reorganised. */
  lemma ShallowRowMet(rows: Rows, p: Staged, k: int)
    requires k in rows && !rows[k].isFinal && rows[k].header.height == k
    requires Incoming(p)[0].height == k && !ShallowReorged(rows, p)
    ensures Incoming(p)[0] == rows[k].header
  {
    assert rows[k].header in ShallowHeaders(rows);
  }

  lemma ShallowBoundaryKept(s: CacheState, n: nat, m: nat, p: Staged, rows': Rows)
    requires Shaped(s.rows, n, m) && Conforms(n, p) && PublishedRows(s.rows, p, rows')
    requires m == n + 1
    requires !ShallowReorged(s.rows, p)
    requires !HorizonTooLow(s.rows, p)
    ensures EPOCH * n in s.rows && EPOCH * n in rows'
    ensures rows'[EPOCH * n].header == s.rows[EPOCH * n].header
  {
    MultipleIsBoundary(n);
    HorizonReaches(s.rows, n, m, p);
    hide ShallowReorged, HorizonTooLow, Conforms, Incoming, IsBoundary;
    FirstIncoming(n, p);
    ShallowRowMet(s.rows, p, EPOCH * n);
  }

  lemma HorizonReaches(rows: Rows, n: nat, m: nat, p: Staged)
    requires Shaped(rows, n, m) && m == n + 1 && !ShallowReorged(rows, p)
    ensures EPOCH * n in rows && !rows[EPOCH * n].isFinal && EPOCH * n <= p.horizon.height
  {
    MultipleIsBoundary(n);
    hide IsBoundary;
    assert rows[EPOCH * n].header in ShallowHeaders(rows);
  }

  lemma UnreorgedKeepsBoundaries(s: CacheState, n: nat, m: nat, p: Staged, rows': Rows)
    requires Shaped(s.rows, n, m) && Conforms(n, p) && PublishedRows(s.rows, p, rows')
    requires !ShallowReorged(s.rows, p)
    requires !HorizonTooLow(s.rows, p)
    ensures forall k :: k in s.rows && IsBoundary(k) ==> k in rows' && rows'[k].header == s.rows[k].header
  {
    hide ShallowReorged, HorizonTooLow, Conforms, IsBoundary;
    forall k | k in s.rows && IsBoundary(k) ensures k in rows' && rows'[k].header == s.rows[k].header {
      if !s.rows[k].isFinal {
        BoundaryBelow(k, m);
        ShallowBoundaryKept(s, n, m, p, rows');
      }
    }
  }

  lemma NewBoundariesAreLate(s: CacheState, n: nat, m: nat, p: Staged, rows': Rows)
    requires Shaped(s.rows, n, m) && PublishedRows(s.rows, p, rows')
    requires !OverlapsPriorHorizon(s.rows, p, s.horizonTime)
    ensures forall k :: k in rows' && IsBoundary(k) && k >= EPOCH * m ==> rows'[k].header.time > s.horizonTime
  {
    forall k | k in rows' && IsBoundary(k) && k >= EPOCH * m ensures rows'[k].header.time > s.horizonTime {
      var highest := HighestEpoch(s.rows);
      assert highest.None? || k > highest.value;
      assert k !in s.rows;
      var i := IncomingIndex(s.rows, p, rows', k);
    }
  }

  lemma IncomingIndex(rows: Rows, p: Staged, rows': Rows, k: int) returns (i: nat)
    requires PublishedRows(rows, p, rows')
    requires k in rows' && k !in rows
    ensures i < |Incoming(p)| && Incoming(p)[i] == rows'[k].header && Incoming(p)[i].height == k
  {
    if p.horizon.height == k {
      i := |Incoming(p)| - 1;
    } else if p.shallow.Some? && p.shallow.value.height == k {
      i := |p.finals|;
    } else {
      var j :| 0 <= j < |p.finals| && p.finals[j].height == k;
      i := j;
    }
  }

  /** The row-level meaning of growth. */
  ghost predicate RowsGrow(s: CacheState, m: nat, s': CacheState) {
    && (forall k :: k in s.rows && IsBoundary(k) ==> k in s'.rows && s'.rows[k].header == s.rows[k].header)
    && (forall k :: k in s'.rows && IsBoundary(k) && k >= EPOCH * m ==> s'.rows[k].header.time > s.horizonTime)
    && s.horizonTime <= s'.horizonTime
  }

  lemma RowGrowthIsTableGrowth(s: CacheState, n: nat, m: nat, s': CacheState, n': nat, m': nat)
    requires StoreOk(s, n, m) && m > 0 && StoreOk(s', n', m') && m' > 0
    requires RowsGrow(s, m, s')
    ensures Extends(TableFor(s, n, m), TableFor(s', n', m'))
    ensures AddsOnlyAfter(TableFor(s, n, m), TableFor(s', n', m'), s.horizonTime)
  {
    TableForRows(s, n, m);
    TableForRows(s', n', m');
    TableForBoundaries(s, n, m);
    TableForBoundaries(s', n', m');
    var t, t' := TableFor(s, n, m), TableFor(s', n', m');
    forall b | b in t'.epochsByTime && b !in t.epochsByTime ensures s.horizonTime < b.0 {
      assert b.1 !in s.rows;
    }
    forall b | b in t.epochsByTime ensures b in t'.epochsByTime {
      assert b.1 in s.rows && b.1 in s'.rows;
    }
  }

  /**
   A publication that leaves the generation alone only grows the table: every cached boundary
   keeps its bits and time, and every new one is later than all the time already covered.
   */
  lemma UnchangedGenerationGrowsTable(s: CacheState, n: nat, m: nat, p: Staged, queued: bool, n': nat, m': nat)
    requires StoreOk(s, n, m) && m > 0 && Conforms(n, p)
    requires Replace(s, p, queued).Published?
    requires Replace(s, p, queued).state.generation == s.generation
    requires StoreOk(Replace(s, p, queued).state, n', m') && m' > 0
    ensures Extends(TableFor(s, n, m), TableFor(Replace(s, p, queued).state, n', m'))
    ensures AddsOnlyAfter(TableFor(s, n, m), TableFor(Replace(s, p, queued).state, n', m'), s.horizonTime)
  {
    hide Shaped, Conforms, ReplacedRows, StagedIsWellFormed, HorizonTooLow, ShallowReorged, OverlapsPriorHorizon, TableFor,
      Extends, AddsOnlyAfter, MaxRowTime, PublishedRows, IsBoundary;
    var s' := Replace(s, p, queued).state;
    PublicationStoreOk(s, n, m, p, queued);
    UnreorgedKeepsBoundaries(s, n, m, p, s'.rows);
    NewBoundariesAreLate(s, n, m, p, s'.rows);
    assert s.horizonTime <= s'.horizonTime;
    RowGrowthIsTableGrowth(s, n, m, s', n', m');
  }
}
