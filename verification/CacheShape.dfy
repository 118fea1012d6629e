/**
 What every published cache looks like: final boundaries 0, 2016, ... without a gap, at most one
 shallow boundary after them, and at most one other row, the horizon, inside the last interval.
 */
module CacheShape {
  import opened Prelude
  import opened NbitsTable
  import opened HeaderStore

  /** `n` final boundaries and `m` boundaries in all. */
  ghost predicate Shaped(rows: Rows, n: nat, m: nat) {
    && n <= m <= n + 1
    && (m == 0 ==> rows == map[])
    && (forall k :: k in rows ==> 0 <= k && k == rows[k].header.height && Genuine(rows[k].header))
    && (forall k :: k in rows && rows[k].isFinal ==> IsBoundary(k) && k < EPOCH * n)
    && (forall k :: 0 <= k < EPOCH * n && IsBoundary(k) ==> k in rows && rows[k].isFinal)
    && (forall k :: 0 <= k < EPOCH * m && IsBoundary(k) ==> k in rows)
    && (forall k :: k in rows ==> k < EPOCH * m)
    && (forall k :: k in rows && !IsBoundary(k) ==> EPOCH * (m - 1) < k)
    && (forall k, l :: k in rows && l in rows && !IsBoundary(k) && !IsBoundary(l) ==> k == l)
  }

  function FinalsUpTo(highest: Option<int>): int {
    if highest.None? then 0 else highest.value / EPOCH + 1
  }

  lemma ShapedHighestFinal(rows: Rows, n: nat, m: nat)
    requires Shaped(rows, n, m)
    ensures HighestFinal(rows) == if n == 0 then None else Some(EPOCH * (n - 1))
    ensures FinalsUpTo(HighestFinal(rows)) == n
  {
    if n > 0 {
      var top := EPOCH * (n - 1);
      assert IsBoundary(top);
      assert top in FinalHeights(rows);
      forall k | k in FinalHeights(rows) ensures k <= top {
        assert IsBoundary(k) && k < EPOCH * n;
      }
    }
  }

  /** Every boundary row lies below the horizon, and the horizon in the last boundary's interval. */
  lemma ShapedTop(rows: Rows, n: nat, m: nat)
    requires Shaped(rows, n, m)
    requires m > 0
    ensures MaxOf(rows.Keys).Some?
    ensures EPOCH * (m - 1) <= MaxOf(rows.Keys).value < EPOCH * m
    ensures HorizonRow(rows) == Some(rows[MaxOf(rows.Keys).value].header)
  {
    assert IsBoundary(EPOCH * (m - 1));
    assert EPOCH * (m - 1) in rows.Keys;
  }

  // ----- The listing is a list the table constructor accepts -----

  function Entry(rows: Rows, k: int): EpochHeader
    requires k in rows
  {
    EpochHeader(k, rows[k].header.time, rows[k].header.bits)
  }

  lemma {:induction false} ListingMembers(rows: Rows)
    ensures forall e :: e in Listing(rows) ==> e.height in rows && e == Entry(rows, e.height)
    ensures forall k :: k in rows ==> Entry(rows, k) in Listing(rows)
    decreases |rows.Keys|
  {
    var top := MaxOf(rows.Keys);
    if top.Some? {
      var rest := rows - {top.value};
      assert rest.Keys == rows.Keys - {top.value};
      ListingMembers(rest);
      assert Listing(rows) == Listing(rest) + [Entry(rows, top.value)];
      forall k | k in rows ensures Entry(rows, k) in Listing(rows) {
        if k != top.value {
          assert k in rest && Entry(rest, k) == Entry(rows, k);
        }
      }
    }
  }

  lemma OrderedSnoc(l: seq<EpochHeader>, e: EpochHeader)
    requires StrictlyOrdered(l) && forall i :: 0 <= i < |l| ==> l[i].height < e.height
    ensures StrictlyOrdered(l + [e])
  {
  }

  lemma {:induction false} ListingOrdered(rows: Rows)
    ensures StrictlyOrdered(Listing(rows))
    ensures rows != map[] ==>
              Listing(rows) != [] && Listing(rows)[|Listing(rows)| - 1].height == MaxOf(rows.Keys).value
    decreases |rows.Keys|
  {
    var top := MaxOf(rows.Keys);
    if top.Some? {
      var rest := rows - {top.value};
      assert rest.Keys == rows.Keys - {top.value};
      ListingOrdered(rest);
      ListingMembers(rest);
      assert Listing(rows) == Listing(rest) + [Entry(rows, top.value)];
      hide Listing, StrictlyOrdered;
      var l := Listing(rest);
      forall i | 0 <= i < |l| ensures l[i].height < top.value {
        assert l[i] in l;
        assert l[i].height in rest.Keys;
      }
      OrderedSnoc(l, Entry(rows, top.value));
    }
  }

  /** `rows` holds a header at every boundary below `EPOCH * m`, and no other height. */
  ghost predicate CoversBoundaries(rows: seq<EpochHeader>, m: nat) {
    && (forall i :: 0 <= i < |rows| ==> 0 <= rows[i].height < EPOCH * m && IsBoundary(rows[i].height))
    && (forall k :: 0 <= k < EPOCH * m && IsBoundary(k) ==> exists i :: 0 <= i < |rows| && rows[i].height == k)
  }

  lemma LastBoundaryIsTop(rows: seq<EpochHeader>, m: nat)
    requires m > 0 && StrictlyOrdered(rows) && CoversBoundaries(rows, m)
    ensures rows != [] && rows[|rows| - 1].height == EPOCH * (m - 1)
  {
    hide IsBoundary;
    var top := EPOCH * (m - 1);
    MultipleIsBoundary(m - 1);
    var i :| 0 <= i < |rows| && rows[i].height == top;
    BoundaryBelow(rows[|rows| - 1].height, m);
  }

  lemma {:induction false} StrictBoundariesContiguous(rows: seq<EpochHeader>, m: nat)
    requires StrictlyOrdered(rows) && CoversBoundaries(rows, m)
    ensures |rows| == m && Contiguous(rows)
  {
    hide IsBoundary;
    assert rows == [] || 0 <= rows[0].height < EPOCH * m;
    if m > 0 {
      LastBoundaryIsTop(rows, m);
      var rest := rows[..|rows| - 1];
      forall k | 0 <= k < EPOCH * (m - 1) && IsBoundary(k) ensures exists i :: 0 <= i < |rest| && rest[i].height == k {
        var i :| 0 <= i < |rows| && rows[i].height == k;
        assert rest[i].height == k;
      }
      forall i | 0 <= i < |rest| ensures 0 <= rest[i].height < EPOCH * (m - 1) && IsBoundary(rest[i].height) {
        assert rows[i].height < rows[|rows| - 1].height;
      }
      StrictBoundariesContiguous(rest, m - 1);
    }
  }

  /** A shaped, non-empty cache loads as a table whose height coverage is its boundaries'. */
  lemma ShapedIsAcceptable(rows: Rows, n: nat, m: nat)
    requires Shaped(rows, n, m)
    requires m > 0
    ensures Acceptable(Listing(rows))
    ensures |EpochRows(Listing(rows))| == m
    ensures Listing(rows)[|Listing(rows)| - 1].height == MaxOf(rows.Keys).value
  {
    hide IsBoundary, Listing, MaxOf;
    ListingMembers(rows);
    ListingOrdered(rows);
    ShapedTop(rows, n, m);
    var l := Listing(rows);
    var boundaries := EpochRows(l);
    forall k | 0 <= k < EPOCH * m && IsBoundary(k)
      ensures exists i :: 0 <= i < |boundaries| && boundaries[i].height == k
    {
      var e := Entry(rows, k);
      assert e in l && e in boundaries;
      var i :| 0 <= i < |boundaries| && boundaries[i] == e;
      assert boundaries[i].height == k;
    }
    forall i | 0 <= i < |boundaries|
      ensures 0 <= boundaries[i].height < EPOCH * m && IsBoundary(boundaries[i].height)
    {
      assert boundaries[i] in l && boundaries[i].height in rows;
    }
    StrictBoundariesContiguous(boundaries, m);
  }

  // ----- What a refresh stages -----

  /** The plan of a refresh whose horizon is `horizonHeight`, on a cache with `n` final boundaries. */
  function FinalEpochOf(horizonHeight: int): int {
    EpochStart(horizonHeight - REORG_SAFE_DEPTH)
  }

  const REORG_SAFE_DEPTH := 100

  /** How many boundaries become final: those from the next epoch to the final epoch. */
  function NewFinals(n: nat, horizonHeight: int): nat {
    if EPOCH * n > FinalEpochOf(horizonHeight) then 0
    else FinalEpochOf(horizonHeight) / EPOCH - n + 1
  }

  predicate WantsShallow(n: nat, horizonHeight: int) {
    EpochStart(horizonHeight) > FinalEpochOf(horizonHeight) && EpochStart(horizonHeight) >= EPOCH * n
  }

  /** The staged headers have the heights that plan asks for, and are headers Core could serve. */
  ghost predicate Conforms(n: nat, p: Staged) {
    var h := p.horizon.height;
    && 0 <= h && Genuine(p.horizon)
    && p.finalEpoch == FinalEpochOf(h)
    && |p.finals| == NewFinals(n, h)
    && (forall i :: 0 <= i < |p.finals| ==> p.finals[i].height == EPOCH * (n + i) && Genuine(p.finals[i]))
    && (p.shallow.Some? <==> WantsShallow(n, h))
    && (p.shallow.Some? ==> p.shallow.value.height == EpochStart(h) && Genuine(p.shallow.value))
  }

  // ----- Publication keeps the shape -----

  ghost predicate FreshAscending(rows: Rows, headers: seq<CoreHeader>, n: nat) {
    && (forall i :: 0 <= i < |headers| ==> headers[i].height == EPOCH * (n + i))
    && (forall k :: k in rows ==> k < EPOCH * n)
  }

  lemma {:induction false} RecordAllFacts(rows: Rows, headers: seq<CoreHeader>, n: nat)
    requires FreshAscending(rows, headers, n)
    ensures RecordAll(rows, headers, true).Some?
    ensures var r := RecordAll(rows, headers, true).value;
            && (forall k :: k in rows ==> k in r && r[k] == rows[k])
            && (forall i :: 0 <= i < |headers| ==>
                  headers[i].height in r && r[headers[i].height] == Row(headers[i], true))
            && (forall k :: k in r ==> k in rows || exists i :: 0 <= i < |headers| && headers[i].height == k)
  {
    if headers != [] {
      var init := headers[..|headers| - 1];
      var last := headers[|headers| - 1];
      RecordAllFacts(rows, init, n);
      var before := RecordAll(rows, init, true).value;
      assert last.height !in before;
      var r := RecordAll(rows, headers, true).value;
      assert r == before[last.height := Row(last, true)];
      forall k | k in r && k !in rows ensures exists i :: 0 <= i < |headers| && headers[i].height == k {
        if k != last.height {
          var i :| 0 <= i < |init| && init[i].height == k;
          assert headers[i].height == k;
        }
      }
      forall i | 0 <= i < |headers| ensures headers[i].height in r && r[headers[i].height] == Row(headers[i], true) {
        if i < |init| {
          assert init[i] == headers[i];
        }
      }
    }
  }

  /** The plan's arithmetic: where the final, shallow and horizon heights lie. */
  lemma PlanArithmetic(n: nat, h: int)
    requires 0 <= h
    requires n > 0 ==> EPOCH * (n - 1) <= h
    ensures var c := NewFinals(n, h); var fe := FinalEpochOf(h); var cur := EpochStart(h);
            && IsBoundary(fe) && IsBoundary(cur)
            && fe < h && cur <= h < cur + EPOCH && cur - EPOCH <= fe <= cur
            && (c > 0 ==> EPOCH * (n + c - 1) == fe)
            && (WantsShallow(n, h) ==> cur == EPOCH * (n + c) && !IsBoundary(cur - 1))
            && (!WantsShallow(n, h) ==> cur == EPOCH * (n + c - 1) && n + c > 0)
  {
  }

  /** The rows a publication leaves, one by one. */
  ghost predicate PublishedRows(rows: Rows, p: Staged, rows': Rows) {
    && (forall k :: k in rows && rows[k].isFinal ==> k in rows' && rows'[k] == rows[k])
    && (forall i :: 0 <= i < |p.finals| ==>
          p.finals[i].height in rows' && rows'[p.finals[i].height] == Row(p.finals[i], true))
    && (p.shallow.Some? ==>
          p.shallow.value.height in rows' && rows'[p.shallow.value.height] == Row(p.shallow.value, false))
    && p.horizon.height in rows' && rows'[p.horizon.height].header == p.horizon
    && (rows'[p.horizon.height].isFinal ==> p.horizon.height in rows && rows[p.horizon.height].isFinal)
    && (forall k :: k in rows' ==>
          || (k in rows && rows[k].isFinal)
          || (exists i :: 0 <= i < |p.finals| && p.finals[i].height == k)
          || (p.shallow.Some? && p.shallow.value.height == k)
          || p.horizon.height == k)
  }

  lemma FinalRowsBelow(rows: Rows, n: nat, m: nat)
    requires Shaped(rows, n, m)
    ensures forall k :: k in FinalRows(rows) ==> k < EPOCH * n
  {
  }

  /** What recording one header does: its row is there, and nothing else changed. */
  lemma RecordFacts(rows: Rows, header: CoreHeader, isFinal: bool)
    requires Record(rows, header, isFinal).Some?
    ensures Record(rows, header, isFinal).value == rows[header.height := Row(header, isFinal)]
    ensures header.height in rows ==> rows[header.height] == Row(header, isFinal)
  {
    if header.height in rows {
      assert rows[header.height := Row(header, isFinal)] == rows;
    }
  }

  /** The rows once the new finals are recorded on the old ones. */
  ghost predicate FinalsRecorded(rows: Rows, finals: seq<CoreHeader>, r: Rows) {
    && (forall k :: k in FinalRows(rows) ==> k in r && r[k] == rows[k])
    && (forall i :: 0 <= i < |finals| ==> finals[i].height in r && r[finals[i].height] == Row(finals[i], true))
    && (forall k :: k in r ==> k in FinalRows(rows) || exists i :: 0 <= i < |finals| && finals[i].height == k)
  }

  lemma FinalsAreRecorded(rows: Rows, n: nat, m: nat, p: Staged)
    requires Shaped(rows, n, m) && Conforms(n, p)
    ensures RecordAll(FinalRows(rows), p.finals, true).Some?
    ensures FinalsRecorded(rows, p.finals, RecordAll(FinalRows(rows), p.finals, true).value)
  {
    hide IsBoundary, RecordAll, EpochStart, NewFinals, WantsShallow;
    FinalRowsBelow(rows, n, m);
    RecordAllFacts(FinalRows(rows), p.finals, n);
  }

  /** The shallow boundary is new, and the horizon is new, or the shallow or a final row again. */
  lemma StackedRows(rows: Rows, p: Staged, r: Rows, r2: Rows, isFinal: bool)
    requires FinalsRecorded(rows, p.finals, r)
    requires r2 == if p.shallow.Some? then r[p.shallow.value.height := Row(p.shallow.value, false)] else r
    requires p.shallow.Some? ==> p.shallow.value.height !in r
    requires p.horizon.height in r2 ==> r2[p.horizon.height] == Row(p.horizon, isFinal)
    requires p.horizon.height in r ==> p.horizon.height in FinalRows(rows)
    requires isFinal ==> p.horizon.height in FinalRows(rows)
    ensures PublishedRows(rows, p, r2[p.horizon.height := Row(p.horizon, isFinal)])
  {
    var rows' := r2[p.horizon.height := Row(p.horizon, isFinal)];
    forall k | k in FinalRows(rows) ensures k in rows' && rows'[k] == rows[k] {
      assert k in r;
    }
    forall i | 0 <= i < |p.finals| ensures p.finals[i].height in rows' && rows'[p.finals[i].height] == Row(p.finals[i], true) {
      assert p.finals[i].height in r;
    }
    forall k | k in rows' && k != p.horizon.height && !(p.shallow.Some? && p.shallow.value.height == k)
      ensures (k in rows && rows[k].isFinal) || exists i :: 0 <= i < |p.finals| && p.finals[i].height == k
    {
      assert k in r;
    }
  }

  /** Where the staged heights lie with respect to the recorded finals. */
  lemma StagedAboveFinals(rows: Rows, n: nat, m: nat, p: Staged, r: Rows)
    requires Shaped(rows, n, m) && Conforms(n, p) && !HorizonTooLow(rows, p)
    requires FinalsRecorded(rows, p.finals, r)
    ensures p.shallow.Some? ==> p.shallow.value.height !in r && HighestFinal(rows) != Some(p.horizon.height)
    ensures p.horizon.height in r ==> p.horizon.height in FinalRows(rows)
    ensures p.horizon.height in FinalRows(rows) <==> HighestFinal(rows) == Some(p.horizon.height)
    ensures p.horizon.height != p.finalEpoch
  {
    hide IsBoundary, EpochStart, NewFinals, WantsShallow;
    var h := p.horizon.height;
    ShapedHighestFinal(rows, n, m);
    PlanArithmetic(n, h);
    forall k | k in r ensures k < EPOCH * n || k <= FinalEpochOf(h) {
      if k !in FinalRows(rows) {
        var i :| 0 <= i < |p.finals| && p.finals[i].height == k;
        assert p.finals[i].height == EPOCH * (n + i);
      }
    }
    if h in FinalRows(rows) {
      BoundaryBelow(h, n);
    }
  }

  lemma PublicationRows(rows: Rows, n: nat, m: nat, p: Staged)
    requires Shaped(rows, n, m)
    requires Conforms(n, p)
    requires !HorizonTooLow(rows, p)
    requires ReplacedRows(rows, p).Some?
    ensures PublishedRows(rows, p, ReplacedRows(rows, p).value)
  {
    hide Shaped, Conforms, PublishedRows, FinalsRecorded, Record, RecordAll, HighestFinal, HorizonTooLow;
    FinalsAreRecorded(rows, n, m, p);
    var r := RecordAll(FinalRows(rows), p.finals, true).value;
    StagedAboveFinals(rows, n, m, p, r);
    var isFinal := p.horizon.height == p.finalEpoch || HighestFinal(rows) == Some(p.horizon.height);
    var r2 := if p.shallow.Some? then Record(r, p.shallow.value, false).value else r;
    if p.shallow.Some? {
      RecordFacts(r, p.shallow.value, false);
    }
    RecordFacts(r2, p.horizon, isFinal);
    StackedRows(rows, p, r, r2, isFinal);
  }

  lemma PublishedRowBounds(rows: Rows, n: nat, m: nat, p: Staged, rows': Rows, k: int)
    requires Shaped(rows, n, m) && Conforms(n, p) && PublishedRows(rows, p, rows')
    requires n > 0 ==> EPOCH * (n - 1) <= p.horizon.height
    requires k in rows'
    ensures 0 <= k <= p.horizon.height && k == rows'[k].header.height && Genuine(rows'[k].header)
    ensures IsBoundary(k) || k == p.horizon.height
    ensures rows'[k].isFinal ==> IsBoundary(k) && k < EPOCH * (n + NewFinals(n, p.horizon.height))
  {
    hide IsBoundary, EpochStart, NewFinals, WantsShallow;
    PlanArithmetic(n, p.horizon.height);
    if k in rows && rows[k].isFinal {
      BoundaryBelow(k, n);
    } else if k != p.horizon.height && !(p.shallow.Some? && p.shallow.value.height == k) {
      var i :| 0 <= i < |p.finals| && p.finals[i].height == k;
      MultipleIsBoundary(n + i);
    }
  }

  lemma PublishedRowsBounds(rows: Rows, n: nat, m: nat, p: Staged, rows': Rows)
    requires Shaped(rows, n, m) && Conforms(n, p) && PublishedRows(rows, p, rows')
    requires n > 0 ==> EPOCH * (n - 1) <= p.horizon.height
    ensures forall k :: k in rows' ==>
              0 <= k <= p.horizon.height && k == rows'[k].header.height && Genuine(rows'[k].header)
    ensures forall k :: k in rows' && !IsBoundary(k) ==> k == p.horizon.height
    ensures forall k :: k in rows' && rows'[k].isFinal ==>
              IsBoundary(k) && k < EPOCH * (n + NewFinals(n, p.horizon.height))
  {
    hide Shaped, Conforms, PublishedRows, IsBoundary, NewFinals;
    forall k | k in rows'
      ensures 0 <= k <= p.horizon.height && k == rows'[k].header.height && Genuine(rows'[k].header)
      ensures IsBoundary(k) || k == p.horizon.height
      ensures rows'[k].isFinal ==> IsBoundary(k) && k < EPOCH * (n + NewFinals(n, p.horizon.height))
    {
      PublishedRowBounds(rows, n, m, p, rows', k);
    }
  }

  lemma PublishedRowsCover(rows: Rows, n: nat, m: nat, p: Staged, rows': Rows)
    requires Shaped(rows, n, m) && Conforms(n, p) && PublishedRows(rows, p, rows')
    requires n > 0 ==> EPOCH * (n - 1) <= p.horizon.height
    ensures forall k :: 0 <= k < EPOCH * (n + NewFinals(n, p.horizon.height)) && IsBoundary(k) ==>
              k in rows' && rows'[k].isFinal
  {
    hide IsBoundary, EpochStart, NewFinals, WantsShallow;
    forall k | 0 <= k < EPOCH * (n + NewFinals(n, p.horizon.height)) && IsBoundary(k)
      ensures k in rows' && rows'[k].isFinal
    {
      if k >= EPOCH * n {
        BoundaryIsMultiple(k);
        assert p.finals[k / EPOCH - n].height == k;
      }
    }
  }

  /** The last boundary below the horizon is among the published rows. */
  lemma LastBoundaryPublished(rows: Rows, n: nat, m: nat, p: Staged, rows': Rows, k: int)
    requires Shaped(rows, n, m) && Conforms(n, p) && PublishedRows(rows, p, rows')
    requires n > 0 ==> EPOCH * (n - 1) <= p.horizon.height
    requires WantsShallow(n, p.horizon.height)
    requires var n' := n + NewFinals(n, p.horizon.height); EPOCH * n' <= k < EPOCH * (n' + 1) && IsBoundary(k)
    ensures k in rows'
  {
    hide IsBoundary, EpochStart, NewFinals, WantsShallow, Shaped;
    PlanArithmetic(n, p.horizon.height);
    BoundaryBelow(k, n + NewFinals(n, p.horizon.height) + 1);
  }

  lemma PublicationShape(rows: Rows, n: nat, m: nat, p: Staged, rows': Rows)
    requires Shaped(rows, n, m) && Conforms(n, p) && PublishedRows(rows, p, rows')
    requires !HorizonTooLow(rows, p)
    ensures var n' := n + NewFinals(n, p.horizon.height);
            Shaped(rows', n', if WantsShallow(n, p.horizon.height) then n' + 1 else n')
    ensures MaxOf(rows'.Keys) == Some(p.horizon.height)
  {
    ShapedHighestFinal(rows, n, m);
    PlanArithmetic(n, p.horizon.height);
    HorizonPublished(rows, p, rows');
    hide IsBoundary, EpochStart, NewFinals, WantsShallow, HighestFinal, PublishedRows, Conforms;
    PublishedRowsBounds(rows, n, m, p, rows');
    PublishedRowsCover(rows, n, m, p, rows');
    var n' := n + NewFinals(n, p.horizon.height);
    var m' := if WantsShallow(n, p.horizon.height) then n' + 1 else n';
    forall k | 0 <= k < EPOCH * m' && IsBoundary(k) ensures k in rows' {
      if k >= EPOCH * n' {
        LastBoundaryPublished(rows, n, m, p, rows', k);
      }
    }
    BoundsGiveShape(rows', n', m', p.horizon.height);
  }

  lemma HorizonPublished(rows: Rows, p: Staged, rows': Rows)
    requires PublishedRows(rows, p, rows')
    ensures p.horizon.height in rows'
  {
  }

  lemma BoundsGiveShape(rows: Rows, n: nat, m: nat, h: int)
    requires n <= m <= n + 1 && m > 0 && EPOCH * (m - 1) <= h < EPOCH * m
    requires h in rows && forall k :: k in rows ==> 0 <= k <= h && k == rows[k].header.height && Genuine(rows[k].header)
    requires forall k :: k in rows && !IsBoundary(k) ==> k == h
    requires forall k :: k in rows && rows[k].isFinal ==> IsBoundary(k) && k < EPOCH * n
    requires forall k :: 0 <= k < EPOCH * n && IsBoundary(k) ==> k in rows && rows[k].isFinal
    requires forall k :: 0 <= k < EPOCH * m && IsBoundary(k) ==> k in rows
    ensures Shaped(rows, n, m) && MaxOf(rows.Keys) == Some(h)
  {
    hide Genuine;
    MultipleIsBoundary(m - 1);
    hide IsBoundary;
  }

  /**
   A planned publication meets an existing row in two places only: the horizon may be the shallow
   boundary just staged, or the highest final boundary. It is refused exactly when they differ.
   */
  lemma RecordsAgree(rows: Rows, n: nat, m: nat, p: Staged)
    requires Shaped(rows, n, m) && Conforms(n, p)
    requires !HorizonTooLow(rows, p)
    ensures ReplacedRows(rows, p).Some? <==>
              && (p.shallow.Some? && p.shallow.value.height == p.horizon.height ==> p.shallow.value == p.horizon)
              && (p.horizon.height in rows && rows[p.horizon.height].isFinal ==>
                    rows[p.horizon.height].header == p.horizon)
  {
    hide Shaped, Conforms, RecordAll, HighestFinal, HorizonTooLow;
    FinalsAreRecorded(rows, n, m, p);
    var r := RecordAll(FinalRows(rows), p.finals, true).value;
    StagedAboveFinals(rows, n, m, p, r);
  }
}
