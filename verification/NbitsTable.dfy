/**
 The sparse Bitcoin difficulty table: one header per 2,016-block retarget boundary plus the
 horizon header, indexed by height and by time.
 */
module NbitsTable {
  import opened Prelude

  const EPOCH := 2016

  datatype EpochHeader = EpochHeader(height: int, time: int, bits: nat)

  /** A boundary as the time index stores it: its header time, then its height. */
  type Boundary = (int, int)

  datatype Table = Table(
    coveredMax: int,
    horizonHeight: int,
    horizonTime: int,
    byEpoch: map<int, nat>,
    epochsByTime: seq<Boundary>)

  datatype NbitsLookup = Found(bits: nat) | BelowTable | AboveTable

  datatype WeakVerdict = Match | NonBtcEpochBits | BelowFloor | AboveHorizon

  datatype TableError =
    | EmptyCache
    | NotOrdered
    | NoBoundary
    | NotAnchoredAtGenesis
    | EpochGap
    | HorizonBeforeLastEpoch
    | HorizonPastLastEpoch

  // ----- Header lists -----

  function EpochStart(height: int): int {
    height / EPOCH * EPOCH
  }

  predicate IsBoundary(height: int) {
    height % EPOCH == 0
  }

  lemma MultipleIsBoundary(i: int)
    ensures IsBoundary(EPOCH * i)
  {
  }

  lemma BoundaryIsMultiple(height: int)
    requires IsBoundary(height)
    ensures EPOCH * (height / EPOCH) == height
  {
  }

  lemma BoundaryBelow(height: int, n: int)
    requires IsBoundary(height) && height < EPOCH * n
    ensures height <= EPOCH * (n - 1)
  {
  }

  ghost predicate StrictlyOrdered(headers: seq<EpochHeader>) {
    forall i, j :: 0 <= i < j < |headers| ==> headers[i].height < headers[j].height
  }

  function EpochRows(headers: seq<EpochHeader>): (rows: seq<EpochHeader>)
    ensures forall r :: r in rows <==> r in headers && IsBoundary(r.height)
    ensures StrictlyOrdered(headers) ==> StrictlyOrdered(rows)
  {
    if headers == [] then []
    else
      var last := headers[|headers| - 1];
      var rest := EpochRows(headers[..|headers| - 1]);
      assert headers == headers[..|headers| - 1] + [last];
      if IsBoundary(last.height) then rest + [last] else rest
  }

  /** Boundaries are exactly 0, 2016, 4032, ... in order. */
  ghost predicate Contiguous(rows: seq<EpochHeader>) {
    forall i :: 0 <= i < |rows| ==> rows[i].height == EPOCH * i
  }

  /** What the constructor demands of a header list. */
  ghost predicate Acceptable(headers: seq<EpochHeader>) {
    && headers != []
    && StrictlyOrdered(headers)
    && EpochRows(headers) != []
    && Contiguous(EpochRows(headers))
    && headers[|headers| - 1].height < EPOCH * |EpochRows(headers)|
  }

  // ----- The time index -----

  predicate BoundaryLeq(a: Boundary, b: Boundary) {
    a.0 < b.0 || (a.0 == b.0 && a.1 <= b.1)
  }

  ghost predicate SortedByTime(s: seq<Boundary>) {
    forall i, j :: 0 <= i < j < |s| ==> BoundaryLeq(s[i], s[j])
  }

  function SortBoundaries(s: seq<Boundary>): (r: seq<Boundary>)
    ensures SortedByTime(r)
    ensures multiset(r) == multiset(s)
  {
    SortedIsSorted(s, BoundaryLeq);
    Sorted(s, BoundaryLeq)
  }

  lemma SameMembers(a: seq<Boundary>, b: seq<Boundary>)
    requires multiset(a) == multiset(b)
    ensures |a| == |b|
    ensures forall x :: x in a <==> x in b
  {
    assert |multiset(a)| == |a| && |multiset(b)| == |b|;
    forall x ensures x in a <==> x in b {
      assert x in a <==> x in multiset(a);
    }
  }

  /** Sorting is determined by its contract: a sorted permutation is unique. */
  lemma {:induction false} SortedPermutationUnique(a: seq<Boundary>, b: seq<Boundary>)
    requires SortedByTime(a) && SortedByTime(b)
    requires multiset(a) == multiset(b)
    ensures a == b
  {
    SameMembers(a, b);
    if a != [] {
      HeadsAgree(a, b);
      TailsAgree(a, b);
      TailSorted(a);
      TailSorted(b);
      hide SortedByTime;
      SortedPermutationUnique(a[1..], b[1..]);
      assert a == [a[0]] + a[1..] && b == [b[0]] + b[1..];
    }
  }

  lemma TailSorted(a: seq<Boundary>)
    requires SortedByTime(a) && a != []
    ensures SortedByTime(a[1..])
  {
    hide BoundaryLeq;
  }

  lemma TailsAgree(a: seq<Boundary>, b: seq<Boundary>)
    requires a != [] && b != [] && a[0] == b[0] && multiset(a) == multiset(b)
    ensures multiset(a[1..]) == multiset(b[1..])
  {
    assert a == [a[0]] + a[1..] && b == [b[0]] + b[1..];
    assert multiset(a[1..]) == multiset(a) - multiset{a[0]};
    assert multiset(b[1..]) == multiset(b) - multiset{b[0]};
  }

  lemma HeadsAgree(a: seq<Boundary>, b: seq<Boundary>)
    requires SortedByTime(a) && SortedByTime(b)
    requires a != [] && b != []
    requires forall x :: x in a <==> x in b
    ensures a[0] == b[0]
  {
    assert a[0] in b && b[0] in a;
    var i :| 0 <= i < |b| && b[i] == a[0];
    var j :| 0 <= j < |a| && a[j] == b[0];
  }

  // ----- Construction -----

  function Boundaries(rows: seq<EpochHeader>): (r: seq<Boundary>)
    ensures |r| == |rows|
    ensures forall i :: 0 <= i < |rows| ==> r[i] == (rows[i].time, rows[i].height)
  {
    seq(|rows|, i requires 0 <= i < |rows| => (rows[i].time, rows[i].height))
  }

  function BitsByHeight(rows: seq<EpochHeader>): (m: map<int, nat>)
    ensures forall h :: h in m <==> exists i :: 0 <= i < |rows| && rows[i].height == h
    ensures StrictlyOrdered(rows) ==> forall i :: 0 <= i < |rows| ==> m[rows[i].height] == rows[i].bits
  {
    if rows == [] then map[]
    else
      var last := rows[|rows| - 1];
      BitsByHeight(rows[..|rows| - 1])[last.height := last.bits]
  }

  function MaxTime(headers: seq<EpochHeader>): (t: int)
    requires headers != []
    ensures forall h :: h in headers ==> h.time <= t
    ensures exists h :: h in headers && h.time == t
  {
    if |headers| == 1 then headers[0].time
    else
      assert headers == [headers[0]] + headers[1..];
      Max(headers[0].time, MaxTime(headers[1..]))
  }

  /** The table a header list and a persisted timestamp high-water mark denote. */
  ghost function TableOf(headers: seq<EpochHeader>, cachedHorizonTime: int): (t: Table)
    requires Acceptable(headers)
  {
    var rows := EpochRows(headers);
    Table(
      rows[|rows| - 1].height,
      headers[|headers| - 1].height,
      Max(cachedHorizonTime, MaxTime(headers)),
      BitsByHeight(rows),
      SortBoundaries(Boundaries(rows)))
  }

  lemma AdjacentOrderIsStrict(headers: seq<EpochHeader>)
    requires forall i :: 0 <= i < |headers| - 1 ==> headers[i].height < headers[i + 1].height
    ensures StrictlyOrdered(headers)
  {
    if |headers| > 0 {
      var rest := headers[..|headers| - 1];
      assert forall i :: 0 <= i < |rest| - 1 ==> rest[i].height < rest[i + 1].height by {
        forall i | 0 <= i < |rest| - 1 ensures rest[i].height < rest[i + 1].height {
          assert rest[i] == headers[i] && rest[i + 1] == headers[i + 1];
        }
      }
      AdjacentOrderIsStrict(rest);
      forall i, j | 0 <= i < j < |headers| ensures headers[i].height < headers[j].height {
        if j < |headers| - 1 {
          assert rest[i] == headers[i] && rest[j] == headers[j];
        } else if i < |headers| - 2 {
          assert rest[i] == headers[i] && rest[|headers| - 2] == headers[|headers| - 2];
          assert rest[i].height < rest[|headers| - 2].height;
        }
      }
    }
  }

  /** The boundary rows start at genesis and follow each other without a gap, or what is wrong. */
  method FindGap(rows: seq<EpochHeader>) returns (gap: Option<TableError>)
    requires rows != []
    ensures gap.None? <==> Contiguous(rows)
    ensures gap.Some? ==> gap.value == NotAnchoredAtGenesis || gap.value == EpochGap
  {
    if rows[0].height != 0 {
      return Some(NotAnchoredAtGenesis);
    }
    var k := 0;
    while k < |rows| - 1
      invariant 0 <= k <= |rows| - 1
      invariant forall i :: 0 <= i <= k ==> rows[i].height == EPOCH * i
    {
      if rows[k + 1].height != rows[k].height + EPOCH {
        return Some(EpochGap);
      }
      k := k + 1;
    }
    gap := None;
  }

  lemma LastRowBelowHorizon(headers: seq<EpochHeader>)
    requires StrictlyOrdered(headers) && EpochRows(headers) != []
    ensures headers != []
    ensures EpochRows(headers)[|EpochRows(headers)| - 1].height <= headers[|headers| - 1].height
  {
    hide EpochRows;
    var last := EpochRows(headers)[|EpochRows(headers)| - 1];
    assert last in headers;
  }

  /**
   The constructor. It fails on the first violated check, and succeeds exactly on the
   acceptable lists; the table it builds is the one `TableOf` denotes.
   */
  method FromHeaders(headers: seq<EpochHeader>, cachedHorizonTime: int)
    returns (r: Result<Table, TableError>)
    ensures r.Success? <==> Acceptable(headers)
    ensures r.Success? ==> r.value == TableOf(headers, cachedHorizonTime)
    ensures r == Failure(EmptyCache) <==> headers == []
    ensures r == Failure(NotOrdered) <==> headers != [] && !StrictlyOrdered(headers)
    ensures r != Failure(HorizonBeforeLastEpoch)
  {
    hide IsBoundary, BitsByHeight, SortBoundaries, MaxTime, EpochRows, Boundaries;
    if headers == [] {
      return Failure(EmptyCache);
    }
    var horizon := headers[|headers| - 1];
    var k := 0;
    while k < |headers| - 1
      invariant 0 <= k <= |headers| - 1
      invariant forall i :: 0 <= i < k ==> headers[i].height < headers[i + 1].height
    {
      if headers[k].height >= headers[k + 1].height {
        return Failure(NotOrdered);
      }
      k := k + 1;
    }
    AdjacentOrderIsStrict(headers);
    hide StrictlyOrdered;
    var rows := EpochRows(headers);
    if rows == [] {
      return Failure(NoBoundary);
    }
    var gap := FindGap(rows);
    if gap.Some? {
      return Failure(gap.value);
    }
    LastRowBelowHorizon(headers);
    var lastEpoch := rows[|rows| - 1];
    if horizon.height < lastEpoch.height {
      return Failure(HorizonBeforeLastEpoch);
    }
    if horizon.height >= lastEpoch.height + EPOCH {
      return Failure(HorizonPastLastEpoch);
    }
    r := Success(Table(
      lastEpoch.height,
      horizon.height,
      Max(cachedHorizonTime, MaxTime(headers)),
      BitsByHeight(rows),
      SortBoundaries(Boundaries(rows))));
  }

  // ----- Well-formed tables -----

  ghost predicate HeightIndexValid(t: Table) {
    && 0 <= t.coveredMax
    && IsBoundary(t.coveredMax)
    && t.coveredMax <= t.horizonHeight < t.coveredMax + EPOCH
    && (forall h :: h in t.byEpoch <==> 0 <= h <= t.coveredMax && IsBoundary(h))
  }

  ghost predicate TimeIndexValid(t: Table) {
    && t.epochsByTime != []
    && (forall b :: b in t.epochsByTime ==> b.1 in t.byEpoch && b.0 <= t.horizonTime)
    && (forall b, c :: b in t.epochsByTime && c in t.epochsByTime && b.1 == c.1 ==> b == c)
    && (forall h :: h in t.byEpoch ==> exists b :: b in t.epochsByTime && b.1 == h)
  }

  /** What every constructed table satisfies; the lookups rely on nothing else. */
  ghost predicate Valid(t: Table) {
    SortedByTime(t.epochsByTime) && HeightIndexValid(t) && TimeIndexValid(t)
  }

  lemma BitsByHeightKeys(rows: seq<EpochHeader>)
    requires Contiguous(rows)
    ensures forall h :: h in BitsByHeight(rows) <==> 0 <= h < EPOCH * |rows| && IsBoundary(h)
  {
    hide IsBoundary, BitsByHeight;
    forall h ensures h in BitsByHeight(rows) <==> 0 <= h < EPOCH * |rows| && IsBoundary(h) {
      if 0 <= h < EPOCH * |rows| && IsBoundary(h) {
        BoundaryIsMultiple(h);
        assert rows[h / EPOCH].height == h;
      } else if h in BitsByHeight(rows) {
        var i :| 0 <= i < |rows| && rows[i].height == h;
        MultipleIsBoundary(i);
      }
    }
  }

  lemma TimeIndexComplete(rows: seq<EpochHeader>, index: seq<Boundary>)
    requires Contiguous(rows)
    requires multiset(index) == multiset(Boundaries(rows))
    ensures forall b :: b in index ==> exists i :: 0 <= i < |rows| && b == (rows[i].time, rows[i].height)
    ensures forall i :: 0 <= i < |rows| ==> (rows[i].time, rows[i].height) in index
    ensures forall b, c :: b in index && c in index && b.1 == c.1 ==> b == c
  {
    var bs := Boundaries(rows);
    SameMembers(index, bs);
    forall b | b in index ensures exists i :: 0 <= i < |rows| && b == (rows[i].time, rows[i].height) {
      var i :| 0 <= i < |bs| && bs[i] == b;
    }
    forall i | 0 <= i < |rows| ensures (rows[i].time, rows[i].height) in index {
      assert bs[i] in bs;
    }
    forall b, c | b in index && c in index && b.1 == c.1 ensures b == c {
      var i :| 0 <= i < |bs| && bs[i] == b;
      var j :| 0 <= j < |bs| && bs[j] == c;
      assert EPOCH * i == EPOCH * j;
    }
  }

  lemma ConstructedHeightIndex(headers: seq<EpochHeader>, cachedHorizonTime: int)
    requires Acceptable(headers)
    ensures HeightIndexValid(TableOf(headers, cachedHorizonTime))
  {
    hide IsBoundary, BitsByHeight, SortBoundaries, MaxTime;
    var t := TableOf(headers, cachedHorizonTime);
    var rows := EpochRows(headers);
    BitsByHeightKeys(rows);
    MultipleIsBoundary(|rows| - 1);
    assert rows[|rows| - 1] in headers;
    forall h ensures h in t.byEpoch <==> 0 <= h <= t.coveredMax && IsBoundary(h) {
      if h in t.byEpoch {
        BoundaryBelow(h, |rows|);
      }
    }
  }

  lemma ConstructedTimeIndex(headers: seq<EpochHeader>, cachedHorizonTime: int)
    requires Acceptable(headers)
    ensures TimeIndexValid(TableOf(headers, cachedHorizonTime))
  {
    hide IsBoundary, BitsByHeight, SortBoundaries, MaxTime, EpochRows, Boundaries, StrictlyOrdered, BoundaryLeq;
    var t := TableOf(headers, cachedHorizonTime);
    var rows := EpochRows(headers);
    TimeIndexComplete(rows, t.epochsByTime);
    assert (rows[0].time, rows[0].height) in t.epochsByTime;
    forall b | b in t.epochsByTime ensures b.1 in t.byEpoch && b.0 <= t.horizonTime {
      var i :| 0 <= i < |rows| && b == (rows[i].time, rows[i].height);
      assert rows[i] in headers;
    }
    forall h | h in t.byEpoch ensures exists b :: b in t.epochsByTime && b.1 == h {
      var i :| 0 <= i < |rows| && rows[i].height == h;
      assert (rows[i].time, rows[i].height) in t.epochsByTime;
    }
  }

  lemma ConstructedTableValid(headers: seq<EpochHeader>, cachedHorizonTime: int)
    requires Acceptable(headers)
    ensures Valid(TableOf(headers, cachedHorizonTime))
  {
    hide HeightIndexValid, TimeIndexValid;
    ConstructedHeightIndex(headers, cachedHorizonTime);
    ConstructedTimeIndex(headers, cachedHorizonTime);
  }

  // ----- Lookups -----

  function ExpectedNbits(t: Table, height: int): NbitsLookup {
    if height < 0 then BelowTable
    else if height > t.coveredMax + EPOCH - 1 then AboveTable
    else if EpochStart(height) in t.byEpoch then Found(t.byEpoch[EpochStart(height)])
    else AboveTable
  }

  /** Binary search for the number of boundaries at or before `time`, within `lo..hi`. */
  function PartitionPoint(s: seq<Boundary>, time: int, lo: nat, hi: nat): (k: nat)
    requires lo <= hi <= |s|
    requires SortedByTime(s)
    requires forall i :: 0 <= i < lo ==> s[i].0 <= time
    requires forall i :: hi <= i < |s| ==> time < s[i].0
    ensures lo <= k <= hi
    ensures forall i :: 0 <= i < k ==> s[i].0 <= time
    ensures forall i :: k <= i < |s| ==> time < s[i].0
    decreases hi - lo
  {
    if lo == hi then lo
    else
      var mid := (lo + hi) / 2;
      if s[mid].0 <= time then
        assert forall i :: 0 <= i < mid ==> BoundaryLeq(s[i], s[mid]);
        PartitionPoint(s, time, mid + 1, hi)
      else
        assert forall i :: mid < i < |s| ==> BoundaryLeq(s[mid], s[i]);
        PartitionPoint(s, time, lo, mid)
  }

  function EpochHeightForTime(t: Table, time: int): Option<int>
    requires SortedByTime(t.epochsByTime)
  {
    if t.epochsByTime == [] || time > t.horizonTime || time < t.epochsByTime[0].0 then None
    else
      var index := PartitionPoint(t.epochsByTime, time, 0, |t.epochsByTime|);
      Some(t.epochsByTime[index - 1].1)
  }

  predicate EpochBitsAre(t: Table, epoch: int, bits: nat) {
    epoch in t.byEpoch && t.byEpoch[epoch] == bits
  }

  function ClassifyNbitsByTime(t: Table, time: int, bits: nat): WeakVerdict
    requires SortedByTime(t.epochsByTime)
  {
    if time > t.horizonTime then AboveHorizon
    else
      match EpochHeightForTime(t, time)
      case None => BelowFloor
      case Some(epoch) =>
        if EpochBitsAre(t, epoch - EPOCH, bits) || EpochBitsAre(t, epoch, bits)
           || EpochBitsAre(t, epoch + EPOCH, bits)
        then Match
        else NonBtcEpochBits
  }

  // ----- What the lookups mean -----

  /**
   A height lookup on a constructed table: below genesis, above the last cached epoch's
   interval, or the bits of the boundary header at 2016 * floor(height / 2016). The map-miss
   fallback is never taken.
   */
  lemma ExpectedNbitsExact(headers: seq<EpochHeader>, cachedHorizonTime: int, height: int)
    requires Acceptable(headers)
    ensures var t := TableOf(headers, cachedHorizonTime);
            var rows := EpochRows(headers);
            && (height < 0 <==> ExpectedNbits(t, height) == BelowTable)
            && (height >= EPOCH * |rows| <==> ExpectedNbits(t, height) == AboveTable)
            && (0 <= height < EPOCH * |rows| ==>
                  && rows[height / EPOCH] in headers
                  && rows[height / EPOCH].height == EpochStart(height)
                  && ExpectedNbits(t, height) == Found(rows[height / EPOCH].bits))
  {
    var rows := EpochRows(headers);
    if 0 <= height < EPOCH * |rows| {
      assert rows[height / EPOCH].height == EpochStart(height);
      assert rows[height / EPOCH] in rows;
    }
  }

  /** The boundary a time selects: the greatest (time, height) pair at or before it. */
  ghost predicate Selects(bs: seq<Boundary>, time: int, b: Boundary) {
    && b in bs
    && b.0 <= time
    && forall c :: c in bs && c.0 <= time ==> BoundaryLeq(c, b)
  }

  lemma SelectsUnique(bs: seq<Boundary>, time: int, b: Boundary, c: Boundary)
    requires Selects(bs, time, b) && Selects(bs, time, c)
    ensures b == c
  {
  }

  /** The search on a sorted index returns a selected boundary, or nothing exactly when uncovered. */
  lemma SearchSelects(t: Table, time: int)
    requires SortedByTime(t.epochsByTime)
    ensures EpochHeightForTime(t, time).None? <==>
              time > t.horizonTime || forall b :: b in t.epochsByTime ==> time < b.0
    ensures EpochHeightForTime(t, time).Some? ==>
              exists b :: Selects(t.epochsByTime, time, b) && b.1 == EpochHeightForTime(t, time).value
  {
    var s := t.epochsByTime;
    if s != [] && time < s[0].0 {
      assert forall i :: 0 < i < |s| ==> BoundaryLeq(s[0], s[i]);
    }
    if EpochHeightForTime(t, time).Some? {
      var index := PartitionPoint(s, time, 0, |s|);
      assert s[0] in s;
      var b := s[index - 1];
      forall c | c in s && c.0 <= time ensures BoundaryLeq(c, b) {
        var i :| 0 <= i < |s| && s[i] == c;
        assert i < index;
      }
      assert Selects(s, time, b);
    }
  }

  /** The reference: one left-to-right scan of the unsorted boundary rows. */
  function LatestByScan(bs: seq<Boundary>, time: int): Option<Boundary> {
    if bs == [] then None
    else
      var last := bs[|bs| - 1];
      var best := LatestByScan(bs[..|bs| - 1], time);
      if last.0 <= time && (best.None? || BoundaryLeq(best.value, last)) then Some(last) else best
  }

  lemma {:induction false} ScanSelects(bs: seq<Boundary>, time: int)
    ensures LatestByScan(bs, time).None? <==> forall b :: b in bs ==> time < b.0
    ensures LatestByScan(bs, time).Some? ==> Selects(bs, time, LatestByScan(bs, time).value)
  {
    if bs != [] {
      var rest := bs[..|bs| - 1];
      var last := bs[|bs| - 1];
      assert bs == rest + [last];
      assert forall b :: b in bs <==> b in rest || b == last;
      ScanSelects(rest, time);
    }
  }

  /** Sorting and searching agree with the scan, whatever the order of the boundary times. */
  lemma SearchMatchesScan(headers: seq<EpochHeader>, cachedHorizonTime: int, time: int)
    requires Acceptable(headers)
    ensures var t := TableOf(headers, cachedHorizonTime);
            var scan := LatestByScan(Boundaries(EpochRows(headers)), time);
            EpochHeightForTime(t, time) ==
              if time > t.horizonTime || scan.None? then None else Some(scan.value.1)
  {
    var t := TableOf(headers, cachedHorizonTime);
    var bs := Boundaries(EpochRows(headers));
    SameMembers(t.epochsByTime, bs);
    SearchSelects(t, time);
    ScanSelects(bs, time);
    if EpochHeightForTime(t, time).Some? {
      var b :| Selects(t.epochsByTime, time, b) && b.1 == EpochHeightForTime(t, time).value;
      assert Selects(bs, time, b);
      SelectsUnique(bs, time, b, LatestByScan(bs, time).value);
    }
  }
}
