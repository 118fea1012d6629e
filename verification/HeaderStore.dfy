/**
 The persisted Core-header cache: its rows, the publication that replaces its shallow suffix,
 and the bookkeeping that says which earlier verdicts a publication may change.
 */
module HeaderStore {
  import opened Prelude
  import opened NbitsTable
  import opened Chain

  datatype CoreHeader = CoreHeader(height: int, hash: Block, time: int, bits: nat)

  /** The header Core serves at `height` while `view` is its tip. */
  function HeaderAt(view: Block, height: nat): CoreHeader
    requires height <= Height(view)
  {
    var b := At(view, height);
    CoreHeader(height, b, b.time, b.bits)
  }

  /** A header some Core view can serve: its height, time and bits are those of its hash. */
  predicate Genuine(h: CoreHeader) {
    h.height == Height(h.hash) && h.time == h.hash.time && h.bits == h.hash.bits
  }

  datatype Row = Row(header: CoreHeader, isFinal: bool)

  type Rows = map<int, Row>

  /** A recheck pass in flight: the scheduling it answers, and whether it revisits classified orphans. */
  datatype Pass = Pass(generation: nat, orphans: bool)

  /** Rechecks scheduled and acknowledged so far, what the next pass will cover, and the pass in flight. */
  datatype Recheck = Recheck(scheduled: nat, orphans: bool, acknowledged: nat, pass: Option<Pass>)

  datatype CacheState = CacheState(
    rows: Rows,
    horizonTime: int,
    /** Counts publications. */
    revision: nat,
    /** Counts publications that may change a verdict already given. */
    generation: nat,
    recheck: Recheck)

  const NO_HEADERS := CacheState(map[], 0, 0, 0, Recheck(0, false, 0, None))

  /** One refresh's observations, as handed to the publication. */
  datatype Staged = Staged(
    finalEpoch: int,
    finals: seq<CoreHeader>,
    shallow: Option<CoreHeader>,
    horizon: CoreHeader,
    priorHorizonReorged: bool,
    expectedRevision: nat)

  datatype Outcome = Published(state: CacheState) | NotCurrent | IntegrityFailure

  // ----- Queries -----

  lemma {:induction false} MaxExists(s: set<int>)
    requires s != {}
    ensures exists m :: m in s && forall k :: k in s ==> k <= m
  {
    var x := Member(s);
    var rest := s - {x};
    if rest == {} {
      assert forall k :: k in s ==> k == x || k in rest;
    } else {
      MaxExists(rest);
      var m :| m in rest && forall k :: k in rest ==> k <= m;
      var best := if x < m then m else x;
      forall k | k in s ensures k <= best {
        assert k == x || k in rest;
      }
      assert best in s;
    }
  }

  function MaxOf(s: set<int>): (r: Option<int>)
    ensures r.None? <==> s == {}
    ensures r.Some? ==> r.value in s && forall k :: k in s ==> k <= r.value
  {
    if s == {} then None
    else
      MaxExists(s);
      var m :| m in s && forall k :: k in s ==> k <= m;
      Some(m)
  }

  function FinalHeights(rows: Rows): set<int> {
    set k | k in rows && rows[k].isFinal
  }

  function HighestFinal(rows: Rows): Option<int> {
    MaxOf(FinalHeights(rows))
  }

  /** The highest cached row, the horizon of the last publication. */
  function HorizonRow(rows: Rows): (r: Option<CoreHeader>)
    ensures r.None? <==> rows == map[]
  {
    var top := MaxOf(rows.Keys);
    if top.None? then None else Some(rows[top.value].header)
  }

  /** The rows in height order, as the table constructor reads them. */
  function Listing(rows: Rows): (l: seq<EpochHeader>)
    decreases |rows.Keys|
  {
    var top := MaxOf(rows.Keys);
    if top.None? then []
    else
      var rest := rows - {top.value};
      assert rest.Keys == rows.Keys - {top.value};
      var h := rows[top.value].header;
      Listing(rest) + [EpochHeader(top.value, h.time, h.bits)]
  }

  // ----- Publication -----

  /** Insert a row, or confirm that the row already there says the same. */
  function Record(rows: Rows, header: CoreHeader, isFinal: bool): Option<Rows> {
    if header.height !in rows then Some(rows[header.height := Row(header, isFinal)])
    else if rows[header.height] == Row(header, isFinal) then Some(rows)
    else None
  }

  function RecordAll(rows: Rows, headers: seq<CoreHeader>, isFinal: bool): Option<Rows> {
    if headers == [] then Some(rows)
    else
      var before := RecordAll(rows, headers[..|headers| - 1], isFinal);
      if before.None? then None else Record(before.value, headers[|headers| - 1], isFinal)
  }

  function Incoming(p: Staged): seq<CoreHeader> {
    p.finals + (if p.shallow.Some? then [p.shallow.value] else []) + [p.horizon]
  }

  function FinalRows(rows: Rows): Rows {
    map k | k in rows && rows[k].isFinal :: rows[k]
  }

  function ShallowHeaders(rows: Rows): set<CoreHeader> {
    set k | k in rows && !rows[k].isFinal :: rows[k].header
  }

  function HighestEpoch(rows: Rows): Option<int> {
    MaxOf(set k | k in rows && (rows[k].isFinal || IsBoundary(k)))
  }

  /** A new boundary falls inside time the cache already covered. */
  predicate OverlapsPriorHorizon(rows: Rows, p: Staged, priorHorizonTime: int) {
    var highest := HighestEpoch(rows);
    exists i :: 0 <= i < |Incoming(p)|
      && IsBoundary(Incoming(p)[i].height)
      && (highest.None? || Incoming(p)[i].height > highest.value)
      && Incoming(p)[i].time <= priorHorizonTime
  }

  /** A shallow row was replaced by another block, or fell above the new horizon. */
  predicate ShallowReorged(rows: Rows, p: Staged) {
    || p.priorHorizonReorged
    || (exists h, i :: h in ShallowHeaders(rows) && 0 <= i < |Incoming(p)|
          && Incoming(p)[i].height == h.height && Incoming(p)[i] != h
          && forall j :: 0 <= j < i ==> Incoming(p)[j].height != h.height)
    || (exists h :: h in ShallowHeaders(rows) && h.height > p.horizon.height)
  }

  function ReplacedRows(rows: Rows, p: Staged): Option<Rows> {
    var withFinals := RecordAll(FinalRows(rows), p.finals, true);
    if withFinals.None? then None else
    var withShallow :=
      if p.shallow.Some? then Record(withFinals.value, p.shallow.value, false) else withFinals;
    if withShallow.None? then None else
    Record(withShallow.value, p.horizon,
           p.horizon.height == p.finalEpoch || HighestFinal(rows) == Some(p.horizon.height))
  }

  function MaxRowTime(rows: Rows): int
    requires rows != map[]
  {
    var times := set k | k in rows :: rows[k].header.time;
    assert times != {} by {
      assert rows.Keys != {};
      var k := Member(rows.Keys);
      assert rows[k].header.time in times;
    }
    MaxOf(times).value
  }

  /** The state row of a publication that replaced `prev` by `rows`. */
  function NextState(prev: CacheState, p: Staged, rows: Rows): CacheState
    requires rows != map[]
  {
    var reorged := ShallowReorged(prev.rows, p);
    var overlaps := OverlapsPriorHorizon(prev.rows, p, prev.horizonTime);
    var wasEmpty := prev.rows == map[];
    var priorTop := MaxOf(prev.rows.Keys);
    var advanced := priorTop.None? || p.horizon.height > priorTop.value;
    var observed := MaxRowTime(rows);
    var horizonTime := if reorged then observed else Max(prev.horizonTime, observed);
    var invalidating := reorged || overlaps || wasEmpty;
    var schedule := invalidating || advanced || horizonTime > prev.horizonTime;
    CacheState(
      rows,
      horizonTime,
      prev.revision + 1,
      if reorged || overlaps then prev.generation + 1 else prev.generation,
      Recheck(
        if schedule then prev.recheck.scheduled + 1 else prev.recheck.scheduled,
        prev.recheck.orphans || invalidating,
        prev.recheck.acknowledged,
        if invalidating then None else prev.recheck.pass))
  }

  // ----- Recheck passes -----

  /** Bind a pass to everything scheduled so far, unless one is in flight or nothing is pending. */
  function PassBound(r: Recheck): Recheck {
    if r.pass.Some? || r.scheduled <= r.acknowledged then r
    else r.(orphans := false, pass := Some(Pass(r.scheduled, r.orphans)))
  }

  /** Acknowledge the pass in flight. */
  function PassAcknowledged(r: Recheck): Recheck {
    if r.pass.None? then r else r.(acknowledged := r.pass.value.generation, pass := None)
  }

  predicate StagedIsWellFormed(p: Staged) {
    && (forall i :: 0 <= i < |p.finals| ==> IsBoundary(p.finals[i].height) && p.finals[i].height <= p.finalEpoch)
    && (p.shallow.Some? ==> IsBoundary(p.shallow.value.height) && p.shallow.value.height > p.finalEpoch)
  }

  predicate HorizonTooLow(rows: Rows, p: Staged) {
    || p.horizon.height < p.finalEpoch
    || (var highest := HighestFinal(rows); highest.Some? && p.horizon.height < highest.value)
  }

  /** One publication against `s`; `queued` says whether reconcile work is pending or a lock cannot be had. */
  function Replace(s: CacheState, p: Staged, queued: bool): Outcome {
    if !StagedIsWellFormed(p) then IntegrityFailure
    else if queued || s.revision != p.expectedRevision then NotCurrent
    else if HorizonTooLow(s.rows, p) then IntegrityFailure
    else
      var rows := ReplacedRows(s.rows, p);
      if rows.None? then IntegrityFailure
      else
        assert p.horizon.height in rows.value;
        Published(NextState(s, p, rows.value))
  }
}
