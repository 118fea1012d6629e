/**
 Reconciling one merge-mining event: the verdict on its Bitcoin parent is checked against the
 pinned invalid-block catalogue, written to every active event of that parent, and rolled up into
 the parent's block row. One reconcile is one transaction: a fault leaves the database unchanged.
 */
module ReadModel {
  import opened Prelude

  type Hash = string

  datatype ParentKind = Canonical | Stale | InvalidBlock | Near | Unknown

  datatype HeightSource = BitcoinCore | PrevCanonical | PrevStale | InvalidBlockCatalog

  /** A canonical header written alongside a verdict: the predecessor or the competitor. */
  datatype Sibling = Sibling(hash: Hash, height: int)

  datatype Verdict = Verdict(kind: ParentKind, height: Option<int>, source: Option<HeightSource>,
                             competitor: Option<Hash>, siblings: seq<Sibling>, difficulty: Option<bool>,
                             reason: Option<string>, liveObserved: bool, coreAttested: bool)

  datatype Event = Event(parent: Hash, kind: ParentKind, height: Option<int>, difficulty: Option<bool>,
                         pow: bool, revoked: bool)

  datatype Row = Row(kind: ParentKind, height: Option<int>, source: Option<HeightSource>, competitor: Option<Hash>,
                     reason: Option<string>, coreAttested: bool, difficulty: Option<bool>)

  datatype Entry = Entry(height: int, reason: string)

  datatype Db = Db(events: map<nat, Event>, blocks: map<Hash, Row>)

  datatype Fault = CatalogueDisagrees | MtpContradicted | MissingHeight | MissingEvidence | FlagDrift | CheckViolated
                 | NoSuchEvent

  const TIME_BELOW_MTP := "time_below_mtp"

  // ----- The verdict -----

  function UnknownVerdict(): Verdict {
    Verdict(Unknown, None, None, None, [], None, None, false, false)
  }

  function CatalogueVerdict(entry: Entry): Verdict {
    Verdict(InvalidBlock, Some(entry.height), Some(InvalidBlockCatalog), None, [], None, Some(entry.reason), false, false)
  }

  /** Combine the live verdict with the catalogue, failing closed on a contradiction. */
  function Resolve(catalogue: map<Hash, Entry>, hash: Hash, live: Option<Verdict>): Result<Verdict, Fault> {
    if hash !in catalogue then Success(if live.Some? then live.value else UnknownVerdict())
    else
      var entry := catalogue[hash];
      if live.None? then Success(CatalogueVerdict(entry))
      else if live.value.kind == InvalidBlock then
        if live.value.height != Some(entry.height) || live.value.reason != Some(entry.reason)
        then Failure(CatalogueDisagrees)
        else Success(live.value)
      else if entry.reason == TIME_BELOW_MTP && live.value.kind in {Canonical, Stale} then Failure(MtpContradicted)
      else Success(CatalogueVerdict(entry))
  }

  /** A verdict read back from the parent's block row, when that row still proves one. */
  function Persisted(blocks: map<Hash, Row>, catalogue: map<Hash, Entry>, hash: Hash): Option<Verdict> {
    if hash !in blocks then None
    else
      var row := blocks[hash];
      if row.kind !in {Canonical, Stale, InvalidBlock} then None
      else if row.kind == InvalidBlock && row.source == Some(InvalidBlockCatalog) && hash !in catalogue then None
      else if row.kind == Stale &&
              (row.competitor.None? || row.competitor.value !in blocks ||
               blocks[row.competitor.value].kind != Canonical) then None
      else
        Some(Verdict(row.kind, row.height, row.source, if row.kind == Stale then row.competitor else None, [],
                     row.difficulty, row.reason, row.coreAttested, row.coreAttested))
  }

  /** A canonical verdict read back from an event, when no block row proves one. */
  function FromEvent(e: Event): Option<Verdict> {
    if e.kind != Canonical then None
    else Some(Verdict(Canonical, e.height, if e.height.Some? then Some(BitcoinCore) else None, None, [],
                      e.difficulty, None, false, false))
  }

  /** An `unknown` verdict gives way to what the block row or the event already proves. */
  function Effective(blocks: map<Hash, Row>, catalogue: map<Hash, Entry>, e: Event, v: Verdict): Verdict {
    if v.kind != Unknown then v
    else
      var persisted := Persisted(blocks, catalogue, e.parent);
      if persisted.Some? then persisted.value
      else
        var fromEvent := FromEvent(e);
        if fromEvent.Some? then fromEvent.value
        else if e.kind == Stale then UnknownVerdict().(difficulty := v.difficulty)
        else v
  }

  // ----- Writing the events -----

  /** The constraints on an event row. */
  predicate EventCheck(e: Event) {
    e.kind != Near && (e.kind == Unknown || (e.height.Some? && e.pow))
  }

  function VerdictHeight(v: Verdict): Option<int> {
    if v.kind in {Canonical, Stale, InvalidBlock} then v.height else None
  }

  predicate Active(e: Event, hash: Hash) {
    e.parent == hash && !e.revoked
  }

  /** The rows the update reaches: an `unknown` verdict leaves canonical and stale events alone. */
  predicate Reached(e: Event, hash: Hash, v: Verdict) {
    Active(e, hash) && (v.kind != Unknown || e.kind in {Unknown, InvalidBlock})
  }

  function Updated(e: Event, v: Verdict): Event {
    e.(kind := v.kind, height := VerdictHeight(v), difficulty := if v.difficulty.Some? then v.difficulty else e.difficulty)
  }

  function AppliedEvents(events: map<nat, Event>, hash: Hash, v: Verdict): map<nat, Event> {
    map id | id in events :: if Reached(events[id], hash, v) then Updated(events[id], v) else events[id]
  }

  function ApplyEvents(events: map<nat, Event>, hash: Hash, v: Verdict): Result<map<nat, Event>, Fault> {
    if v.kind in {Canonical, Stale, InvalidBlock} && v.height.None? then Failure(MissingHeight)
    else if exists id :: id in events && Reached(events[id], hash, v) && !EventCheck(Updated(events[id], v))
    then Failure(CheckViolated)
    else Success(AppliedEvents(events, hash, v))
  }

  // ----- Writing the block row -----

  /** The constraints on a block row. */
  predicate RowCheck(hash: Hash, row: Row) {
    && (match row.kind
        case Canonical => row.height.Some? && row.source == Some(BitcoinCore) && row.competitor.None?
        case Stale => row.height.Some? && row.source.Some? && row.source.value != InvalidBlockCatalog && row.competitor.Some?
        case InvalidBlock => row.height.Some? && row.source.Some? && row.source.value != BitcoinCore && row.competitor.None?
        case Unknown => row.height.None? && row.source.None? && row.competitor.None?
        case Near => false)
    && (row.kind == InvalidBlock <==> row.reason.Some?)
    && row.competitor != Some(hash)
  }

  function Or<T>(a: Option<T>, b: Option<T>): Option<T> {
    if a.Some? then a else b
  }

  /** Insert or merge a synthesized canonical header. */
  function SiblingRow(blocks: map<Hash, Row>, s: Sibling): Row {
    if s.hash !in blocks then Row(Canonical, Some(s.height), Some(BitcoinCore), None, None, true, Some(true))
    else
      var row := blocks[s.hash];
      var promoted := row.kind != Canonical;
      Row(Canonical,
          if promoted then Some(s.height) else Or(row.height, Some(s.height)),
          if promoted then Some(BitcoinCore) else Or(row.source, Some(BitcoinCore)),
          if promoted then None else row.competitor,
          row.reason, true, Or(row.difficulty, Some(true)))
  }

  function WithSiblings(blocks: map<Hash, Row>, siblings: seq<Sibling>): Result<map<Hash, Row>, Fault>
    decreases |siblings|
  {
    if siblings == [] then Success(blocks)
    else
      var row := SiblingRow(blocks, siblings[0]);
      if !RowCheck(siblings[0].hash, row) then Failure(CheckViolated)
      else WithSiblings(blocks[siblings[0].hash := row], siblings[1..])
  }

  /** `bool_or` over the known flags of the active events. */
  function RollupDifficulty(events: map<nat, Event>, hash: Hash): Option<bool> {
    if exists id :: id in events && Active(events[id], hash) && events[id].difficulty == Some(true) then Some(true)
    else if exists id :: id in events && Active(events[id], hash) && events[id].difficulty == Some(false) then Some(false)
    else None
  }

  predicate HasActive(events: map<nat, Event>, hash: Hash) {
    exists id :: id in events && Active(events[id], hash)
  }

  function RowFor(v: Verdict, rollup: Option<bool>): Row {
    var difficulty := Or(v.difficulty, rollup);
    match v.kind
    case Canonical => Row(Canonical, v.height, Or(v.source, Some(BitcoinCore)), None, None, v.coreAttested, difficulty)
    case Stale => Row(Stale, v.height, v.source, v.competitor, None, v.coreAttested, difficulty)
    case InvalidBlock => Row(InvalidBlock, v.height, v.source, None, v.reason, v.coreAttested, difficulty)
    case Near => Row(Unknown, None, None, None, None, v.coreAttested, difficulty)
    case Unknown => Row(Unknown, None, None, None, None, v.coreAttested, difficulty)
  }

  /** A parent without active events keeps a Core-attested row, a husk while referenced, or nothing. */
  function Retired(blocks: map<Hash, Row>, hash: Hash): map<Hash, Row> {
    if hash !in blocks then blocks
    else if blocks[hash].coreAttested then blocks
    else if exists h :: h in blocks && blocks[h].competitor == Some(hash)
    then blocks[hash := Row(Unknown, None, None, None, None, false, None)]
    else blocks - {hash}
  }

  /** `repr` is the representative active event of the parent, when it has an active event. */
  function Rebuilt(events: map<nat, Event>, blocks: map<Hash, Row>, catalogue: map<Hash, Entry>, hash: Hash,
                   repr: nat, v: Verdict): Result<map<Hash, Row>, Fault>
  {
    if !HasActive(events, hash) then Success(Retired(blocks, hash))
    else if repr !in events || !Active(events[repr], hash) then Failure(NoSuchEvent)
    else
      var effective := Effective(blocks, catalogue, events[repr], v);
      if effective.kind == InvalidBlock && (effective.height.None? || effective.source.None? || effective.reason.None?)
      then Failure(MissingEvidence)
      else if effective.liveObserved != effective.coreAttested then Failure(FlagDrift)
      else
        var row := RowFor(effective, RollupDifficulty(events, hash));
        if RowCheck(hash, row) then Success(blocks[hash := row]) else Failure(CheckViolated)
  }

  // ----- One reconcile -----

  datatype Step = Step(catalogue: map<Hash, Entry>, id: nat, repr: nat, live: Option<Verdict>)

  function Reconcile(db: Db, s: Step): Result<Db, Fault> {
    if s.id !in db.events then Failure(NoSuchEvent)
    else if !db.events[s.id].pow then Success(db)
    else
      var e := db.events[s.id];
      var resolved := Resolve(s.catalogue, e.parent, s.live);
      if resolved.Failure? then Failure(resolved.error)
      else
        var first := Effective(db.blocks, s.catalogue, e, resolved.value);
        var v := Effective(db.blocks, s.catalogue, e, first);
        var events := ApplyEvents(db.events, e.parent, v);
        if events.Failure? then Failure(events.error)
        else
          var siblings := WithSiblings(db.blocks, v.siblings);
          if siblings.Failure? then Failure(siblings.error)
          else
            var blocks := Rebuilt(events.value, siblings.value, s.catalogue, e.parent, s.repr, v);
            if blocks.Failure? then Failure(blocks.error) else Success(Db(events.value, blocks.value))
  }

  /** A fault rolls the transaction back. */
  function After(db: Db, s: Step): Db {
    var r := Reconcile(db, s);
    if r.Success? then r.value else db
  }

  /** The state after the first `n` steps of a run. */
  function At(db: Db, run: seq<Step>, n: nat): Db
    requires n <= |run|
  {
    if n == 0 then db else After(At(db, run, n - 1), run[n - 1])
  }
}
