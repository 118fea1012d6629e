/**
 Whether an AuxPoW parent header belongs to Bitcoin, and how strongly a Core-absent header is a
 Bitcoin orphan, decided from the difficulty table alone.
 */
module Lineage {
  import opened Prelude
  import opened NbitsTable

  const FUTURE_HEIGHT_TOLERANCE := 144
  const RETARGET_PENDING_WINDOW := 6
  const BIP34_HEIGHT := 227931

  datatype Input = Input(
    bits: nat,
    time: int,
    meetsOwnTarget: bool,
    prevHeight: Option<int>,
    strictHeight: Option<int>)

  datatype Reason =
    | PlacedPrevNbitsMismatch
    | PrevBelowTable
    | StrictHeightNbitsMismatch
    | StrictHeightFarFuture
    | NonBtcEpochBits
    | TimeBelowTable
    | NonBtcCurrentEpochBits
    | NextEpochNotCached

  datatype Evidence = PlacedPrev | StrictHeight | EpochTime | CurrentEpoch {
    predicate IsExact() {
      PlacedPrev? || StrictHeight?
    }
  }

  datatype Lineage = Bitcoin(evidence: Evidence) | NotBitcoin(reason: Reason) | Pending(reason: Reason)

  function PreviousEpochBits(t: Table, height: int): Option<nat> {
    match ExpectedNbits(t, EpochStart(height) - 1)
    case Found(bits) => Some(bits)
    case _ => None
  }

  function AboveHorizonLineage(bits: nat, isShare: bool, t: Table): Lineage {
    var horizon := t.horizonHeight;
    if ExpectedNbits(t, horizon) == Found(bits)
       || (isShare && PreviousEpochBits(t, horizon) == Some(bits))
    then Bitcoin(CurrentEpoch)
    else if EpochStart(horizon) + EPOCH - horizon <= RETARGET_PENDING_WINDOW
    then Pending(NextEpochNotCached)
    else NotBitcoin(NonBtcCurrentEpochBits)
  }

  /** A block's bits must be its height's epoch bits; a share on a known prev is always admitted. */
  function PlacedLineage(input: Input, prevHeight: int, t: Table): Lineage {
    if !input.meetsOwnTarget then Bitcoin(PlacedPrev)
    else
      match ExpectedNbits(t, prevHeight + 1)
      case Found(expected) =>
        if expected == input.bits then Bitcoin(PlacedPrev) else NotBitcoin(PlacedPrevNbitsMismatch)
      case AboveTable => Pending(NextEpochNotCached)
      case BelowTable => NotBitcoin(PrevBelowTable)
  }

  /** Within the cache's time coverage a coinbase height counts only in the epoch the time selects. */
  predicate HeightConsistent(input: Input, height: int, t: Table)
    requires SortedByTime(t.epochsByTime)
  {
    || input.time > t.horizonTime
    || (var epoch := EpochHeightForTime(t, input.time);
        epoch.Some? && epoch.value <= height < epoch.value + EPOCH)
  }

  /** The verdict a coinbase height decides, when it decides one. */
  function StrictLineage(input: Input, t: Table): Option<Lineage>
    requires SortedByTime(t.epochsByTime)
  {
    if input.strictHeight.None? || !HeightConsistent(input, input.strictHeight.value, t) then None
    else
      var height := input.strictHeight.value;
      match ExpectedNbits(t, height)
      case Found(expected) =>
        if expected == input.bits
           || (!input.meetsOwnTarget && PreviousEpochBits(t, height) == Some(input.bits))
        then Some(Bitcoin(StrictHeight))
        else Some(NotBitcoin(StrictHeightNbitsMismatch))
      case AboveTable =>
        if height > t.horizonHeight + FUTURE_HEIGHT_TOLERANCE
        then Some(NotBitcoin(StrictHeightFarFuture))
        else Some(Pending(NextEpochNotCached))
      case BelowTable => None
  }

  function TimeLineage(input: Input, t: Table): Lineage
    requires SortedByTime(t.epochsByTime)
  {
    match ClassifyNbitsByTime(t, input.time, input.bits)
    case Match => Bitcoin(EpochTime)
    case NonBtcEpochBits => NotBitcoin(Reason.NonBtcEpochBits)
    case BelowFloor => NotBitcoin(TimeBelowTable)
    case AboveHorizon => AboveHorizonLineage(input.bits, !input.meetsOwnTarget, t)
  }

  function BitcoinLineage(input: Input, t: Table): Lineage
    requires SortedByTime(t.epochsByTime)
  {
    if input.prevHeight.Some? then PlacedLineage(input, input.prevHeight.value, t)
    else
      var strict := StrictLineage(input, t);
      if strict.Some? then strict.value else TimeLineage(input, t)
  }

  datatype OrphanVerdict = Strict | Weak | Excluded(reason: Reason) | Undecided

  /** A coinbase height below BIP 34 activation is no evidence. */
  function OrphanInput(time: int, bits: nat, strictHeight: Option<int>): Input {
    Input(bits, time, true, None,
          if strictHeight.Some? && strictHeight.value >= BIP34_HEIGHT then strictHeight else None)
  }

  function ClassifyOrphan(t: Table, time: int, bits: nat, strictHeight: Option<int>): OrphanVerdict
    requires SortedByTime(t.epochsByTime)
  {
    match BitcoinLineage(OrphanInput(time, bits, strictHeight), t)
    case Bitcoin(StrictHeight) => Strict
    case Bitcoin(PlacedPrev) => Strict
    case Bitcoin(EpochTime) => Weak
    case Bitcoin(CurrentEpoch) => Undecided
    case NotBitcoin(reason) => Excluded(reason)
    case Pending(_) => Undecided
  }

  // ----- Completeness on Bitcoin's own headers -----

  /**
   A header at a cached height that carries that height's epoch bits is Bitcoin, whichever of its
   true prev height and true coinbase height are known, as soon as its time selects its own epoch
   or an adjacent one.
   */
  lemma TrueHeaderIsBitcoin(t: Table, height: int, epoch: int, input: Input)
    requires Valid(t)
    requires 0 <= height <= t.coveredMax + EPOCH - 1
    requires ExpectedNbits(t, height) == Found(input.bits)
    requires EpochHeightForTime(t, input.time) == Some(epoch)
    requires epoch - EPOCH <= EpochStart(height) <= epoch + EPOCH
    requires input.prevHeight in {None, Some(height - 1)}
    requires input.strictHeight in {None, Some(height)}
    ensures BitcoinLineage(input, t).Bitcoin?
    ensures input.prevHeight.Some? ==> BitcoinLineage(input, t) == Bitcoin(PlacedPrev)
    ensures input.prevHeight.None? && input.strictHeight.Some? && EpochStart(height) == epoch ==>
              BitcoinLineage(input, t) == Bitcoin(StrictHeight)
  {
    hide IsBoundary, EpochStart, EpochHeightForTime, HeightIndexValid, TimeIndexValid, SortedByTime,
      AboveHorizonLineage, PreviousEpochBits;
    SearchSelects(t, input.time);
    SelectedIsCached(t, input.time);
    AdjacentEpoch(height, epoch);
  }

  lemma AdjacentEpoch(height: int, epoch: int)
    requires IsBoundary(epoch) && epoch - EPOCH <= EpochStart(height) <= epoch + EPOCH
    ensures EpochStart(height) in {epoch - EPOCH, epoch, epoch + EPOCH}
    ensures EpochStart(height) <= height < EpochStart(height) + EPOCH
  {
    assert IsBoundary(EpochStart(height));
  }

  // ----- Exact evidence -----

  predicate HasExactEvidence(input: Input, t: Table)
    requires SortedByTime(t.epochsByTime)
  {
    var v := BitcoinLineage(input, t);
    v.Bitcoin? && v.evidence.IsExact()
  }

  /** The height exact evidence names: one above the known prev, else the coinbase's. */
  function NamedHeight(input: Input): Option<int> {
    if input.prevHeight.Some? then Some(input.prevHeight.value + 1) else input.strictHeight
  }

  /** The retarget that opens the epoch of `height` changed the bits. */
  predicate RetargetChanged(t: Table, height: int) {
    ExpectedNbits(t, height).Found? && PreviousEpochBits(t, height).Some?
    && ExpectedNbits(t, height).bits != PreviousEpochBits(t, height).value
  }

  /**
   A header with exact evidence carries its named height's bits if and only if: it is a block; or
   it is a share on a known prev whose named epoch is cached with those bits, which the verdict
   does not look at; or it is a share placed by its coinbase height and does not carry the
   previous epoch's bits across a retarget that changed them.
   */
  lemma ExactEvidenceBits(t: Table, input: Input)
    requires Valid(t) && HasExactEvidence(input, t)
    ensures NamedHeight(input).Some?
    ensures var h := NamedHeight(input).value;
            ExpectedNbits(t, h) == Found(input.bits) <==>
              if input.meetsOwnTarget then true
              else if input.prevHeight.Some? then h >= 0 && EpochBitsAre(t, EpochStart(h), input.bits)
              else !(RetargetChanged(t, h) && PreviousEpochBits(t, h) == Some(input.bits))
  {
    hide EpochHeightForTime, TimeIndexValid;
    var h := NamedHeight(input).value;
    if h >= 0 && EpochStart(h) in t.byEpoch {
      CachedEpochCovers(t, h);
    }
  }

  lemma CachedEpochCovers(t: Table, h: int)
    requires Valid(t) && EpochStart(h) in t.byEpoch
    ensures h <= t.coveredMax + EPOCH - 1
  {
  }

  /** Whatever bits a header like `input` has exact evidence with are its named height's bits. */
  ghost predicate FixesBits(t: Table, input: Input)
    requires SortedByTime(t.epochsByTime)
  {
    forall b: nat :: HasExactEvidence(input.(bits := b), t) ==>
      NamedHeight(input).Some? && ExpectedNbits(t, NamedHeight(input).value) == Found(b)
  }

  /**
   Exact evidence fixes the bits, as documented, if and only if the header is a block, or a share
   without a known prev whose coinbase height decides nothing or lies in an epoch whose retarget
   left the bits alone. A share on a known prev never has its bits fixed.
   */
  lemma ExactEvidenceFixesBits(t: Table, input: Input)
    requires Valid(t)
    ensures FixesBits(t, input) <==>
              || input.meetsOwnTarget
              || (&& input.prevHeight.None?
                  && (|| input.strictHeight.None?
                      || !HeightConsistent(input, input.strictHeight.value, t)
                      || !RetargetChanged(t, input.strictHeight.value)))
  {
    if input.meetsOwnTarget {
      forall b: nat | HasExactEvidence(input.(bits := b), t)
        ensures NamedHeight(input).Some? && ExpectedNbits(t, NamedHeight(input).value) == Found(b)
      {
        ExactEvidenceBits(t, input.(bits := b));
      }
    } else if input.prevHeight.Some? {
      PlacedShareAdmits(t, input);
    } else if input.strictHeight.Some? && HeightConsistent(input, input.strictHeight.value, t)
              && RetargetChanged(t, input.strictHeight.value) {
      var b := PreviousEpochBits(t, input.strictHeight.value).value;
      assert HasExactEvidence(input.(bits := b), t);
    } else {
      forall b: nat | HasExactEvidence(input.(bits := b), t)
        ensures NamedHeight(input).Some? && ExpectedNbits(t, NamedHeight(input).value) == Found(b)
      {
        ExactEvidenceBits(t, input.(bits := b));
      }
    }
  }

  lemma PlacedShareAdmits(t: Table, input: Input)
    requires Valid(t) && !input.meetsOwnTarget && input.prevHeight.Some?
    ensures !FixesBits(t, input)
  {
    var expected := ExpectedNbits(t, input.prevHeight.value + 1);
    var b: nat := if expected == Found(0) then 1 else 0;
    assert HasExactEvidence(input.(bits := b), t);
  }

  // ----- Covered headers are decided -----

  lemma BoundaryCached(t: Table, epoch: int)
    requires Valid(t)
    requires 0 <= epoch <= t.coveredMax && IsBoundary(epoch)
    ensures epoch in t.byEpoch
  {
  }

  lemma NextEpochUncached(t: Table, bits: nat)
    requires Valid(t)
    ensures !EpochBitsAre(t, t.coveredMax + EPOCH, bits)
  {
  }

  lemma BoundaryNeighbours(epoch: int, last: int)
    requires IsBoundary(epoch) && IsBoundary(last)
    ensures IsBoundary(epoch - EPOCH) && IsBoundary(epoch + EPOCH)
    ensures epoch < last ==> epoch + EPOCH <= last
  {
  }

  lemma SelectedIsCached(t: Table, time: int)
    requires Valid(t)
    requires EpochHeightForTime(t, time).Some?
    ensures var e := EpochHeightForTime(t, time).value;
            e in t.byEpoch && 0 <= e <= t.coveredMax && IsBoundary(e)
  {
    SearchSelects(t, time);
    var b :| Selects(t.epochsByTime, time, b) && b.1 == EpochHeightForTime(t, time).value;
    assert b.1 in t.byEpoch;
  }

  /** A selected epoch is cached, so every height of its interval has known bits. */
  lemma ConsistentHeightIsCached(input: Input, height: int, t: Table)
    requires Valid(t)
    requires input.time <= t.horizonTime
    requires HeightConsistent(input, height, t)
    ensures ExpectedNbits(t, height).Found?
    ensures EpochHeightForTime(t, input.time) == Some(EpochStart(height))
  {
    SearchSelects(t, input.time);
    var epoch := EpochHeightForTime(t, input.time).value;
    assert epoch in t.byEpoch && IsBoundary(epoch);
    assert EpochStart(height) == epoch;
  }

  lemma CoveredLineageDecided(t: Table, input: Input)
    requires Valid(t)
    requires input.prevHeight.None?
    requires input.time <= t.horizonTime
    ensures !BitcoinLineage(input, t).Pending?
    ensures BitcoinLineage(input, t) != Bitcoin(CurrentEpoch)
  {
    if input.strictHeight.Some? && HeightConsistent(input, input.strictHeight.value, t) {
      ConsistentHeightIsCached(input, input.strictHeight.value, t);
    }
  }

  /** A header whose time the cache covers never waits for a later cache. */
  lemma CoveredOrphanDecided(t: Table, time: int, bits: nat, strictHeight: Option<int>)
    requires Valid(t)
    requires time <= t.horizonTime
    ensures !ClassifyOrphan(t, time, bits, strictHeight).Undecided?
  {
    CoveredLineageDecided(t, OrphanInput(time, bits, strictHeight));
  }

  // ----- Cache growth -----

  /** Every cached boundary is kept, with its bits and time, and time coverage does not shrink. */
  ghost predicate Extends(t: Table, t': Table) {
    && (forall h :: h in t.byEpoch ==> h in t'.byEpoch && t'.byEpoch[h] == t.byEpoch[h])
    && (forall b :: b in t.epochsByTime ==> b in t'.epochsByTime)
    && t.horizonTime <= t'.horizonTime
  }

  /** Every boundary the growth adds is later than `time`. */
  ghost predicate AddsOnlyAfter(t: Table, t': Table, time: int) {
    forall b :: b in t'.epochsByTime && b !in t.epochsByTime ==> time < b.0
  }

  lemma ExtendsIsTransitive(t: Table, t': Table, t'': Table, time: int)
    requires Extends(t, t') && Extends(t', t'')
    requires AddsOnlyAfter(t, t', time) && AddsOnlyAfter(t', t'', time)
    ensures Extends(t, t'') && AddsOnlyAfter(t, t'', time)
  {
  }

  lemma GrowthKeepsCoverage(t: Table, t': Table, height: int)
    requires Valid(t) && Valid(t') && Extends(t, t')
    ensures t.coveredMax <= t'.coveredMax
    ensures !ExpectedNbits(t, height).AboveTable? ==> ExpectedNbits(t', height) == ExpectedNbits(t, height)
  {
    assert t.coveredMax in t.byEpoch;
    if 0 <= height <= t.coveredMax + EPOCH - 1 {
      assert IsBoundary(EpochStart(height));
      assert EpochStart(height) in t.byEpoch;
    }
  }

  lemma GrowthKeepsSelection(t: Table, t': Table, time: int)
    requires Valid(t) && Valid(t') && Extends(t, t') && AddsOnlyAfter(t, t', time)
    requires time <= t.horizonTime
    ensures EpochHeightForTime(t', time) == EpochHeightForTime(t, time)
  {
    SearchSelects(t, time);
    SearchSelects(t', time);
    if EpochHeightForTime(t, time).Some? {
      var b :| Selects(t.epochsByTime, time, b) && b.1 == EpochHeightForTime(t, time).value;
      assert Selects(t'.epochsByTime, time, b);
      var c :| Selects(t'.epochsByTime, time, c) && c.1 == EpochHeightForTime(t', time).value;
      SelectsUnique(t'.epochsByTime, time, b, c);
    }
  }

  /** A block on a known prev: decided verdicts never change, and only heights past the cache wait. */
  lemma PlacedVerdictPermanent(t: Table, t': Table, input: Input)
    requires Valid(t) && Valid(t') && Extends(t, t')
    requires input.prevHeight.Some?
    ensures BitcoinLineage(input, t).Pending? <==>
              input.meetsOwnTarget && input.prevHeight.value + 1 > t.coveredMax + EPOCH - 1
    ensures !BitcoinLineage(input, t).Pending? ==> BitcoinLineage(input, t') == BitcoinLineage(input, t)
  {
    var height := input.prevHeight.value + 1;
    GrowthKeepsCoverage(t, t', height);
    if 0 <= height <= t.coveredMax + EPOCH - 1 {
      assert IsBoundary(EpochStart(height)) && EpochStart(height) in t.byEpoch;
    }
  }

  lemma PreviousBitsPermanent(t: Table, t': Table, height: int)
    requires Valid(t) && Valid(t') && Extends(t, t')
    requires ExpectedNbits(t, height).Found?
    ensures PreviousEpochBits(t', height) == PreviousEpochBits(t, height)
  {
    var before := EpochStart(height) - 1;
    assert before <= t.coveredMax + EPOCH - 1;
    if before >= 0 {
      assert EpochStart(before) == EpochStart(height) - EPOCH;
      BoundaryCached(t, EpochStart(before));
    }
    GrowthKeepsCoverage(t, t', before);
  }

  /** The coinbase-height rule reads the table only through these three lookups. */
  lemma StrictLineageReads(t: Table, t': Table, input: Input)
    requires SortedByTime(t.epochsByTime) && SortedByTime(t'.epochsByTime)
    requires input.time <= t.horizonTime && input.time <= t'.horizonTime
    requires EpochHeightForTime(t', input.time) == EpochHeightForTime(t, input.time)
    requires input.strictHeight.Some? && HeightConsistent(input, input.strictHeight.value, t) ==>
               && ExpectedNbits(t, input.strictHeight.value).Found?
               && ExpectedNbits(t', input.strictHeight.value) == ExpectedNbits(t, input.strictHeight.value)
               && PreviousEpochBits(t', input.strictHeight.value) == PreviousEpochBits(t, input.strictHeight.value)
    ensures StrictLineage(input, t') == StrictLineage(input, t)
  {
  }

  lemma StrictVerdictPermanent(t: Table, t': Table, input: Input)
    requires Valid(t) && Valid(t') && Extends(t, t') && AddsOnlyAfter(t, t', input.time)
    requires input.time <= t.horizonTime
    ensures StrictLineage(input, t') == StrictLineage(input, t)
  {
    GrowthKeepsSelection(t, t', input.time);
    if input.strictHeight.Some? && HeightConsistent(input, input.strictHeight.value, t) {
      var height := input.strictHeight.value;
      ConsistentHeightIsCached(input, height, t);
      GrowthKeepsCoverage(t, t', height);
      PreviousBitsPermanent(t, t', height);
    }
    StrictLineageReads(t, t', input);
  }

  /**
   The one way growth changes a covered verdict: the time selects the last cached epoch, neither
   it nor its predecessor has the header's bits, no coinbase height lies in it, and the boundary
   that growth appends right after it has those bits.
   */
  ghost predicate NextEpochAdmits(t: Table, t': Table, input: Input)
    requires SortedByTime(t.epochsByTime)
  {
    && EpochHeightForTime(t, input.time) == Some(t.coveredMax)
    && !(input.strictHeight.Some? && t.coveredMax <= input.strictHeight.value < t.coveredMax + EPOCH)
    && !EpochBitsAre(t, t.coveredMax, input.bits)
    && !EpochBitsAre(t, t.coveredMax - EPOCH, input.bits)
    && EpochBitsAre(t', t.coveredMax + EPOCH, input.bits)
  }

  lemma EpochBitsPermanent(t: Table, t': Table, epoch: int, bits: nat)
    requires Valid(t) && Valid(t') && Extends(t, t')
    requires epoch <= t.coveredMax && IsBoundary(epoch)
    ensures EpochBitsAre(t', epoch, bits) == EpochBitsAre(t, epoch, bits)
  {
    if 0 <= epoch {
      BoundaryCached(t, epoch);
    }
  }

  /** What the time rule says of a covered header, from the selected epoch and its neighbours. */
  lemma TimeLineageOf(t: Table, input: Input, epoch: int)
    requires SortedByTime(t.epochsByTime)
    requires input.time <= t.horizonTime
    requires EpochHeightForTime(t, input.time) == Some(epoch)
    ensures TimeLineage(input, t) ==
              if EpochBitsAre(t, epoch - EPOCH, input.bits) || EpochBitsAre(t, epoch, input.bits)
                 || EpochBitsAre(t, epoch + EPOCH, input.bits)
              then Bitcoin(EpochTime) else NotBitcoin(Reason.NonBtcEpochBits)
  {
  }

  lemma TimeLineageBelow(t: Table, input: Input)
    requires SortedByTime(t.epochsByTime)
    requires input.time <= t.horizonTime
    requires EpochHeightForTime(t, input.time) == None
    ensures TimeLineage(input, t) == NotBitcoin(TimeBelowTable)
  {
  }

  /** The time rule's half of `NextEpochAdmits`. */
  ghost predicate NextBitsAdmit(t: Table, t': Table, input: Input)
    requires SortedByTime(t.epochsByTime)
  {
    && EpochHeightForTime(t, input.time) == Some(t.coveredMax)
    && !EpochBitsAre(t, t.coveredMax, input.bits)
    && !EpochBitsAre(t, t.coveredMax - EPOCH, input.bits)
    && EpochBitsAre(t', t.coveredMax + EPOCH, input.bits)
  }

  lemma TimeVerdictUnderGrowth(t: Table, t': Table, input: Input)
    requires Valid(t) && Valid(t') && Extends(t, t') && AddsOnlyAfter(t, t', input.time)
    requires input.time <= t.horizonTime
    ensures NextBitsAdmit(t, t', input) ==>
              TimeLineage(input, t) == NotBitcoin(Reason.NonBtcEpochBits) && TimeLineage(input, t') == Bitcoin(EpochTime)
    ensures !NextBitsAdmit(t, t', input) ==> TimeLineage(input, t') == TimeLineage(input, t)
  {
    hide TimeLineage, EpochHeightForTime, IsBoundary, TimeIndexValid, EpochBitsAre;
    GrowthKeepsSelection(t, t', input.time);
    var epoch := EpochHeightForTime(t, input.time);
    if epoch.None? {
      TimeLineageBelow(t, input);
      TimeLineageBelow(t', input);
    } else {
      var e := epoch.value;
      SelectedIsCached(t, input.time);
      BoundaryNeighbours(e, t.coveredMax);
      TimeLineageOf(t, input, e);
      TimeLineageOf(t', input, e);
      EpochBitsPermanent(t, t', e - EPOCH, input.bits);
      EpochBitsPermanent(t, t', e, input.bits);
      if e < t.coveredMax {
        EpochBitsPermanent(t, t', e + EPOCH, input.bits);
      } else {
        NextEpochUncached(t, input.bits);
      }
    }
  }

  /**
   Any covered, unplaced header: growth later than its time leaves its verdict as it was, except
   exactly in the `NextEpochAdmits` case, where a foreign verdict becomes Bitcoin.
   */
  lemma CoveredVerdictUnderGrowth(t: Table, t': Table, input: Input)
    requires Valid(t) && Valid(t') && Extends(t, t') && AddsOnlyAfter(t, t', input.time)
    requires input.prevHeight.None?
    requires input.time <= t.horizonTime
    ensures BitcoinLineage(input, t') != BitcoinLineage(input, t) <==> NextEpochAdmits(t, t', input)
    ensures NextEpochAdmits(t, t', input) ==>
              && BitcoinLineage(input, t) == NotBitcoin(Reason.NonBtcEpochBits)
              && BitcoinLineage(input, t') == Bitcoin(EpochTime)
  {
    StrictVerdictPermanent(t, t', input);
    TimeVerdictUnderGrowth(t, t', input);
    AdmitsOnlyByTime(t, t', input);
    hide StrictLineage, TimeLineage, NextEpochAdmits, NextBitsAdmit, HeightIndexValid, TimeIndexValid, Extends, AddsOnlyAfter;
  }

  /** The one change is in the time rule, so no coinbase height may have decided. */
  lemma AdmitsOnlyByTime(t: Table, t': Table, input: Input)
    requires Valid(t) && input.time <= t.horizonTime
    ensures NextEpochAdmits(t, t', input) <==> StrictLineage(input, t).None? && NextBitsAdmit(t, t', input)
  {
    hide HeightIndexValid, TimeIndexValid, ExpectedNbits, EpochBitsAre;
    if input.strictHeight.Some? && HeightConsistent(input, input.strictHeight.value, t) {
      ConsistentHeightIsCached(input, input.strictHeight.value, t);
    }
  }

  /**
   Orphan verdicts: Strict and Weak are permanent under growth later than the header's time, and
   Excluded becomes Weak exactly in the `NextEpochAdmits` case.
   */
  lemma OrphanVerdictUnderGrowth(t: Table, t': Table, time: int, bits: nat, strictHeight: Option<int>)
    requires Valid(t) && Valid(t') && Extends(t, t') && AddsOnlyAfter(t, t', time)
    requires time <= t.horizonTime
    ensures var v := ClassifyOrphan(t, time, bits, strictHeight);
            var v' := ClassifyOrphan(t', time, bits, strictHeight);
            && (v.Strict? || v.Weak? ==> v' == v)
            && (v != v' <==> NextEpochAdmits(t, t', OrphanInput(time, bits, strictHeight)))
            && (v != v' ==> v == Excluded(Reason.NonBtcEpochBits) && v' == Weak)
  {
    hide HeightIndexValid, TimeIndexValid, AddsOnlyAfter, BitcoinLineage, NextEpochAdmits;
    var input := OrphanInput(time, bits, strictHeight);
    CoveredVerdictUnderGrowth(t, t', input);
    CoveredLineageDecided(t, input);
    CoveredLineageDecided(t', input);
  }
}
