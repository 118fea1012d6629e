# Merge-mining monitor: verified models

Dafny models of the merge-mining monitor's hard core, and proofs about them:

- **Bitcoin header cache.** The nBits table built from cached headers (`NbitsTable`), the lineage
  and orphan verdicts read from it (`Lineage`), the stored cache and its publication transaction
  (`HeaderStore`, `CacheShape`, `CacheVerdicts`), the refresh as a protocol in which Core, other
  refreshes and recheck passes move between any two reads (`RefreshProtocol`, `RefreshTraces`,
  `RefreshSafety`, `RefreshReads`, `VerdictRuns`, `ColdStart`, `QuietRuns`, `CacheLimits`), and the
  refresh as imperative code proved against that protocol (`EpochRefresh`).
- **Protocol commitments.** The byte-level decoder of CORE and exSat coinbase outputs and the choice
  of the output Core DAO reads (`Commitments`).
- **Read model.** Reconciling a verdict into event and block rows, one transaction at a time
  (`ReadModel`, `ReadModelRuns`, `ReadModelProven`, `ReadModelStore`), and the full rescan
  (`KeysetScan`).
- **Tree page.** Connected components, lanes and rows of the tree layout (`TreeComponents`,
  `TreeForest`, `TreeLanes`, `TreeSlots`) and the newest-load-wins protocol (`TreeLoads`,
  `TreePage`).
- **Smaller pieces.** Delta histogram bins (`DeltaBins`), relationship signals (`Relationship`), the
  shutdown fence (`CascadeFence`) and the civil date (`CivilDate`).

A block hash is modelled as the block with its whole ancestry (`Chain`), that is, hashes do not
collide. Integers are unbounded unless a width matters, as for the rescan's null-height sentinel.
SQL statements are functions on the tables, and a transaction keeps all of its writes or none.

## Where the code does less than it says

- An `excluded` orphan verdict on a header the cache already covers can become `weak` after a plain
  cache advance, although the cache generation does not move, no recheck pass is in flight and the
  scheduled one skips classified orphans (`CacheLimits.ExcludedChangesUnannounced`, a run from an
  empty cache). It happens exactly when the advance caches the epoch right after the last known one
  and that epoch's bits admit the header (`VerdictRuns.VerdictsHoldWhileGenerationHolds`). `strict`
  and `weak` never change.
- A publication onto a one-chain cache leaves it on one chain exactly when the highest boundary made
  final earlier is still an ancestor of the new horizon (`RefreshSafety.PublicationOnOneChain`). A
  reorganisation that replaces block 2016 after it is 100 deep breaks that
  (`CacheLimits.DeepReorgMixesChains`).
- The closing check of a refresh does not see a horizon that left the active chain and came back:
  a boundary read in between can be published off the horizon's chain
  (`CacheLimits.ReturningHorizonMixesChains`). Exactly the rows read while the active chain had
  another block at their height are affected (`RefreshReads.OffChainExactly`).
- The evidence documented as fixing height and bits exactly does so if and only if the header is a
  block, or a share without a known predecessor whose coinbase height decides nothing or lies in an
  epoch whose retarget left the bits alone (`Lineage.ExactEvidenceFixesBits`).
- A canonical event can return to `unknown`, by way of `invalid_block` and a catalogue that loses
  the entry (`ReadModelProven.CanonicalForgotten`). Against one catalogue it cannot, catalogued and
  preclassified parents included (`ReadModelProven.KnownStaysKnown`).
- An `unknown` verdict replaces a canonical or stale block whose hash is in the invalid-block
  catalogue (`ReadModelProven.SilenceExactly`, `ReadModelProven.CataloguedCanonicalReplaced`).
- `computeBins` on its own loses every row inside the window when given a negative width
  (`DeltaBins.CountsAddUp`); the page offers only positive ones.

## Model

| member | source | states |
|---|---|---|
| NbitsTable.FromHeaders | crates/mmm-capture/src/nbits_table.rs:53-121 | succeeds exactly on non-empty, strictly rising header lists whose boundaries run 0, 2016, 4032, ... without a gap, and says which of emptiness and order failed; its last check never fails |
| NbitsTable.SortedPermutationUnique | crates/mmm-capture/src/nbits_table.rs:53-121 | the sorted time index is the only sorted rearrangement of the boundaries, so the sort in use does not matter |
| NbitsTable.ConstructedTableValid | crates/mmm-capture/src/nbits_table.rs:53-121 | every accepted list gives a table whose height and time indexes hold the same boundaries, 0 to the last, the latter in (time, height) order |
| NbitsTable.ExpectedNbitsExact | crates/mmm-capture/src/nbits_table.rs:139-151 | for every height: below, above, or the bits of the header at 2016 * floor(h / 2016); the fallback for a missing map entry is unreachable |
| NbitsTable.PartitionPoint | crates/mmm-capture/src/nbits_table.rs:153-163 | the binary search splits the sorted boundaries into those at or before the time and those after it |
| NbitsTable.SearchSelects | crates/mmm-capture/src/nbits_table.rs:153-163 | the search returns the greatest (time, height) boundary at or before the time, and nothing exactly when the time is past the horizon or before every boundary |
| NbitsTable.SearchMatchesScan | crates/mmm-capture/src/nbits_table.rs:153-163 | sort plus binary search agrees with one linear scan of the rows, for boundary times in any order |
| Lineage.TrueHeaderIsBitcoin | crates/mmm-capture/src/lineage.rs:85-142 | a header at a cached height with that height's bits, whose time selects its own or an adjacent epoch, is Bitcoin for every combination of absent or true prev height and coinbase height |
| Lineage.ExactEvidenceBits | crates/mmm-capture/src/lineage.rs:85-142 | for every input with exact evidence, when its bits are the named height's: always for a block; for a coinbase-height share exactly when it does not carry the previous epoch's bits across a changing retarget; for a placed share nothing is checked, so that arm is only the lookup itself, and the next row has the content |
| Lineage.ExactEvidenceFixesBits | crates/mmm-capture/src/lineage.rs:77-82 | exact evidence fixes the bits if and only if the header is a block, or an unplaced share whose coinbase height decides nothing or lies in an epoch whose retarget changed nothing |
| Lineage.CoveredLineageDecided | crates/mmm-capture/src/lineage.rs:103-142 | an unplaced header whose time the cache covers never waits and never rests on the current-epoch guess |
| Lineage.CoveredOrphanDecided | crates/mmm-capture/src/btc_orphan.rs:95-123 | a covered header's orphan verdict is strict, weak or excluded, never undecided |
| Lineage.PlacedVerdictPermanent | crates/mmm-capture/src/lineage.rs:89-101 | a block on a known prev waits exactly when its height is past the cache, and once decided no cache growth changes the verdict |
| Lineage.CoveredVerdictUnderGrowth | crates/mmm-capture/src/lineage.rs:103-142 | growth later than a covered header's time changes its lineage if and only if it appends the next epoch and that epoch has the header's bits; then foreign becomes Bitcoin |
| Lineage.OrphanVerdictUnderGrowth | crates/mmm-capture/src/btc_orphan.rs:95-123 | strict and weak are permanent under such growth; excluded becomes weak in exactly that one case |
| CacheShape.ShapedIsAcceptable | crates/mmm-store/src/bitcoin_core_header.rs:835-869 | a cache of contiguous boundaries plus a horizon row lists as an acceptable header list |
| CacheShape.PublicationShape | crates/mmm-store/src/bitcoin_core_header.rs:455-556 | publishing a planned snapshot keeps the cache in that shape, with the new horizon as its highest row |
| CacheShape.RecordsAgree | crates/mmm-store/src/bitcoin_core_header.rs:391-450 | a planned publication is refused by the row check exactly when the horizon disagrees with the shallow boundary staged beside it or with the final boundary at its height |
| CacheVerdicts.PublicationStoreOk | crates/mmm-store/src/bitcoin_core_header.rs:455-556 | a publication keeps final rows, writes exactly the staged ones, covers every row's time and raises the revision by one |
| CacheVerdicts.UnchangedGenerationGrowsTable | crates/mmm-store/src/bitcoin_core_header.rs:753-829 | when a publication leaves the generation alone, the loaded table only grows: old boundaries keep bits and time, new ones are later than all time covered before |
| RefreshProtocol.PublishSawCurrentStore | crates/mmm-store/src/bitcoin_core_header.rs:558-592 | a publication that succeeds was planned from the revision, highest final row and horizon row it replaces |
| RefreshProtocol.PublicationEffect | crates/mmm-store/src/bitcoin_core_header.rs:455-556 | the rows, horizon, revision and number of final boundaries after a publication |
| RefreshProtocol.RunKeepsInv | crates/mmm-producers/src/bitcoin_epoch_cache.rs:98-186 | in every interleaving of refreshes, aborts, publications and Core tips, the store stays well formed and every refresh's plan fits the store it read |
| RefreshProtocol.EveryRunPublishesTables | crates/mmm-producers/src/bitcoin_epoch_cache.rs:98-186 | however Core behaves, a non-empty cache always loads as a valid table with the cache's own horizon height and time |
| RefreshSafety.StaleSnapshotNeverOverwrites | crates/mmm-store/src/bitcoin_core_header.rs:558-592 | in every run a publication changes the store only if its revision is still current, and then raises it by one |
| RefreshSafety.RunKeepsChainInv | crates/mmm-producers/src/bitcoin_epoch_cache.rs:98-186 | in every run where a dropped opening horizon stays dropped, a confirmed snapshot's boundaries are ancestors of its horizon and its reorg flag is right |
| RefreshSafety.PublicationOnOneChain | crates/mmm-producers/src/bitcoin_epoch_cache.rs:98-186 | onto any cache, everything a publication writes is an ancestor of the new horizon; onto a one-chain cache, the whole is one chain if and only if the highest earlier final boundary still is |
| RefreshSafety.EveryPublicationOnOneChain | crates/mmm-producers/src/bitcoin_epoch_cache.rs:98-186 | in every run where dropped opening horizons stay dropped, with Core reorganising between any two reads, every publication writes only ancestors of its horizon |
| RefreshReads.OffChainExactly | crates/mmm-producers/src/bitcoin_epoch_cache.rs:98-213 | in every run, whatever Core does: a staged boundary is off its horizon's chain if and only if the chain active at its own read had another block at that height, which takes a read made while the horizon was not active |
| RefreshSafety.EveryRunPublishesOneChain | crates/mmm-producers/src/bitcoin_epoch_cache.rs:14-18 | if blocks 100 deep are never reorganised away, every row of the cache is an ancestor of its horizon at every moment of every run |
| VerdictRuns.VerdictsHoldWhileGenerationHolds | crates/mmm-store/src/bitcoin_core_header.rs:753-829 | between any two moments of any run with the same generation, covered orphan verdicts agree, except excluded turning weak in exactly the next-epoch case |
| VerdictRuns.RecheckNotLost | crates/mmm-store/src/bitcoin_core_header.rs:176-245 | in every run, once a step moves the generation, classified orphans stay due for a recheck until a pass that revisits them is bound at a later step and that same pass is acknowledged |
| ColdStart.LiveBatch | crates/mmm-producers/src/bitcoin_epoch_cache.rs:98-186 | a live refresh fetches at most 25 final boundaries, and exactly 25 and no shallow one when it stops short of the tip |
| ColdStart.StepFinals | crates/mmm-producers/src/bitcoin_epoch_cache.rs:98-186 | final boundaries are never lost; a short live publication adds 25, and any other puts the horizon at its tip |
| ColdStart.BootstrapPendingIsBounded | crates/mmm-producers/src/bitcoin_epoch_cache.rs:98-186 | in any run from empty with tips up to L, at most (L + 2016) / 50400 publications leave the bootstrap pending |
| ColdStart.LivePublicationHorizon | crates/mmm-producers/src/bitcoin_epoch_cache.rs:106-113 | a live publication puts the horizon at the tip it read or 100 past the 25th boundary after the cached finals, whichever is lower, whatever the others did meanwhile |
| ColdStart.LivePublicationReachesTip | crates/mmm-producers/src/bitcoin_epoch_cache.rs:98-186 | in every run from empty, however Core moves: once all but one of the refreshes a tip needs have stopped short, every live publication that read that tip puts the horizon there |
| ColdStart.QuietConfirms | crates/mmm-producers/src/bitcoin_epoch_cache.rs:98-186 | with Core and the store standing still, a refresh confirms its snapshot, in a known number of reads |
| ColdStart.QuietPublishes | crates/mmm-store/src/bitcoin_core_header.rs:455-556 | a quiet refresh of a cache taken from Core's chain is accepted |
| ColdStart.ColdStartReachesTip | crates/mmm-producers/src/bitcoin_epoch_cache.rs:98-186 | for every tip height, k quiet live refreshes from empty put the horizon at the tip if and only if k is at least the stated count |
| RefreshTraces.TraceAmong | crates/mmm-producers/src/bitcoin_epoch_cache.rs:98-186 | in any interleaving with other refreshes, publications, passes and Core moves, a refresh's state is the trace of what each of its reads saw |
| RefreshTraces.RunScenesEvolve | crates/mmm-store/src/bitcoin_core_header.rs:558-592 | what the reads of a refresh see in any run is well formed, its revision never falls, and equal revisions mean equal rows |
| RefreshTraces.ConfirmedTraceConforms | crates/mmm-store/src/bitcoin_core_header.rs:558-592 | however the store changed between its reads, a snapshot whose publication is accepted was planned from the cache it replaces |
| RefreshTraces.AttemptIsRun | crates/mmm-producers/src/bitcoin_epoch_cache.rs:98-186 | the reads of one attempt and its publication, with Core anywhere at each read, are a run of the protocol with that store as its result |
| QuietRuns.EveryStillRun | crates/mmm-producers/src/bitcoin_epoch_cache.rs:98-186 | while Core stands still, any interleaving of live refreshes, aborts and passes leaves the cache that as many quiet refreshes would |
| QuietRuns.StillRunReachesTip | crates/mmm-producers/src/bitcoin_epoch_cache.rs:98-186 | in every such run the cached horizon is Core's tip if and only if the stated number of publications has been made |
| QuietRuns.ColdStartIsRun | crates/mmm-producers/src/bitcoin_epoch_cache.rs:98-186 | for every k there is a run from an empty cache that makes k publications |
| CacheLimits.ExcludedChangesUnannounced | crates/mmm-store/src/bitcoin_core_header.rs:753-829 | a run from an empty cache after which a covered excluded verdict becomes weak with no generation change, no pass in flight and no orphan recheck scheduled |
| CacheLimits.DeepReorgMixesChains | crates/mmm-producers/src/bitcoin_epoch_cache.rs:14-18 | for any two chains with one genesis that part below 2016, the first past height 2116: refreshing from one and then the other leaves the first one's final boundary under the second one's horizon |
| CacheLimits.ReturningHorizonMixesChains | crates/mmm-producers/src/bitcoin_epoch_cache.rs:98-186 | for any two such chains, a run with one refresh that publishes the other chain's boundary 2016 because its horizon was active again at the closing check |
| EpochRefresh.HeaderCache.Publish | crates/mmm-store/src/bitcoin_core_header.rs:455-556 | the in-place transaction, row by row, is the publication function; any failure leaves the cache as it was |
| EpochRefresh.FetchFinalEpochs | crates/mmm-producers/src/bitcoin_epoch_cache.rs:188-213 | each fetched boundary is what Core serves at its own read; the fetch stops at the first read that fails and succeeds exactly when none does |
| EpochRefresh.LoadTable | crates/mmm-store/src/bitcoin_core_header.rs:835-869 | the stored rows of a well-formed cache always load, as the table the verdict theorems speak of |
| EpochRefresh.RefreshSnapshot | crates/mmm-producers/src/bitcoin_epoch_cache.rs:98-186 | one attempt, with Core and the store free to change before every read, before the publication and before the table is loaded, does what the protocol does; it reports a refreshed or pending bootstrap exactly when it published |
| EpochRefresh.AttemptAmong | crates/mmm-producers/src/bitcoin_epoch_cache.rs:98-186 | any protocol interleaving of one refresh with others is such an attempt: same job, same store at its publication, same store after it |
| EpochRefresh.Refresh | crates/mmm-producers/src/bitcoin_epoch_cache.rs:32-63 | three attempts at most, with others publishing during and between them; every attempt but the last published nothing, and a publication is reported exactly when it happened |
| Commitments.ValidExactlyEncodings | crates/mmm-capture/src/protocol_commitment.rs:202-274 | a script decodes as valid payload p if and only if p is well formed and the script is its one encoding, for CORE and exSat |
| Commitments.CoreNearMisses | crates/mmm-capture/src/protocol_commitment.rs:223-243 | each verdict on a version-1 CORE script as an if-and-only-if in the encodings: valid when it is one, nested when a second header follows, else truncated when it only extends to one, trailing when it contains one, wrong push when neither |
| Commitments.ReadOutputsAreCoreCommitments | crates/mmm-capture/src/protocol_commitment.rs:178-221 | Core DAO's parser reads exactly the recognized CORE outputs that pass the decoder's own test; none is lost or taken for exSat |
| Commitments.CoreDaoChoice | crates/mmm-capture/src/protocol_commitment.rs:139-175 | the reference: the first output from vout 1 that Core DAO's parser reads |
| Commitments.ListCommitments | crates/mmm-capture/src/protocol_commitment.rs:139-175 | one entry for each commitment output, in output order, none marked |
| Commitments.DecodeProtocolCommitments | crates/mmm-capture/src/protocol_commitment.rs:139-175 | the marked entry is exactly the output the reference parser takes, whatever its decode status; at most one is marked and never an exSat one |
| ReadModelRuns.EffectiveTwice | crates/mmm-read-model/src/classify.rs:302-324 | applying the fallback for unknown verdicts a second time changes nothing |
| ReadModelRuns.RunKeepsDbOk | crates/mmm-read-model/src/reconcile.rs:379-484 | over any run of verdicts an event has a height exactly when canonical, stale or invalid, and every block row meets its constraints |
| ReadModelRuns.EventStep | crates/mmm-read-model/src/classify.rs:110-154 | a step never erases a known difficulty flag and makes an event unknown only from unknown or invalid |
| ReadModelRuns.ForgetsExactly | crates/mmm-read-model/src/classify.rs:302-324 | exactly when a committed step leaves an active event unknown, in terms of the row, catalogue and verdict before it |
| ReadModelRuns.EventRun | crates/mmm-read-model/src/classify.rs:110-154 | over any run a known difficulty flag stays known |
| ReadModelRuns.ForgetsOnlyThroughInvalid | crates/mmm-read-model/src/classify.rs:110-154 | on any run, an event once canonical or stale and later unknown was invalid at some moment in between |
| ReadModelProven.PreclassifiedSame | crates/mmm-read-model/src/reconcile.rs:519-588 | handing a reconcile the verdict that classification resolves to, catalogue verdicts included, changes nothing |
| ReadModelProven.PreclassifiedHonest | crates/mmm-read-model/src/classify.rs:64-106 | a verdict of a classifier that does not read the catalogue claims it, after resolution, only for catalogued parents |
| ReadModelProven.PreclassifiedSilent | crates/mmm-read-model/src/classify.rs:64-106 | a silent step stays silent when its resolved verdict is handed in instead |
| ReadModelProven.StepKeepsBacked | crates/mmm-read-model/src/classify.rs:376-435 | against one catalogue, every active invalid event keeps an invalid block row that can be read back |
| ReadModelProven.BackedExactly | crates/mmm-read-model/src/classify.rs:376-435 | a committed step on a parent with active events keeps that if and only if a verdict claiming the catalogue is about a catalogued parent |
| ReadModelProven.KnownStaysKnown | crates/mmm-read-model/src/classify.rs:110-154 | over any run against one catalogue, preclassified or not, an active canonical, stale or invalid event never returns to unknown |
| ReadModelProven.CanonicalForgotten | crates/mmm-read-model/src/classify.rs:110-154 | a two-step run, with a catalogue that loses an entry, that takes a canonical event to unknown |
| ReadModelProven.SilenceExactly | crates/mmm-read-model/src/classify.rs:158-263 | a committed step without a verdict keeps its parent's kind and height if and only if the row is proven: uncatalogued canonical, uncatalogued stale with a canonical competitor, or invalid and still backed |
| ReadModelProven.RetiredExactly | crates/mmm-read-model/src/competition.rs:8-41 | a silent reconcile of a proven block keeps it if and only if it has an active event or is Core-attested |
| ReadModelProven.CataloguedCanonicalReplaced | crates/mmm-read-model/src/classify.rs:64-106 | an unknown verdict on a catalogued canonical block makes it invalid |
| ReadModelProven.SilentRunKeepsHeld | crates/mmm-read-model/src/classify.rs:302-435 | no run of unknown, absent or catalogue verdicts, on any parents of the database, changes the kind, height or competitor of a proven block |
| ReadModelStore.Tables.ApplyEventClassification | crates/mmm-read-model/src/classify.rs:110-154 | updating the active rows one at a time, in any order, ends in the set-based update, or with every row undone when one is refused |
| ReadModelStore.Tables.UpsertSiblings | crates/mmm-read-model/src/writers.rs:228-282 | upserting the predecessor and competitor rows in turn is the function the run theorems use |
| ReadModelStore.Tables.RebuildParent | crates/mmm-read-model/src/classify.rs:158-263 | no row but the parent's changes; a rebuilt row meets the constraints and an unknown verdict keeps a readable row's kind; without active events a row survives exactly when Core-attested or referenced |
| ReadModelStore.Tables.ReconcileEvent | crates/mmm-read-model/src/reconcile.rs:379-484 | one reconcile commits every write or none |
| KeysetScan.SentinelIsNullsLast | crates/mmm-read-model/src/lib.rs:666-676 | for 32-bit heights the 2^31 sentinel orders rows exactly as nulls-last does |
| KeysetScan.CursorResumes | crates/mmm-read-model/src/lib.rs:666-686 | the query after the k-th row of the full order returns the rest of the full order |
| KeysetScan.EachMatchOnce | crates/mmm-read-model/src/lib.rs:666-676 | the full order holds every matching row exactly once, nulls last and then by id |
| KeysetScan.PagesNeeded | crates/mmm-read-model/src/lib.rs:663-713 | k pages hold n rows exactly when k is at least the rounded-up quotient |
| KeysetScan.ScanPage | crates/mmm-read-model/src/lib.rs:696-710 | a page moves the cursor and the visited rows on by exactly its rows |
| KeysetScan.ReconcileAll | crates/mmm-read-model/src/lib.rs:649-714 | every matching event once, in order, for every batch size; the row count is returned if and only if ceil(n / batch) < max_iterations, else the budget error after exactly that prefix |
| TreeComponents.BuildAdjacency | www/js/tree-layout.js:145-151 | lists every window node's neighbours along edges with both ends in the window, and no others |
| TreeComponents.SearchFrom | www/js/tree-layout.js:156-164 | the stack search ends and labels exactly one whole component, leaving earlier labels alone |
| TreeComponents.AssignComponents | www/js/tree-layout.js:144-168 | two nodes share a label if and only if a path of window edges joins them; labels count up from 0 in first-seen order |
| TreeLanes.BuildChildren | www/js/tree-layout.js:93-101 | every member's in-unit children, each once |
| TreeLanes.LaneAllocator.AssignLane | www/js/tree-layout.js:104-112 | a subtree takes its lane and as many new ones as it has further leaves, each used, each lane one ancestor chain, first child on its parent's lane |
| TreeLanes.LaneAllocator.AssignRoots | www/js/tree-layout.js:113-116 | the same for the subtrees of all roots together |
| TreeLanes.AssignLanes | www/js/tree-layout.js:93-116 | a unit uses exactly as many lanes as its forest has leaves, and the members of a lane form one chain of ancestors |
| TreeSlots.ComparatorTotal | www/js/tree-layout.js:170-181 | the slot comparator is a total order on units |
| TreeSlots.PlaceUnit | www/js/tree-layout.js:117-122 | every member's y is its lane's row, and the counted lanes are one more than the highest |
| TreeSlots.PlaceSlot | www/js/tree-layout.js:84-125 | the units of a slot take consecutive row ranges without gaps, one row per leaf, in slot order |
| TreeSlots.NodesNeverOverlap | www/js/tree-layout.js:84-125 | two nodes of a slot with the same y have different heights |
| TreeSlots.KindsStayOrdered | www/js/tree-layout.js:170-181 | canonical units are drawn above unknown ones and those above stale ones |
| TreeLoads.RunKeepsInv | www/js/api-client.js:377-411 | in every interleaving of loads, jumps, gestures, responses and resumptions, only the newest load holds the newest fetch number |
| TreeLoads.OlderLoadWritesNothing | www/js/api-client.js:377-411 | once a newer load has started, an older one writes neither the tree nor its error |
| TreeLoads.AppliedNumbersIncrease | www/js/api-client.js:377-411 | applied load numbers strictly increase, and the tree shown is the last applied payload |
| TreeLoads.ReturnsTrueExactly | www/js/api-client.js:377-411 | a load returns true if and only if its response was a payload and no load, unavailable jump or gesture came between its start and its end; then the tree is that payload |
| TreePage.Page.StartLoad | www/js/api-client.js:377-393 | a start takes a number above every load in flight; a valid window keeps the tree, an invalid one clears it and shows its error |
| TreePage.Page.JumpUnavailable | www/js/api-client.js:306-318 | afterwards no load in flight holds the newest load or fetch number |
| TreePage.Page.FetchReturns | www/js/api-client.js:9-30 | a response never writes the tree, and an older load's leaves the error alone and carries no payload |
| TreePage.Page.ResumeLoad | www/js/api-client.js:394-411 | exactly when a resumed load wins, and what it then shows; one that loses leaves the tree, and an older one the error too |
| DeltaBins.WidthFits | www/js/delta-scales.js:102-116 | the chosen width is positive unless a negative one was asked for, and never makes too many bins |
| DeltaBins.AtMostMaxBins | www/js/delta-scales.js:102-116 | never more than 401 bins |
| DeltaBins.BinsTile | www/js/delta-scales.js:142-147 | bins run from -half to half, each beginning where the one before ends, none empty |
| DeltaBins.KeyedInside | www/js/delta-scales.js:118-123 | every delta in the window lies within the edges of the bin its key names |
| DeltaBins.KeyMirrors | www/js/delta-scales.js:106-107 | negating a delta negates its key, ties included |
| DeltaBins.CountsMirror | www/js/delta-scales.js:126-149 | negating every delta mirrors the bin counts and swaps below and above |
| DeltaBins.CountsAddUp | www/js/delta-scales.js:126-149 | bins plus below plus above equal the rows if and only if the width is not negative, the window is a point, or no row is inside it |
| DeltaBins.ComputeBins | www/js/delta-scales.js:126-149 | one bin for every key, with its edges, centre and row count, and exactly the rows outside the window set aside |
| Relationship.Finish | crates/mmm-capture/src/relationship.rs:321-353 | the two loops with their seen-sets compute the first-occurrence derivation |
| Relationship.DistinctIds | crates/mmm-capture/src/relationship.rs:339-346 | the pools listed have known, pairwise distinct ids, and exactly the ids named |
| Relationship.MixedExactly | crates/mmm-capture/src/relationship.rs:347-348 | mixed holds if and only if two distinct known ids occur among the miner and the signals |
| Relationship.ReferenceExactly | crates/mmm-capture/src/relationship.rs:349-349 | the reference is the miner when known, else the first known signal's pool, else the unknown pool |
| Relationship.FinishCommutes | crates/mmm-capture/src/relationship.rs:37-52 | deriving over full pools and keeping ids equals deriving over ids: entries, pools and order, reference and mixed |
| CascadeFence.PendingCountsGuards | crates/mmm-read-model/src/pending_cascade.rs:14-30 | in every interleaving the counter is the number of live guards, so it never underflows |
| CascadeFence.DroppedOnlyWhenSettled | crates/mmm-producers/src/live_loop.rs:127-151 | on any run, work is dropped unfinished only after shutdown was received and then with no live guard or at least 60 seconds later |
| CascadeFence.DropsExactly | crates/mmm-producers/src/live_loop.rs:127-151 | on any run, a poll from the one that receives the shutdown on drops work that is not ready if and only if no guard is live or 60 seconds have passed since that poll |
| CivilDate.CivilSteps | crates/mmm-capture/src/pool_snapshot_gen.rs:184-197 | the date of the next day is the Gregorian successor of the date |
| CivilDate.CivilDateIsTheCalendars | crates/mmm-capture/src/pool_snapshot_gen.rs:184-197 | for every Unix time the arithmetic gives the valid date reached by stepping the calendar from 1970-01-01 |
| CivilDate.CivilDateText | crates/mmm-capture/src/pool_snapshot_gen.rs:184-197 | that date reads back from the text, which has ten characters through year 9999 |

## Left out

- RefreshSafety.RunKeepsChainInv: stated for runs in which an opening horizon that Core drops while a refresh is gathering does not become active again before the refresh ends; `RefreshReads.OffChainExactly` says what holds in all runs.
- RefreshSafety.EveryPublicationOnOneChain: the same.
- RefreshSafety.EveryRunPublishesOneChain: the same, and blocks 100 deep stay active, the depth the code calls final.
- EpochRefresh.RefreshSnapshot: others change the store as publications and recheck passes can, which is proved of every run of the protocol; Core faults other than a missing height are not told apart.
- EpochRefresh.Refresh: the same; draining the reconcile queue between attempts is not modelled.
- ColdStart.ColdStartReachesTip: Core stands still; `ColdStart.LivePublicationReachesTip` is the statement for a moving Core.
- QuietRuns.StillRunReachesTip: Core stands still, and every refresh is live.
- ReadModelProven.KnownStaysKnown: starts from a database whose active invalid events have readable invalid block rows, which every step keeps; a verdict that claims the catalogue is about a catalogued parent, as every one the code makes is (classify.rs is the only place that makes them, after the lookup).
- ReadModelProven.SilentRunKeepsHeld: the block, and a stale block's competitor, has an active event or is Core-attested; otherwise a reconcile may retire it.
- TreeLanes.AssignLanes: stated for units with distinct members and no cycle of prev hashes, as block hashes give; the collation that orders hashes is a parameter.
- TreeSlots.PlaceSlot: the units of a slot have no node in common and one common root y; grouping by rounded y, x positions and null-height ranks are not modelled.
- KeysetScan.ReconcileAll: the events scanned do not change meanwhile, and no single reconcile fails.
- DeltaBins.ComputeBins: real arithmetic in place of binary floating point.
- CivilDate.CivilDateUtc: no 64-bit overflow for times beyond any calendar use.
- 32-bit overflow of heights in the lineage and refresh arithmetic: heights are unbounded integers here.
- Advisory locks and the lock-set retry of a reconcile: a transaction is one atomic step; a publication that cannot get its lock is retried like one that finds queued work.
- The durable reconcile queue, the cascade queue and its budget: only whether work is queued matters to a publication.
- The pages and source filters of a recheck pass: only its scheduling, binding and acknowledgement are modelled.
- Block columns other than kind, height, source, competitor, reason, attestation and difficulty: coinbases, pools, counts and orphan class.
- Revoking events and block-only reconciles: a run is made of event reconciles.
- The parent classifier, AuxPoW and BIP 34 parsing: verdicts, heights and headers are inputs.
- Coinbase evidence choice and drafting of signals: `finish` takes the drafts as given.
- Rendering, URLs, forms and cameras of the page, tick and axis text, symmetric-log scales: they would only add easy members.
- HTTP, JSON, SQL text, logging and metrics: not part of this model.
