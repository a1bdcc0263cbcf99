# Circuit ORAM verification

A Dafny model of the Circuit ORAM controller and the layers around it, with proofs that each layer
agrees with something simpler. `dafny verify dfyconfig.toml` checks everything.

* **Controller** (`Geometry`, `Schedule`, `Blocks`, `EvictionPlan`, `OramSpec`, `OramBuild`, and the
  methods in `OramScans`, `StashOps`, `PathOverlay`, `EvictionOps`, `OverlayOps`, `BatchSteps`,
  `SplitStores`, `Controller`, `TrustedBuild`). A class keeps the position map, the fixed-slot stash,
  the schedule counters and the split metadata and payload stores; its methods have the source's loops
  and are proved against functions on the whole state. `AccessRefinement`, `EvictionRefinement` and
  `OramRuns` prove that any run of those functions behaves as a plain array, and that evictions are
  optimal and cannot overflow; `EvictionOrder` says which block an eviction puts where, `BuildLimits`
  which sources can be built.
* **Traffic** (`RequestedPaths`, `AccessPattern`, `Obliviousness`). Which paths each request reads and
  writes, and why they depend on the requests only up to the order of the random draws: every path
  belongs to a draw shown once, or to the eviction schedule.
* **Authenticated stores** (`EmbeddedSpec`, `EmbeddedBatch`, `EmbeddedTree`; `MerkleSpec`,
  `MerkleLayout`, `MerkleStores`, `MerkleRuns`, `MerkleIoPlan`). Incremental updates equal rebuilds;
  accepted data is reference data or a collision is exhibited; the I/O planner lists what the store
  does. The untrusted stores may be changed by anyone between calls: validity says nothing about their pages.
* **Controller over authenticated stores** (`TrustedPaths`, `AuthenticatedOram`, `TamperedRuns`,
  `SealedBuild`). Every request either refuses, has the outcome it has on trusted stores, or exhibits a
  stored page that is not the trusted page of its index but has its digest; and so for whole runs, from
  source blocks on, during which the stored pages are replaced again and again.
* **Direct index** (`SlotTable`, `Cuckoo`, `DirectIndex`, `IndexReader`, `IndexBuild`). Cuckoo
  placement, packed blocks, and lookups through the ORAM as a dictionary.
* **Simulators and stores** (`SimSpec`, `SimTables`, `SimEviction`, `RingSpec`, `RingSim`, `StressSim`;
  `PageStores`, `FileStore`, `FrontCache`). What a simulation reports is tied to the run of states its
  steps go through.

Conventions. Constant-time choices are booleans and conditional assignments inside the same full
scans. A bucket page is a list of slots. The payload is any type with an all-zero value. Random labels
are a stream of draws with a position; a closure passed to an access is a function, of the call number
too in a batch. Hash functions are parameters about which nothing is assumed: where a digest could be
forged, the forged input is exhibited, or a run is required to have met none against the contents it
itself trusts at that moment. Errors carry no message text. `usize` is unbounded; the 32-bit and 64-bit
limits the code checks (labels, ids, counters) are modelled. The two stress simulators share their
table code in the source word for word, so it is modelled once, in `SimTables`.

Findings. Three promises hold only with a proviso. Writing from the verified-page cache agrees with
re-reading on success and stored pages always, and on the trusted root except in one case: the cache
is used for a batch that lists a path that is no path of the tree, and the good paths before it move
the root. Both runs then fail, but only the cached one has advanced the root
(`EmbeddedBatch.CacheEqualsReread`, `EmbeddedBatch.HonestCacheEqualsReread`,
`EmbeddedBatch.UnrootedBatchDiffers`). A front cache created with blank pages presents the inner store
exactly when the inner prefix is blank (`FrontCache.FrontCachedPageStore.NewZeroed`); writing every
cached page first removes the proviso (`FrontCache.FrontCachedPageStore.Initialize`). The search for
candidate bins ends for a hash exactly when some first nonces show as many bins as there are hash
functions (`Cuckoo.Table.EndsExactly`). That takes at least as many bins
(`Cuckoo.Table.EndsNeedsBins`), so with two or more hash functions it never ends, for any hash, when the
records of the file do not overfill one bin less (`Cuckoo.SmallFileLoops`); with the defaults a file of
one record is such a file (`Cuckoo.OneRecordLoops`).

## Model

| member | source | states |
|---|---|---|
| OramRuns.RunRefinesArray | src/circuit.rs:742-913 | Over any sequence of accesses, batches, dummies and drains that completes, every output is what a plain array gives, and the state still holds each id exactly once, in stash or tree, on its label's path, with the array's payload. It can fail in two ways only: a full stash, when the accesses outnumber the slots free at the start, and counters, when the debt already recorded is not covered by the accesses issued or the accesses of the run do not fit 64 bits with their evictions |
| OramRuns.StepRefinesArray | src/circuit.rs:742-913 | The same for one request of any kind: outputs, stash growth, and each failure with the counter condition that causes it |
| AccessRefinement.AccessRefinesArray | src/circuit.rs:742-779 | An access fails if and only if its target is in the tree while the stash is full, or the access counter is exhausted; otherwise it returns the array's value, writes the update, and adds at most one stash block |
| AccessRefinement.DummyRefinesArray | src/circuit.rs:692-700 | A dummy access changes no value and no stash occupancy and fails exactly when the access counter is exhausted |
| OramRuns.AccessAllRefinesArray | src/circuit.rs:788-868 | A batch with repeated ids answers as the array batch does, each access seeing the updates before it; overflow only when occupancy plus batch size exceeds capacity, the counter error only when the batch does not fit the access counter |
| OramRuns.DrainRequestRefinesArray | src/circuit.rs:870-913 | A drain request changes no value and never grows the stash; it fails exactly when the pending debt cannot be told from the counters |
| OramRuns.RunCompletes | src/circuit.rs:742-913 | A run completes whenever completed evictions are covered by the accesses issued, the accesses of the run fit the counters, and they number at most the free stash slots; it then answers as the array |
| OramRuns.EvictRefinesArray | src/circuit.rs:1004-1022 | From every state that stands for an array, evicting any path succeeds, changes no value, keeps the multiset of (id, label, payload) blocks, does not grow the stash and leaves off-path pages alone |
| OramRuns.EvictKeepsContents | src/circuit.rs:1004-1022 | The same conservation and off-path frame for any state whose tree blocks sit on their paths, without reference to an array |
| OramRuns.DrainRefinesArray | src/circuit.rs:870-913 | Draining any number of scheduled evictions always succeeds, changes no value and never grows the stash |
| OramRuns.DrainSplits | src/circuit.rs:870-913 | Draining m and then n paths reaches the state of draining m + n |
| OramRuns.BudgetSplitIrrelevant | src/circuit.rs:870-913 | Two drain requests with budgets m and n give the same stash, stores, counters and completed total as one with m + n, the debt capping each |
| Controller.CircuitOram.Access | src/circuit.rs:742-779 | The in-place access over the two stores has exactly the outcome of the specified access: output, stash slots, position map, random position, counters and stored pages; an overflow leaves the whole state as it was; the id is relabelled to the next draw reduced modulo the leaf count, no other label changes, one draw is used and one access is counted; what it asks of the stores is the path of the label the id had, read and then written back |
| Controller.CircuitOram.AccessBatch | src/circuit.rs:788-868 | The batch over one shared overlay, each page read and written once, succeeds exactly when the left-to-right fold of single accesses with the same draws does, and then gives the same outputs and the same whole state; it fails as the fold does, an id out of range being reported first; every id accessed ends with the label drawn at its last position in the batch, ids not listed keep theirs, and one draw and one counted access go with every id; it asks for the path of each id's label at its turn, all read and then all written |
| Controller.CircuitOram.DummyAccess | src/circuit.rs:692-700 | The path of the next draw, reduced to a label, is read and written back: the stores are unchanged, one draw and one unit of debt are used |
| Controller.CircuitOram.DummyAccessBatch | src/circuit.rs:704-740 | Equals that many single dummy accesses, and asks for the paths of that many next draws, all read and then all written |
| Controller.CircuitOram.DrainEvictions | src/circuit.rs:870-913 | The shared-overlay drain equals evicting the scheduled paths one at a time, the debt capping the budget; it completes the smaller of budget and debt and the completed counter alone moves, by that much; the paths asked for are the next scheduled ones in order |
| Controller.CircuitOram.ReadAndRemoveTargetPath | src/circuit.rs:915-950 | Path read, target moved to the stash, whole path written back: exactly the specified fetch on joined pages |
| BatchSteps.EvictionPaths | src/circuit.rs:870-913 | The paths of the next evictions, in schedule order, in range |
| BatchSteps.ApplyAccesses | src/circuit.rs:818-852 | On overlays alone, the accesses of a batch in order have the outcome of the fold, errors included, whatever store the overlays came from |
| BatchSteps.ApplyEvictions | src/circuit.rs:886-900 | On overlays alone, the scheduled evictions in order have the outcome of the specified drain, errors included |
| BatchSteps.Respond | src/circuit.rs:750-779 | The end of an access: the target in the stash is read, relabelled and updated, or reported missing, or the counter error is raised |
| BatchSteps.BatchLabels | src/circuit.rs:788-868 | After i accesses of a batch the position map is the batch relabelling of the first i, and the next access reads the path of its id's label at that moment |
| BatchSteps.AccessRelabels | src/circuit.rs:742-779 | A completed access labels its id, in the position map and on the block left in the stash, with the next draw reduced modulo the leaf count; nothing else is relabelled |
| BatchSteps.BatchRelabels | src/circuit.rs:788-868 | After any prefix of a batch each id accessed has the label drawn at its last position in the prefix, every other id its old one |
| BatchSteps.DrainCounts | src/circuit.rs:870-913 | A successful drain completes the smaller of budget and debt and touches no label, no draw and no other counter |
| BatchSteps.NextEvictionScheduled | src/circuit.rs:116-163 | The next eviction is of the path whose bucket at each depth d is the reversal of the low d bits of the number completed, and that eviction is all the step does besides counting itself |
| RequestedPaths.BatchLeavesShown | src/circuit.rs:788-868 | The leaves computed before a batch starts are the labels its ids have when their turn comes, also for an id asked for twice |
| AccessPattern.EachDrawOnce | src/circuit.rs:692-868 | Counting which draw gave each id its label: over any sequence of accesses and dummies no draw is shown by two paths, and no label in use has a draw already shown |
| AccessPattern.PatternsAgree | src/circuit.rs:692-913 | For two sequences that differ only in ids and in which accesses are dummies, the paths touched come from the same places of the eviction schedule and, under one rearrangement of the draws, from the same draws |
| Obliviousness.BuildBooked | src/circuit.rs:531-594 | After the build the label of every id is a draw of its own |
| Obliviousness.RunBooked | src/circuit.rs:692-913 | The leaves shown by a run that completes are the draws and schedule entries so counted, each draw at most once |
| Obliviousness.TrafficTellsNothing | src/circuit.rs:531-913 | For any two clients with sources of one size and requests of one shape, whatever ids, payloads and updates, and whichever accesses are dummies, there is one rearrangement of the draws under which, for every stream of draws, the second has the stores asked request by request for exactly the paths of the first, when both are served to the end |
| BatchSteps.EvictOffPath | src/circuit.rs:1131-1190 | An eviction changes only pages of its path, so overlapping evictions of one overlay compose |
| BatchSteps.OffPathUnchanged | src/circuit.rs:952-993 | An access changes only pages of its path |
| SplitStores.JoinedWrite | src/circuit.rs:915-950 | Writing metadata and payload pages along a path writes the joined pages of that path and keeps both stores in shape |
| SplitStores.StoresHoldTree | src/circuit.rs:788-868 | Stores that match the overlays on their pages and are untouched elsewhere hold the intended tree |
| PathOverlay.OverlayPathPages | src/circuit.rs:1470-1516 | Joining reads of overlapping paths fails exactly on a wrong number of pages, a wrong page size, or one page read with two contents; otherwise it shows exactly the listed pages |
| PathOverlay.StoreReadsAgree | src/circuit.rs:1470-1516 | Reads of a store that does not change meanwhile never meet those errors |
| PathOverlay.CollectOverlayPaths | src/circuit.rs:1517-1541 | Path lists are rebuilt from the overlay exactly when it covers every path |
| PathOverlay.WriteBack | src/circuit.rs:788-868 | Writing the overlay back along all paths, shared pages repeated, leaves every listed page as the overlay shows it and every other page as it was |
| OverlayOps.FetchFromPages | src/circuit.rs:952-993 | The full scan of a path in two stores finds and clears the target as the specification does, in place in the stash |
| OverlayOps.RemoveTargetFromOverlays | src/circuit.rs:952-993 | The same on page overlays, with both overlays showing the rewritten path afterwards |
| OverlayOps.EvictPathPages | src/circuit.rs:1131-1190 | Plan, capacity check, clearing, reinsertion and rebuilding on split pages equal the specified eviction of the joined pages; the stash is untouched on overflow |
| OverlayOps.EvictPathInOverlays | src/circuit.rs:1004-1022 | The same on page overlays |
| OramScans.ScanPosMapLookupBatch | src/circuit.rs:1388-1398 | The full scan returns the label of every asked id |
| OramScans.ScanPosMapUpdateBatch | src/circuit.rs:1399-1407 | The full scan leaves the map as relabelling in batch order does, the last label of a repeated id winning |
| OramScans.RelabelEntry | src/circuit.rs:1399-1407 | Relabelling in order can be read entry by entry: each id ends with its last new label |
| OramScans.BatchAccessLeaves | src/circuit.rs:1409-1421 | The leaf each access reads is its id's label after the earlier accesses of the batch |
| OramScans.SelectAndRemove | src/circuit.rs:1423-1440 | A full bucket scan clears the first slot of the target and no other; once removed nothing changes |
| OramScans.PlanEvictionPlacements | src/circuit.rs:1042-1128 | The nested scans, from the leaf up, produce exactly the greedy plan of the specification |
| StashOps.InsertIntoStash | src/circuit.rs:1316-1335 | The full scan puts the block into the first free slot, or reports an overflow and changes nothing |
| StashOps.ReinsertLeftovers | src/circuit.rs:1278-1314 | Unselected path blocks go back in candidate order, each into the first free slot, without overflow once capacity was checked |
| StashOps.ScanStash | src/circuit.rs:742-779 | The scan returns the payload of the (last) matching slot and whether there is one |
| StashOps.RestampStash | src/circuit.rs:742-779 | Exactly the slots of the id get the new label and payload |
| StashOps.OccupiedStashLen | src/circuit.rs:1346-1351 | Counts the occupied slots |
| EvictionOps.EnsureEvictionStashCapacity | src/circuit.rs:1248-1275 | Reports an overflow exactly when inserting the unselected path blocks into the cleared stash would run out of slots |
| EvictionOps.LoadPayloads | src/circuit.rs:1206-1246 | Payloads are loaded in candidate order, stash first, then the path from the root |
| EvictionOps.RebuildPage | src/circuit.rs:1131-1190 | Each slot receives the candidate the plan named for it, or a dummy |
| EvictionPlan.GreedyOptimal | src/circuit.rs:1042-1128 | The greedy arrangement is legal, and at every depth k no legal arrangement puts more blocks at depth k or deeper |
| EvictionPlan.CapacityIsMinimumCut | src/circuit.rs:1100-1120 | The greedy value at depth k is below every cut eligible(j) + Z(j - k), k <= j <= height with eligible(height) = 0, and equals one of them |
| EvictionPlan.PlacementBound | src/circuit.rs:1100-1120 | No legal arrangement exceeds the greedy value at any depth |
| EvictionPlan.LeftoverFindsFullBuckets | src/circuit.rs:1100-1120 | A candidate the plan leaves out finds every bucket within its reach full |
| EvictionRefinement.EvictIsOptimal | src/circuit.rs:1004-1022 | The rebuilt pages from depth k down hold as many blocks as any legal arrangement of the same stash and path blocks could put there |
| EvictionRefinement.EvictConserves | src/circuit.rs:1131-1190 | Stash and path together hold the same blocks before and after, none changed, lost or duplicated |
| EvictionRefinement.EvictNeverGrowsStash | src/circuit.rs:1248-1275 | From pages placed on their paths the overflow check cannot fire and the stash does not grow |
| EvictionRefinement.StashBlockFindsFullBuckets | src/circuit.rs:1100-1120 | A block left in the stash by an eviction finds every bucket down to its deepest legal depth full |
| EvictionRefinement.ReachMeaning | src/circuit.rs:1196-1204 | A slot's reach counts exactly the depths whose bucket on the eviction path lies on the block's own path |
| EvictionOrder.GreedyTakesFirst | src/circuit.rs:1042-1128 | Slot by slot from the leaf up, the plan takes the first candidate that may go that deep and is not placed yet, and leaves a slot empty only when there is none |
| EvictionOrder.EvictedPath | src/circuit.rs:1131-1190 | Every slot of the rebuilt path holds the candidate, stash first and then the path from the root, that this rule gives it |
| EvictionOrder.EvictedStash | src/circuit.rs:1278-1314 | Stash blocks the plan leaves out keep their slots, and the path blocks left over fill the free slots from the first on, in path order |
| OramBuild.BuildRefinesSource | src/circuit.rs:531-594 | A built image stands for the source array; building fails with a size mismatch exactly when the sizes differ, and with an overflow exactly when some block finds its path full and the stash capacity used up by the blocks before it |
| OramBuild.PlaceAllFails | src/circuit.rs:552-564 | Placing the first n blocks fails exactly at a block whose whole path is full while the overflow list is as long as the stash |
| BuildLimits.SmallSourceBuilds | src/circuit.rs:531-594 | Every source of the right size with no more blocks than one path and the stash hold together is built, whatever labels are drawn |
| BuildLimits.OverflowIsRight | src/circuit.rs:552-564 | The overflow blocks are in ascending id, each under its drawn label and with its payload, and the path of each is full to the end |
| BuildLimits.BuildStart | src/circuit.rs:531-594 | A build starts with each label the draw of its index reduced modulo the leaf count, no access or eviction counted, two evictions owed per access, and the overflow blocks in the first stash slots |
| OramBuild.PlaceDeepestEffect | src/circuit.rs:1672-1688 | A successful placement adds exactly the block to the tree, on its label's path |
| OramBuild.PlacesDeepest | src/circuit.rs:1672-1688 | Placement fails if and only if every bucket of the path is full; otherwise it takes a free slot with every deeper bucket of the path full |
| TrustedBuild.BuildTrusted | src/circuit.rs:531-594 | The loops over metadata, overflow stash, payload pages and source blocks build exactly the specified initial state over the two given stores, in arrays of its own; overflow is reported exactly when some block finds path and stash full, never for a source that fits one path and the stash together; label i is draw i reduced modulo the leaf count |
| TrustedBuild.PlaceInitialMeta | src/circuit.rs:1672-1688 | The metadata scan from the leaf up places a label as the specification does |
| TrustedBuild.WriteImage | src/circuit.rs:1690-1736 | Both stores hold, slot by slot, the planned metadata and the source payload of its id |
| Schedule.WindowVisitsEachBucketOnce | src/circuit.rs:147-163 | Any 2^d consecutive scheduled evictions, from any index, visit each bucket of depth d exactly once |
| Schedule.EvictionNode | src/circuit.rs:152-163 | The depth-d bucket of an eviction is the reversal of the low d bits of its index, and the leaf is in range |
| Schedule.ReverseBitsModMeaning | src/circuit.rs:152-163 | Truncation, mask, 32-bit reversal and shift compute the reversal of the low leaf bits of the index |
| Schedule.RunEmitsScheduleOrder | src/circuit.rs:69-145 | Any interleaving of accesses and drains emits consecutive schedule leaves, with completed evictions never above issued accesses times the rate |
| Schedule.CircuitEvictionSchedule.RecordAccess | src/circuit.rs:69-75 | Counts one access, or reports an exhausted counter and changes nothing |
| Schedule.CircuitEvictionSchedule.CompleteOneEviction | src/circuit.rs:122-132 | Pops the next scheduled leaf exactly when there is debt, and one entry only |
| Schedule.CircuitEvictionSchedule.DrainEvictions | src/circuit.rs:135-144 | Emits the next leaves in order, as many as budget and debt allow |
| Geometry.NodeIndexIsPrefix | src/params.rs:99-108 | For an in-range label the mask is idle: the node is the level offset plus the leading label bits |
| Geometry.PathParent | src/params.rs:99-115 | Consecutive path nodes are parent and child in heap numbering, the next label bit choosing the child |
| Geometry.PathNesting | src/params.rs:99-120 | Two labels that share a bucket share every shallower bucket |
| Geometry.NodeDepthUnique | src/params.rs:99-108 | A bucket belongs to one depth only |
| Geometry.PathNodesDistinct | src/params.rs:110-115 | A path lists distinct in-range buckets, root first |
| Geometry.OramParams.WithLeaves | src/params.rs:31-56 | Accepts exactly positive sizes and a power-of-two leaf count from 2 to the largest 32-bit value |
| Geometry.OramParams.WithBucketSize | src/params.rs:59-65 | Rejects exactly zero; the tree keeps its height |
| Geometry.OramParams.WithStashCapacity | src/params.rs:68-76 | Rejects exactly a stash too small for the blocks of one path |
| Geometry.DefaultSizing | src/params.rs:25-28 | The default sizing is accepted exactly for 1 to 2^31 blocks of positive size |
| EmbeddedTree.EmbeddedTreePageStore.Build | src/embedded_tree.rs:67-100 | Stored pages and root become the reference tree over the logical contents; stale digests are ignored; fails exactly on an empty store |
| EmbeddedTree.EmbeddedTreePageStore.ReadPaths | src/embedded_tree.rs:180-201 | Succeeds exactly when all paths are rooted and their digests chain from the root; whatever the inner store holds, under the root of any reference tree the result is the reference contents or two page inputs with one digest, differing in content or child digests, are exhibited |
| EmbeddedTree.EmbeddedTreePageStore.WritePaths | src/embedded_tree.rs:208-286 | Store, root and success are exactly the specified batch outcome, failures included; over an honest store with an unchanged or empty cache it succeeds exactly on well-shaped batches and leaves an honest store over the new contents |
| EmbeddedTree.EmbeddedTreePageStore.ApplyPaths | src/embedded_tree.rs:232-286 | Applies the paths in order on one overlay and writes exactly the touched pages; a bad path stores nothing but leaves the root past the paths before it |
| EmbeddedTree.EmbeddedTreePageStore.ReadVerifiedPaths | src/embedded_tree.rs:288-313 | Each distinct page is read once; accepted exactly when every path verifies |
| EmbeddedTree.VerifyPathFromPages | src/embedded_tree.rs:316-339 | Accepts a path exactly when each page's digest is what its parent, or the root, says |
| EmbeddedTree.ValidatePath | src/embedded_tree.rs:495-522 | Accepts exactly in-range root-anchored parent-child paths |
| EmbeddedSpec.UpdateAllEqualsRebuild | src/embedded_tree.rs:234-273 | A batch of overlapping path updates on pages that agree with a reference tree gives the pages and root a rebuild over the resulting contents would give |
| EmbeddedSpec.RehashMeaning | src/embedded_tree.rs:259-272 | Recomputing digests from the end of a path upward makes its pages reference pages of the new contents and touches no other |
| EmbeddedSpec.OffPathHash | src/embedded_tree.rs:259-272 | No subtree digest off the written path changes |
| EmbeddedSpec.UntouchedPages | src/embedded_tree.rs:234-273 | A page no write touches already is what a rebuild would store |
| EmbeddedSpec.VerifiedIsAuthentic | src/embedded_tree.rs:288-339 | A set of pages linked by digests up to the root of a reference tree is that tree's pages, or for one of them the hash function itself gives one value on two different inputs of content and child digests |
| EmbeddedBatch.WriteEqualsRebuild | src/embedded_tree.rs:208-286 | Over an honest store, with or without an unchanged cache: success exactly on well-shaped batches, then build-equal pages and root |
| EmbeddedBatch.CacheEqualsReread | src/embedded_tree.rs:224-231 | With the store unchanged since the read, writing from the cache and re-reading always agree on success and stored pages; they differ, in the trusted root alone, if and only if the cache is used for a batch of matching lengths with an unrooted path and the good paths before it move the root |
| EmbeddedBatch.HonestCacheEqualsReread | src/embedded_tree.rs:224-242 | Over an honest store that condition is one on the arguments of the call: if the good prefix writes what is there the two runs agree, otherwise their roots differ or two reference pages with one digest are exhibited |
| EmbeddedBatch.RootDeterminesContents | src/embedded_tree.rs:536-552 | Equal roots mean equal contents, or two reference pages of one index collide |
| EmbeddedBatch.UnrootedBatchDiffers | src/embedded_tree.rs:224-242 | A concrete failing batch on which the two roots differ |
| EmbeddedBatch.AcceptedIsAuthentic | src/embedded_tree.rs:288-313 | An accepted batch of reads shows reference pages or exhibits a collision |
| EmbeddedBatch.InjectiveReads | src/embedded_tree.rs:288-339 | When the hash function has no such collision at any index, accepted paths show exactly the reference contents and child digests, whatever the store holds |
| EmbeddedBatch.RootOfThree | src/embedded_tree.rs:67-100 | The root and the pages of a three-page tree, written out as applications of the hash function |
| EmbeddedBatch.HonestAccepts | src/embedded_tree.rs:288-339 | An honest store is never refused on rooted paths |
| EmbeddedBatch.CoveredAccepted | src/embedded_tree.rs:341-346 | Pages that agree with a verified cache are accepted on every rooted path the cache covers |
| EmbeddedBatch.LogicalAfterIsFlatWrite | src/store.rs:164-187 | Seen through the authentication, a batched path write is the flat store's write of the concatenated paths, the last write winning |
| TrustedPaths.ReadTrusted | src/embedded_tree.rs:180-201 | A read under the trusted root of a reference tree succeeds exactly when the stored pages verify, and then gives the reference contents or exhibits a collision |
| TrustedPaths.WriteTrusted | src/embedded_tree.rs:208-286 | Writing the paths just read, whatever the store holds by then: unless the read exhibited a collision it succeeds and the root is that of the written contents; over a store nobody changed the pages are too |
| TrustedPaths.CachedWriteAdvances | src/embedded_tree.rs:224-273 | The same on values: a write from the cache of an accepted read starts from reference pages |
| TrustedPaths.PathIsRooted | src/params.rs:110-115 | Every bucket path is a path of the embedded tree |
| AuthenticatedOram.AuthenticatedCircuitOram.Access | src/circuit.rs:742-779 | Over two authenticated trees holding any pages: an access that completes has exactly the specified answer and state under the trusted roots, or a stored page differs from the reference page of its index and has its digest; over pages nobody changed it completes exactly when the specified access does; when it completes, it has asked for the specified paths, forged pages or not |
| AuthenticatedOram.AuthenticatedCircuitOram.AccessBatch | src/circuit.rs:788-868 | The same for a batch: the fold of single accesses, or a forged page; the paths asked for are those of that fold |
| AuthenticatedOram.AuthenticatedCircuitOram.DummyAccess | src/circuit.rs:692-700 | The same for a dummy access; when it completes, it has asked for the specified paths, forged pages or not |
| AuthenticatedOram.AuthenticatedCircuitOram.DummyAccessBatch | src/circuit.rs:704-740 | The same for a batch of dummy accesses; when it completes, it has asked for the specified paths, forged pages or not |
| AuthenticatedOram.AuthenticatedCircuitOram.DrainEvictions | src/circuit.rs:870-913 | The same for a drain; when it completes, it has asked for the specified paths, forged pages or not |
| AuthenticatedOram.WrittenContents | src/circuit.rs:855-868 | Page lists rebuilt from an overlay are a well-formed path write whose contents are the overlay's pages and, elsewhere, what was there |
| TamperedRuns.ServeTampered | src/circuit.rs:692-913 | A whole run during which all stored pages of both trees are replaced before every request: if it completes, its outputs and final state are those of the run on trusted stores, unless a page put in place differs from the page the specified run trusts at that moment and has its digest; the paths asked for are then those of that run, request by request |
| TamperedRuns.ForgedMeaning | src/circuit.rs:692-913 | Such a forgery is one before a request the specified run reaches, against the contents of its state there |
| TamperedRuns.InjectiveRunsSafely | src/circuit.rs:692-913 | Under hash functions without collisions no run meets a forgery, whatever pages are put in place |
| TamperedRuns.ServeTamperedArray | src/circuit.rs:692-913 | Under the same condition such a run, if it completes, answers as a plain array |
| TamperedRuns.ServeUntouched | src/circuit.rs:692-913 | While nobody changes the pages a run over authenticated trees completes exactly when the run on trusted stores does, with its outputs and final state; and the same paths are asked for |
| SplitStores.SplitJoined | src/circuit.rs:952-993 | Two stores joined slot by slot can be told apart again |
| SealedBuild.Seal | src/embedded_tree.rs:67-100 | The pages of a store, copied into one with room for digests, become an honest authenticated tree over the same contents |
| SealedBuild.SealStores | src/circuit.rs:596-613 | A controller whose stores are sealed and which is opened over them is in the same state, with trusted roots and untouched pages |
| SealedBuild.BuildSealed | src/circuit.rs:531-613 | Building from source blocks, sealing and opening gives a controller in exactly the specified initial state; it fails exactly when the build does |
| SealedBuild.BuildAndServeTampered | src/circuit.rs:531-913 | From source blocks to a run under replaced pages: if it completes, and no page was forged against what the run then trusts, it answers as the source array; the paths asked for are those of the specified run |
| SealedBuild.BuildAndServeUntouched | src/circuit.rs:531-913 | From source blocks to a run nobody interferes with: it completes exactly when the specified run does, hence whenever sizes agree, the image fits and counters and stash have room, and answers as the source array; the paths asked for are those of the specified run |
| MerkleSpec.UpdateEqualsRebuild | src/merkle.rs:491-508 | Updating one leaf and its ancestors in a full tree gives the full tree over the new pages |
| MerkleSpec.AcceptedPage | src/merkle.rs:466-489 | With only the trusted levels right, an accepted page is the reference page, or two page contents or two node pairs with one digest are exhibited along the climb |
| MerkleSpec.TieredAgreesWithFull | src/merkle.rs:466-489 | Over an honest hash store the tiered check accepts whatever the full tree accepts, and anything more exhibits a node collision |
| MerkleSpec.OffPathNode | src/merkle.rs:491-508 | A leaf affects only its ancestors' digests |
| MerkleSpec.LeafBase | src/merkle.rs:585-592 | The least power of two that holds the pages |
| MerkleSpec.PaddingNode | src/merkle.rs:46-53 | A leaf past the last page has the digest of an empty leaf of its own index |
| MerkleSpec.TreeOfThree | src/merkle.rs:43-56 | The full tree over three pages, written out |
| MerkleLayout.PositionsInRange | src/merkle.rs:430-447 | Every disk-backed node has a slot inside the required pages, and page and slot give the node back |
| MerkleLayout.PositionsDisjoint | src/merkle.rs:430-447 | Different nodes never share a packed slot |
| MerkleLayout.PagesAreLeast | src/merkle.rs:621-623 | The required page count holds all digests and one page fewer would not |
| MerkleLayout.WriteSlot | src/merkle.rs:458-464 | Replacing one packed slot changes one node of the tree and no other |
| MerkleLayout.TrustedNodeLimit | src/merkle.rs:594-605 | Accepts exactly 1 to all levels; the limit is even and never beyond the tree |
| MerkleStores.MerklePageStore.Build | src/merkle.rs:31-66 | The in-memory tree is the full tree over the inner store |
| MerkleStores.MerklePageStore.WritePage | src/merkle.rs:145-150 | Page and tree change together and an honest tree stays honest |
| MerkleStores.MerklePageStore.ReadPage | src/merkle.rs:131-143 | Accepts exactly pages whose digest is the leaf digest in memory |
| MerkleStores.TieredMerklePageStore.Build | src/merkle.rs:203-244 | Succeeds exactly for legal trusted levels, hash page size and hash store size, and then trusted memory and hash pages together show the full tree |
| MerkleStores.TieredMerklePageStore.RebuildHashes | src/merkle.rs:358-379 | After the level-by-level rebuild every node, trusted or packed, is the full tree's |
| MerkleStores.TieredMerklePageStore.ReadPage | src/merkle.rs:520-524 | Accepts exactly when the page digest climbs to the trusted frontier; never refuses an honest store; for any reference pages whose top levels are the trusted ones, an accepted page is the reference page or a collision is exhibited; lists its hash-page accesses |
| MerkleStores.TieredMerklePageStore.WritePage | src/merkle.rs:526-530 | The tree changes exactly as the full in-memory tree does, an honest store stays honest, and the hash-page accesses are the listed ones |
| MerkleStores.TieredMerklePageStore.UpdatePageHash | src/merkle.rs:491-508 | The climb with packed siblings equals recomputing all ancestors of the leaf |
| MerkleStores.TieredMerklePageStore.VerifyPageHash | src/merkle.rs:466-489 | Accepts exactly by the climb, and touches exactly the siblings' hash pages in order |
| MerkleStores.TieredMerklePageStore.WriteDiskHash | src/merkle.rs:458-464 | Reads, patches and rewrites one hash page, changing one node |
| MerkleRuns.WritesEqualRebuild | src/merkle.rs:491-508 | Leaf by leaf through a whole sequence of writes the tree stays the one built over the pages written so far |
| MerkleRuns.WriteBoth | src/merkle.rs:491-530 | The same writes on the in-memory and the tiered store: accepted by both or neither, the same pages, the full tree of them in both, one root |
| MerkleRuns.ReadBoth | src/merkle.rs:466-524 | A page read from both after the data and hash stores were changed at will: what only the tiered tree accepts exhibits a node collision, what the full tree accepts is the reference page or a leaf collision, and with the hash store unchanged the tiered tree accepts it too |
| MerkleRuns.WriteThenRead | src/merkle.rs:466-530 | A run of writes, all data pages replaced, a list of reads: whatever either store accepts is the written page or exhibits a collision with it, and the answers agree unless a node collision is exhibited |
| MerkleIoPlan.MerkleIoPlanner.New | src/bin/oramctl.rs:1392-1423 | Accepts exactly a positive page count, hash pages of at least one digest and legal trusted levels, and uses the tiered store's own leaf base, trusted limit and packing |
| MerkleIoPlan.MerkleIoPlanner.AddRead | src/bin/oramctl.rs:1425-1432 | Lists exactly the hash pages the store's verification reads, in order; fails exactly outside the tree and then lists nothing |
| MerkleIoPlan.MerkleIoPlanner.AddWrite | src/bin/oramctl.rs:1434-1448 | Lists exactly the hash pages the store's update reads and writes, in order |
| MerkleIoPlan.TouchCostIsExact | src/ring_stress.rs:538-557 | The closed forms d and 3d, with d tree levels minus trusted levels, are the lengths of what the store touches, for every page |
| MerkleIoPlan.TouchCounts | src/merkle.rs:466-508 | One access per untrusted level to verify, three to update |
| Cuckoo.InsertIndexRecord | src/direct.rs:1153-1191 | Kicks keep the placement and the carried record together a permutation of what was there plus the new record, every placed record in one of its own candidate bins; the empty-slot exit inside the kick loop is dead. The record goes to its first candidate bin with room, without any kick, exactly when there is one; otherwise each kick takes its hashed slot of a bin whose record has all its bins full, the last one found room for what it displaced, or 10,000 kicks were made and the insertion fails |
| Cuckoo.Kick | src/direct.rs:1166-1180 | While a record is carried all its candidate bins are full; the kick takes the slot its hash names, and the record from there goes to the first empty slot of the first of its other bins with room, or is carried on to the next of its bins |
| Cuckoo.KickSwaps | src/direct.rs:1166-1173 | The slot a kick takes is never empty and the displaced record has that bin among its candidates |
| Cuckoo.TryPlace | src/direct.rs:1193-1229 | Places the record in the first empty slot of the first candidate bin with room, or all tried bins are full and nothing changed |
| Cuckoo.PlaceInEmptySlot | src/direct.rs:1231-1245 | Takes the bin's first empty slot, exactly when the bin has one |
| Cuckoo.AlternateCandidateBin | src/direct.rs:1255-1271 | A candidate bin, cyclically the next after the current one when that is a candidate |
| Cuckoo.BuildPlacement | src/direct.rs:1134-1151 | A successful build stores each record 0..n exactly once, each in one of its candidate bins; every file that fits the bins of a single hash is placed; a file is refused only when it has more than 2^32 - 1 records, or when for some record 10,000 kicks from the placement of the records before it find no room |
| Cuckoo.FullBinsHold | src/direct.rs:1193-1245 | Distinct full bins hold a binful of records each, so no insertion can fail before that many records are placed |
| Cuckoo.Table.CandidateBins | src/direct.rs:1281-1312 | For any hash whose search ends, whatever other hashes do: its first distinct bins in stream order; fails exactly for no bins or no hash functions |
| Cuckoo.Table.EndsExactly | src/direct.rs:1301-1311 | The search for a hash ends exactly when some first nonces show as many different bins as there are hash functions |
| Cuckoo.Table.EndsNeedsBins | src/direct.rs:1301-1311 | It ends for some hash only in a table with at least as many bins as hash functions |
| Cuckoo.Table.ConstantStreamLoops | src/direct.rs:1301-1311 | That many bins are not enough: a hash whose stream repeats one bin is searched for without end |
| Cuckoo.BinCountReaches | src/direct.rs:1122-1132 | A file has at least n bins, n being 2 or more, exactly when its records overfill n - 1 bins at the load factor |
| Cuckoo.SmallFileLoops | src/direct.rs:1122-1132 | A file whose records do not overfill one bin less than there are hash functions gets a table in which the search ends for no hash |
| Cuckoo.OneRecordLoops | src/direct.rs:37-41 | The defaults, and a file of one record: one bin, two hash functions, no end |
| SlotTable.StoredOnce | src/direct.rs:1134-1151 | Holding the first n ids means every one of them has one slot and no other |
| DirectIndex.LocatedInRange | src/direct.rs:470-495 | A located item lies inside its block and the block inside the image; blocks laid end to end put items back to back |
| DirectIndex.PackedBin | src/direct.rs:543-574 | Cutting a bin out of the packed image gives the bin's slots |
| DirectIndex.ReadBlock | src/direct.rs:556-601 | The nested encoding loops produce the packed block, blank past the last bin; fails exactly out of range |
| DirectIndex.SelectIndexRecordFromBin | src/direct.rs:1366-1399 | The branch-free scan keeps the first match across all bins scanned so far |
| DirectIndex.LookupIsDictionary | src/direct.rs:799-847 | For a finished placement of a file with distinct hashes, scanning the candidate bins of any hash finds it exactly when the file has it, with that record's chunks |
| DirectIndex.RecordIsRead | src/direct.rs:799-847 | Every record is among the slots read for its hash |
| IndexReader.CircuitDirectIndexReader.Lookup | src/direct.rs:799-847 | Through the ORAM, a completed lookup gives the answer the image determines, and the ORAM still serves the image, whatever was drained in between; it overflows only when load plus hash functions exceeds the stash, and fails on counters only when they lack room for as many accesses; the evictions it reports are those completed, per read the smaller of drain rate and debt |
| IndexReader.CircuitDirectIndexReader.LookupManyBatched | src/direct.rs:864-939 | A completed batch gives, per hash and in caller order, the answer the single lookup gives, for every drain rate; its failures are those of that many block reads; the evictions it reports are the smaller of the batch's budget and the debt after its reads, and the counters move by exactly that |
| IndexReader.CircuitDirectIndexReader.Read | src/direct.rs:799-847 | A bin block read through the ORAM is the image's block, and the failures are overflow, only when the stash is full, and exhausted counters; one access is counted |
| IndexReader.CircuitDirectIndexReader.HasBins | src/direct.rs:799-847 | A reader's table has at least one bin, an ORAM having at least one block |
| IndexBuild.BuildIndex | src/direct.rs:506-601 | Placement, packing, trusted build and reader together, over the given stores and in arrays of its own: for distinct hashes every later completed lookup is answered as the file's dictionary answers it; an empty file is refused; a file that fits the bins of one hash and a block count that fits one path and the stash are enough for success, and otherwise the failure is one of sizes, of 10,000 kicks without room, or of a block without room in its path and the stash |
| IndexBuild.BuildAndLookup | src/direct.rs:506-939 | A client that builds the index of a file and then looks hashes up, as a batch and one by one: every answer is the dictionary's |
| RingSim.StressRing | src/ring_stress.rs:190-306 | Fails exactly on rejected configurations; the states form the run the source's steps give, evictions included; completed evictions equal steps divided by the period; a bucket of depth d is read at most period times 2^d times between two evictions of it, so the reported maximum is at most period times leaves, and with more dummy slots than that no bucket is reshuffled early; the reshuffles reported are those of the run; no counter passes the dummy slots; the stash never exceeds its initial size plus the steps |
| RingSim.RingStep | src/ring_stress.rs:204-231 | Each step is an access, the eviction due, and the reshuffle of every bucket of the read path found exhausted, leaf first, with exact states after each; the counters of an evicted path are zero afterwards, every counter ends below the dummy slots, and the stash grows by at most one block |
| RingSim.StressStep | src/ring_stress.rs:204-240 | Step s accesses the id its pattern or draw names, labels it with the following draw, and evicts the scheduled path exactly after every period of steps |
| RingSim.RunReads | src/ring_stress.rs:204-240 | Over every run: after each access a bucket has been read no more often than there were steps since its last eviction, at most period times 2^d for depth d, and with enough dummy slots nothing is ever reshuffled early |
| RingSpec.ReadsBounded | src/ring_stress.rs:204-240 | A bucket of depth d has been read fewer than period times 2^d times, since one of the last 2^d evictions was of it |
| RingSpec.StepReads | src/ring_stress.rs:204-231 | One step under the schedule keeps that bound on every bucket and on the recorded maximum |
| RingSpec.StepCounters | src/ring_stress.rs:204-231 | A step reads no bucket more than once and leaves no read on an evicted path |
| RingSim.RingStressSim.Access | src/ring_stress.rs:642-658 | Takes the id out of its place, relabels it by the draw and appends it to the stash; counts one read of exactly the buckets of the old path and keeps the maximum exact |
| RingSim.RingStressSim.EvictPath | src/ring_stress.rs:660-670 | The path is emptied and refilled as specified, exactly its counters restart, and the stash does not grow |
| RingSim.RingStressSim.ReshuffleBucket | src/ring_stress.rs:672-676 | The bucket is emptied and refilled from the stash in order, its counter alone restarts, and the stash does not grow |
| RingSim.ReshuffleExhausted | src/ring_stress.rs:219-231 | The reverse walk looks at every bucket of the path, leaf first, reshuffles exactly the exhausted ones and counts them; afterwards no bucket is exhausted |
| RingSim.ReshuffleNeverGrows | src/ring_stress.rs:672-676 | Refilling a bucket takes back at least as many blocks as it gave up |
| SimSpec.HeldOnce | src/ring_stress.rs:614-771 | Each id is in exactly one slot or one stash entry |
| SimSpec.RelabelAbsent | src/ring_stress.rs:642-658 | Changing the label of an id that is nowhere keeps every other block in place |
| SimTables.SimTable.constructor | src/ring_stress.rs:615-640 | All ids placed once, on their paths or in the stash: each in turn under its drawn label in the deepest empty slot of its path, or at the end of the stash |
| SimTables.SimTable.Access | src/ring_stress.rs:642-650 | Always finds the id, in its slot or in the stash; takes it from there alone, the last stash entry filling the gap, relabels it by the draw and appends it to the stash |
| SimTables.SimTable.PlaceDeepest | src/ring_stress.rs:699-711 | Takes a free slot of the path with all deeper buckets full, or the whole path is full; the slot is the first empty one of the deepest bucket with room |
| SimTables.SimTable.ReadBucketIntoStash | src/ring_stress.rs:737-749 | Empties one bucket onto the stash in slot order, other buckets untouched |
| SimTables.SimTable.WriteBucketFromStash | src/ring_stress.rs:751-766 | Every empty slot in turn takes the first stash entry that fits, by swap-removal, so as many blocks enter as there are free slots or fitting entries, whichever is fewer; other buckets untouched |
| SimEviction.WritePathFromStash | src/stress.rs:408-426 | The refill of a whole read path, leaf first, leaves exactly the specified slots and stash, the planner's counts at every depth, and off-path buckets alone |
| SimEviction.EvictionNeverGrows | src/stress.rs:391-426 | Read-path-then-refill never grows the stash |
| SimEviction.RefillStep | src/stress.rs:408-426 | Refilling depth by depth from the leaf attains the planner's capacity at every depth |
| StressSim.SimulatorMatchesPlanner | src/stress.rs:391-426 | From the same placement and labels the simulator and the controller's eviction leave the same stash size and the same block count at every depth of the path |
| StressSim.CountIgnoresOrder | src/stress.rs:408-426 | Eligibility counts do not depend on the order swap-removal leaves |
| StressSim.CircuitStressSim.EvictPath | src/stress.rs:328-332 | Exactly the specified outcome, with the planner's counts, off-path buckets untouched, and no larger stash |
| StressSim.DrainPublicEvictions | src/stress.rs:246-262 | Completes exactly the smaller of budget and debt, evicting the scheduled paths one after the other with exact states after each; keeps every id in place and does not grow the stash |
| StressSim.DrainStep | src/stress.rs:144-166 | A step's drains complete exactly the evictions that drain rate, burst budget and cap ask for, of the next scheduled paths in order |
| StressSim.DrainedMeaning | src/stress.rs:144-166 | These number both budgets together or the debt if less, and as many as the cap asks for where that is more |
| StressSim.StressStep | src/stress.rs:133-168 | A step accesses the id its pattern or draw names, relabels it by the following draw, adds two evictions to the debt and drains; the debt after it is the one the budgets give |
| StressSim.DebtScheduled | src/stress.rs:133-168 | The debt never exceeds what was scheduled nor, when there is one, the cap, after any step |
| StressSim.StressCircuit | src/stress.rs:121-219 | Fails exactly on a rejected configuration or an overflowing eviction counter; the states form the run the source's steps give; scheduled evictions equal completed plus owed; final and largest debt are those the budgets give step by step, and respect the cap |
| PageStores.MemPageStore.ReadPathsPages | src/store.rs:145-162 | Several paths in one flat request give each path's pages, exactly when all indices are in range |
| PageStores.MemPageStore.WritePathsPages | src/store.rs:164-187 | Several paths are written as one flat list in order |
| PageStores.WritePathFrame | src/store.rs:36-57 | Writing distinct pages changes exactly those pages, each to its content |
| PageStores.WriteConsistent | src/store.rs:36-57 | Repeated writes that agree leave the agreed content |
| FileStore.FilePageStore.ReadPages | src/store.rs:347-379 | The sorted-run read succeeds exactly when all indices are in range, returns the pages in caller order as one read per index would, and makes one file access per run |
| FileStore.FilePageStore.WritePages | src/store.rs:381-432 | The run-coalesced write succeeds exactly when lengths agree and all indices are in range, and leaves the file as one write per index in caller order; without repeats it makes one file access per run |
| FileStore.FilePageStore.HasDuplicatePages | src/store.rs:444-448 | Comparing neighbours of the sorted order finds a repeat exactly when there is one |
| FileStore.SortedOrder | src/store.rs:440-442 | The order is a permutation of the request positions, with its pages in ascending order |
| FileStore.RunsOfSet | src/bin/oramctl.rs:1622-1632 | For duplicate-free requests the file accesses number the contiguous runs of the page set |
| FileStore.ContiguousRuns | src/bin/oramctl.rs:1622-1632 | Counts the maximal stretches of an ascending page list |
| FrontCache.FrontCachedPageStore.New | src/store.rs:497-518 | The cache presents the inner store and is coherent; fails exactly when larger than the store |
| FrontCache.FrontCachedPageStore.NewZeroed | src/store.rs:525-541 | A cache of its own with no page dirty, coherent, and equal to the inner store, exactly when the inner prefix is blank |
| FrontCache.FrontCachedPageStore.ReadPage | src/store.rs:568-576 | Reads what the store presents |
| FrontCache.FrontCachedPageStore.WritePage | src/store.rs:578-588 | Changes one page of the view; a cached page becomes dirty and no other flag changes; clean cached pages stay equal to the inner pages |
| FrontCache.FrontCachedPageStore.Initialize | src/store.rs:520-541 | Writing every cached page before any read makes a blank cache coherent whatever the inner prefix held, with the view of the writes in order |
| FrontCache.FrontCachedPageStore.ReadPages | src/store.rs:590-618 | Bulk reads equal single reads of the view in caller order |
| FrontCache.FrontCachedPageStore.WritePages | src/store.rs:620-660 | Bulk writes leave the view as single writes in caller order, repeats included |
| FrontCache.FrontCachedPageStore.Flush | src/store.rs:662-671 | Writes exactly the dirty pages; the view stays; a coherent inner store becomes the view and nothing is dirty |

## Left out

- Controller.CircuitOram.AccessBatch: the state after a failed batch is not described; the source may leave stash and random position partly advanced.
- Controller.CircuitOram.DrainEvictions: the state after a failed drain is not described; from states that stand for an array it cannot fail except by counter overflow.
- AuthenticatedOram.AuthenticatedCircuitOram.AccessBatch: nothing is said of the state after a refused read or a forged page; in the model nobody changes the pages between the read and the write of one request, although `TrustedPaths.WriteTrusted` would allow it.
- TamperedRuns.ServeTampered: says nothing once a page was forged against the contents trusted at that moment, and which requests a changed page makes fail is not stated for whole runs; for one read `TrustedPaths.ReadTrusted` says exactly when.
- PageStores.MemPageStore.WritePages: which pages a batch with an out-of-range index wrote before it stopped is not stated.
- FileStore.FilePageStore.WritePages: which runs were written before an out-of-range page stopped the request is not stated; the file is an array of pages, so byte offsets inside run buffers are not modelled.
- FrontCache.FrontCachedPageStore.WritePages: the view after a failed request is not stated, only that it stays coherent.
- MerkleStores.TieredMerklePageStore.Build: the bytes of a hash page past its last whole digest, and tree sizes near the limit of the machine word, are not modelled.
- EmbeddedTree.EmbeddedTreePageStore.WritePaths: the page-length check is not modelled, pages of a store being of one type.
- IndexReader.CircuitDirectIndexReader.Lookup: the ORAM's state after a failed lookup is not described, nor the exact moment of an overflow, only what it needs.
- Cuckoo.Table.CandidateBins: takes a hash whose search ends; for the others the source loops forever, which a method that returns cannot show. The rest of the index takes tables in which it ends for every hash.
- Byte encodings of slots, buckets, pages and records: routine, and the pages here are structured.
- SHA-256, ChaCha20 and splitmix64: parameters of the model.
- Obliviousness.TrafficTellsNothing: compares runs served to the end; when a full stash cuts one short, what it asked for until then is not compared, and that the draws are independent and uniform is not modelled.
- Constant-time execution and volatile clearing: not properties of values.
- The probability that a stash overflows: only bounds for a given run are proved.
- Sealed state, snapshots, reopening from trusted state, and the binding of authentication roots.
- Crash recovery and partially written files: the repository has no protocol for it.
- Direct CHUNK reads: the same location and read lemmas as the index, without a search.
- Cuckoo.BinCountReaches: the load factor is an exact fraction; the rounding of the floating-point quotient is not modelled.
- Estimates, percentiles and reports, which are floating point or printing; the simulators report counts only.
- The command line tool apart from the Merkle planner and the run count; its data-page plan counts metadata twice per eviction path and is not claimed to match the stores.
- The PBC-expanded cuckoo files of src/cuckoo.rs and the page encryption of src/aead.rs.
