# eventfulranges, verified

A Dafny model of `eventfulranges`, an event-sourced conflict-free replicated set over intervals of the real line and
over axis-aligned boxes in any dimension, with proofs of what its algorithms and its log protocol promise.

`dafny verify dfyconfig.toml` checks the whole project.

The model follows the program file by file and keeps its form: what the program updates in place is a class or a loop
with its invariants, what it computes is a function, and every loop or class is tied to a specification whose properties
are lemmas. The main results:

- **Greedy merging of boxes** (`Merging`, `CrossIndex`, `Scanning`, `Gridding`, `Indexing`, `MergeAdjacent`). The scanner
  and the indexed merger, with its pair heap, buckets, grid and lazy deletion, both compute "merge the first mergeable
  pair in canonical order, absorb, repeat", hence the same list; that list covers the same points, has no mergeable pair
  and is a fixpoint.
- **The log protocol** (`Entries`, `Histories`, `Replication`, `Journals`, `Storage`, `Engines`, `Jsonl`, `Compaction`). A
  state machine over any number of engines sharing one log, with invariants over every run, and engine classes, over
  intervals and over boxes, whose every method is a step of it: stamping, appending at the expected version, catching
  up, retrying, caching, snapshot and restore. The JSON-lines stream with compaction refines a plain history, and
  reopening it knows that history, with the exact conditions under which an engine over it does not.
- **The sweep on the line** (`Line`, `Runs`, `Sweeping`, `IntervalSets`, `Strategies`, `Materialization`). The event sweep
  is exact for any order; sets, strategies, convergence and snapshot restore follow from the uniqueness of canonical
  lists.
- **Algebra and strategies of boxes** (`Boxes`, `BoxSubtraction`, `Covers`, `BoxSets`, `BoxDifference`, `BoxStrategies`,
  `BoxMaterialization`, `Layering`, `BoxViews`, `BoxHistories`, `BoxEngines`, `MixedDimensions`). Exact subtraction,
  normalization, the five strategies with retractions, the painter's front, and an engine whose cached view is right in
  every reachable state of a log of one dimension.
- **Smaller cores** (`RTree`, `Connectivity`, `Components`, `ComponentOrder`, `Partitioning`, `Worklist`, `Breakpoints`,
  `Paths`, `GridLines`).

Conventions. Coordinates are `real`, ids and timestamps are `int`. A box is its geometry, one interval per axis: corners
and effective face bounds, an absent bound slice read as closed lower and open upper faces. Hashes are arbitrary functions
given as parameters. `sort.Slice`, `sort.Search` and `container/heap` stand behind methods with their contracts
(`Sequences.Sort`, `Sequences.Search`, `Sweeping.CoverHeap.Push`/`Pop`, `Indexing.Merger.PopPair`). Wall-clock readings and
what other writers append are parameters.

Where the code and its own words differ, the model follows the code:

- `Interval.Overlaps` (interval/interval.go:128) treats tied endpoints as closed if either side is, so it can hold without
  a common point; `Intervals.OverlapsIsExactIff` gives the exact condition and `Intervals.OverlapsFalsePositive` an input.
- `ConnectedComponents` (space/components.go:5-10) promises components in canonical order; they come in the order of
  their union-find roots. `ComponentOrder.FirstComponentComesLast` is an input that breaks the promise,
  `ComponentOrder.OrderIsCanonicalIff` the exact condition under which it holds, and `ComponentOrder.RootsAreLeastIff`
  when every root is the least box of its component.
- `touchAlongFace` (space/components.go:43-44) says "positive measure", but a single-point side within the other box's
  side passes: `Connectivity.ThinBoxIsConnected`, with the exact condition in `Connectivity.ConnectedIsPromisedIff`.
- `Partition` (demo/web/partition.go:1-18) promises exactly the input union; `Partitioning.CellsCoverKept` says what it
  covers for any bounds, `Partitioning.HalfOpenArePartitioned` and `Partitioning.OneBoxIsKeptIff` when that is the union;
  `Partitioning.ClosedFaceIsLost`, `Partitioning.OpenFirstFaceLosesAll` and `Partitioning.OpenLaterFaceIsGained` are inputs.
- The box engine compares dimensions before its retry loop only (space/engine/engine.go:178-210), so a log can come to mix
  them: `MixedDimensions.RivalFixesTheDimension` is such a run, `BoxHistories.OneDimensionIff` the exact condition, and
  `BoxEngines.Engine.Apply` reports it as the outcome `Mixed`.
- `ApplyAll` says it ignores duplicates by id (engine/engine.go:87), but a new id repeated within one batch is appended
  twice: `Replication.RepeatedIdIsAppendedTwice`, with the exact condition in `Replication.AppendKeepsUniqueIff`.
- An engine that is behind a compaction never reads the operations between its version and the compaction point
  (engine/engine.go:212-224): `Compaction.StaleEngineMisses`, with the exact condition in `Compaction.CatchUpIsCompleteIff`.
- Under AdditiveWins and GrowOnly over boxes an operation folded after a retraction that names it is put back
  (space/engine/engine.go:301-312); `BoxViews.PatchIsRightIff` is the exact condition, and `BoxEngines.Engine` asks its
  log for targets before their retractions under these two strategies only.

## Model

| member | source | states |
|---|---|---|
| `MergeAdjacent.Run` | space/canonical.go:45-50 | Whichever implementation the size selects, the result lists in canonical order exactly the greedy fixpoint of the maximal boxes of the input. |
| `MergeAdjacent.ImplementationsAgree` | space/canonical.go:43-50 | The scanner and the indexed merger return the identical list, whatever hashes each uses and in whatever order each receives the boxes. |
| `MergeAdjacent.IsCoverPreserving` | space/canonical.go:30-50 | The result covers exactly the points of the input, is sorted and subsumption-free, and no two of its boxes can merge. |
| `MergeAdjacent.IsIdempotent` | space/canonical.go:30-50 | Merging a merged list gives it back. |
| `MergeAdjacent.NeverGrows` | space/canonical.go:45-50 | The result has at most as many boxes as the normalized input, and strictly fewer as soon as one pair merges: the measure by which the greedy terminates. |
| `Merging.MergeIsUnion` | space/canonical.go:62-89 | When two boxes merge, the result covers exactly the points of the two and subsumes both. |
| `Merging.MergeMeansAbuts` | space/canonical.go:62-89 | A merge happens only for boxes equal on all axes but one, on which one ends where the other begins with complementary bounds. |
| `Merging.AbutsMeansMerge` | space/canonical.go:62-89 | Every such pair merges. |
| `Merging.MergeIsSymmetric` | space/canonical.go:62-89 | Mergeability and the merged box do not depend on the order of the pair. |
| `Merging.SingleDiffAxis` | space/canonical.go:94-109 | The loop returns an axis exactly when the boxes differ in their corners there and agree, faces included, on every other axis. |
| `Merging.GreedyStep` | space/canonical.go:35-36 | The fixpoint of a cover with a first mergeable pair is the fixpoint of the cover after merging and absorbing that pair. |
| `Merging.GreedyStops` | space/canonical.go:35-36 | A cover without a mergeable pair is its own fixpoint. |
| `Merging.GreedyIsFixpoint` | space/canonical.go:30-36 | The fixpoint of a cover is a cover of the same points with no mergeable pair and no more boxes. |
| `Merging.GreedyIsIdempotent` | space/canonical.go:30-36 | The fixpoint of a fixpoint is itself. |
| `Merging.FirstIsUnique` | space/merge_index.go:231-236 | At most one pair is the first mergeable pair in canonical order. |
| `Merging.FirstExists` | space/merge_scan.go:51-58 | A cover that has a mergeable pair has a first one. |
| `Merging.UnionSurvives` | space/merge_index.go:250-263 | No live box other than the two merged ones subsumes the merged box. |
| `Merging.MergedShrinks` | space/merge_scan.go:79-84 | Every merge strictly shrinks the cover. |
| `Merging.MergeableShareCrossSection` | space/merge_index.go:567-595 | Mergeable boxes have the same cross-section on the axis on which they abut, so they fall into one bucket under any hash. |
| `CrossIndex.IndexBox` | space/merge_index.go:310-315 | Lists the box exactly once per axis under its cross-section, loses no other listing and gains none. |
| `CrossIndex.UnindexBox` | space/merge_index.go:318-329 | Drops exactly one listing of the box per axis and leaves the count of every other listing. |
| `CrossIndex.UnlistUndoesList` | space/merge_index.go:310-329 | Indexing a box and then unindexing it leaves every count as it was. |
| `CrossIndex.PartnerIsListed` | space/merge_index.go:203-217 | Every box mergeable with a given one is listed in one of that box's buckets. |
| `Scanning.ScanMerge` | space/merge_scan.go:189-202 | The scanner computes the canonical listing of the greedy fixpoint of the maximal boxes. |
| `Scanning.Scanner.FirstMergeablePair` | space/merge_scan.go:51-58 | Returns the first mergeable pair of the live cover in canonical order, or reports that no pair is mergeable. |
| `Scanning.Scanner.EarliestPartner` | space/merge_scan.go:61-75 | Returns the earliest later position whose box merges with the given one; no earlier position does. |
| `Scanning.Scanner.Merge` | space/merge_scan.go:79-84 | The live cover becomes the cover with the pair replaced by its union and every box the union subsumes dropped. |
| `Scanning.Scanner.Insert` | space/merge_scan.go:92-102 | Drops exactly the boxes the union covers and adds the union. |
| `Scanning.Scanner.InsertInOrder` | space/merge_scan.go:105-119 | Keeps the live list sorted, its ranks inverse to it and its buckets complete, with exactly the one box added. |
| `Scanning.Scanner.RemoveAt` | space/merge_scan.go:128-138 | Removes exactly one position, renumbers the ranks after it and unlists the box once per axis. |
| `Scanning.Scanner.Result` | space/merge_scan.go:141-147 | Lists the live boxes in canonical order. |
| `Indexing.IndexedMerge` | space/merge_index.go:69-164 | The indexed merger computes the canonical listing of the greedy fixpoint of the maximal boxes. |
| `Indexing.Merger.constructor` | space/merge_index.go:69-92 | Every box with a point is live, listed in its buckets and found by the grid; no other is live. |
| `Indexing.Merger.Dedupe` | space/merge_index.go:98-110 | Leaves exactly the subsumption-maximal boxes live, each geometry once. |
| `Indexing.Merger.Subsumer` | space/merge_index.go:115-126 | Returns the lowest live box that subsumes the given one, and none exactly when none does. |
| `Indexing.Merger.Candidates` | space/merge_index.go:129-135 | No live box that shares a point with the given one is missing from the candidates. |
| `Indexing.Merger.DetectDisjoint` | space/merge_index.go:141-153 | Reports true exactly when the live boxes are pairwise disjoint. |
| `Indexing.Merger.NextPair` | space/merge_index.go:168-180 | Skipping stale pairs lazily, returns the first mergeable pair of the live cover and keeps every other live pair queued; an empty heap means no pair is mergeable. |
| `Indexing.Merger.Merge` | space/merge_index.go:184-191 | The live cover becomes the cover with the pair merged and absorbed, and every mergeable live pair is in the heap again. |
| `Indexing.Merger.Offer` | space/merge_index.go:194-198 | Every live mergeable pair of the box is queued, in canonical order within the pair. |
| `Indexing.Merger.Partners` | space/merge_index.go:203-217 | Lists exactly the live boxes mergeable with the given one. |
| `Indexing.Merger.Absorb` | space/merge_index.go:256-273 | Kills exactly the live boxes the union subsumes, also when the disjoint flag lets it skip the search. |
| `Indexing.Merger.Add` | space/merge_index.go:276-283 | Appends a live box and indexes it in the buckets and the grid. |
| `Indexing.Merger.Kill` | space/merge_index.go:290-295 | Takes exactly one box out of the live set, its buckets and the grid, and keeps its geometry. |
| `Indexing.Merger.Run` | space/merge_index.go:156-164 | Ends, with the canonical listing of the greedy fixpoint of the starting cover. |
| `Indexing.Merger.Result` | space/merge_index.go:298-307 | Lists the live boxes in canonical order. |
| `Indexing.UnionStaysApart` | space/merge_index.go:250-263 | In a disjoint cover the union of a mergeable pair stays disjoint from every other box, so the disjoint flag survives merges. |
| `Gridding.EachBin` | space/merge_index.go:530-547 | The odometer ends and visits every bin of the range exactly once. |
| `Gridding.CoverGrid.BinRange` | space/merge_index.go:442-456 | Reports true exactly when the box touches no more bins than the budget allows; the range then holds exactly the bins it touches. |
| `Gridding.CoverGrid.Add` | space/merge_index.go:469-483 | The box is listed in every bin it touches or kept aside, and no other box is lost. |
| `Gridding.CoverGrid.Remove` | space/merge_index.go:486-506 | The box is listed nowhere and not kept aside any more, and no other box is lost; the swap-removal keeps the index of the list inverse to it. |
| `Gridding.CoverGrid.Overlapping` | space/merge_index.go:517-527 | No registered box that shares a point with the query is missing, unless the query is reported as too wide. |
| `Gridding.OverlapTouches` | space/merge_index.go:442-527 | Overlapping boxes touch a common bin. |
| `Gridding.BinIff` | space/merge_index.go:442-456 | A bin holds exactly the coordinates between its own multiples of the cell size from the origin. |
| `Gridding.BinsPerAxis` | space/merge_index.go:379-389 | The least number of bins per axis that gives the grid as many bins as there are boxes, capped at 64. |
| `Gridding.CoverBounds` | space/merge_index.go:392-411 | Per axis the least lower and the greatest upper face of the boxes, both attained; zeros without boxes. |
| `Replication.RunsAreFaithful` | engine/engine.go:143-224 | In every state of every run of engines over intervals or over boxes each engine's operations are exactly the log prefix of its version folded by id, its clock has seen that prefix, and the log only grows. |
| `Replication.EqualVersionsAgree` | engine/engine.go:212-224 | Engines that have reached the same version, at any two moments of a run, know the same operations. |
| `Replication.ConflictLeavesLog` | store/memory/memory.go:28-36 | An attempt at the current version appends exactly its stamped operations; every other step, a conflicting attempt included, leaves the log as it was. |
| `Replication.StampsAreLater` | engine/engine.go:165-171 | Every operation an engine stamps has a timestamp above every log entry before its batch. |
| `Replication.RunsKeepIdsUnique` | engine/engine.go:200-208 | In a run whose batches have distinct ids no id is appended twice. |
| `Replication.AppendKeepsUniqueIff` | engine/engine.go:143-162 | A successful append keeps the ids of the log unique exactly when the unseen part of the batch has distinct ids. |
| `Replication.RepeatedIdIsAppendedTwice` | engine/engine.go:200-208 | Any batch that holds a new id twice is appended with the repetition. |
| `Replication.NewPartCompletes` | engine/engine.go:86-94 | Appending the new part of a batch leaves every id of the batch in the log. |
| `Histories.PrefixThenRestIff` | engine/snapshot.go:54-60 | Folding a snapshot's operations over the replayed rest knows the whole log if and only if nothing past the snapshot replaces one of its operations: otherwise the older one comes back. |
| `Histories.PrefixThenRest` | engine/snapshot.go:54-60 | With unique ids the operations of a log prefix, listed in any order and folded over the rest of the log, give what the whole log gives. |
| `Histories.FoldOfUnique` | engine/engine.go:175-187 | Folding a log with unique ids records exactly its operations. |
| `Histories.UnseenKeepsUnique` | engine/engine.go:200-208 | Filtering the unseen operations keeps ids distinct. |
| `Histories.UnseenIsFiltered` | engine/engine.go:200-208 | Exactly the operations with unknown ids remain, in the order of the batch. |
| `Storage.Clock.Tick` | clock/clock.go:26-37 | The timestamp is past every one returned or observed before, and is the wall reading or the successor of the last. |
| `Storage.Clock.Observe` | clock/clock.go:40-75 | The clock moves to the maximum of itself and the timestamp. |
| `Storage.Store.Append` | store/memory/memory.go:28-36 | Appends exactly when the expected version is the log length, and changes nothing otherwise. |
| `Storage.Store.Read` | store/memory/memory.go:39-50 | Returns the suffix from the clamped version and the log length. |
| `Engines.Engine.constructor` | engine/engine.go:61-80 | Opening a store folds the rest of the log and then the snapshot's operations; without a compatible snapshot, or with unique ids, the engine knows exactly the log and its view is right. |
| `Engines.Engine.Reload` | engine/snapshot.go:27-51 | The same for an engine just made, with the version at the end of the log. |
| `Engines.LoadedIsWholeIff` | engine/snapshot.go:27-60 | Opening knows the whole log if and only if nothing past a restored snapshot replaces an operation of it. |
| `Engines.Engine.Restore` | engine/snapshot.go:54-74 | The snapshot's operations go over the replayed tail; with unique ids that is the whole log, and the snapshot's segments extended by the tail are its view. |
| `Engines.ReplaySegments` | engine/snapshot.go:61-67 | Combining stored segments with those of each replayed operation gives the segments of all operations when their keys differ. |
| `Engines.ViewIsDetermined` | engine/engine.go:228-251 | Two views of the same knowledge are the identical list, however they were reached. |
| `Engines.Engine.MaterializeAll` | engine/engine.go:237-251 | The rebuilt view is canonical and contains a point exactly when the strategy's rule admits it. |
| `Engines.Engine.EnsureView` | engine/engine.go:228-233 | Afterwards the view is that of the known operations. |
| `Engines.Engine.Materialize` | engine/engine.go:96-101 | Returns the canonical view of exactly the operations the engine knows. |
| `Journals.Stamp` | engine/engine.go:165-171 | Gives increasing timestamps past the clock to the operations without one, and changes nothing else. |
| `Journals.Record` | engine/snapshot.go:42-45 | Folds the operations by id in order, and moves the clock past each of them. |
| `Engines.Engine.Fold` | engine/engine.go:175-187 | The engine knows the appended operations too; once as many operations as configured were folded since the last snapshot it stores one and starts counting anew, and otherwise leaves its view to be rebuilt. |
| `Engines.Engine.Attempt` | engine/engine.go:143-162 | One turn is exactly a step of the protocol for any batch: it appends at the current version or leaves the log, and does nothing when the whole batch is known. |
| `Engines.Engine.ApplyLocked` | engine/engine.go:143-162 | Against any interference and for any batch, ends after at most four attempts; the log is what was there, what the others appended, and on success exactly the part of the batch not yet in the log, stamped, all ids of which are then known; it gives up only when others appended before each of the last three attempts. |
| `Engines.Engine.CatchUp` | engine/engine.go:212-224 | The engine knows exactly the whole log. |
| `Engines.Engine.TakeSnapshot` | engine/snapshot.go:77-109 | The stored snapshot describes the log prefix of the engine's version: its operations, the right view and segments, and under AdditiveWins the right additions and removals. |
| `Journals.OpsList` | engine/engine.go:254-261 | Lists exactly the known operations in strictly increasing id order. |
| `Jsonl.StreamRefinesLog` | store/jsonl/jsonl.go:45-156 | After any sequence of appends, snapshots and compactions within their bounds the stream represents the history of all operations ever appended, cut at the last compaction. |
| `Jsonl.MarkerKeepsIff` | store/jsonl/jsonl.go:99-108 | Saving a snapshot keeps the representation exactly when its version is at most the number of operations ever appended. |
| `Jsonl.CompactKeepsIff` | store/jsonl/jsonl.go:136-156 | Compacting at a version keeps the representation exactly when the version lies between the last compaction point and the count. |
| `Jsonl.ReadIsCompleteIff` | store/jsonl/jsonl.go:81-96 | Reading from a version returns exactly the history after it if and only if the version is at or after the compaction point. |
| `Jsonl.NewestIsHighest` | store/jsonl/jsonl.go:111-127 | The loaded snapshot is one with the highest version, the latest of several. |
| `Jsonl.Stream.Scan` | store/jsonl/jsonl.go:219-261 | The running counters give the count of all operations ever appended and the operations past a version. |
| `Jsonl.Stream.Append` | store/jsonl/jsonl.go:45-77 | Appends one record per event exactly when the expected version is the scanned count, extending every history the stream represents. |
| `Jsonl.Stream.Read` | store/jsonl/jsonl.go:81-96 | The count is the length of the represented history, the operations its part after the version or the compaction point, whichever is later. |
| `Jsonl.Stream.SaveSnapshot` | store/jsonl/jsonl.go:99-108 | Appends one marker and keeps the represented history exactly for versions within it. |
| `Jsonl.Stream.LoadSnapshot` | store/jsonl/jsonl.go:111-127 | Returns the newest marker of the highest version. |
| `Jsonl.Stream.Compact` | store/jsonl/jsonl.go:136-156 | The stream becomes the marker and the operations past it, representing the same history exactly for versions in bounds. |
| `Compaction.RunsPreserve` | engine/snapshot.go:96-126 | After any run of appends, snapshots and compactions within their bounds every marker describes its part of the history and some marker covers everything compacted away. |
| `Compaction.ReopenKnowsAll` | engine/snapshot.go:27-60 | Opening such a stream with a snapshot of the engine's strategy knows the whole history, however often it was compacted. |
| `Compaction.ReopenOtherIff` | engine/snapshot.go:32-50 | Opening it under another strategy knows the whole history if and only if nothing was compacted away. |
| `Compaction.CatchUpIsCompleteIff` | engine/engine.go:212-224 | An engine that catches up on the stream knows the whole history if and only if its version was at or past the compaction point; the operations between are never read. |
| `Compaction.SnapshotOfTwo` | engine/snapshot.go:77-93 | An engine of any strategy that knows two operations has a snapshot that describes them, as this run needs. |
| `Compaction.StaleEngineMisses` | engine/engine.go:212-224 | A legal run of two appends and a compaction after which an engine that knew the first operation never learns of the second. |
| `Compaction.Reopen` | engine/snapshot.go:27-74 | reload over the stream gives that knowledge and the version, and a view that is right unless it is left to be rebuilt. |
| `Sweeping.Sweep` | interval/sweep.go:20-38 | For any intervals and any strict weak order, canonical pieces that label exactly the covered points, each with the best interval covering it, ties to the lowest index. |
| `Sweeping.BestIff` | interval/sweep.go:151-160 | The best interval at a point is the one that no covering interval beats and that beats every covering interval before it in the list. |
| `Sweeping.SweepEvents` | interval/sweep.go:42-53 | The events are the begin and end of every interval, in order. |
| `Sweeping.ApplyEvents` | interval/sweep.go:67-77 | Consumes exactly the events at the point; the heap then holds every interval begun and not ended. |
| `Sweeping.CoverHeap.Best` | interval/sweep.go:174-183 | Drops only gone intervals and returns the best one left, or none exactly when none is left. |
| `Sweeping.ActiveIsCovering` | interval/sweep.go:20-38 | Between two event points the begun and not ended intervals are exactly those that cover the points in between. |
| `Sweeping.ExtendSwept` | interval/sweep.go:110-116 | Appending a run, joined to the previous one when they meet under one owner, keeps the runs canonical and the labels right. |
| `Line.ContainsIsHolds` | interval/sweep.go:97-103 | A coordinate is in an interval exactly when its point on the doubled line is in the half-open span of the interval. |
| `Line.FromFine` | interval/sweep.go:126-135 | Turning a span of the doubled line back into an interval inverts the encoding. |
| `Runs.CanonicalIsUnique` | interval/sweep.go:118-124 | Two canonical lists of labelled runs that label every real point alike are identical. |
| `Intervals.ContiguousIff` | interval/interval.go:128-156 | Two intervals overlap or touch exactly when their union has no gap. |
| `Intervals.MergeIsUnionIff` | interval/interval.go:160-170 | The merge of two intervals is their union exactly when they overlap or touch. |
| `Intervals.SubtractIsExact` | interval/interval.go:174-218 | The pieces contain exactly the points of the interval outside the cut. |
| `Intervals.OverlapsIsExactIff` | interval/interval.go:128-138 | Overlaps agrees with sharing a point exactly unless one interval is a single point at an open end of the other. |
| `Intervals.OverlapsFalsePositive` | interval/interval.go:228-255 | [0,0] and (0,1] overlap by this test without sharing a point. |
| `IntervalSets.Normalize` | interval/set.go:25-43 | A canonical list of exactly the points of the input. |
| `IntervalSets.Union` | interval/set.go:46-51 | A canonical list of the points of either set. |
| `IntervalSets.Difference` | interval/set.go:55-73 | A canonical list of exactly the points of the first set outside the second. |
| `IntervalSets.CanonicalSetsAreEqual` | interval/set.go:96-106 | Canonical lists with the same real points are identical. |
| `Strategies.Segments` | strategy/strategy.go:101-113 | A canonical list that gives every covered point to the operation that decides it. |
| `Strategies.NormalizeSegments` | strategy/strategy.go:149-165 | Resolves overlapping segments by priority. |
| `Strategies.CombineIsUnion` | strategy/strategy.go:116-121 | Combining the segments of two keyed sets of operations gives exactly the segments of their union, the only such list. |
| `Strategies.SegmentationIsUnique` | strategy/strategy.go:101-121 | The segments depend on the set of operations alone. |
| `Strategies.DecidesIff` | strategy/strategy.go:167-178 | Under LWW the operation with the greatest timestamp, then id, among those covering a point decides it; under FWW the one with the smallest. |
| `Strategies.SegmentNames` | strategy/strategy.go:101-113 | A segment carries the timestamp, id and kind of the last, or first, operation to cover its points. |
| `Engines.SegmentationRule` | strategy/strategy.go:125-133 | A point lies in an added segment exactly when the strategy's rule admits it. |
| `Materialization.Materialize` | strategy/strategy.go:87-97 | A canonical list that contains a point exactly as the strategy's rule on the list says, for every strategy. |
| `Materialization.ToIntervals` | strategy/strategy.go:125-133 | Canonical, with exactly the points decided by an addition. |
| `Materialization.IntervalsOf` | strategy/strategy.go:136-144 | Canonical, with exactly the points some operation of the kind covers. |
| `Materialization.ListRuleIsRule` | strategy/strategy.go:167-178 | With keyed operations the rule on the list is the rule on the set. |
| `Materialization.Converges` | strategy/strategy.go:87-97 | Any two orders of the same keyed operations give the identical list. |
| `Materialization.LastWriteWins` | strategy/strategy.go:87-97 | For keyed operations under LWW a point is in the result exactly when the operation covering it with the greatest timestamp, then id, is an addition. |
| `Materialization.FirstWriteWins` | strategy/strategy.go:87-97 | Under FWW exactly when the one with the smallest timestamp, then id, is. |
| `Boxes.OverlapsMeansShared` | space/space.go:175-199 | Boxes overlap exactly when they share a point. |
| `Boxes.SubsumesMeansCovers` | space/space.go:216-237 | A box with a point is subsumed exactly when all its points are covered. |
| `Boxes.HollowMeansNoPoint` | space/space.go:146-156 | A box is empty exactly when it contains no point. |
| `Boxes.LessIsTotal` | space/set.go:324-340 | The canonical order is strict and total on boxes of one dimension. |
| `Boxes.LessIff` | space/set.go:321-340 | A box sorts before another exactly when, on the first axis on which they differ, its start is lower, or its end when the starts agree, or its lower and then its upper face is closed where the other's is open. |
| `BoxSubtraction.SubtractByAxes` | space/set.go:167-196 | The worklist over the axes computes the recursive subtraction. |
| `BoxSubtraction.SubtractBoxIsExact` | space/set.go:167-271 | In any dimension the pieces are pairwise disjoint, nonempty, inside p, and cover exactly the points of p outside q. |
| `BoxSubtraction.PieceIsCutOff` | space/set.go:160-196 | Every piece is cut off on one axis, where it holds all of p's span on one side of q; on the axes before it holds the common part of p and q, and on the axes after it keeps p's span. |
| `BoxSets.Normalize` | space/set.go:22-46 | Exactly the subsumption-maximal boxes of the input, each once, in canonical order; a list without subsumption keeps its metadata. |
| `BoxSets.InsertNormalized` | space/set.go:95-126 | Exactly the maximal boxes of the set with the box added, in canonical order. |
| `BoxSets.InsertIsNormalize` | space/set.go:89-117 | Inserting into a normalized list and normalizing the longer list give the identical list. |
| `Covers.MaximaKeepPoints` | space/set.go:11-14 | Dropping subsumed boxes keeps the covered points. |
| `Covers.SortedIsUnique` | space/set.go:315-340 | A set of boxes has one canonical listing. |
| `BoxDifference.DifferenceSorted` | space/set.go:77-87 | Removes each box in turn; the pieces of disjoint boxes stay disjoint and keep the metadata of their box. |
| `BoxDifference.Difference` | space/set.go:72-74 | The canonical difference of the two covers. |
| `BoxDifference.DifferenceIsExact` | space/set.go:58-63 | A point is in the difference exactly when it is in the first cover and not in the second. |
| `BoxDifference.DifferenceIsUnique` | space/set.go:61-87 | The difference depends on the two sets of boxes alone. |
| `BoxStrategies.Effective` | space/strategy/strategy.go:127-145 | Exactly the operations that are no retraction and that no retraction names. |
| `BoxStrategies.Segments` | space/strategy/strategy.go:149-161 | The pieces each operation decides, in canonical order, for the two priority strategies. |
| `BoxStrategies.CarveInOrder` | space/strategy/strategy.go:208-221 | Each operation keeps exactly what no earlier one claimed. |
| `BoxStrategies.SegmentsCover` | space/strategy/strategy.go:208-221 | Every covered point lies in a segment. |
| `BoxStrategies.SegmentsApart` | space/strategy/strategy.go:208-221 | Distinct segments share no point. |
| `BoxStrategies.SegmentDecides` | space/strategy/strategy.go:208-234 | The operation a segment names decides every point of the segment and gives it its metadata. |
| `BoxStrategies.DecidesIff` | space/strategy/strategy.go:223-234 | Under LWW the operation with the greatest timestamp, then id, among those covering a point decides it; under FWW the one with the smallest. |
| `BoxMaterialization.Materialize` | space/strategy/strategy.go:104-121 | For all five strategies a normalized cover of the strategy's geometry; for the priority-resolved ones disjoint, each box with the metadata of the deciding addition. |
| `BoxMaterialization.GeometryFollowsRule` | space/strategy/strategy.go:20-121 | The geometry of every strategy covers exactly the points its rule admits on the non-retracted operations. |
| `BoxMaterialization.GeometryIsUnique` | space/strategy/strategy.go:104-121 | The geometry depends on the set of operations alone, so any order gives the identical list. |
| `BoxMaterialization.LastWriteWins` | space/strategy/strategy.go:104-121 | Under LWW a point is in the result exactly when the effective operation covering it with the greatest timestamp, then id, is an addition, and its box carries that operation's metadata. |
| `BoxMaterialization.FirstWriteWins` | space/strategy/strategy.go:104-121 | Under FWW the same with the smallest timestamp, then id. |
| `BoxMaterialization.LastAdditionPaints` | space/strategy/strategy.go:104-121 | Under AdditiveWinsLWW a point is in the result exactly when an addition and no removal covers it, with the metadata of the addition of the greatest timestamp, then id. |
| `BoxMaterialization.ToBoxes` | space/strategy/strategy.go:172-180 | Exactly the pieces decided by additions, with their metadata. |
| `BoxMaterialization.BoxesOf` | space/strategy/strategy.go:183-191 | The maximal boxes of the operations of one kind. |
| `Layering.Layers` | space/strategy/layers.go:29-50 | Painted in order, the layers show at every covered point the operation that decides it, with its own box and kind, nothing anywhere else, and every layer somewhere; the painted points are those LWW materializes. |
| `Layering.PaintingIsMaterializing` | space/strategy/layers.go:18-28 | A point is left painted exactly when the effective operation covering it with the greatest timestamp, then id, is an addition. |
| `Layering.Cull` | space/strategy/layers.go:34-43 | Keeps exactly the operations that show somewhere. |
| `Layering.Flip` | space/strategy/layers.go:46-48 | Reverses the list in place. |
| `BoxViews.PatchIsRightIff` | space/engine/engine.go:301-312 | Patching the view with an operation is right exactly when no known retraction names it or it changes no point anyway. |
| `BoxViews.RetractedAdditionIsPutBack` | space/engine/engine.go:301-312 | An addition folded after the retraction that names it reappears on every one of its points. |
| `BoxViews.MergeAdjacentIsPreserving` | space/engine/engine.go:317-322 | A canonicalizer that computes MergeAdjacent preserves the cover. |
| `BoxEngines.Engine.constructor` | space/engine/engine.go:82-107 | Opening a store gives an engine that knows the whole log and whose view, unless dirty, is that of the log. |
| `BoxEngines.Engine.Reload` | space/engine/snapshot.go:28-53 | The state is that of the whole log, with or without a compatible snapshot. |
| `BoxEngines.Engine.Restore` | space/engine/snapshot.go:56-80 | The snapshot's covers extended by the replayed tail cover exactly what the whole log does. |
| `BoxEngines.Engine.ApplyToView` | space/engine/engine.go:289-314 | Marks the view dirty exactly for retractions and priority strategies; otherwise view and covers gain exactly the operation. |
| `BoxEngines.Engine.SetView` | space/engine/engine.go:317-322 | The cached cover has the points of the given one. |
| `BoxEngines.Engine.MaterializeAll` | space/engine/engine.go:335-349 | Rebuilds a view that covers exactly the points of the rule on all known operations. |
| `BoxEngines.Engine.EnsureView` | space/engine/engine.go:326-331 | Afterwards the view covers exactly the points of the rule on all known operations. |
| `BoxEngines.Engine.Materialize` | space/engine/engine.go:123-128 | Returns a cover of exactly the points the rule admits on the folded log prefix. |
| `BoxEngines.Engine.Contains` | space/engine/engine.go:141-146 | Answers by the strategy's rule. |
| `BoxEngines.Engine.Fold` | space/engine/engine.go:235-247 | Keeps the view invariant over freshly appended operations, and stores a snapshot exactly when as many as configured were folded since the last. |
| `BoxEngines.Engine.CatchUp` | space/engine/engine.go:272-285 | Keeps the view invariant over what others appended, up to the whole log. |
| `BoxEngines.Engine.TakeSnapshot` | space/engine/snapshot.go:83-112 | The stored snapshot describes the log prefix of the engine's version: its operations, view and, under AdditiveWins, the covers behind it. |
| `BoxEngines.Engine.EnsureDims` | space/engine/engine.go:222-232 | Accepts exactly the batches of the set's dimension, fixing it by the first box offered. |
| `BoxHistories.OneDimensionIff` | space/engine/engine.go:178-210 | A batch the engine accepted, once its new part is appended, leaves the log of one dimension if and only if the log at the successful attempt was empty or already had the batch's dimension. |
| `MixedDimensions.RivalFixesTheDimension` | space/engine/engine.go:178-210 | An engine opened on an empty log appends its three-dimensional batch after a rival's two-dimensional one, and the log then mixes both. |
| `BoxEngines.Engine.Attempt` | space/engine/engine.go:191-210 | One turn is exactly a step of the protocol, stamping past every earlier log entry: it appends the unseen operations at the current version or leaves the log, keeps the view invariant, and reports exactly when a batch of another dimension was appended. |
| `BoxEngines.Engine.Apply` | space/engine/engine.go:178-210 | Rejects exactly the malformed batches, and batches of another dimension than the fixed one, without touching the log; otherwise appends exactly the new part of the batch against any interference in at most four attempts, keeping the view invariant exactly as long as the log has one dimension. |
| `BoxEngines.WellFormedIff` | space/op/op.go:79-99 | Exactly the operations on a box with a point in at least one dimension pass the check. |
| `Components.DisjointSet.Find` | space/components.go:72-77 | Ends in every reachable forest, returns the root and keeps every root while compressing. |
| `Components.DisjointSet.Union` | space/components.go:79-84 | Gives everything in the second tree the root of the first and changes no other root. |
| `Components.DisjointSet.Groups` | space/components.go:87-106 | One group per root, in the order of roots, each with the boxes of its tree in index order. |
| `Components.ConnectedComponents` | space/components.go:11-25 | The groups partition the normalized boxes, two boxes share a group exactly when a chain of connected boxes joins them, and groups come in the order of the roots that comparing all pairs leaves. |
| `Components.ResultIsUnique` | space/components.go:11-25 | The boxes determine the groups and their order. |
| `Connectivity.RootsAreChains` | space/components.go:16-23 | After all pairs are compared two boxes have one root exactly when a chain joins them. |
| `Connectivity.RootIsNeverUnseated` | space/components.go:79-84 | A box is the root of its component exactly when no connected pair, with the chains of earlier pairs, joins its tree under another. |
| `Connectivity.ConnectedIff` | space/components.go:27-58 | Boxes with a point are connected exactly when they share one, or on some axis one ends where the other starts and on every other axis their sides share an open stretch or one is a single point within the other. |
| `Connectivity.ThickConnectedIff` | space/components.go:27-58 | Boxes without a single-point side are connected exactly when they share a point or touch along a face of positive measure. |
| `Connectivity.ConnectedIsPromisedIff` | space/components.go:43-55 | Connected boxes meet the promise of a shared point or a face of positive measure if and only if they share a point or touch on an axis away from which no side is a single point. |
| `Connectivity.ThinBoxIsConnected` | space/components.go:43-55 | A box with a single-point side and another that touch in one border point are connected without either. |
| `ComponentOrder.RootsAreLeastIff` | space/components.go:5-25 | Every root is the least box of its component if and only if no connected pair unseats a least box. |
| `ComponentOrder.OrderIsCanonicalIff` | space/components.go:5-25 | The components come in canonical order if and only if no two boxes that are never unseated stand before one another while their components' least boxes stand the other way round. |
| `ComponentOrder.LeastRootsAreCanonical` | space/components.go:5-25 | The promised order holds whenever no least box is unseated. |
| `ComponentOrder.MisplacedIsNormal` | space/components.go:11-12 | The four boxes of the failing input are a normalized cover. |
| `ComponentOrder.FirstComponentComesLast` | space/components.go:5-25 | On these four boxes ConnectedComponents returns the component of the first box last. |
| `Partitioning.CellsCoverKept` | demo/web/partition.go:46-137 | For boxes with any bounds the cells cover exactly the points inside the half-open form of a box and past an open lower face by at least one coordinate. |
| `Partitioning.HalfOpenArePartitioned` | demo/web/partition.go:1-18 | Half-open boxes in any dimension give pairwise disjoint cells with exactly their points. |
| `Partitioning.ClosedFaceIsLost` | demo/web/partition.go:108-137 | A closed upper face is lost, so the cover is not preserved for every box. |
| `Partitioning.OneBoxIsKeptIff` | demo/web/partition.go:1-18 | The cells of one box with a point cover exactly the box if and only if it is half-open. |
| `Partitioning.OpenFirstFaceLosesAll` | demo/web/partition.go:46-137 | A box with an open lower face on the first axis is lost as a whole. |
| `Partitioning.OpenLaterFaceIsGained` | demo/web/partition.go:46-137 | An open lower face on a later axis gains points the box does not have. |
| `Partitioning.CellsAreApart` | demo/web/partition.go:46-72 | The cells are pairwise disjoint for any boxes. |
| `Worklist.RunWorklist` | demo/web/partition.go:46-72 | The worklist ends and emits exactly the cells, in order. |
| `Worklist.Partition` | demo/web/partition.go:28-40 | Disjoint cells with exactly the kept points, which for half-open boxes are the points of the boxes. |
| `Worklist.SlabCoordinates` | demo/web/partition.go:88-104 | The face coordinates of the boxes with a point, increasing, each once. |
| `Partitioning.CellsArePinned` | demo/web/partition.go:46-72 | Every cell lies in one slab of the axis, between two neighbouring face coordinates, within the slabs of the axes before. |
| `Partitioning.CoversSlabIff` | demo/web/partition.go:106-116 | A box covers a slab exactly when its side holds every coordinate of it. |
| `Worklist.TurnKeeps` | demo/web/partition.go:53-70 | Sweeping one work item loses no cell and leaves one item less to do. |
| `Breakpoints.SortUnique` | demo/web/partition.go:96-103 | Sorting and dropping repeats gives the one increasing list of the values. |
| `Breakpoints.UniqueRises` | space/path.go:206-213 | That list is strictly increasing and has exactly the given values. |
| `RTree.Build` | rtree/rtree.go:64-88 | Fails exactly when the boxes with a point are not of one positive dimension; otherwise the tree holds exactly those boxes. |
| `RTree.BuildNode` | rtree/rtree.go:133-147 | Every bound covers all below it, no leaf is over capacity, and the leaves conserve the multiset of boxes. |
| `RTree.FoundIsScan` | rtree/rtree.go:150-165 | Pruning loses nothing: the search finds exactly what a scan of the leaves finds, in the same order. |
| `RTree.SearchNode` | rtree/rtree.go:150-165 | Appends exactly the boxes found below the node. |
| `RTree.Search` | rtree/rtree.go:100-130 | The sorted linear-scan result of the input; nothing for an empty query or one of another dimension. |
| `RTree.SearchIgnoresOrder` | rtree/rtree.go:100-130 | Trees built from the same boxes in any order answer every query with the identical list. |
| `RTree.MbrOf` | rtree/rtree.go:229-248 | The box closed on every face from the least starts to the greatest ends. |
| `RTree.BoundCovers` | rtree/rtree.go:225-248 | That box covers every given box. |
| `RTree.BoundIsLeast` | rtree/rtree.go:225-248 | No smaller closed box does. |
| `RTree.WidestAxis` | rtree/rtree.go:169-186 | The first axis with the largest spread. |
| `RTree.LessBoxIsTotal` | rtree/rtree.go:203-223 | The result order is strict and total. |
| `RTree.LessBoxIff` | rtree/rtree.go:200-223 | A result sorts before another by the first differing start over all axes, then by the first differing end, then by the first differing face bound, lower before upper and closed before open, then by metadata. |
| `RTree.ResultIff` | rtree/rtree.go:100-130 | A search returns exactly the given boxes that share a point with the query. |
| `Paths.SpanOf` | space/path.go:84-105 | Strictly inside the span the path is in the box, outside it never; without a span it is in the box for at most one parameter. |
| `Paths.PathEnds` | space/path.go:55-64 | The path starts at its first point and ends at its last. |
| `Paths.EntryExitIsExact` | space/path.go:112-121 | On one axis the coordinate is inside strictly between entry and exit, and never outside them. |
| `Paths.Traverse` | space/path.go:157-178 | Segments of positive length tile [0,1] without gap, coverage changes at every joint, a listed box contains every interior point, an unlisted one at most one. |
| `Paths.ListedIff` | space/path.go:138-156 | The listed boxes of a segment are exactly those that contain all its interior points. |
| `Paths.UniqueBreakpoints` | space/path.go:200-214 | Exactly 0, 1 and the ends of the spans, in increasing order. |
| `Paths.BoxesCovering` | space/path.go:218-227 | Exactly the boxes whose span contains the sub-interval, in canonical order. |
| `Paths.Crossed` | space/path.go:127-136 | Exactly the normalized boxes the path is in at two parameters at least, in canonical order. |
| `GridLines.GridLine` | demo/paint/ui-src/grid.js:61-90 | Ends for all cells; exactly max(abs(dx),abs(dy)) cells ending at b, each next to the one before, one step further on the longer axis, never past the end, less than half a cell behind the ideal line or at most half a cell ahead of it. |
| `GridLines.LineIsUnique` | demo/paint/ui-src/grid.js:61-90 | Only one list of cells is such a line, ties included. |
| `GridLines.DrawingIsUnique` | demo/paint/ui-src/grid.js:82-88 | The two cells and the cell size determine the rectangles, each at its cell's place and one cell wide and high. |
| `GridLines.EndsOnTime` | demo/paint/ui-src/grid.js:72-73 | The end is reached exactly after as many iterations as the longer axis has steps. |
| `GridLines.BodyKeepsBalance` | demo/paint/ui-src/grid.js:73-81 | Each iteration steps on the longer axis and keeps the error term and the half-cell bound. |

## Left out

- Metadata content: `meta.Union` and what normalization folds into a surviving box, which depends on arrival order when several boxes subsume one; metadata is carried opaquely and only the results that keep it unchanged are stated.
- Floating-point rounding, NaN and infinity checks, 64-bit overflow of timestamps, versions and bin numbers: the arithmetic is over unbounded integers and reals.
- Concurrent access to one clock or one engine: `Tick`, `Observe` and every engine method are atomic steps, as the compare-and-swap loop and the mutex make them; interleaving is modelled between engines.
- Bytes on disk: JSON encoding, line limits and atomic file replacement of the JSON-lines store; it is modelled as a sequence of operation and snapshot records.
- `Engine.Compact` as a method: it hands the same snapshot as `Engines.Engine.TakeSnapshot` to `Jsonl.Stream.Compact`; `Compaction` proves what such a call keeps and what reopening the stream then knows, while the engine classes work on the memory store.
- `space/store/memory` and `space/store/jsonl`: copies of the stores over another operation type; `Storage.Store` is generic and serves both engines.
- BoxEngines.Engine.Apply: after the outcome `Mixed` nothing is stated about the engine's view, because boxes of two dimensions have no common cover; it asks for distinct ids in the batch and in what others append, because a patched view keeps the boxes of both operations of a repeated id.
- BoxEngines.Engine.constructor: asks for a log of one dimension with unique ids, for the same reasons.
- BoxEngines.Engine.Reload: asks for the same as the constructor.
- BoxEngines.Engine.Attempt: asks for distinct ids in the batch, for the same reason.
- BoxStrategies.Segments: asks for a list without repetition, as `opsList` gives it; the strategies are never handed another.
- BoxMaterialization.Materialize: asks for the same list.
- Layering.Layers: asks for the same list.
- BoxEngines.Engine.Materialize: states the covered points, not the identical list, because a patched view and a rebuilt one may cut the same cover differently when a canonicalizer is set.
- BoxSets.Normalize: states the metadata only for lists without subsumption.
- The grid's own disjointness flag (space/merge_index.go:416-429), beyond its use in `Indexing.Merger.DetectDisjoint`.
- Empty identifiers and references in `Validate`: ids are integers, so `BoxEngines.Engine.Apply` models the checks on boxes.
- `CombineSegments` over boxes (space/strategy/strategy.go:164-169), `Equal` of covers and `Chain`: not used by the modelled engines, or compositions of modelled parts.
- `interval.Intersection`: its contract is false for tied endpoints in the same way as `Overlaps`, and nothing modelled uses it.
- Copying of boxes in the R-tree (`BuildRef`, `SearchRef`): the model works on values.
- The KurrentDB store, web servers, sessions, wasm bridges, canvas and export code, facade types, id generation, text marshalling: plumbing around the modelled core.
