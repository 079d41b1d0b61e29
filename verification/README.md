# Verified core of the vector search library

This project models, in Dafny 4.11, the parts of the library that carry state or
arithmetic a reader cannot check at a glance, and proves what they promise. Every path
below is relative to the root of the repository.

| file | models |
|---|---|
| `Neighbors.dfy`, `TopK.dfy` | the bounded merge of two sorted rows, and the ground truth as a fold of such merges |
| `ReferenceDataset.dfy`, `Shuffling.dfy` | buckets that move between reserve and dataset, and the ground truth read off them |
| `Compaction.dfy` | batched two-phase renumbering in place |
| `Translation.dfy`, `TranslationFile.dfy` | the two-way id table, its checks, and its file |
| `IndexCompaction.dfy` | a client that compacts data and ids together |
| `LeanVec.dfy`, `Vectors.dfy` | the linear reduction with and without centring; products and distances |
| `Prefetcher.dfy` | the prefetch schedule |
| `Timing.dfy` | nested timers and their handles |
| `KMeans.dfy` | minibatch k-means training |
| `Medioid.dfy` | pairwise and threaded sums, the mean, and the datum nearest to it |
| `Offsets.dfy` | row-major offsets, strides and slices for any number of dimensions |
| `Float16.dfy` | the software half-precision conversions, on bits |
| `Uuid.dfy` | identifiers and their text form (RFC 4122, sections 3 and 4.4) |
| `Checkpoint.dfy` | the results file at every point a crash or a failed write may leave behind |
| `Threads.dfy`, `Algorithms.dfy`, `Arithmetic.dfy`, `Common.dfy` | the contract of the thread pool, shared helpers and types |

`dafny verify dfyconfig.toml` checks the whole project.

## Conventions

* `threads::run` hands out the indices of a partition in any order, each once, and returns
  when all are done: loops over it pick any index still to do. Where a thread has state of
  its own, any thread may take any chunk.
* Numbers that the library keeps in `float` or `double` are exact reals, except in
  `Float16.dfy`, which works on bit patterns. An infinite distance is any real beyond the
  largest `float`.
* `size_t` counters and sums are unbounded; ids that are stored in 32 or 64 bits carry
  their width.
* Exceptions are results (`Err`, an `Outcome`, a flag, a missing value). What has been
  changed before the exception is part of the contract.
* Shuffles, random draws, clock readings, the fate of writes, matrices found by decomposition
  and the flat search are parameters; of the flat search only the contract is used that its
  rows are the k best of its view and k sentinels, in order of distance
  (include/svs/index/flat/inserters.h:89-115), on the views the library makes. Ids have 64 bits.
* The fate of a save says whether its directory exists, its stream opens, everything is
  written and the move succeeds. A file cut short is one whose contents are not a whole table.
* The schedule of a prefetcher, the state of a timer and the results of a run are values
  with step functions; the classes that update them in place are proved to take exactly
  those steps.

## Where the code and its documentation differ

The models follow the code. Where a promise fails, the condition under which it holds is
proved in both directions.

* The guard of `compact_data` asks for a sorted list (include/svs/core/compact.h:37), but a
  list with a repeat can lose a row (`Compaction.RepeatsCanLoseRows`). The result is right if
  and, for distinct rows, only if no row is read from a position that an earlier batch has
  overwritten (`Compaction.CompactionRightIff`); strictly increasing lists always qualify.
* The sentinel is meant to come after every value (include/svs/lib/type_traits.h:50-56), but
  it is the largest finite `float`, so infinite distances come after it. All distances of a
  merged row beat it exactly when k live distances do (`TopK.GroundTruthIff`). Otherwise the row
  holds what filled up the row of a bucket: the flat search leaves sentinels there, and the view
  turns their id into the one before its own first (include/svs/core/data/view.h:100-103; a build
  with assertions stops there), so the ground truth may name a point that is not live
  (`TopK.FillerIsShown`). The same goes for buckets of fewer points than neighbors.
* `get_delete_points` says it does not empty the dataset
  (include/svs/misc/dynamic_helper.h:370), but its limit is all valid points: it does exactly
  when the caller allows as many (`Reference.ReferenceDataset.EmptiedIff`,
  `Reference.OnlyPointGoes`).
* A table of ids that is saved can be loaded again exactly when it is not empty
  (`TranslationFile.LoadSavedRebuilds`): the file of the empty one is empty, and opening an
  empty file throws (include/svs/lib/file.h:57-59, include/svs/core/translation.h:361).
* Saving a checkpoint is meant to leave the old file or the new one whole
  (benchmark/src/benchmark.cpp:22-24). It does at a crash, but the stream is not looked at
  before the move, so a write that fails on a full disk publishes what it wrote
  (`Checkpointing.CutShortIsPublished`). The file is old or whole at every state of a run
  exactly when everything published was written in full (`Checkpointing.SaveJudged`,
  `Checkpointing.RunJobs`).
* The initial picks of k-means are drawn from `0..data.size()` with both ends included
  (include/svs/core/kmeans.h:153), so a draw may name a datum that does not exist; all picks
  name data exactly when the size is not among the draws (`KMeans.PicksNameDataIff`). The draws
  of `UUID` include 256, which is stored as 0 (include/svs/lib/uuid.h:106); `Uuid.Generate`
  holds for it as for the others.
* The half-precision encoder says it rounds to nearest even (include/svs/lib/float16.h:58),
  but rounds ties up; the two agree exactly off ties above an even neighbour
  (`Float16.NearestEvenIff`). Patterns within half a unit of the end of the range, all of
  them not numbers, carry into the sign and come back as zeros of the other sign
  (`Float16.SignKeptIff`, `Float16.SignFlips`). Decoding flushes denormal halves to zero.
* The encoder shifts by `125 - e` whatever the exponent is (include/svs/lib/float16.h:64-65):
  by 32 places or more for 0.0 among others, which C++ leaves undefined. The result is
  multiplied by zero there, and the model takes the product as zero without the shift.
* Step 1 of the prefetcher behaves like step lookahead + 1
  (bindings/python/src/vamana_common.cpp:130-132). The closed form without the step term holds
  from the first call on; before it nothing has been prefetched.
* Finishing a handle that is not the innermost one adds its time before the failure is found
  (include/svs/lib/timing.h:376-378).
* A linear threshold of 0 sends the pairwise sum of one datum into itself again
  (`Medioid.PairwiseStopsIff`).

## Model

| member | source | states |
|---|---|---|
| `Algorithms.AllUnique` | include/svs/lib/algorithms.h:66-75 | true exactly when no element occurs twice |
| `Neighbors.BoundedMerge` | include/svs/lib/algorithms.h:77-118 | the output range becomes the stable merge of the two rows cut at its length; rows in order of distance, ascending for L2 and descending for inner products, stay so; nothing outside the range is written |
| `Neighbors.TieTakesSecond` | include/svs/lib/algorithms.h:100-117 | on a tie the second row goes first |
| `Neighbors.MergeSplits` | include/svs/lib/algorithms.h:100-117 | however far the merge has run, it has taken a prefix of each row, is sorted, and nothing left in either row is better than what was taken |
| `Neighbors.MergeIsBest` | include/svs/lib/algorithms.h:77-118 | merging the k best of one pool with the k best of another gives the k best of both pools together, whatever the pools hold |
| `Neighbors.BestRanks` | include/svs/lib/neighbor.h:86-103 | in plain distances: best means in ascending order with nothing smaller left out, or for the greater comparison in descending order with nothing larger left out |
| `Neighbors.BeatsSentinel` | include/svs/lib/type_traits.h:61-76 | in plain distances: beating the sentinel means below the largest float, or for the greater comparison above the least |
| `Neighbors.BestDistancesUnique` | include/svs/lib/neighbor.h:92-103 | two sorted k-best rows of one pool agree in every distance, so only the order of ties is open |
| `TopK.FoldedIsBest` | include/svs/misc/dynamic_helper.h:245-273 | merging any list of buckets one after the other into a row of sentinels gives the k best of the sentinels, all live points and what fills up the rows of the buckets |
| `TopK.GroundTruthIff` | include/svs/misc/dynamic_helper.h:247-273 | all distances of the merged row beat the sentinel exactly when k live distances do, and then it is the k best of the live points; if no live distance equals the sentinel's, it is that only then |
| `TopK.EntryIs` | include/svs/misc/dynamic_helper.h:247-273 | every entry of the merged row is a live point whose distance beats the sentinel, or is exactly as far as the sentinel; none is worse |
| `TopK.FillerIsShown` | include/svs/core/data/view.h:100-103 | one live point at an infinite distance: what fills up its row stands in the result, and names the point before the bucket, which is not live |
| `TopK.FiniteDistancesSuffice` | include/svs/misc/dynamic_helper.h:247-273 | with at least k live points and every live distance beating the sentinel's, so does every entry, and the row is the k best of the live points |
| `TopK.BucketOrderOnlyTies` | include/svs/misc/dynamic_helper.h:254-273 | the order of the live buckets does not change any distance of the result |
| `TopK.LiveOfPermutation` | include/svs/misc/dynamic_helper.h:307-307 | shuffling buckets does not change the points they hold |
| `TopK.FilledIsBest` | include/svs/index/flat/inserters.h:77-108 | the first k of all points of a view and k sentinels in order are a best row, so every view has one, with fewer than k points too |
| `Shuffling.DistinctPermuted` | include/svs/misc/dynamic_helper.h:320-321 | a shuffle of distinct entries has the same entries, still distinct |
| `Shuffling.PermutedIota` | include/svs/misc/dynamic_helper.h:320-335 | a shuffled index vector names every destination exactly once |
| `Reference.BuildBuckets` | include/svs/misc/dynamic_helper.h:165-203 | the buckets tile the dataset without gap or overlap; each starts at a multiple of the bucket size and is full or the last; each holds the renumbered k best of its own view and of the sentinels of the search for every query, given a search that keeps this contract on the views the loop makes |
| `Reference.FlatSearchKeepsContract` | include/svs/misc/dynamic_helper.h:165-203 | for every data, bucket size and number of neighbors, ranking all points of a view and sentinels keeps the search contract on every view: what the constructor asks for can always be had |
| `Reference.RenumberRows` | include/svs/misc/dynamic_helper.h:191-199 | every found id is shifted by the start of the view in 64-bit arithmetic, its distance and place kept |
| `Reference.ParentIdAdds` | include/svs/core/data/view.h:100-103 | ids that do not wrap around are shifted by the start of the view |
| `Reference.SentinelRenumbered` | include/svs/core/data/view.h:100-103 | the id of a sentinel of the search wraps around to the one before the view |
| `Reference.ReferenceDataset.constructor` | include/svs/misc/dynamic_helper.h:140-205 | all buckets start in reserve, none is live, and the invariant holds |
| `Reference.ReferenceDataset.Create` | include/svs/misc/dynamic_helper.h:156-163 | construction fails exactly when the size of the buckets is smaller than the number of neighbors |
| `Reference.ReferenceDataset.Groundtruth` | include/svs/misc/dynamic_helper.h:245-285 | entry by entry, the ids and distances of each query are the fold of the live buckets' rows, whatever order the queries are merged in; the swapped scratch array never leaks an old entry |
| `Reference.ReferenceDataset.MergeBucket` | include/svs/misc/dynamic_helper.h:260-271 | one bucket is merged into every query's slice of the scratch array and into nothing else |
| `Reference.ReferenceDataset.GroundtruthIsBestOfLive` | include/svs/misc/dynamic_helper.h:245-285 | in every valid state, all distances of a query's row are finite, below the largest float or above the least, exactly when k of its live distances are, and then it ranks the k best of all live points; if no live distance equals that bound, it does only then |
| `Reference.ReferenceDataset.FiniteGroundtruth` | include/svs/misc/dynamic_helper.h:245-285 | so as many valid points as neighbors and finite distances are enough |
| `Reference.ReferenceDataset.GroundtruthInPlain` | include/svs/misc/dynamic_helper.h:245-285 | in plain terms: with at least k valid ids and finite distances a row lists distinct valid ids at their own distances, ascending for L2 and descending for inner products, and no valid id left out is nearer, or larger, than any listed |
| `Reference.ReferenceDataset.LivePointsAre` | include/svs/misc/dynamic_helper.h:254-271 | the live points of a query are exactly the valid ids at their own distances, once each |
| `Reference.ReferenceDataset.GetNumPoints` | include/svs/misc/dynamic_helper.h:287-301 | the sizes of the buckets are added from the back until one would exceed the limit |
| `Reference.FittingIsLongest` | include/svs/misc/dynamic_helper.h:287-301 | they are the longest stretch of buckets from the back that fits in the limit |
| `Reference.ReferenceDataset.Generate` | include/svs/misc/dynamic_helper.h:303-352 | the invariant is kept; the points returned are distinct, each with its own vector, exactly the ids that became valid; the limit is kept and no further bucket would fit; the count mismatch cannot occur |
| `Reference.ReferenceDataset.MarshalPoints` | include/svs/misc/dynamic_helper.h:323-350 | the loop stops with exactly the promised number of points and every bucket moved whole |
| `Reference.ReferenceDataset.AllMarshalled` | include/svs/misc/dynamic_helper.h:314-339 | when every destination of the shuffled index vector is filled, the points are distinct and match their vectors |
| `Reference.ReferenceDataset.GetDeletePoints` | include/svs/misc/dynamic_helper.h:369-398 | the invariant is kept; the points returned are distinct and exactly the ids that stopped being valid; the limit is kept and no further bucket would fit; the dataset is emptied exactly when the caller allows as many points as it holds; the count mismatch cannot occur |
| `Reference.ReferenceDataset.EmptiedIff` | include/svs/misc/dynamic_helper.h:369-398 | when no further bucket fits, nothing is left exactly if the limit was at least the number of valid points |
| `Reference.OnlyPointGoes` | include/svs/misc/dynamic_helper.h:369-398 | a dataset of one point: after it is added, one call with a limit of one takes it out again and nothing is left |
| `Reference.ReferenceDataset.CollectPoints` | include/svs/misc/dynamic_helper.h:379-395 | the loop stops with exactly the promised number of points |
| `Reference.ReferenceDataset.EveryIdOnOneSide` | include/svs/misc/dynamic_helper.h:118-122 | in every valid state each id of the dataset is either in reserve or valid, never both, and their numbers add up |
| `Compaction.CompactData` | include/svs/core/compact.h:32-81 | fails exactly on a dimension mismatch and then changes nothing; otherwise, whatever order each phase visits its batch in, the rows are those of the batch-wise specification |
| `Compaction.CompactionRightIff` | include/svs/core/compact.h:47-80 | every row i ends as the old row new_to_old[i] and all other rows stay, if and, for distinct rows, only if no row is read from a position an earlier batch has overwritten |
| `Compaction.IncreasingCompacts` | include/svs/core/compact.h:37-80 | for strictly increasing ids and every batch size the result is exact, so it does not depend on the buffer |
| `Compaction.RowReadFromFinishedPosition` | include/svs/core/compact.h:51-80 | a row read from a finished position ends equal to that position: its own datum is lost |
| `Compaction.RepeatsCanLoseRows` | include/svs/core/compact.h:37-37 | a sorted list with a repeat passes the guard of the source and still loses a row |
| `IndexCompaction.RemapStep` | include/svs/core/translation.h:188-206 | when internal ids are remapped in order, both assumptions of the remap hold at every step, and fixed points can be skipped |
| `IndexCompaction.AllReached` | include/svs/core/translation.h:188-206 | after all remaps the internal ids are exactly 0..n-1 and every external id reaches the datum it reached before |
| `IndexCompaction.CompactIndex` | include/svs/core/compact.h:32-81 | compacting the data and remapping the ids together keeps the maps inverse, leaves internal ids 0..n-1 and keeps what every external id reaches |
| `Translation.IdTranslator.constructor` | include/svs/core/translation.h:56-56 | the empty table |
| `Translation.IdTranslator.Identity` | include/svs/core/translation.h:57-60 | the identity on 0..n-1, in both maps |
| `Translation.IdTranslator.Insert` | include/svs/core/translation.h:94-134 | the outcome is decided by the length check and the checks in their order; on any failure both maps are as before, otherwise all pairs are inserted in order |
| `Translation.IdTranslator.InsertTranslation` | include/svs/core/translation.h:136-140 | one pair is written to both maps |
| `Translation.IdTranslator.RemapInternalId` | include/svs/core/translation.h:195-206 | the external id of `from` moves to `to` in both maps |
| `Translation.IdTranslator.DeleteInternal` | include/svs/core/translation.h:220-232 | a failed check names the first missing id and leaves both maps as before; otherwise the ids are deleted one by one until one is missing |
| `Translation.IdTranslator.DeleteExternal` | include/svs/core/translation.h:246-258 | from the external side: a failed check names the first missing id and leaves both maps as before; otherwise the ids are deleted one by one until one is missing |
| `Translation.Check` | include/svs/core/translation.h:371-384 | the first offending id of a range decides the exception |
| `Translation.InsertOneKeepsInverseIff` | include/svs/core/translation.h:136-140 | an unchecked insert keeps the maps inverse exactly when both ids are free or the pair is there already |
| `Translation.ChecksPassIffFresh` | include/svs/core/translation.h:115-124 | the checks of insert pass exactly when the ranges are as long as each other, free of repeats and free of known ids |
| `Translation.VerdictSays` | include/svs/core/translation.h:105-124 | which exception is thrown for which ranges: unequal lengths, repeated external ids, repeated internal ids, then the first external id and the first internal id that is known |
| `Translation.LastPairCounts` | include/svs/core/translation.h:126-134 | without checks the last pair given for an id counts, in each map |
| `Translation.OtherPairsStay` | include/svs/core/translation.h:126-134 | and ids not given keep what they had |
| `Translation.CheckedInsertContents` | include/svs/core/translation.h:126-134 | a checked insert adds exactly the given pairs and keeps the maps inverse |
| `Translation.RemapContents` | include/svs/core/translation.h:188-206 | under its two assumptions a remap keeps the maps inverse, the external ids, and all internal ids but the one that moved |
| `Translation.DeleteInternalsContents` | include/svs/core/translation.h:227-231 | a delete keeps the maps inverse, succeeds exactly for distinct known ids, and then removes exactly them |
| `Translation.DeleteExternalsContents` | include/svs/core/translation.h:253-257 | a delete by external ids keeps the maps inverse, succeeds exactly for distinct known ids, and then removes exactly them |
| `Translation.DeletedSoFar` | include/svs/core/translation.h:227-231 | a delete that throws has removed exactly the ids before the first one that is missing or was given before |
| `Translation.DeletedSoFarExternal` | include/svs/core/translation.h:253-257 | the same for external ids |
| `Translation.DeleteInternalsUnchangedIff` | include/svs/core/translation.h:227-231 | whether or not it throws, a delete leaves the table as it was exactly when there is nothing to delete or the first id is missing |
| `Translation.DeleteExternalsUnchangedIff` | include/svs/core/translation.h:253-257 | the same for external ids |
| `Translation.CheckedDeleteInternalsWholeIff` | include/svs/core/translation.h:211-232 | a checked delete either runs to the end or leaves the table as it was, exactly when the ids are distinct, which is the caller's duty, or one is missing |
| `Translation.CheckedDeleteExternalsWholeIff` | include/svs/core/translation.h:236-258 | the same for external ids |
| `Translation.RepeatedDeleteIsPartial` | include/svs/core/translation.h:211-218 | one id given twice, which breaks the caller's duty: it passes the check, and the second lookup throws with the first deletion done |
| `Translation.RunKeepsInverse` | include/svs/core/translation.h:89-258 | after every run of checked inserts, remaps and deletes the maps are mutually inverse and of one size |
| `Translation.SameSize` | include/svs/core/translation.h:65-75 | inverse maps have the same size, so the size check never throws |
| `TranslationFile.Save` | include/svs/core/translation.h:322-340 | one record per external id, in the order the map is visited |
| `TranslationFile.Load` | include/svs/core/translation.h:342-368 | opening throws exactly for an empty file; otherwise the records are inserted one after the other into an empty table |
| `TranslationFile.DecodeEncode` | include/svs/lib/readwrite.h:60-136 | an integer written and read in the same width comes back, and the stream stands behind it |
| `TranslationFile.EncodedByte` | include/svs/lib/readwrite.h:25-120 | byte b of an encoded integer counts multiples of 256 to the power of b |
| `TranslationFile.RecordLayout` | reproducibility/VLDB2024/MLVQ.py:133-148 | record k is bytes 12k to 12k+11 |
| `TranslationFile.RecordBytes` | reproducibility/VLDB2024/MLVQ.py:133-148 | byte by byte, as the script reads them: eight of the external id and four of the internal id, least significant first |
| `TranslationFile.LoadReplaysSave` | include/svs/core/translation.h:322-368 | reading the saved stream repeats the inserts in the order of writing |
| `TranslationFile.RecordsRebuild` | include/svs/core/translation.h:322-368 | the records of every table, the empty one included, rebuild both maps when they are read |
| `TranslationFile.EmptyTableIsNotLoaded` | include/svs/lib/file.h:57-59 | the empty table is saved as an empty file, which does not open for reading |
| `TranslationFile.LoadSavedRebuilds` | include/svs/core/translation.h:322-368 | for every order the map is visited in, loading what was saved returns the table, both maps of it although only one is written, if and only if the table is not empty; otherwise loading throws |
| `Prefetching.Prefetcher.constructor` | include/svs/lib/prefetch.h:92-108 | the initial state; a zero lookahead or step leaves nothing to prefetch |
| `Prefetching.Prefetcher.Call` | include/svs/lib/prefetch.h:111-152 | one call, with its nested loops and early returns, is one step of the walk over the valid indices |
| `Prefetching.Prefetcher.Skip` | include/svs/lib/prefetch.h:122-127 | the inner loop stops at the next valid index or at the end |
| `Prefetching.WalkCollects` | include/svs/lib/prefetch.h:138-150 | a walk of k items collects the next valid indices in order, and falls short only at the end |
| `Prefetching.RunKeepsInvariant` | include/svs/lib/prefetch.h:111-152 | after every number of calls the slack is what the count of prefetched items leaves of lookahead plus calls; it never underflows |
| `Prefetching.AfterCalls` | include/svs/lib/prefetch.h:73-152 | after n calls the operation was applied to exactly the first min(V, n + lookahead, n * step) valid indices, in order, once each, without the last term for step 1 once a call was made |
| `Prefetching.Disabled` | bindings/python/src/vamana_common.cpp:134-135 | a zero lookahead or step never prefetches |
| `Prefetching.StepOneIsHardRamp` | bindings/python/src/vamana_common.cpp:130-132 | step 1 runs exactly like every step beyond the lookahead, lookahead + 1 among them |
| `Timing.AccumulatedIs` | include/svs/lib/timing.h:81-108 | the accumulated data of any list of durations are their number, their sum, and bounds that occur among them |
| `Timing.Timer.PushBack` | include/svs/lib/timing.h:167-184 | the timer entered has the label given and the innermost timer above it, and is the one found there if there was one; the handle starts now; the new state is that of a push |
| `Timing.Timer.SubTimer` | include/svs/lib/timing.h:174-181 | a known label gives its timer, a new one a fresh timer with nothing accumulated |
| `Timing.Timer.PopBack` | include/svs/lib/timing.h:210-217 | the stack loses its top exactly when it is the expected timer, and is unchanged otherwise |
| `Timing.Timer.Accumulate` | include/svs/lib/timing.h:235-235 | the data are added to those of the timer |
| `Timing.Timer.TotalSubTime` | include/svs/lib/timing.h:220-226 | the sum of the total times of the immediate subtimers |
| `Timing.AutoTime.Finish` | include/svs/lib/timing.h:373-381 | only the first finish takes effect: it adds the interval to its timer and then pops that timer exactly if it is innermost, whatever went before; while the books are in order, that is exactly for the innermost handle, and the state takes one finish step |
| `Timing.PushKeeps` | include/svs/lib/timing.h:167-184 | a push keeps the tree, the path and the time bounds |
| `Timing.PushedIsLabelled` | include/svs/lib/timing.h:174-182 | a push enters the timer of its label under the innermost one and changes the place of no other |
| `Timing.SameLabelSameTimer` | include/svs/lib/timing.h:174-182 | in every run two pushes of one label under one timer enter the same timer |
| `Timing.FinishKeeps` | include/svs/lib/timing.h:373-381 | finishing the innermost handle keeps the tree, the path and the time bounds |
| `Timing.RunKeepsInv` | include/svs/lib/timing.h:151-371 | every state of every well-nested run with a clock that never goes back has the tree, the path and the time bounds |
| `Timing.NestedTimeConserved` | include/svs/lib/timing.h:151-371 | in every such state the stack is a path from the root with no timer repeated, and the children of any timer not on it account for no more than its own time |
| `LeanVec.TransformLeanvec` | include/svs/leanvec/leanvec.h:63-97 | every row is the row of the input times the matrix |
| `LeanVec.TimesOfUnit` | include/svs/leanvec/leanvec.h:75-94 | a unit vector times the matrix is a row of the matrix |
| `LeanVec.TimesOfSum` | include/svs/leanvec/leanvec.h:75-94 | the product respects sums |
| `LeanVec.TimesOfMultiple` | include/svs/leanvec/leanvec.h:75-94 | and multiples |
| `LeanVec.EntryIsInner` | include/svs/leanvec/leanvec.h:75-94 | each entry is the inner product with a column |
| `LeanVec.RemoveMeans` | include/svs/leanvec/leanvec.h:36-53 | the means are subtracted from every row once, in any order of rows |
| `LeanVec.TransformQueries` | include/svs/leanvec/leanvec.h:101-130 | L2 queries are centred and multiplied, inner-product queries only multiplied |
| `LeanVec.TransformBatch` | include/svs/leanvec/leanvec.h:217-298 | fails exactly when the reduced dimension exceeds the dimension; otherwise every row, in whatever batch it fell, is what it would be alone, centred once in PCA mode and never otherwise |
| `LeanVec.TransformRows` | include/svs/leanvec/leanvec.h:250-295 | one batch writes its own rows of the result and no others, whatever stale rows the buffers hold |
| `LeanVec.LeanDataset.Reduce` | include/svs/leanvec/leanvec.h:740-783 | fails exactly when the matrix does not reduce or is not for data of this dimension; otherwise primary rows are the reduced secondary rows, with means removed exactly when no matrices were given |
| `LeanVec.LeanDataset.Make` | include/svs/leanvec/leanvec.h:587-606 | the public constructor fails exactly when the matrices do not lead from the dimension of the secondary rows to that of the primary; otherwise it keeps what it is given, two different matrices in PCA mode included |
| `LeanVec.LeanDataset.SetDatum` | include/svs/leanvec/leanvec.h:643-665 | fails exactly on a wrong dimension, leaving the rows; otherwise one row is replaced and the dataset still reduces its secondary rows |
| `LeanVec.LeanDataset.PreprocessQueries` | include/svs/leanvec/leanvec.h:698-708 | queries are prepared according to the mode and the distance |
| `LeanVec.UnitsBecomeRows` | include/svs/leanvec/leanvec.h:698-708 | in either mode a unit datum, off the means where those are taken away, becomes a row of the data matrix, and such a query one of the query matrix |
| `LeanVec.TimesOfMinus` | include/svs/leanvec/leanvec.h:64-97 | multiplication distributes over the subtraction of means |
| `LeanVec.L2DistanceKept` | include/svs/leanvec/leanvec.h:102-120 | if the two matrices send the means to one vector, distances between centred query and centred datum are those without centring |
| `LeanVec.L2KeptIff` | include/svs/leanvec/leanvec.h:102-120 | that holds for all queries and data if and only if the two matrices send the means to one vector |
| `LeanVec.InnerProductShifted` | include/svs/leanvec/leanvec.h:122-130 | the inner product changes by a term that depends on the query alone |
| `LeanVec.RankingUnchanged` | include/svs/leanvec/leanvec.h:698-708 | in every valid dataset, PCA or not, the inner product ranks any two data as without mean removal, whatever the two matrices are; so does the distance, when the matrices send the means to one vector or no means are removed |
| `KMeans.FindNearest` | include/svs/core/kmeans.h:36-44 | the specification of the nearest centroid, whose meaning the next row and the rows of Vectors give |
| `KMeans.NearestIsFirstLeast` | include/svs/core/kmeans.h:36-44 | the nearest centroid is the first of those at the least distance; there is none exactly when no distance is below the largest float |
| `Vectors.InnerOfConcat` | include/svs/core/distance/euclidean.h:165-174 | every coordinate counts the same: the product of two vectors is the sum of the products of their parts |
| `Vectors.InnerOfOne` | include/svs/core/distance/euclidean.h:165-174 | for a single coordinate it is the product, and the distance the square of the difference |
| `Vectors.InnerOfUnit` | include/svs/core/distance/inner_product.h:126-134 | the product with a unit vector is that coordinate |
| `Vectors.InnerSymmetric` | include/svs/core/distance/inner_product.h:126-134 | the product is symmetric |
| `Vectors.DistanceAtOnePlace` | include/svs/core/distance/euclidean.h:165-174 | the distance of vectors that differ at one place is the square of that difference |
| `KMeans.GenerateAssignments` | include/svs/core/kmeans.h:107-119 | every datum gets the nearest centroid, in any order of data |
| `KMeans.AdjustCentroids` | include/svs/core/kmeans.h:122-138 | the data are assigned one after the other up to the first without a centroid, which throws |
| `KMeans.ProcessBatch` | include/svs/core/kmeans.h:97-140 | assignments are made against the centroids frozen at the start of the batch |
| `KMeans.MoveCentroid` | include/svs/core/kmeans.h:131-137 | the coordinates of one centroid all move at the rate one over its new count |
| `KMeans.AssignDatum` | include/svs/core/kmeans.h:127-137 | both counts of the cluster grow by one and only its centroid moves |
| `KMeans.AssignedConserves` | include/svs/core/kmeans.h:122-138 | count times centroid grows by exactly the sum of the data assigned |
| `KMeans.AssignedCountsEach` | include/svs/core/kmeans.h:127-129 | both counts of a cluster grow by the number of data assigned to it |
| `KMeans.AssignedCounts` | include/svs/core/kmeans.h:127-129 | the fresh counts grow by one per datum in total |
| `KMeans.RunBatches` | include/svs/core/kmeans.h:171-187 | the minibatches tile the data: the state is that of assigning all data, each against the centroids frozen at the start of its minibatch; it stops early exactly at the first datum that has no nearest among them, all before it assigned |
| `KMeans.BatchBegins` | include/svs/core/kmeans.h:171-174 | the minibatch of a datum begins at the multiple of the batch size below it |
| `KMeans.AssignedInBatches` | include/svs/core/kmeans.h:173-187 | a minibatch seen as a view of its own continues the assignment of the whole data |
| `KMeans.RunEpoch` | include/svs/core/kmeans.h:168-198 | an epoch turns its fresh counts into the running ones, or ends at a datum without a nearest centroid in the state the minibatches left |
| `KMeans.EpochCounts` | include/svs/core/kmeans.h:193-197 | after an epoch each count is the number of data the cluster got, and they sum to the size of the data |
| `KMeans.EpochMeanIff` | include/svs/core/kmeans.h:167-198 | a non-empty cluster's centroid is the exact mean of its data of the epoch if and only if the cluster entered it with no count, or its centroid was that mean before |
| `KMeans.LaterEpochMissesMean` | include/svs/core/kmeans.h:167-198 | a training on the points 0, 2 and 10 from the first two of them: in its second epoch the first cluster gets 0 and 2, and its centroid ends at 2/3 |
| `KMeans.PickCentroids` | include/svs/core/kmeans.h:151-164 | the picks are the first distinct draws; the loop ends with enough of them, at the first draw that names no datum, or not within the draws |
| `KMeans.FirstDrawsAre` | include/svs/core/kmeans.h:155-163 | the draws taken without repeats are distinct and the same as a set |
| `KMeans.FirstDrawsGrow` | include/svs/core/kmeans.h:155-163 | and stand in the order in which they are drawn |
| `KMeans.PicksNameDataIff` | include/svs/core/kmeans.h:153-163 | all picks name data if and only if the size of the data, which the distribution includes, is not among the draws |
| `KMeans.OneDrawMayMiss` | include/svs/core/kmeans.h:153-163 | with one datum, one cluster and the draw 1, the picking does not succeed |
| `KMeans.TooManyClusters` | include/svs/core/kmeans.h:155-163 | with more clusters than data no draws pick enough without naming no datum; with two more no draws are ever enough |
| `KMeans.TrainImpl` | include/svs/core/kmeans.h:142-202 | training gets past the picking exactly when some first draws make enough picks without naming no datum, and then runs its epochs with the data picked as centroids, one by one, and zero counts |
| `KMeans.Train` | include/svs/core/kmeans.h:166-202 | every epoch of a training is such a step, starting from the picked centroids with zero counts; it is cut short only by a datum without a nearest centroid |
| `KMeans.TrainingCountsAndFirstMeans` | include/svs/core/kmeans.h:167-198 | in every training the counts sum to the size of the data after each epoch, and after the first every non-empty cluster's centroid is the mean of its data |
| `Arithmetic.RoundUpCovers` | include/svs/lib/misc.h:82-84 | that many batches cover everything and all before the last are full |
| `Medioid.CountSum.constructor` | include/svs/core/medioid.h:50-52 | an empty sum |
| `Medioid.CountSum.PlusEquals` | include/svs/core/medioid.h:71-75 | counts and sums are added, even to itself |
| `Medioid.CountSum.Add` | include/svs/core/medioid.h:77-82 | one more datum is counted and added |
| `Medioid.CountSum.Finish` | include/svs/core/medioid.h:84-94 | no mean exactly for an empty sum; otherwise count times each coordinate of the mean is that coordinate of the sum |
| `Medioid.OpPairwise` | include/svs/core/medioid.h:176-213 | the recursive sum equals one left-to-right sum of the data kept, for every range and threshold from one up |
| `Medioid.LinearSplits` | include/svs/core/medioid.h:186-199 | the sum of a range is the sum of its two parts, wherever it is cut |
| `Medioid.LinearCountsKept` | include/svs/core/medioid.h:186-199 | a pass counts the indices kept and adds up their coordinates |
| `Medioid.PairwiseStopsIff` | include/svs/core/medioid.h:186-195 | halving makes every range it is applied to shorter if and only if the threshold is at least one |
| `Medioid.RunChunks` | include/svs/core/medioid.h:245-254 | whichever thread takes which chunk, in whatever order, the threads' sums add up to those of the chunks |
| `Medioid.ComputeMedioid` | include/svs/core/medioid.h:234-280 | there is no mean exactly when nothing is kept; otherwise the number of data kept times each coordinate is the sum of that coordinate over them, for any number of threads and chunk size |
| `Medioid.FindMedioid` | include/svs/core/medioid.h:287-339 | the result is a datum kept and nearest to that mean, or none exactly when none is kept within the largest float |
| `Offsets.Offset` | include/svs/lib/array.h:77-87 | the loop from the fastest dimension computes the row-major offset |
| `Offsets.DefaultStrides` | include/svs/lib/array.h:48-59 | the stride of a dimension is the size of the sub-arrays it steps over |
| `Offsets.OffsetIsDotWithStrides` | include/svs/lib/array.h:48-87 | the offset is the inner product of indices and default strides |
| `Offsets.OffsetOfUnravel` | include/svs/lib/array.h:77-87 | every number below the size is the offset of some indices in bounds |
| `Offsets.UnravelOfOffset` | include/svs/lib/array.h:77-87 | offsets of indices in bounds are below the size and determine the indices |
| `Offsets.OffsetsDistinct` | include/svs/lib/array.h:77-87 | two elements share an offset exactly when they are the same |
| `Offsets.OffsetsOrdered` | include/svs/lib/array.h:77-87 | elements lie in the lexicographic order of their indices |
| `Offsets.Slice` | include/svs/lib/array.h:323-326 | a row as start and length |
| `Offsets.SpanIsRow` | include/svs/lib/array.h:323-332 | the span of a row covers exactly the offsets of its elements, consecutively and inside the array |
| `Offsets.RowsTile` | include/svs/lib/array.h:176-178 | every offset below the size lies in the span of exactly one row |
| `Float16.NormalRoundTrip` | include/svs/lib/float16.h:48-68 | within the normal range a pattern comes back with the sign, exponent and ten leading fraction bits of the pattern plus half a unit |
| `Float16.RoundTrip` | include/svs/lib/float16.h:48-68 | every pattern: what comes back, as a number without sign, is zero, the least normal half, the rounded pattern cut to ten fraction bits or the saturated one, with the sign of the rounded pattern |
| `Float16.SignKeptIff` | include/svs/lib/float16.h:59-62 | rounding flips the sign exactly for the patterns, all of them not numbers, within half a unit of the end |
| `Float16.SignFlips` | include/svs/lib/float16.h:48-68 | those patterns come back as zeros of the other sign |
| `Float16.DecodedRoundTrip` | include/svs/lib/float16.h:48-68 | encoding a decoded half returns the same bits when its exponent field is not zero, and a zero of the same sign otherwise |
| `Float16.EncodeInOrder` | include/svs/lib/float16.h:57-68 | encoding keeps the order of all magnitudes whose sign is kept, from the denormal halves to the saturated one |
| `Float16.EncodeNumber` | include/svs/lib/float16.h:57-68 | the half of every pattern, as a number: the closed form of the four branches of the encoder |
| `Float16.DecodeNumber` | include/svs/lib/float16.h:48-55 | the number of every decoded half |
| `Float16.DecodeIsExact` | include/svs/lib/float16.h:48-55 | a half with a nonzero exponent decodes to the value IEEE 754 gives it, saturated ones included as the binade above |
| `Float16.RoundedNumber` | include/svs/lib/float16.h:59-59 | adding half a unit to the pattern adds it to the number, exponent included, when the sign is kept |
| `Float16.RoundTripInOrder` | include/svs/lib/float16.h:48-68 | the round trip keeps the order of all magnitudes whose sign is kept |
| `Float16.ValuesInOrder` | include/svs/lib/float16.h:48-68 | the round trip keeps the order of the values of all patterns of either sign whose sign is kept: all finite numbers and the infinities among them |
| `Float16.NearestEvenIff` | include/svs/lib/float16.h:58-59 | adding half a unit and truncating agrees with rounding to nearest even if and only if the pattern is no tie above an even neighbour |
| `Float16.ErrorBound` | include/svs/lib/float16.h:48-68 | within the normal range the number that comes back is within 2^(E-11) of the number of exponent E that went in |
| `Float16.DenormalErrorBound` | include/svs/lib/float16.h:57-68 | below the normal range the half encoded stands for a number within half of the least half |
| `Float16.KnownPatterns` | include/svs/lib/float16.h:48-68 | one and minus two, encoded and decoded |
| `Float16.LargestFloat` | include/svs/lib/type_traits.h:70-76 | the largest finite pattern stands for the bound the sentinel uses |
| `Float16.DenormalizedBits` | include/svs/lib/float16.h:64-65 | the denormal branch stays below the least normal half, except where it rounds up to it |
| `Uuid.AsciiHexToByte` | include/svs/lib/uuid.h:40-50 | defined exactly on hexadecimal digits, with values below 16 |
| `Uuid.NibbleToAsciiHex` | include/svs/lib/uuid.h:61-64 | a lower-case digit that converts back |
| `Uuid.AsciiOctetToByte` | include/svs/lib/uuid.h:66-68 | defined exactly on two hexadecimal digits |
| `Uuid.ByteToAsciiHex` | include/svs/lib/uuid.h:70-75 | two digits that convert back to the byte |
| `Uuid.DigitsAre` | include/svs/lib/uuid.h:40-64 | which digit stands for which value |
| `Uuid.MasksAreRemainders` | include/svs/lib/uuid.h:66-75 | the shifts and masks on bytes agree with the sums, quotients and remainders the model uses |
| `Uuid.HexOfOctet` | include/svs/lib/uuid.h:66-75 | two digits read and written come back in lower case |
| `Uuid.PlacesTile` | include/svs/lib/uuid.h:147-187 | every place of the text is a hyphen's or one of the two digits of exactly one byte |
| `Uuid.PlacesAre` | include/svs/lib/uuid.h:147-187 | where the digits of each byte begin |
| `Uuid.Parse` | include/svs/lib/uuid.h:147-187 | accepts exactly the texts of 36 characters with hyphens at 8, 13, 18 and 23 and hexadecimal digits elsewhere, and stores the bytes from the last in the text to the first; the length is checked first, then the first place that does not fit decides the error |
| `Uuid.Str` | include/svs/lib/uuid.h:189-214 | the text of the identifier |
| `Uuid.TextByPlace` | include/svs/lib/uuid.h:189-214 | the text shows the bytes from the last stored to the first, as lower-case digits at their places |
| `Uuid.BytesOfText` | include/svs/lib/uuid.h:147-214 | every identifier prints to a well-formed text that parses to the same bytes |
| `Uuid.TextOfBytes` | include/svs/lib/uuid.h:147-214 | a well-formed text parsed and printed is its lower-case form |
| `Uuid.Generate` | include/svs/lib/uuid.h:103-126 | byte 9 carries the version and byte 7 the variant, so the text shows version 4 and the variant bits; all other bits are the draws modulo 256 |
| `Uuid.VersionAndVariantPrint` | include/svs/lib/uuid.h:114-125 | the version prints as 4 at place 14, and the variant as 8, 9, a or b at place 19, exactly when the bytes carry those bits |
| `Checkpointing.AppendOrCreate` | benchmark/src/benchmark.cpp:32-48 | throws exactly when the key holds something that is no array; otherwise the key holds the reports it held, or none, with the new one at the end, and every other key what it held |
| `Checkpointing.AtomicSave` | benchmark/src/benchmark.cpp:17-30 | until the move only the temporary file differs, at every state of the disk; then the file is what the save publishes and the temporary file is gone: the whole table, something cut short if a write failed, or a file left over if the stream did not open; it throws exactly when the directory is missing, the move fails, or there is nothing to move |
| `Checkpointing.TempIsAnother` | benchmark/src/benchmark.cpp:18-21 | the temporary file is never the file itself |
| `Checkpointing.TempPathIs` | benchmark/src/benchmark.cpp:18-21 | the temporary name has `_temp` between the stem and the extension, which begins at the last dot unless that is the first character |
| `Checkpointing.CompleteSaveIsWhole` | benchmark/src/benchmark.cpp:17-30 | a save that fares well publishes its table, and until then the file shows what it did |
| `Checkpointing.OtherSaves` | benchmark/src/benchmark.cpp:17-30 | what the other fates leave in place |
| `Checkpointing.CutShortIsPublished` | benchmark/src/benchmark.cpp:25-29 | a write that fails before the move replaces a whole table by a cut-short one, and nothing is thrown |
| `Checkpointing.Checkpoint.Save` | benchmark/include/svs-benchmark/benchmark.h:230-247 | without a file nothing happens; an append that fails touches nothing; otherwise the copy with one more report is saved |
| `Checkpointing.RunJob` | benchmark/include/svs-benchmark/executable.h:124-132 | the report grows by one measurement at a time and is saved each time after all earlier results; the job ends with its report exactly if it and its appends do not fail and no save throws |
| `Checkpointing.SaveJudged` | benchmark/src/benchmark.cpp:25-29 | how one save changes the verdict on a run: every state shows a stage of the run, and not another content, exactly if every save published its own table or nothing; and, for a file that was whole or missing before, it is old or whole at every state exactly if all that was published was written in full |
| `Checkpointing.OneMoreSave` | benchmark/src/benchmark.cpp:17-30 | a save leads from one stage to the next through states that still show the earlier one, and keeps the verdict |
| `Checkpointing.RunJobs` | benchmark/include/svs-benchmark/executable.h:134-169 | a run that is not checked or has no file changes nothing on disk; otherwise every state of the disk fits a stage of the run, stages never go back, other files stay, the verdict holds in both directions for the saves made, and the run completes exactly when all jobs and appends do and no save throws |
| `Checkpointing.AppendedResults` | benchmark/include/svs-benchmark/executable.h:156-163 | appending a report gives the next results, except under the name of the start time, which throws |
| `Checkpointing.ResultsHold` | benchmark/include/svs-benchmark/executable.h:153-163 | the results after k jobs hold the time of the start and, under the name, the reports of those jobs in order |
| `Checkpointing.FinalHolds` | benchmark/include/svs-benchmark/executable.h:165-168 | the last table holds these and the time of the end, unless the name of the run has taken its key |
| `Checkpointing.SavedStays` | benchmark/include/svs-benchmark/executable.h:156-167 | results once saved are in the file at every later state that shows a stage of the run, in order |
| `Checkpointing.ShownAndOneMore` | benchmark/include/svs-benchmark/executable.h:153-168 | at every such state the file is what was there before the run, or a whole table with the results shown in order and at most one report more |
| `Checkpointing.GrowingReportShown` | benchmark/include/svs-benchmark/build.h:378-392 | while a job runs, the one report more is a prefix of what the job measures |

## Left out

- Vamana graph search, consolidation, LVQ packing, inverted and flat indexes, and the thread pool itself: not part of this model; only the contracts named above are used.
- File, TOML, memory mapping, Python binding and command-line code, save and load of everything but the id table, schema and version checks of the id table.
- SIMD, prefetch instructions, huge pages, NUMA, logging, and the conversion instructions of newer processors.
- Rounding of `float` and `double` sums and products in k-means, the mean, LeanVec and the distances.
- Wrap-around of `size_t` counters, offsets and sums, and of nanosecond totals.
- Inputs outside the intended domain: a bucket, minibatch, chunk or buffer of size zero, a linear threshold of zero (except for `Medioid.PairwiseStopsIff`) and internal ids above 32 bits in the identity table.
- TotalOrder, `equal` and the hash helpers of neighbors, and `set_distance` and `set_visited`: not used by the merge.
- CountVariance: it differs from CountSum only in what one datum adds.
- Stateful maps and predicates of the sums and of the prefetcher: both are functions of their argument here.
- Timer.clear, printing of timers, and timers started from a subtimer of a running one.
- The mean squared error callback of k-means.
- Timing.AutoTime.Finish: after a finish out of order it states the time added and the stack, not the tree bounds, which no longer hold.
- Checkpointing.AtomicSave: which bytes a cut-short file holds is not modelled, nor a text that happens to be another whole table.
- LeanVec.LeanDataset.Reduce: for matrices that do not fit the data the exception is modelled, not the product computed before it.
- Float16.ValuesInOrder: what is not a number counts as what its fields say, as long as its sign is kept.
