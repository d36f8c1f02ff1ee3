# Verified models of the point-cloud codec's support code

The codec under `mpeg-pcc-tmc2` leans on four small pieces of support code. This project models
them in Dafny and proves what the rest of the codec relies on.

**The kd-tree (nanoflann).** Building permutes an index array in place (`PlaneSplit`, `BuildTree`);
searching walks the tree with an incrementally maintained lower bound that is updated and restored
in place (`SearchTree`); answers are collected by bounded insertion into the caller's arrays or by
appending (`ResultSets`). The main result (`Answers`, `KdTree`, `VectorAdaptor`) is that the pruned
search agrees with brute force:

* exact k-nearest search returns the first distances of the ascending brute-force list, with valid
  and pairwise distinct indices, for every dataset, query, k >= 1 and leaf size >= 1; the indices
  are those of that list wherever distances do not tie;
* approximate search is off by at most the factor 1 + eps, rank by rank;
* exact radius search returns every point inside the radius once and no other, and its sorted
  output is one fixed list that does not depend on the tree.

The proof rests on the build invariant (`Trees.WellFormed`), the partition invariant
(`PlaneSplit.ThreeWay`), the arithmetic invariant of the bound (`SearchTree.LowerBound`,
`SearchTree.BoundBelowDistance`), the insertion invariant (`ResultSets.KnnResultSet.Valid`) and a
counting argument that turns "whatever was skipped is too far" into a statement about ranks
(`Entries.RankByCount`, `Answers.AnswersRanked`). A leaf compares its points with a bound that was
read in front of the loop; `SearchTree.StaleLeafBound` says exactly when that loses nothing.
`Persistence` proves that saving and loading are inverse, in both directions, and `KdTree` that a
loaded index answers every query like the saved one; `PooledAllocation` proves that the chunks of
the pool never overlap and that its counters account for every byte.

**MD5 (libmd5).** `Rfc1321` is the algorithm of RFC 1321, sections 3.1 to 3.5, as functions on whole
messages. `Md5` is the unrolled compression function, `Md5Streaming` the buffered context. However a
message is cut into updates, the digest is that of the standard.

**Options (program_options_lite).** `ConfigScan` reads "name : value" lines and is proved to accept
exactly the lines that consist of a name, a value, padding, a colon and possibly a comment.
`ArgvScan` assigns every command-line argument one role. `Options` is the name lookup both use.

Coordinates and distances are exact reals, indices and counts are natural numbers. Unsigned
wraparound is modelled where the code depends on it: in the MD5 counter and in the size arithmetic
of the pool. The largest representable distance, which the code uses as "no bound yet", is the
parameter `sentinel`; no theorem assumes that distances stay below it, the number of answers is
stated in terms of how many do. Where a loop is proved in several pieces (a scan of `planeSplit`,
the second half of `searchLevel`, four steps of the compression function), each piece is a method
of its own with the contract of that piece.

The per-axis term of a metric is a function value with two assumed properties (`Metrics.Sound`);
`Metrics.ShippedMetricsAreSound` proves them for all three distance functors. The accuracy of an
approximate search is likewise a pair of functions (`Accuracies`), which `Accuracies.TimesLawful`
instantiates with multiplication by and division by 1 + eps.

The contracts of the main operations are also stated in terms of their arguments and results alone
(`KnnSearch`, `RadiusSearch`, `MiddleSplit`, `StorePair`, `ScanArgv`, `LinesWritten`), and the
definitions that specification and code share are fixed by laws of their own: the metrics by
algebraic laws, the byte order and the constants of MD5 by value laws and by two examples of
appendix A.5 of RFC 1321 (`Rfc1321Examples`), the shapes of arguments and the characters of lines by
the strings themselves.

Where a comment of the repository disagrees with its code, the model follows the code: the comment
in `parseGNU` allows "--option arg", but the code takes a long option without '=' as set to "1" and
leaves the next argument alone.

`dafny verify dfyconfig.toml` checks the whole project.

## Model

| member | source | states |
|---|---|---|
| Metrics.ShippedMetricsAreSound | mpeg-pcc-tmc2/dependencies/nanoflann/nanoflann.hpp:293-372 | the per-axis terms of all three functors are non-negative and grow with the distance on either side, which is all the tree search needs |
| Metrics.WayLaws | mpeg-pcc-tmc2/dependencies/nanoflann/nanoflann.hpp:293-296 | the L1 term is the length of the way between two coordinates: symmetric, additive along the way, and the coordinate itself from zero |
| Metrics.SquareLaws | mpeg-pcc-tmc2/dependencies/nanoflann/nanoflann.hpp:318-372 | the term of both L2 functors is the square of that length: translation invariant, 1 for a unit, subject to the parallelogram law |
| Metrics.DistLaws | mpeg-pcc-tmc2/dependencies/nanoflann/KDTreeVectorOfVectorsAdaptor.h:126-133 | a distance is nothing without axes, the term on one axis, and additive over groups of axes |
| Metrics.SamePoint | mpeg-pcc-tmc2/dependencies/nanoflann/nanoflann.hpp:267-372 | with the shipped functors exactly equal points are at distance zero |
| Metrics.PartialMonotone | mpeg-pcc-tmc2/dependencies/nanoflann/nanoflann.hpp:315-340 | a sum over fewer axes is a lower bound of the sum over more |
| Metrics.PlainDistance | mpeg-pcc-tmc2/dependencies/nanoflann/KDTreeVectorOfVectorsAdaptor.h:126-133 | the loop computes the axis-by-axis sum |
| Metrics.UnrolledDistance | mpeg-pcc-tmc2/dependencies/nanoflann/nanoflann.hpp:267-340 | without a limit the four-at-a-time loop computes the plain sum for every dimension; with a limit it may stop early, but comparing its result with the limit always answers as the plain sum would |
| Entries.SlotUnique | mpeg-pcc-tmc2/dependencies/nanoflann/nanoflann.hpp:110-131 | there is only one place for a new entry: behind everything not farther, before everything farther |
| Entries.StableSortMeaning | mpeg-pcc-tmc2/dependencies/nanoflann/nanoflann.hpp:110-131 | repeated insertion yields an ascending permutation in which entries at equal distance keep their order of arrival |
| Entries.NearestStep | mpeg-pcc-tmc2/dependencies/nanoflann/nanoflann.hpp:110-131 | inserting into the truncated list and truncating again gives the same list as sorting everything and truncating once |
| Entries.IgnoredIffNotNearer | mpeg-pcc-tmc2/dependencies/nanoflann/nanoflann.hpp:110-136 | a full result set is unchanged by one more point if and only if that point is not nearer than the reported bound |
| Entries.WorstFalls | mpeg-pcc-tmc2/dependencies/nanoflann/nanoflann.hpp:133-136 | while everything offered lies below the sentinel, one more point never raises the reported bound |
| Entries.FullBoundFalls | mpeg-pcc-tmc2/dependencies/nanoflann/nanoflann.hpp:133-136 | whatever is offered to a full set, above the sentinel or not, its bound does not rise |
| Entries.SortWithin | mpeg-pcc-tmc2/dependencies/nanoflann/nanoflann.hpp:110-131 | the stable sort of what lies below a bound is the front of the stable sort of everything |
| Entries.StaleBound | mpeg-pcc-tmc2/dependencies/nanoflann/nanoflann.hpp:1211-1221 | for any history and any list of further offers: comparing them all with the bound read in front of the first leaves the set as if all had been offered, if and only if all of them lie below the sentinel or enough entries do to fill the set (a set that is full on entry always qualifies) |
| Entries.RankByCount | mpeg-pcc-tmc2/dependencies/nanoflann/nanoflann.hpp:925-931 | the i-th smallest distance is at least a value exactly when at most i distances are below it |
| Entries.SortInOrderMeaning | mpeg-pcc-tmc2/dependencies/nanoflann/nanoflann.hpp:194-201 | sorting by (distance, index) gives an ordered permutation |
| Entries.OrderedListUnique | mpeg-pcc-tmc2/dependencies/nanoflann/nanoflann.hpp:194-201 | only one list of given contents is in that order |
| Entries.WithinMeaning | mpeg-pcc-tmc2/dependencies/nanoflann/nanoflann.hpp:165-169 | a radius result set holds exactly the offered entries strictly inside the radius, none twice if none was offered twice |
| ResultSets.KnnResultSet.constructor | mpeg-pcc-tmc2/dependencies/nanoflann/nanoflann.hpp:86-97 | a new set is empty and its last slot, if there is one, holds the sentinel |
| ResultSets.KnnResultSet.OpenSlot | mpeg-pcc-tmc2/dependencies/nanoflann/nanoflann.hpp:110-124 | the in-place loop leaves everything up to the slot alone, shifts everything behind it up by one and drops what falls off |
| ResultSets.KnnResultSet.AddPoint | mpeg-pcc-tmc2/dependencies/nanoflann/nanoflann.hpp:110-131 | after any run of calls the arrays hold the first min(k, offered) entries of the stable sort of everything offered |
| ResultSets.KnnResultSet.Opened | mpeg-pcc-tmc2/dependencies/nanoflann/nanoflann.hpp:110-131 | what the loop and the final write leave in the two arrays, read as a list, is the new truncated stable sort |
| ResultSets.KnnResultSet.WorstDist | mpeg-pcc-tmc2/dependencies/nanoflann/nanoflann.hpp:133-136 | the sentinel until the set is full, the k-th smallest offered distance afterwards |
| ResultSets.KnnResultSet.Full | mpeg-pcc-tmc2/dependencies/nanoflann/nanoflann.hpp:104-107 | true exactly when at least k points were offered |
| ResultSets.RadiusResultSet.AddPoint | mpeg-pcc-tmc2/dependencies/nanoflann/nanoflann.hpp:165-169 | appends exactly the points strictly inside the radius |
| ResultSets.BoundFalls | mpeg-pcc-tmc2/dependencies/nanoflann/nanoflann.hpp:1211-1221 | for either kind of set, offering points below its ceiling never raises its bound, and the bound never exceeds the ceiling |
| PointSets.Extremes | mpeg-pcc-tmc2/dependencies/nanoflann/nanoflann.hpp:1092-1101 | the extreme coordinates of a range bound every point of it and are attained by points of it |
| PointSets.RearrangedFrom | mpeg-pcc-tmc2/dependencies/nanoflann/nanoflann.hpp:1154-1181 | what a rearrangement leaves in its range stood in that range before |
| PlaneSplit.ScanDown | mpeg-pcc-tmc2/dependencies/nanoflann/nanoflann.hpp:1159-1161 | the unsigned counter never passes zero, and everything scanned over belongs behind the cut |
| PlaneSplit.PartitionPass | mpeg-pcc-tmc2/dependencies/nanoflann/nanoflann.hpp:1154-1181 | one of the two in-place passes: it terminates, permutes only its own part, and puts everything that belongs to the front there |
| PlaneSplit.Split | mpeg-pcc-tmc2/dependencies/nanoflann/nanoflann.hpp:1145-1181 | a permutation of the range with [0,lim1) below the cut, [lim1,lim2) on it and [lim2,count) above it, coordinate by coordinate |
| PlaneSplit.ComputeMinMax | mpeg-pcc-tmc2/dependencies/nanoflann/nanoflann.hpp:1092-1101 | the extreme coordinates of the range on one axis |
| PlaneSplit.ChooseAxis | mpeg-pcc-tmc2/dependencies/nanoflann/nanoflann.hpp:1105-1126 | of the axes on which the box is within EPS of its greatest width, the first one on which the points are spread the most |
| PlaneSplit.BestAxisMeaning | mpeg-pcc-tmc2/dependencies/nanoflann/nanoflann.hpp:1105-1126 | told without helpers: axis 0 for a flat box, otherwise the first axis of greatest spread among those more than 0.99999 times as wide as the widest |
| PlaneSplit.LimitsInside | mpeg-pcc-tmc2/dependencies/nanoflann/nanoflann.hpp:1127-1137 | with the cut inside the range of the points, not everything is below it and not everything above it |
| PlaneSplit.NearestCut | mpeg-pcc-tmc2/dependencies/nanoflann/nanoflann.hpp:1139-1141 | the valid cuts are the positions from lim1 to lim2, and of these the chosen one is nearest to the middle: none lies on the other side of it |
| PlaneSplit.ChoosePlane | mpeg-pcc-tmc2/dependencies/nanoflann/nanoflann.hpp:1103-1134 | the cut is the point of the range of the points that is nearest to the middle of the box on the best axis: where it is not the middle, it is the end of the range on that side |
| PlaneSplit.MiddleSplit | mpeg-pcc-tmc2/dependencies/nanoflann/nanoflann.hpp:1103-1142 | for two or more points and any box: 0 < index < count, nothing before index lies above the cut, nothing from it on lies below, and index is as near to the middle as that allows |
| Trees.WellFormedFrame | mpeg-pcc-tmc2/dependencies/nanoflann/nanoflann.hpp:1068-1077 | building the second child does not disturb the first |
| Trees.SplitBounds | mpeg-pcc-tmc2/dependencies/nanoflann/nanoflann.hpp:1076-1077 | every point of child1 is at most divlow <= divhigh is at most every point of child2 on the split axis, and both bounds are attained |
| Trees.NodeBudget | mpeg-pcc-tmc2/dependencies/nanoflann/nanoflann.hpp:1041-1089 | a tree over n points has at most 2n - 1 nodes |
| Trees.LeavesTile | mpeg-pcc-tmc2/dependencies/nanoflann/nanoflann.hpp:1046-1049 | the leaf ranges, left to right, cut the range into consecutive pieces of 1 to leaf_max_size positions |
| Trees.TilesCover | mpeg-pcc-tmc2/dependencies/nanoflann/nanoflann.hpp:1046-1049 | every position of the range lies in exactly one leaf, of at most leaf_max_size positions |
| Trees.NodesAndLeaves | mpeg-pcc-tmc2/dependencies/nanoflann/nanoflann.hpp:1041-1089 | a tree has one inner node less than leaves |
| BuildTree.LeafBox | mpeg-pcc-tmc2/dependencies/nanoflann/nanoflann.hpp:1051-1061 | the box of a leaf is exact |
| BuildTree.ComputeBoundingBox | mpeg-pcc-tmc2/dependencies/nanoflann/nanoflann.hpp:1009-1031 | the box of the dataset is exact |
| BuildTree.SidesStaySeparated | mpeg-pcc-tmc2/dependencies/nanoflann/nanoflann.hpp:1063-1077 | the two sides of a cut stay separated by it after both were rearranged by the recursive calls |
| BuildTree.DivideTree | mpeg-pcc-tmc2/dependencies/nanoflann/nanoflann.hpp:1041-1089 | terminates, permutes vind only inside [left,right), leaves the exact box of the range in bbox and returns a well-formed tree over exactly that range |
| SearchTree.BoundBelowDistance | mpeg-pcc-tmc2/dependencies/nanoflann/nanoflann.hpp:1247-1252 | the sum of dists is at most the distance of every point below the node |
| SearchTree.CutUpdate | mpeg-pcc-tmc2/dependencies/nanoflann/nanoflann.hpp:1230-1249 | putting the distance to the separating plane in place of one axis contribution keeps the bound valid for the far child |
| SearchTree.Descend | mpeg-pcc-tmc2/dependencies/nanoflann/nanoflann.hpp:1224-1249 | which side of the split the query lies on, by the sign of diff1 + diff2, decides correctly for which child the updated bound is valid |
| SearchTree.LowSideMeaning | mpeg-pcc-tmc2/dependencies/nanoflann/nanoflann.hpp:1230-1238 | the nearer child is the low one exactly if the query lies below the middle between divlow and divhigh |
| SearchTree.VisitPruned | mpeg-pcc-tmc2/dependencies/nanoflann/nanoflann.hpp:1250-1252 | every point below a pruned child is out of reach: 1 + eps times its distance is at least the bound |
| SearchTree.ReachMeaning | mpeg-pcc-tmc2/dependencies/nanoflann/nanoflann.hpp:1250 | a child is visited exactly if some distance at or above its bound, scaled by 1 + eps, is still within the worst distance |
| SearchTree.VisitLeaf | mpeg-pcc-tmc2/dependencies/nanoflann/nanoflann.hpp:1211-1221 | a leaf offers each of its points at most once, and what it does not offer is at least as far as the final bound, although the bound is read only once |
| SearchTree.StaleLeafBound | mpeg-pcc-tmc2/dependencies/nanoflann/nanoflann.hpp:1211-1221 | for every leaf, history and kind of result set: the loop with its early-read bound drops only points that insertion would drop, exactly if the set is full on entry, becomes full with the points below the sentinel, or meets no distance at or above the sentinel; a radius set always qualifies |
| SearchTree.StaleLeafBoundFails | mpeg-pcc-tmc2/dependencies/nanoflann/nanoflann.hpp:1211-1221 | outside that condition it does drop more: a single point at the sentinel is never offered to an empty set of capacity 1 that would have kept it |
| SearchTree.SearchLevel | mpeg-pcc-tmc2/dependencies/nanoflann/nanoflann.hpp:1207-1254 | called with mindistsq equal to the sum of dists and dists bounding every point below the node, it calls itself only so, restores dists, offers no point twice and skips only points out of reach; what it offers is what the by-value walk offers |
| SearchTree.ComputeInitialDistances | mpeg-pcc-tmc2/dependencies/nanoflann/nanoflann.hpp:1183-1200 | dists is the distance to the root box axis by axis, its sum is returned, and it bounds every point |
| SearchTree.BoxCostMeaning | mpeg-pcc-tmc2/dependencies/nanoflann/nanoflann.hpp:1188-1197 | the initial contribution of an axis is the least cost of a coordinate inside the box, nothing if the query is inside |
| Accuracies.TimesLawful | mpeg-pcc-tmc2/dependencies/nanoflann/nanoflann.hpp:908 | scaling by 1 + eps never brings a distance nearer, and a scaled distance is below a bound exactly when the distance is below the bound divided by 1 + eps |
| Answers.RearrangedIdentity | mpeg-pcc-tmc2/dependencies/nanoflann/nanoflann.hpp:970-976 | a rearrangement of 0..n-1 lists every index exactly once |
| Answers.VisitScreens | mpeg-pcc-tmc2/dependencies/nanoflann/nanoflann.hpp:1207-1254 | after a whole-tree visit the offered entries are distinct brute-force candidates and every missing candidate is out of reach |
| Answers.OfferedCount | mpeg-pcc-tmc2/dependencies/nanoflann/nanoflann.hpp:925-931 | how many points are offered, between the candidates safely below the sentinel and those below it |
| Answers.AnswersRanked | mpeg-pcc-tmc2/dependencies/nanoflann/nanoflann.hpp:908-915 | rank by rank, the answer is no nearer than the true one and no farther than 1 + eps times it |
| Answers.KnnFromVisit | mpeg-pcc-tmc2/dependencies/nanoflann/nanoflann.hpp:1207-1254 | pruned k-nearest search agrees with brute force at any accuracy: valid distinct indices, ascending distances, ranks within 1 + eps, length fixed by the candidates |
| Answers.ExactKnn | mpeg-pcc-tmc2/dependencies/nanoflann/nanoflann.hpp:925-931 | with eps = 0 the distances are the first ones of the ascending brute-force list and, with all distances below the sentinel, there are min(k, n) of them |
| Answers.ExactIndices | mpeg-pcc-tmc2/dependencies/nanoflann/nanoflann.hpp:925-931 | the returned index, too, is the one of the sorted brute-force list at every rank whose distance no other candidate shares |
| Answers.NoneNearer | mpeg-pcc-tmc2/dependencies/nanoflann/nanoflann.hpp:1207-1254 | at any accuracy, no point that is left out is nearer, when scaled, than any answer, or below the sentinel while there was room |
| Answers.RadiusFromVisit | mpeg-pcc-tmc2/dependencies/nanoflann/nanoflann.hpp:945-964 | every answer lies inside the radius and appears once, and every point whose scaled distance lies inside it is an answer |
| Answers.ExactRadius | mpeg-pcc-tmc2/dependencies/nanoflann/nanoflann.hpp:945-952 | with eps = 0 the sorted answer equals the sorted brute-force answer, so it does not depend on the tree |
| Answers.SortKeepsRadiusAnswer | mpeg-pcc-tmc2/dependencies/nanoflann/nanoflann.hpp:949-950 | sorting neither loses nor repeats an answer |
| KdTree.KdTreeIndex.BuildIndex | mpeg-pcc-tmc2/dependencies/nanoflann/nanoflann.hpp:858-866 | the index is built over a permutation of all points, with at most 2n - 1 nodes and leaves that tile it; an empty dataset leaves no tree |
| KdTree.KdTreeIndex.FindNeighbors | mpeg-pcc-tmc2/dependencies/nanoflann/nanoflann.hpp:901-915 | no search of an empty dataset, an error for an index that was not built, otherwise one visit of the whole tree |
| KdTree.KdTreeIndex.FindNearest | mpeg-pcc-tmc2/dependencies/nanoflann/nanoflann.hpp:901-915 | approximate k-nearest search: every distance found is between the true one of its rank and 1 + eps times it; point by point, the arrays hold distinct valid indices with their distances, ascending, and no point left out is nearer when scaled by 1 + eps |
| KdTree.KdTreeIndex.KnnSearch | mpeg-pcc-tmc2/dependencies/nanoflann/nanoflann.hpp:925-931 | point by point: the arrays hold distinct valid indices with their distances, ascending and below the sentinel, and no point left out is nearer than any of them, or below the sentinel unless there are k; by rank, the exact brute-force answer; and a function of the saved state, the data and the query, down to the order of ties; an empty dataset yields 0 for any k |
| KdTree.KdTreeIndex.RadiusSearchCallback | mpeg-pcc-tmc2/dependencies/nanoflann/nanoflann.hpp:960-964 | the collected points are the radius answer |
| KdTree.KdTreeIndex.RadiusSearch | mpeg-pcc-tmc2/dependencies/nanoflann/nanoflann.hpp:945-952 | point by point: distinct valid indices with their distances inside the radius, every point that is inside even when scaled by 1 + eps, and, sorted, nearest first and by index where distances tie; a function of the saved state; exact and sorted, the brute-force list |
| KdTree.KdTreeIndex.SaveIndex | mpeg-pcc-tmc2/dependencies/nanoflann/nanoflann.hpp:1261-1269 | appends the size, the dimension, the box, the leaf size, the index array and the records of the tree, in this order |
| KdTree.KdTreeIndex.LoadIndex | mpeg-pcc-tmc2/dependencies/nanoflann/nanoflann.hpp:1275-1283 | succeeds exactly on the records of some index, takes over that whole state and reads nothing behind it; a failure leaves exactly the fields in front of the failing record overwritten |
| KdTree.SaveThenLoad | mpeg-pcc-tmc2/dependencies/nanoflann/nanoflann.hpp:1256-1283 | an index over the same data that is loaded from what another one saved, with anything behind it in the stream, is valid and in the same state, and what was behind is left unread |
| KdTree.SameNearest | mpeg-pcc-tmc2/dependencies/nanoflann/nanoflann.hpp:925-931 | two indices over the same data in the same state, as after saving and loading, fill the caller's arrays identically for every k-nearest query |
| KdTree.SameWithin | mpeg-pcc-tmc2/dependencies/nanoflann/nanoflann.hpp:945-952 | and return the same list for every radius query, sorted or not, at any accuracy |
| Persistence.ParseSaved | mpeg-pcc-tmc2/dependencies/nanoflann/nanoflann.hpp:984-1006 | a saved tree followed by any suffix is read back as the same tree and leaves exactly the suffix |
| Persistence.ParsedWasSaved | mpeg-pcc-tmc2/dependencies/nanoflann/nanoflann.hpp:996-1006 | whatever reads as a tree is that tree, saved |
| Persistence.SavedInOrder | mpeg-pcc-tmc2/dependencies/nanoflann/nanoflann.hpp:984-993 | the root is written first, and the leaves from left to right |
| Persistence.SaveTree | mpeg-pcc-tmc2/dependencies/nanoflann/nanoflann.hpp:984-993 | appends the pre-order records of the tree |
| Persistence.LoadTree | mpeg-pcc-tmc2/dependencies/nanoflann/nanoflann.hpp:996-1006 | succeeds exactly if the records start with a tree, returns it and stops behind it |
| Persistence.LoadedFieldsMeaning | mpeg-pcc-tmc2/dependencies/nanoflann/nanoflann.hpp:1275-1283 | of the fields in front of the tree, exactly those whose record and all in front of it could be read are overwritten |
| Persistence.IndexRoundTrip | mpeg-pcc-tmc2/dependencies/nanoflann/nanoflann.hpp:1261-1283 | loading yields a snapshot and a suffix if and only if the records are those of that snapshot followed by that suffix |
| VectorAdaptor.VectorOfVectorsAdaptor.constructor | mpeg-pcc-tmc2/dependencies/nanoflann/KDTreeVectorOfVectorsAdaptor.h:82-97 | the index is built, so no later query fails |
| VectorAdaptor.VectorOfVectorsAdaptor.Query | mpeg-pcc-tmc2/dependencies/nanoflann/KDTreeVectorOfVectorsAdaptor.h:108-113 | the front of the caller's arrays is the exact k-nearest answer, by rank and point by point |
| PooledAllocation.CoversUnlessWrapped | mpeg-pcc-tmc2/dependencies/nanoflann/nanoflann.hpp:521-533 | the rounded size covers the request, and the block the rounded size, exactly for requests up to 2^64 - 32; beyond that the size arithmetic wraps |
| PooledAllocation.BlockSizeMeaning | mpeg-pcc-tmc2/dependencies/nanoflann/nanoflann.hpp:530-532 | a block is 8192 bytes, or 23 more than the chunk if that is more |
| PooledAllocation.LargestRequestWraps | mpeg-pcc-tmc2/dependencies/nanoflann/nanoflann.hpp:515-523 | the largest request is rounded to a chunk of no bytes |
| PooledAllocation.ChunkCut | mpeg-pcc-tmc2/dependencies/nanoflann/nanoflann.hpp:549-555 | a chunk cut at the current location overlaps no chunk of this or any other block |
| PooledAllocation.PooledAllocator.Malloc | mpeg-pcc-tmc2/dependencies/nanoflann/nanoflann.hpp:515-558 | a new chunk is disjoint from all others and inside its block behind the header; the counters still account for every byte of every block, unless the system refuses a block, when they gain exactly the bytes that were left; a request that rounds to nothing changes nothing |
| PooledAllocation.PooledAllocator.FreeAll | mpeg-pcc-tmc2/dependencies/nanoflann/nanoflann.hpp:501-509 | every block is released exactly once, newest first, and the counters are zero |
| PooledAllocation.PoolSafety | mpeg-pcc-tmc2/dependencies/nanoflann/nanoflann.hpp:515-558 | in every reachable state no byte belongs to two chunks, or to a chunk and the header of a block, and every byte of a chunk belongs to its block |
| PooledAllocation.ApartMeaning | mpeg-pcc-tmc2/dependencies/nanoflann/nanoflann.hpp:474-558 | two pieces are apart exactly if no byte belongs to both |
| PooledAllocation.EveryByteAccounted | mpeg-pcc-tmc2/dependencies/nanoflann/nanoflann.hpp:515-558 | unless an allocation failed, used + wasted + remaining + 8 bytes a block are the bytes of all blocks |
| PooledAllocation.PoolRun | mpeg-pcc-tmc2/dependencies/nanoflann/nanoflann.hpp:474-558 | over a whole life of a pool, for any sequence of positive requests and any refusals of the system: the memory given for different requests never overlaps, each in its full requested size, and in the end every block is released once and nothing else |
| Rfc1321.WordValue | mpeg-pcc-tmc2/dependencies/libmd5/libmd5.c:97-98 | the four bytes of a word of a block are its digits to the base 256, the lowest first |
| Rfc1321.BytesOfWord | mpeg-pcc-tmc2/dependencies/libmd5/libmd5.c:149-151 | the bytes of a digest word are those digits again |
| Rfc1321.LengthBytes | mpeg-pcc-tmc2/dependencies/libmd5/libmd5.c:143-145 | the eight bytes of the length field hold the bit length modulo 2^64, the lowest first |
| Rfc1321.PaddingMeaning | mpeg-pcc-tmc2/dependencies/libmd5/libmd5.c:117-145 | the padded message is the message, 0x80, as few zeros as fill up whole blocks, and the length field |
| Rfc1321Examples.EmptyDigest | mpeg-pcc-tmc2/dependencies/libmd5/libmd5.c:175-256 | the digest of "" is d41d8cd98f00b204e9800998ecf8427e, as in appendix A.5 of RFC 1321 |
| Rfc1321Examples.AbcDigest | mpeg-pcc-tmc2/dependencies/libmd5/libmd5.c:175-256 | the digest of "abc" is 900150983cd24fb0d6963f7d28e17f72, as in appendix A.5 of RFC 1321 |
| Md5.CoreFunctions | mpeg-pcc-tmc2/dependencies/libmd5/libmd5.c:158-164 | the rewritten F1 and F2 are F and G of the standard, F3 and F4 are H and I |
| Md5.StepIsOperation | mpeg-pcc-tmc2/dependencies/libmd5/libmd5.c:166-168 | an MD5STEP is one operation of section 3.4 of RFC 1321, additions regrouped |
| Md5.FourTurns | mpeg-pcc-tmc2/dependencies/libmd5/libmd5.c:184-187 | naming the four registers in rotation has the effect of rotating their contents |
| Md5.Round1 | mpeg-pcc-tmc2/dependencies/libmd5/libmd5.c:184-199 | steps 1 to 16, on the words in order, are round 1 |
| Md5.Round2 | mpeg-pcc-tmc2/dependencies/libmd5/libmd5.c:201-216 | steps 17 to 32, on the words (1 + 5i) mod 16, are round 2 |
| Md5.Round3 | mpeg-pcc-tmc2/dependencies/libmd5/libmd5.c:218-233 | steps 33 to 48, on the words (5 + 3i) mod 16, are round 3 |
| Md5.Round4 | mpeg-pcc-tmc2/dependencies/libmd5/libmd5.c:235-250 | steps 49 to 64, on the words 7i mod 16, are round 4 |
| Md5.Transform | mpeg-pcc-tmc2/dependencies/libmd5/libmd5.c:175-256 | for every buffer and block, the unrolled code is the compression of section 3.4 of RFC 1321 |
| Md5Streaming.CounterStep | mpeg-pcc-tmc2/dependencies/libmd5/libmd5.c:70-73 | the two-word update with its wraparound test adds 8 len modulo 2^64 |
| Md5Streaming.CounterPosition | mpeg-pcc-tmc2/dependencies/libmd5/libmd5.c:75-118 | (bits[0] >> 3) & 0x3f is the message length modulo 64 |
| Md5Streaming.LengthField | mpeg-pcc-tmc2/dependencies/libmd5/libmd5.c:143-145 | the two counter words, low one first, are the eight bytes of the length field of section 3.2 of RFC 1321 |
| Md5Streaming.PaddedBlocks | mpeg-pcc-tmc2/dependencies/libmd5/libmd5.c:117-141 | behind the whole blocks of a message, padding and length make one more block if fewer than 56 bytes are left over and two otherwise; what they hold in front of the length field |
| Md5Streaming.PaddedEnd | mpeg-pcc-tmc2/dependencies/libmd5/libmd5.c:143-145 | the last eight bytes are the length field |
| Md5Streaming.AbsorbConcat | mpeg-pcc-tmc2/dependencies/libmd5/libmd5.c:95-101 | blocks are absorbed in order, those of a front before those behind it |
| Md5Streaming.Md5Context.Init | mpeg-pcc-tmc2/dependencies/libmd5/libmd5.c:49-58 | the state of the empty message |
| Md5Streaming.Md5Context.Count | mpeg-pcc-tmc2/dependencies/libmd5/libmd5.c:68-73 | whatever number of bytes the two words counted before, modulo 2^61, they count len more afterwards |
| Md5Streaming.Md5Context.Lead | mpeg-pcc-tmc2/dependencies/libmd5/libmd5.c:79-92 | a leading chunk that completes the block in progress leaves all whole blocks so far compressed |
| Md5Streaming.Md5Context.Bulk | mpeg-pcc-tmc2/dependencies/libmd5/libmd5.c:95-101 | the loop compresses whole blocks until fewer than 64 bytes are left |
| Md5Streaming.Md5Context.Update | mpeg-pcc-tmc2/dependencies/libmd5/libmd5.c:64-106 | appends to the message fed so far and keeps the invariant: buf is the compression of all whole blocks, the front of in the rest, bits the length |
| Md5Streaming.Md5Context.Pad | mpeg-pcc-tmc2/dependencies/libmd5/libmd5.c:117-141 | all but the last block of the padded message are compressed, and the last one lacks only its length field |
| Md5Streaming.Md5Context.Final | mpeg-pcc-tmc2/dependencies/libmd5/libmd5.c:112-156 | the digest of RFC 1321 of the whole message, and a context wiped to zero |
| Md5Streaming.DigestOfChunks | mpeg-pcc-tmc2/dependencies/libmd5/MD5.h:49-66 | however a message is cut into updates, the digest is that of the whole message |
| Md5Streaming.ConcatLaws | mpeg-pcc-tmc2/dependencies/libmd5/MD5.h:49-66 | joining chunks keeps them in order |
| Options.LookupMeaning | mpeg-pcc-tmc2/dependencies/program-options-lite/program_options_lite.cpp:291-345 | a long name wins over a short one, a short one over a prefix, and of several registered prefixes the shortest |
| Options.MeaningUnique | mpeg-pcc-tmc2/dependencies/program-options-lite/program_options_lite.cpp:291-345 | that description determines the storages and the value |
| Options.PrefixOrder | mpeg-pcc-tmc2/dependencies/program-options-lite/program_options_lite.cpp:320-330 | among prefixes of one name the order of the map is the order by length |
| Options.LessMeaning | mpeg-pcc-tmc2/dependencies/program-options-lite/program_options_lite.cpp:320-330 | the order of the map: a proper prefix first, otherwise by the first differing character |
| Options.OptionWriter.StorePair | mpeg-pcc-tmc2/dependencies/program-options-lite/program_options_lite.cpp:291-345 | every storage of the name found gets the value, in order, a long name before a short one before the shortest prefix; an unknown name stores nothing and is reported, with its value, and nothing else is reported |
| ConfigScan.CfgStreamParser.ValueEnd | mpeg-pcc-tmc2/dependencies/program-options-lite/program_options_lite.cpp:527-544 | the word loop terminates at the first '#' that starts a word, and the value ends with the last character before it that is not space |
| ConfigScan.CfgStreamParser.ScanLine | mpeg-pcc-tmc2/dependencies/program-options-lite/program_options_lite.cpp:485-560 | what a line is, what is stored for it and what is reported about it, for every line |
| ConfigScan.PairsExactly | mpeg-pcc-tmc2/dependencies/program-options-lite/program_options_lite.cpp:485-560 | a scan yields a name and a value if and only if the line consists of these two, padding, a colon and possibly a comment |
| ConfigScan.BlankOrComment | mpeg-pcc-tmc2/dependencies/program-options-lite/program_options_lite.cpp:487-498 | a line is taken as blank, or as a comment, exactly when it is one |
| ConfigScan.CommentForValue | mpeg-pcc-tmc2/dependencies/program-options-lite/program_options_lite.cpp:518-556 | the value is reported missing exactly when a comment stands in its place |
| ConfigScan.LinesWritten | mpeg-pcc-tmc2/dependencies/program-options-lite/program_options_lite.cpp:485-560 | told from the characters " \t\n\r", ':' and '#' alone, what every line is: a pair, a missing value, a comment or blank if and only if it is written so, malformed otherwise |
| ConfigScan.RoundTrip | mpeg-pcc-tmc2/dependencies/program-options-lite/program_options_lite.cpp:485-560 | every name and value that are legal in those terms, with any padding of " \t\n\r" and any trailing comment, are read back |
| ArgvScan.RolesClassified | mpeg-pcc-tmc2/dependencies/program-options-lite/program_options_lite.cpp:425-459 | the role of each argument follows from its shape and what stands before it: non-option behind "--", value behind a short option, otherwise as it looks |
| ArgvScan.ShapeMeaning | mpeg-pcc-tmc2/dependencies/program-options-lite/program_options_lite.cpp:425-459 | by its first characters: "--" ends the options, "--" with more is a long option, one dash with something else a short one, everything else, a lone "-" included, none |
| ArgvScan.RoleOfArgument | mpeg-pcc-tmc2/dependencies/program-options-lite/program_options_lite.cpp:425-459 | up to the first "--" that is not a value, an argument is the value of a short option before it or what it looks like |
| ArgvScan.RoleBehindEnd | mpeg-pcc-tmc2/dependencies/program-options-lite/program_options_lite.cpp:447-454 | behind that "--" it is a non-option |
| ArgvScan.NonOptionsInOrder | mpeg-pcc-tmc2/dependencies/program-options-lite/program_options_lite.cpp:425-459 | the non-options are the arguments at those positions, in ascending order, each once |
| ArgvScan.NonOptionsUnique | mpeg-pcc-tmc2/dependencies/program-options-lite/program_options_lite.cpp:425-459 | only one list of values fits that description |
| ArgvScan.ClassifiedUnique | mpeg-pcc-tmc2/dependencies/program-options-lite/program_options_lite.cpp:425-459 | every argument has exactly one role |
| ArgvScan.LongActionOfForm | mpeg-pcc-tmc2/dependencies/program-options-lite/program_options_lite.cpp:362-391 | for any number of dashes, a name without '=' that does not start with a dash and any value: --name=value stores (name, value), --name stores (name, "1") |
| ArgvScan.LongActionLiteral | mpeg-pcc-tmc2/dependencies/program-options-lite/program_options_lite.cpp:362-391 | "--" or more dashes, a name and "=value" store (name, value), whatever the value is; without "=value" the name is stored with "1" |
| ArgvScan.LongFormExists | mpeg-pcc-tmc2/dependencies/program-options-lite/program_options_lite.cpp:362-391 | every argument with more than dashes has one of these two forms |
| ArgvScan.ShortActionOfForm | mpeg-pcc-tmc2/dependencies/program-options-lite/program_options_lite.cpp:393-415 | -name stores (name, next argument), whatever that looks like, and is complained about at the very end |
| ArgvScan.ShortFormExists | mpeg-pcc-tmc2/dependencies/program-options-lite/program_options_lite.cpp:425-445 | the arguments in the shape of a short option are exactly a dash and a name that does not start with one |
| ArgvScan.ArgvParser.ParseGNU | mpeg-pcc-tmc2/dependencies/program-options-lite/program_options_lite.cpp:362-391 | for either form of the argument, the writer records the pair named by that form and nothing else |
| ArgvScan.ArgvParser.ParseShort | mpeg-pcc-tmc2/dependencies/program-options-lite/program_options_lite.cpp:393-415 | for -name, the writer records the name with the next argument, which is consumed, or complains about it if there is none |
| ArgvScan.ArgvParser.ScanArgv | mpeg-pcc-tmc2/dependencies/program-options-lite/program_options_lite.cpp:417-462 | one action for each option in order, and failure exactly if a long option is nothing but dashes, after the actions of all options in front of the first such one; told from the arguments alone: the non-options are kept in order, everything behind the "--" that ends the options is kept as it is, and the pair of every --name=value and every -name value in front of it is looked up and stored |

## Left out

- Rounding and overflow of floating-point coordinates and distances: reals are exact.
- Leaf size 0 and, for a non-empty dataset, k = 0: the build of a single point would not terminate and the bound would be read in front of the caller's array.
- A dataset that changes after the index was created over it.
- Nodes are values: they are written once, while they are created, and the index does not draw them from the modelled pool.
- The `NANOFLANN_FIRST_MATCH` build, the Eigen adaptor, `set_radius_and_clear` and the adaptor's `init`, which assign to constants, and `worst_item`.
- KdTree.KdTreeIndex.LoadIndex: says nothing about the root after a tree that could not be read, where the code leaves half-read nodes.
- Persistence.LoadTree: a file is a sequence of typed records; reading bytes of one type as another is not modelled.
- PooledAllocation.PooledAllocator.Malloc: does not model the sixteen sizes from 2^64 - 31 to 2^64 - 16, for which the block the code asks for is shorter than the chunk; CoversUnlessWrapped gives the exact range.
- PooledAllocation.PoolRun: positive sizes that do not wrap only, because a request that rounds to nothing gets whatever the location field holds, which is not set before the first block.
- Absolute alignment of pool chunks: they are proved to lie 8 bytes past a multiple of 16 from the start of their block.
- The big-endian build of MD5.
- Registration of options, `doHelp`, the stream loop around `scanLine`, and the conversion of stored text to option types.
