# SG++ core combinatorics, interaction sets, stratified sampling and device padding, in Dafny

This project models five pieces of the SG++ sparse-grid toolkit and proves what they compute.

- **Level-vector tools of the combination technique** (`level_vector_tools.dfy`, with `lex_order.dfy`):
  - the hypercube of level vectors between a minimum and a maximum;
  - the "diagonal" of level vectors with a fixed level sum, with and without boundary;
  - the downward closure of a set of subspace levels, sorted lexicographically.
  Each generator is a method with loops that is proved to compute a recursive specification function. Lemmas state what these functions mean: exact membership, lexicographic order, no duplicates, and size. The size is a product of widths for the hypercube and a count of compositions for the diagonal.
- **Geometry-aware interaction sets of the data-driven grid factory** (`grid_factory.dfy`, with `mixed_radix.dfy` and `bit_subsets.dfy`):
  - the pixel numbering (multiplicators, layer offsets, data index);
  - the position odometer `getNextPosition`;
  - the direct-neighbour, colour-channel, one-dimensional and hierarchical-parent stencils;
  - `getInteractions`, which unites them.
  Membership lemmas say exactly which sets of pixel numbers are inserted.
- **The stratified Monte Carlo sample generator** (`stratified_sample_generator.dfy`), a class with the two counter arrays. The counter step is proved to be the mixed-radix successor modulo the number of strata combinations. So the generator visits every combination exactly once per round, and every sample lies in its stratum.
- **The partition of an index range over devices** in the streaming OpenCL kernel (`partition_segments.dfy`). The method fails exactly on the two error conditions. Otherwise its segments tile the range in whole work blocks and each device gets at least its share, or the rest of the range.
- **The host-side preparation of the masked modified-linear streaming operation** (`mask_multi_platform.dfy`), a class:
  - common paddings over the devices;
  - dataset padding, copying the last row;
  - the level/index/mask/offset arrays with padding points.
  The per-coordinate encoding is proved lossless on valid grid points.

`mixed_radix.dfy` holds the mixed-radix numbering (first coordinate fastest) that the pixel index, the position odometer and the strata counter all use.

## Model

| member | source | states |
|---|---|---|
| LevelVectorTools.GenerateHyperCubeRecursiveLastDim | combigrid/src/sgpp/combigrid/tools/LevelVectorTools.cpp:21-35 | returns prefix + [l] for every l from the last minimum to the last maximum, in increasing order (HyperCubeLastDim) |
| LevelVectorTools.GenerateHyperCubeRecursive | combigrid/src/sgpp/combigrid/tools/LevelVectorTools.cpp:37-61 | returns exactly HyperCubeRec: the cube vectors extending the given prefix, in generation order |
| LevelVectorTools.GenerateHyperCube | combigrid/src/sgpp/combigrid/tools/LevelVectorTools.cpp:16-19 | returns exactly HyperCube(minLevel, maxLevel), and v is in it iff min[i] <= v[i] <= max[i] in every dimension |
| LevelVectorTools.LastDimMembership | combigrid/src/sgpp/combigrid/tools/LevelVectorTools.cpp:21-35 | a vector is in the last-dimension run iff it is the prefix extended by a value between the last minimum and maximum |
| LevelVectorTools.HyperCubeRecMembership | combigrid/src/sgpp/combigrid/tools/LevelVectorTools.cpp:37-61 | a vector is generated below a prefix iff it extends the prefix and lies between min and max in every later dimension |
| LevelVectorTools.CubeRangeMembership | combigrid/src/sgpp/combigrid/tools/LevelVectorTools.cpp:48-57 | the loop over one dimension generates exactly the vectors whose entry there is in range and whose remaining entries are in the cube |
| LevelVectorTools.HyperCubeMembership | combigrid/src/sgpp/combigrid/tools/LevelVectorTools.cpp:16-61 | v is in generateHyperCube(min, max) iff |v| matches and min[i] <= v[i] <= max[i] for every i |
| LevelVectorTools.HyperCubeRecSize | combigrid/src/sgpp/combigrid/tools/LevelVectorTools.cpp:37-61 | the number of vectors generated below a prefix is the product of the remaining widths max - min + 1 |
| LevelVectorTools.CubeRangeSize | combigrid/src/sgpp/combigrid/tools/LevelVectorTools.cpp:48-57 | the loop over one dimension contributes width times the count of the later dimensions |
| LevelVectorTools.HyperCubeSize | combigrid/src/sgpp/combigrid/tools/LevelVectorTools.cpp:16-61 | the cube has the product of all widths as its length (zero if an earlier dimension is empty) |
| LevelVectorTools.HyperCubeRecSorted | combigrid/src/sgpp/combigrid/tools/LevelVectorTools.cpp:37-61 | the vectors below a prefix come out strictly increasing in lexicographic order |
| LevelVectorTools.CubeRangeSorted | combigrid/src/sgpp/combigrid/tools/LevelVectorTools.cpp:48-57 | the runs for successive values of one dimension are strictly increasing and each is below the next |
| LevelVectorTools.HyperCubeSorted | combigrid/src/sgpp/combigrid/tools/LevelVectorTools.cpp:16-61 | the cube is strictly sorted lexicographically, hence free of duplicates |
| LevelVectorTools.SumMonotone | combigrid/src/sgpp/combigrid/tools/LevelVectorTools.cpp:85-100 | a vector at least the minimum entrywise has at least the minimum's level sum, so the diagonal recursion never asks for a negative remainder |
| LevelVectorTools.DiagonalRecMembership | combigrid/src/sgpp/combigrid/tools/LevelVectorTools.cpp:79-102 | a vector is generated iff it extends the suffix, is at least the minimum in the open dimensions and has the requested level sum |
| LevelVectorTools.DiagonalRangeMembership | combigrid/src/sgpp/combigrid/tools/LevelVectorTools.cpp:92-100 | the loop over the current dimension generates exactly the vectors whose entry there is one of the values it tries |
| LevelVectorTools.DiagonalMembership | combigrid/src/sgpp/combigrid/tools/LevelVectorTools.cpp:63-102 | v is in generateDiagonal(min, sum) iff |v| matches, v >= min entrywise and the entries of v add up to sum |
| LevelVectorTools.DiagonalRecDistinct | combigrid/src/sgpp/combigrid/tools/LevelVectorTools.cpp:79-102 | the recursion never generates a vector twice |
| LevelVectorTools.DiagonalRangeDistinct | combigrid/src/sgpp/combigrid/tools/LevelVectorTools.cpp:92-100 | runs for different values of the current dimension are disjoint and each is duplicate-free |
| LevelVectorTools.DiagonalDistinct | combigrid/src/sgpp/combigrid/tools/LevelVectorTools.cpp:63-102 | the diagonal has no duplicates |
| LevelVectorTools.DiagonalRecSize | combigrid/src/sgpp/combigrid/tools/LevelVectorTools.cpp:79-102 | the recursion yields Compositions(open dimensions, excess) vectors, the number of ways to spread the excess over them |
| LevelVectorTools.DiagonalRangeSize | combigrid/src/sgpp/combigrid/tools/LevelVectorTools.cpp:92-100 | the loop contributes the sum of the counts for every value of the current dimension |
| LevelVectorTools.DiagonalSize | combigrid/src/sgpp/combigrid/tools/LevelVectorTools.cpp:63-102 | the diagonal of n dimensions with excess e = sum - |min| has Compositions(n, e) members |
| LevelVectorTools.DiagonalEdgeCases | combigrid/src/sgpp/combigrid/tools/LevelVectorTools.cpp:63-90 | with no dimensions the result is the single empty vector for level sum 0 and nothing otherwise; a level sum below the minimum's sum gives nothing |
| LevelVectorTools.GenerateDiagonalRecursive | combigrid/src/sgpp/combigrid/tools/LevelVectorTools.cpp:79-102 | appends exactly DiagonalRec for the given suffix and remaining sum |
| LevelVectorTools.GenerateDiagonalLevels | combigrid/src/sgpp/combigrid/tools/LevelVectorTools.cpp:92-100 | the loop over the current coordinate appends the diagonal vectors for every value from its minimum level up to the remaining sum minus the minimum of the earlier coordinates, in increasing order |
| LevelVectorTools.GenerateDiagonal | combigrid/src/sgpp/combigrid/tools/LevelVectorTools.cpp:63-77 | returns exactly Diagonal(minLevel, levelSum), including the special case of an empty minimum, and v is in it iff v >= minLevel entrywise with level sum levelSum |
| LevelVectorTools.GenerateDiagonalWithBoundary | combigrid/src/sgpp/combigrid/tools/LevelVectorTools.cpp:104-107 | the diagonal above the all-zero minimum: exactly the vectors of length dim with the given level sum |
| LevelVectorTools.GenerateDiagonalWithoutBoundary | combigrid/src/sgpp/combigrid/tools/LevelVectorTools.cpp:109-112 | the diagonal above the all-one minimum: exactly the vectors of length dim, every entry at least 1, with the given level sum |
| LevelVectorTools.DiagonalCountsThreeDimensions | combigrid/tests/test_combigrid.cpp:77-78 | in three dimensions there are 21 vectors with boundary at level sum 5 and 15 without boundary at level sum 7 |
| LevelVectorTools.AddMissingCount | combigrid/src/sgpp/combigrid/tools/LevelVectorTools.cpp:121-127 | after the find-then-push loop, levels already present keep their multiplicity and each missing candidate occurs exactly once |
| LevelVectorTools.AddMissingMembership | combigrid/src/sgpp/combigrid/tools/LevelVectorTools.cpp:121-127 | a level is present afterwards iff it was present before or is a candidate |
| LevelVectorTools.AddMissingPresent | combigrid/src/sgpp/combigrid/tools/LevelVectorTools.cpp:121-127 | candidates that are all present already leave the list unchanged |
| LevelVectorTools.AddHyperCubesMembership | combigrid/src/sgpp/combigrid/tools/LevelVectorTools.cpp:118-128 | after the outer loop a level is present iff it was in the list before or lies in the cube of one of the subspace levels processed |
| LevelVectorTools.AddHyperCubesCount | combigrid/src/sgpp/combigrid/tools/LevelVectorTools.cpp:118-128 | the outer loop keeps the multiplicity of levels already present and adds every other level at most once |
| LevelVectorTools.DownwardClosedMembership | combigrid/src/sgpp/combigrid/tools/LevelVectorTools.cpp:114-132 | a level is in the closure iff it is a subspace level or lies between the lowest level vector and some subspace level |
| LevelVectorTools.DownwardClosedIsClosed | combigrid/src/sgpp/combigrid/tools/LevelVectorTools.cpp:114-132 | every level between the lowest level vector and a member of the closure is itself a member, and the result is sorted |
| LevelVectorTools.DownwardClosedStrict | combigrid/src/sgpp/combigrid/tools/LevelVectorTools.cpp:114-132 | for duplicate-free subspace levels the result is strictly sorted lexicographically |
| LevelVectorTools.DownwardClosedIdempotent | combigrid/src/sgpp/combigrid/tools/LevelVectorTools.cpp:114-132 | closing the closure again returns it unchanged |
| LevelVectorTools.AddHyperCubesIdle | combigrid/src/sgpp/combigrid/tools/LevelVectorTools.cpp:118-128 | the outer loop adds nothing to a list that already holds the cubes of its subspace levels |
| LevelVectorTools.MakeDownwardClosed | combigrid/src/sgpp/combigrid/tools/LevelVectorTools.cpp:114-132 | returns exactly DownwardClosed(subspaceLevels, lowestLevelVector) |
| LexOrder.LexIrreflexive | combigrid/src/sgpp/combigrid/tools/LevelVectorTools.cpp:130 | no level vector is below itself under std::vector's operator< |
| LexOrder.LexTransitive | combigrid/src/sgpp/combigrid/tools/LevelVectorTools.cpp:130 | the order std::sort uses is transitive |
| LexOrder.LexTotal | combigrid/src/sgpp/combigrid/tools/LevelVectorTools.cpp:130 | any two different level vectors are comparable |
| LexOrder.LexAsymmetric | combigrid/src/sgpp/combigrid/tools/LevelVectorTools.cpp:130 | a < b excludes b < a |
| LexOrder.LexAtFirstDifference | combigrid/src/sgpp/combigrid/tools/LevelVectorTools.cpp:130 | vectors agreeing before n and differing first at n are ordered by entry n |
| LexOrder.StrictIsDistinct | combigrid/src/sgpp/combigrid/tools/LevelVectorTools.cpp:130 | a strictly sorted list has no duplicates |
| LexOrder.SortedDistinctIsStrict | combigrid/src/sgpp/combigrid/tools/LevelVectorTools.cpp:130 | a sorted list without duplicates is strictly sorted |
| LexOrder.InsertSorted | combigrid/src/sgpp/combigrid/tools/LevelVectorTools.cpp:130 | inserting into a sorted list keeps it sorted and adds exactly one occurrence |
| LexOrder.InsertPermutes | combigrid/src/sgpp/combigrid/tools/LevelVectorTools.cpp:130 | inserting into the sorted list adds exactly one occurrence of the element and keeps every other occurrence |
| LexOrder.SortLex | combigrid/src/sgpp/combigrid/tools/LevelVectorTools.cpp:130 | the sort returns a sorted permutation of its input |
| LexOrder.SortSortedIsIdentity | combigrid/src/sgpp/combigrid/tools/LevelVectorTools.cpp:130 | sorting a sorted list changes nothing |
| LexOrder.SortedPermutationUnique | combigrid/src/sgpp/combigrid/tools/LevelVectorTools.cpp:130 | two sorted lists with the same elements, counted with multiplicity, are equal |
| LexOrder.SortLexUnique | combigrid/src/sgpp/combigrid/tools/LevelVectorTools.cpp:130 | every sorted permutation of a list is SortLex of it, so any correct sort returns the same sequence |
| GridFactory.MultiplicatorsAreStrides | datadriven/src/sgpp/datadriven/algorithm/GridFactory.cpp:90-102 | the first multiplicator is 1 and each next one is the previous times the previous extent |
| GridFactory.GetMultiplicatorsPerLevel | datadriven/src/sgpp/datadriven/algorithm/GridFactory.cpp:90-102 | one multiplicator list per layer, each equal to Multiplicators of its extents |
| GridFactory.LayerMultiplicators | datadriven/src/sgpp/datadriven/algorithm/GridFactory.cpp:94-99 | the inner loop yields 1 followed by the running products of the extents, one entry per extent |
| GridFactory.CellCount | datadriven/src/sgpp/datadriven/algorithm/GridFactory.cpp:110-114 | the last multiplicator times the last extent is the number of pixels of the layer |
| GridFactory.NextLayerOffset | datadriven/src/sgpp/datadriven/algorithm/GridFactory.cpp:108-116 | each loop step appends the previous offset plus the previous layer's pixel count |
| GridFactory.GetOffsetPerLevel | datadriven/src/sgpp/datadriven/algorithm/GridFactory.cpp:104-118 | reports the out-of-range throw exactly when a layer before the last has no coordinates; otherwise offset l is the total pixel count of the layers before l (a single 0 for no layers) |
| GridFactory.LayerCells | datadriven/src/sgpp/datadriven/algorithm/GridFactory.cpp:110-111 | the last multiplicator times the last extent is the pixel count of the layer |
| GridFactory.LayerOffsetsIncrease | datadriven/src/sgpp/datadriven/algorithm/GridFactory.cpp:104-118 | a later layer starts no earlier than the end of any earlier layer |
| GridFactory.GetDataIndex | datadriven/src/sgpp/datadriven/algorithm/GridFactory.cpp:197-205 | the index is the sum of multiplicator times coordinate over the first numberOfDimensions coordinates |
| GridFactory.DataIndexIsFlat | datadriven/src/sgpp/datadriven/algorithm/GridFactory.cpp:197-205 | with the layer's own multiplicators the data index is the mixed-radix index of the position |
| GridFactory.DataIndexBijection | datadriven/src/sgpp/datadriven/algorithm/GridFactory.cpp:197-205 | the data index maps the positions of a layer one-to-one onto 0 .. pixelCount - 1 |
| GridFactory.FlatIndex | datadriven/src/sgpp/datadriven/algorithm/GridFactory.cpp:197-205 | for a full position the data index equals the mixed-radix index |
| GridFactory.PixelNumbersDistinct | datadriven/src/sgpp/datadriven/algorithm/GridFactory.cpp:104-118 | offset plus data index never gives the same pixel number for two different (layer, position) pairs |
| GridFactory.GetNextPosition | datadriven/src/sgpp/datadriven/algorithm/GridFactory.cpp:207-226 | the new position is NextPosition of the old one, or the cleared vector |
| GridFactory.NextPosFromIsSuccessor | datadriven/src/sgpp/datadriven/algorithm/GridFactory.cpp:211-225 | with no colour coordinate, the scan from i completes adding one to the data index, or clears the position past the last |
| GridFactory.NextPositionIsSuccessor | datadriven/src/sgpp/datadriven/algorithm/GridFactory.cpp:207-226 | with no colour coordinate the step goes to the position with the next data index, or clears after the last |
| GridFactory.NextPosFromKeepsColor | datadriven/src/sgpp/datadriven/algorithm/GridFactory.cpp:212-214 | the colour coordinate is never changed |
| GridFactory.SkippingLastNeverClears | datadriven/src/sgpp/datadriven/algorithm/GridFactory.cpp:216-223 | when the colour coordinate is the last one the position is never cleared, so the caller's loop would not end |
| GridFactory.SkipIsSlice | datadriven/src/sgpp/datadriven/algorithm/GridFactory.cpp:207-226 | skipping coordinate c is the plain step on the box whose extent c is 1, with coordinate c carried along |
| GridFactory.SkipStep | datadriven/src/sgpp/datadriven/algorithm/GridFactory.cpp:207-226 | a step skipping c moves from slice position k to slice position k + 1, or clears after the last |
| GridFactory.OdometerVisitsBox | datadriven/src/sgpp/datadriven/algorithm/GridFactory.cpp:207-226 | from all zeros, step k reaches the position with data index k, and the position is cleared exactly after pixelCount steps |
| GridFactory.OdometerFrom | datadriven/src/sgpp/datadriven/algorithm/GridFactory.cpp:207-226 | from data index j, k steps reach data index j + k, or the cleared vector past the end |
| GridFactory.NextOfUnflatten | datadriven/src/sgpp/datadriven/algorithm/GridFactory.cpp:207-226 | the step from the position with data index j reaches index j + 1, or clears |
| GridFactory.OdometerVisitsOnce | datadriven/src/sgpp/datadriven/algorithm/GridFactory.cpp:207-226 | two different steps before the end reach different positions |
| GridFactory.ZerosFirst | datadriven/src/sgpp/datadriven/algorithm/GridFactory.cpp:256-258 | the all-zero starting position is the first position (data index 0) of a layer without empty extents |
| GridFactory.AddOneDimensionalInteractions | datadriven/src/sgpp/datadriven/algorithm/GridFactory.cpp:160-170 | inserts the singleton {offset + k} for every pixel k of the layer, and nothing else |
| GridFactory.NeighbourPairIsStep | datadriven/src/sgpp/datadriven/algorithm/GridFactory.cpp:261-269 | each probe is the pair {a, a + stride_j} of two pixels of the layer |
| GridFactory.NeighboursSound | datadriven/src/sgpp/datadriven/algorithm/GridFactory.cpp:258-275 | every inserted pair is the probe of some position along some axis where it can grow |
| GridFactory.NeighboursComplete | datadriven/src/sgpp/datadriven/algorithm/GridFactory.cpp:258-275 | every such probe is inserted |
| GridFactory.NeighboursMembership | datadriven/src/sgpp/datadriven/algorithm/GridFactory.cpp:258-275 | a set is inserted iff it is {offset + index(p), offset + index(p + e_j)} with p in the layer and p[j] + 1 < d[j] |
| GridFactory.Probe | datadriven/src/sgpp/datadriven/algorithm/GridFactory.cpp:261-269 | builds the probe of the position along axis j and restores the position |
| GridFactory.AddProbes | datadriven/src/sgpp/datadriven/algorithm/GridFactory.cpp:260-271 | inserts the probes of one position along every axis where it can grow, leaving the position as it was |
| GridFactory.AddNeighbourPairs | datadriven/src/sgpp/datadriven/algorithm/GridFactory.cpp:258-275 | the do-while loop inserts exactly Neighbours of the layer |
| GridFactory.ColorSetIsImage | datadriven/src/sgpp/datadriven/algorithm/GridFactory.cpp:235-243 | the set built for mask j is the pixels at the position on exactly the channels whose bit is set in j |
| GridFactory.ColoursSound | datadriven/src/sgpp/datadriven/algorithm/GridFactory.cpp:228-248 | every inserted set is the pixels at one slice position on a non-empty set of channels |
| GridFactory.ColoursComplete | datadriven/src/sgpp/datadriven/algorithm/GridFactory.cpp:228-248 | every slice position with every non-empty set of channels is inserted |
| GridFactory.ColoursMembership | datadriven/src/sgpp/datadriven/algorithm/GridFactory.cpp:228-248 | a set is inserted iff it is a channel group of some slice position and non-empty channel set |
| GridFactory.ChannelImageInjective | datadriven/src/sgpp/datadriven/algorithm/GridFactory.cpp:235-243 | different channel sets at one position give different pixel sets, so each position contributes 2^channels - 1 groups |
| GridFactory.CollectMask | datadriven/src/sgpp/datadriven/algorithm/GridFactory.cpp:236-243 | the innermost loop builds exactly the pixels of the channels selected by mask j, and moves only the colour coordinate |
| GridFactory.AddMasks | datadriven/src/sgpp/datadriven/algorithm/GridFactory.cpp:235-245 | inserts the sets of all masks 1 .. 2^channels - 1 at one position |
| GridFactory.AddColorInteractions | datadriven/src/sgpp/datadriven/algorithm/GridFactory.cpp:228-248 | inserts exactly Colours of the layer and colour coordinate |
| GridFactory.AddLayerExtras | datadriven/src/sgpp/datadriven/algorithm/GridFactory.cpp:150-155 | the shared tail of both stencils: the colour sets when a colour coordinate is given, then the singletons |
| GridFactory.AddDirectNeighbourLayer | datadriven/src/sgpp/datadriven/algorithm/GridFactory.cpp:257-281 | one layer of getDirectNeighbours: its neighbour pairs, colour sets and singletons |
| GridFactory.GetTables | datadriven/src/sgpp/datadriven/algorithm/GridFactory.cpp:253-254 | the multiplicators and offsets of every layer |
| GridFactory.AddDirectNeighbourLayers | datadriven/src/sgpp/datadriven/algorithm/GridFactory.cpp:256-282 | the layer loop inserts the sets of every listed layer |
| GridFactory.AddListedNeighbourLayer | datadriven/src/sgpp/datadriven/algorithm/GridFactory.cpp:256-279 | one pass of the layer loop adds exactly the neighbour pairs, colour sets and singletons of that layer |
| GridFactory.GetDirectNeighbours | datadriven/src/sgpp/datadriven/algorithm/GridFactory.cpp:250-286 | inserts exactly DirectNeighbours: pairs, colour sets and singletons of every listed layer, plus the empty set |
| GridFactory.DirectNeighbourLayersMember | datadriven/src/sgpp/datadriven/algorithm/GridFactory.cpp:256-282 | every set of every listed layer is in the result |
| GridFactory.AddParentPairs | datadriven/src/sgpp/datadriven/algorithm/GridFactory.cpp:126-149 | inserts the child-parent pairs with the next layer only (NextHierarchicalParent) or with every later layer |
| GridFactory.AddHierarchicalLayer | datadriven/src/sgpp/datadriven/algorithm/GridFactory.cpp:126-155 | one child layer: its parent pairs, then colour sets and singletons |
| GridFactory.AddHierarchicalLayers | datadriven/src/sgpp/datadriven/algorithm/GridFactory.cpp:126-155 | the layer loop inserts the sets of every listed child layer |
| GridFactory.AddListedHierarchicalLayer | datadriven/src/sgpp/datadriven/algorithm/GridFactory.cpp:126-151 | one pass of the layer loop adds exactly the child-parent sets, colour sets and singletons of that child layer |
| GridFactory.GetHierarchicalParents | datadriven/src/sgpp/datadriven/algorithm/GridFactory.cpp:120-158 | inserts exactly HierarchicalParents, the empty set included |
| GridFactory.HierarchicalLayersMember | datadriven/src/sgpp/datadriven/algorithm/GridFactory.cpp:126-155 | every set of every listed child layer is in the result |
| GridFactory.ApplyStencil | datadriven/src/sgpp/datadriven/algorithm/GridFactory.cpp:71-86 | the switch inserts the sets of the stencil's generator, and nothing for NoStencil |
| GridFactory.GetInteractions | datadriven/src/sgpp/datadriven/algorithm/GridFactory.cpp:65-88 | returns exactly the union of the contributions of all stencils |
| GridFactory.ApplyListedStencil | datadriven/src/sgpp/datadriven/algorithm/GridFactory.cpp:71-85 | one pass of the stencil loop adds exactly the contribution of that stencil (nothing for None) |
| GridFactory.InteractionsSound | datadriven/src/sgpp/datadriven/algorithm/GridFactory.cpp:65-88 | every returned set comes from some stencil |
| GridFactory.InteractionsComplete | datadriven/src/sgpp/datadriven/algorithm/GridFactory.cpp:65-88 | every set of every stencil is returned, whatever the stencil order |
| GridFactory.InteractionsHaveEmpty | datadriven/src/sgpp/datadriven/algorithm/GridFactory.cpp:65-88 | the empty interaction is returned iff some stencil is not NoStencil |
| GridFactory.InteractionsEmpty | datadriven/src/sgpp/datadriven/algorithm/GridFactory.cpp:65-88 | the result is empty iff every stencil is NoStencil |
| GridFactory.LayerExtrasHaveSingletons | datadriven/src/sgpp/datadriven/algorithm/GridFactory.cpp:160-170 | every pixel of a processed layer is there as a singleton |
| GridFactory.InteractionsHaveSingletons | datadriven/src/sgpp/datadriven/algorithm/GridFactory.cpp:65-88 | every pixel of every layer a generating stencil applies to is a singleton interaction |
| BitSubsets.EncodeBits | datadriven/src/sgpp/datadriven/algorithm/GridFactory.cpp:235-243 | bit t of the mask of a channel set is set iff t is in the set |
| BitSubsets.EncodeBound | datadriven/src/sgpp/datadriven/algorithm/GridFactory.cpp:235-243 | the mask of channels below n is below 2^n |
| BitSubsets.EncodePositive | datadriven/src/sgpp/datadriven/algorithm/GridFactory.cpp:235-243 | a non-empty channel set has a non-zero mask |
| BitSubsets.EncodeOfBits | datadriven/src/sgpp/datadriven/algorithm/GridFactory.cpp:235-243 | an n-bit mask is the mask of the channels it selects |
| BitSubsets.MaskIsNonemptySubset | datadriven/src/sgpp/datadriven/algorithm/GridFactory.cpp:235-243 | every mask 1 <= j < 2^n selects a non-empty set of channels below n |
| BitSubsets.EncodeEmpty | datadriven/src/sgpp/datadriven/algorithm/GridFactory.cpp:235-243 | the empty channel set has mask 0, which the loop starting at j = 1 skips |
| BitSubsets.SubsetHasUniqueMask | datadriven/src/sgpp/datadriven/algorithm/GridFactory.cpp:235-243 | every non-empty channel set is selected by exactly one mask 1 <= j < 2^n |
| StratifiedSampling.StratumCountCases | src/sgpp/mcm/StratifiedSampleGenerator.cpp:22-35 | a request of 0 becomes 1 stratum, a positive request is kept, a negative one wraps to request + 2^64 |
| StratifiedSampling.StratifiedSampleGenerator.constructor | src/sgpp/mcm/StratifiedSampleGenerator.cpp:18-39 | counts are the cast and clamped requests, and every counter starts at 0 |
| StratifiedSampling.NextStrataShape | src/sgpp/mcm/StratifiedSampleGenerator.cpp:56-68 | the first dimension that can advance is incremented, the ones before it reset to 0, the ones after it unchanged |
| StratifiedSampling.NextStrataFromIsSuccessor | src/sgpp/mcm/StratifiedSampleGenerator.cpp:56-68 | the scan from dimension i completes adding one to the mixed-radix index of the counters |
| StratifiedSampling.NextStrataIsSuccessor | src/sgpp/mcm/StratifiedSampleGenerator.cpp:56-68 | the counters stay in range and their index becomes (index + 1) mod the number of combinations |
| StratifiedSampling.UnflattenSuccessor | src/sgpp/mcm/StratifiedSampleGenerator.cpp:56-68 | one step moves the combination with index j to the one with index (j + 1) mod the number of combinations |
| StratifiedSampling.AdvanceFrom | src/sgpp/mcm/StratifiedSampleGenerator.cpp:56-68 | k steps from combination j reach combination (j + k) mod the number of combinations |
| StratifiedSampling.StrataCycle | src/sgpp/mcm/StratifiedSampleGenerator.cpp:35-68 | from the all-zero start, sample k uses combination k mod the number of combinations |
| StratifiedSampling.StrataRound | src/sgpp/mcm/StratifiedSampleGenerator.cpp:35-68 | after one full round the counters are all zero again |
| StratifiedSampling.StrataVisitedOnce | src/sgpp/mcm/StratifiedSampleGenerator.cpp:35-68 | within one round no combination of strata is used twice |
| StratifiedSampling.SampleInStratum | src/sgpp/mcm/StratifiedSampleGenerator.cpp:47-50 | for a draw 0 <= u < 1 the sample of a dimension lies in [stratum / count, (stratum + 1) / count) |
| StratifiedSampling.StratifiedSampleGenerator.GetNextStrata | src/sgpp/mcm/StratifiedSampleGenerator.cpp:56-68 | the counters become NextStrata of the old counters |
| StratifiedSampling.StratifiedSampleGenerator.GetSample | src/sgpp/mcm/StratifiedSampleGenerator.cpp:41-54 | a vector of the wrong length changes nothing; otherwise each entry is its stratum's sample and the counters step once |
| DevicePartition.PaddingRoundsUp | datadriven/src/sgpp/datadriven/operation/hash/OperationMultipleEvalStreamingOCL/OCLKernelImpl.hpp:641-647 | padding makes a multiple of the block size, adds less than one block, and stays inside a room that is a multiple of it |
| DevicePartition.SegmentLengthFits | datadriven/src/sgpp/datadriven/operation/hash/OperationMultipleEvalStreamingOCL/OCLKernelImpl.hpp:635-647 | a segment is whole blocks, fits what is left, reaches end for the last device, and is at least the share unless it reaches end |
| DevicePartition.SegmentsFromStep | datadriven/src/sgpp/datadriven/operation/hash/OperationMultipleEvalStreamingOCL/OCLKernelImpl.hpp:649-655 | device i gets [current, current + n) and the next device starts at current + n |
| DevicePartition.SegmentWithin | datadriven/src/sgpp/datadriven/operation/hash/OperationMultipleEvalStreamingOCL/OCLKernelImpl.hpp:633-656 | every segment lies in [current, end], is whole blocks, and gets its share unless it reaches end |
| DevicePartition.SegmentsMeet | datadriven/src/sgpp/datadriven/operation/hash/OperationMultipleEvalStreamingOCL/OCLKernelImpl.hpp:649-655 | each segment ends where the next one starts |
| DevicePartition.SegmentsFromTile | datadriven/src/sgpp/datadriven/operation/hash/OperationMultipleEvalStreamingOCL/OCLKernelImpl.hpp:633-656 | the segments of all devices tile [current, end) in whole blocks, one per device, the last ending at end |
| DevicePartition.PartitionSegmentsCorrect | datadriven/src/sgpp/datadriven/operation/hash/OperationMultipleEvalStreamingOCL/OCLKernelImpl.hpp:618-657 | fails iff the block size is 0 or the range is not whole blocks (naming which); otherwise the segments tile [start, end) |
| DevicePartition.PartitionElements | datadriven/src/sgpp/datadriven/operation/hash/OperationMultipleEvalStreamingOCL/OCLKernelImpl.hpp:635-647 | the share, clipped to what is left or taken whole for the last device, padded to whole blocks |
| DevicePartition.GetPartitionSegments | datadriven/src/sgpp/datadriven/operation/hash/OperationMultipleEvalStreamingOCL/OCLKernelImpl.hpp:618-657 | returns the failure and writes nothing, or writes segment i of PartitionSegments into both arrays |
| MaskMultiPlatform.CommonPaddingIsMaximum | datadriven/src/sgpp/datadriven/operation/hash/OperationMultipleEvalStreamingModOCLMaskMultiPlatform/OperationMultiEvalStreamingModOCLMaskMultiPlatform.hpp:420-452 | the common padding is at least 1 and every device's requirement, and is 1 or one of the requirements |
| MaskMultiPlatform.StreamingModMaskOperation.CalculateCommonDatasetPadding | datadriven/src/sgpp/datadriven/operation/hash/OperationMultipleEvalStreamingModOCLMaskMultiPlatform/OperationMultiEvalStreamingModOCLMaskMultiPlatform.hpp:420-435 | the largest data block size times local size over the devices, at least 1 |
| MaskMultiPlatform.StreamingModMaskOperation.CalculateCommonGridPadding | datadriven/src/sgpp/datadriven/operation/hash/OperationMultipleEvalStreamingModOCLMaskMultiPlatform/OperationMultiEvalStreamingModOCLMaskMultiPlatform.hpp:437-452 | the largest transposed grid block size times local size over the devices, at least 1 |
| MaskMultiPlatform.PaddedDatasetSize | datadriven/src/sgpp/datadriven/operation/hash/OperationMultipleEvalStreamingModOCLMaskMultiPlatform/OperationMultiEvalStreamingModOCLMaskMultiPlatform.hpp:292-296 | n + p - n % p is a multiple of p, above n and at most n + p |
| MaskMultiPlatform.StreamingModMaskOperation.PadDataset | datadriven/src/sgpp/datadriven/operation/hash/OperationMultipleEvalStreamingModOCLMaskMultiPlatform/OperationMultiEvalStreamingModOCLMaskMultiPlatform.hpp:285-312 | the padded size is a multiple of p above the old size, the buffer size adds one block, old rows are kept and new rows copy the old last row |
| MaskMultiPlatform.EncodeShape | datadriven/src/sgpp/datadriven/operation/hash/OperationMultipleEvalStreamingModOCLMaskMultiPlatform/OperationMultiEvalStreamingModOCLMaskMultiPlatform.hpp:352-398 | the level entry is 0 exactly for level 1 and plus or minus 2^level otherwise; it is negative exactly when the offset is 2 (the left boundary-adjacent hat); the sign mask is set only on an interior hat, with positive level, the index kept and offset 1 |
| MaskMultiPlatform.EncodeDecode | datadriven/src/sgpp/datadriven/operation/hash/OperationMultipleEvalStreamingModOCLMaskMultiPlatform/OperationMultiEvalStreamingModOCLMaskMultiPlatform.hpp:351-402 | every valid level/index pair is read back from its level, index, mask and offset entries |
| MaskMultiPlatform.EncodeInjective | datadriven/src/sgpp/datadriven/operation/hash/OperationMultipleEvalStreamingModOCLMaskMultiPlatform/OperationMultiEvalStreamingModOCLMaskMultiPlatform.hpp:351-402 | different valid level/index pairs get different entries |
| MaskMultiPlatform.SlotInjective | datadriven/src/sgpp/datadriven/operation/hash/OperationMultipleEvalStreamingModOCLMaskMultiPlatform/OperationMultiEvalStreamingModOCLMaskMultiPlatform.hpp:351-417 | the flat position i * dims + d of different (point, dimension) pairs differ |
| MaskMultiPlatform.StreamingModMaskOperation.FillPoint | datadriven/src/sgpp/datadriven/operation/hash/OperationMultipleEvalStreamingModOCLMaskMultiPlatform/OperationMultiEvalStreamingModOCLMaskMultiPlatform.hpp:352-417 | one more point gets its entries in every dimension, the entries of earlier points stay, and every array position outside point i's block keeps its old entry |
| MaskMultiPlatform.StreamingModMaskOperation.RecalculateLevelIndexMask | datadriven/src/sgpp/datadriven/operation/hash/OperationMultipleEvalStreamingModOCLMaskMultiPlatform/OperationMultiEvalStreamingModOCLMaskMultiPlatform.hpp:323-418 | the padded grid size is a multiple of the grid padding b in [size, size + b), one spare block is added, and every (point, dimension) entry is its encoding or the neutral padding entry |
| MaskMultiPlatform.StreamingModMaskOperation.constructor | datadriven/src/sgpp/datadriven/operation/hash/OperationMultipleEvalStreamingModOCLMaskMultiPlatform/OperationMultiEvalStreamingModOCLMaskMultiPlatform.hpp:71-137 | records the unpadded sizes, pads the dataset, takes both common paddings and prepares the four arrays as above |

## Left out

- `GridFactory::createGrid` and the grid classes it builds are not part of this model; only the interaction sets are.
- The real-valued rescaling in `addChildParentInteractionRecursive` and in the parent loop of `getHierarchicalParents` (GridFactory.cpp:127-145, 172-195) is floating-point geometry. The pairs it produces between child layer i and parent layer j are the parameter `parentPairs(i, j)`. The model keeps the loop structure around it: which layer pairs are visited, and the break for NextHierarchicalParent.
- The `default:` branch of the stencil switch only prints "Stencil not found" (GridFactory.cpp:82-84). The StencilType enum definition is not part of this model; its four named values are a datatype here, so the branch cannot be reached.
- Printing to standard output: the `verbose` messages of the partition and mask code, and the print of unknown stencils.
- GridFactory.GetMultiplicatorsPerLevel: products of int64 extents are unbounded naturals here; size_t and int64 overflow are not modelled. The same holds for GridFactory.GetOffsetPerLevel and GridFactory.GetDataIndex.
- Negative image extents are not modelled; extents are naturals.
- GridFactory.AddNeighbourPairs: requires every extent of the layer to be positive. With an empty extent the source's do-while loop still probes positions of the empty box and inserts pixel numbers outside the layer. The same requirement is on GridFactory.AddColorInteractions and the layer loops, through LayerFits.
- GridFactory.AddColorInteractions: requires the colour coordinate not to be the last one. There, getNextPosition never clears the position, and the source's `while` loop does not end (proved as SkippingLastNeverClears).
- GridFactory.AddColorInteractions: the mask loop bound `pow(2, channels)` is computed in double and `1 << k` in int. Exactness for 31 or more channels is not modelled.
- Out-of-range `std::vector::at` accesses throw in the source. Here they are preconditions: layer indices in `applyOnLayers`, the colour index being -1 or a coordinate of the layer, and no empty layer before the last one (getOffsetPerLevel throws there).
- GridFactory.GetTables: requires no layer before the last to be empty (OffsetsDefined), where getOffsetPerLevel throws `std::out_of_range`. GridFactory.GetOffsetPerLevel itself reports that case; GridFactory.GetTables, GridFactory.GetDirectNeighbours, GridFactory.GetHierarchicalParents and GridFactory.GetInteractions (through StencilUsable) require it away and do not model the exception.
- The source's `assert`s in the level-vector tools are preconditions: matching lengths, and a non-empty last range where it is reached. So is the first subspace level that `makeDownwardClosed` reads.
- Level sums and levels of the level-vector tools are unbounded; the unsigned wrap-around of `level_t` is not modelled.
- `std::sort` is modelled by an insertion sort proved to return the sorted permutation, which is unique (SortLexUnique). Which sorting algorithm runs is not modelled.
- StratifiedSampling.StratifiedSampleGenerator.GetSample: the random number generator is a parameter `random` of draws in [0, 1).
- The sample arithmetic is over the reals; floating-point rounding is not modelled.
- The `sizeOfStrata` array (StratifiedSampleGenerator.cpp:36) is not modelled; the sample uses 1 / count directly, which is the same value in exact arithmetic. The SampleGenerator base class is not part of this model.
- DevicePartition.GetPartitionSegments: the share of device i, `totalSize * partition[i]` in double cast to size_t, is the natural number `shares[i]`.
- DevicePartition.GetPartitionSegments: requires start <= end. For end < start the source's size_t subtraction wraps.
- Sums of shares past 2^64 are not modelled.
- MaskMultiPlatform: dataset values are reals, and level, index and offset entries are integers rather than floating-point values of type T. The mask is the sign bit as a boolean, not its bit pattern from the reinterpret cast.
- MaskMultiPlatform.Encode: `1 << level` is the unbounded power 2^level; int overflow at level 31 and above is not modelled.
- MaskMultiPlatform.StreamingModMaskOperation.PadDataset: requires at least one data point. The source reads the row before the first on an empty dataset.
- MaskMultiPlatform.StreamingModMaskOperation.constructor: requires every grid point to have as many coordinates as the dataset has columns, as the source's arrays presuppose.
- The transposition of the padded dataset and its copy into the kernel's dataset buffer (the constructor and `prepare`) are not modelled. Neither are the kernel objects, their resets, the load balancers, the OpenCL manager and the devices' kernels themselves; only each device's block sizes enter, as KernelConfiguration.
