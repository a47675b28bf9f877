# Knapsack beam, Collatz parity trees, Pascal, Goldbach and 512-bit multiply, in Dafny

This project models the integer-only algorithms of a repository of experimental
scripts. It proves properties of those algorithms.

- **ABSI-EF knapsack** (`z/z3/core.py`, `2025/2026/mochila_knapsack.py`,
  `2026/mochila_knapsack.py`, `2025/z3/z.py`). The solver sorts the objects
  stably by non-increasing value/weight density. It then grows a frontier of
  `(weight, value, route)` nodes from `(0, 0, "N")`. Each object replaces every
  node by its include successor, when it fits, and then its exclude successor.
  The best include value is recorded as soon as it is created. A frontier of
  more than 1000 nodes is cut to its 500 highest-value nodes. Each file also
  carries the exhaustive recursion on `(n, capacity)`, which is the oracle. The
  four copies share one engine (module `Beam`). The entry points are in
  `knapsack_solvers.dfy`.
- **Collatz parity-split trees**, in eight files:
  - `collatz` and its variants `collatz2` and `collatz3`;
  - the level-by-level tree of `{route: values}` levels (`CollatzTree`);
  - the arithmetic-progression classifier `detectar_patron`, in its
    string-returning and raising forms (`CollatzSteps`);
  - the first-seen marking loops over the finished tree (`CollatzMarks`);
  - the `NodoCollatz` trees, which store a group as a pair
    `(desplazamiento, progresion)` and regenerate its seeds on demand
    (`CollatzNodes`, `NodeTree`);
  - the memoising variant with duplicate marks (`MemoNodeTree`).
- **Pascal triangle** (`x/2025_12_11/2.py`): the rows, the element-wise
  transform `6i - 2x`, and the alternating sum `valier` that the script prints.
- **Primality and the Goldbach search** (`2025/2025_11_03/z3.py`).
- **512-bit schoolbook multiplication on 64-bit limbs** (`z/z5/c/my.c`).

Python lists that a function only reads or builds afresh are sequences. A
Python `dict` filled in insertion order is a sequence of entries; the model
proves that its keys are distinct. A list the source sorts in place is an
`array`. The C limb buffer is an `array<U64>` inside a `class BigInt`. Routes
are sequences of the letters `N`, `R` and `L`, compared in Python's string
order. Densities are compared by integer cross-multiplication,
`v1 * w2 >= v2 * w1`. Python's `sort(reverse=True)` is modelled as a stable
insertion sort under a total preorder.

## Model

| member | source | states |
|---|---|---|
| Routes.ChoiceSnoc | 2025/z5/z4/collad/collad/1.py:17-18 | Appending R or L to an R/L route keeps it an R/L route. |
| Routes.RouteLeTotal | 2025/z5/z4/collad/collad/3.py:55 | Python's string order on routes is total. |
| Routes.RouteLeTransitive | 2025/z5/z4/collad/collad/3.py:55 | Python's string order on routes is transitive. |
| Routes.RouteLeAntisymmetric | 2025/z5/z4/collad/collad/3.py:55 | Python's string order on routes is antisymmetric, so sorting by route is deterministic. |
| Routes.RouteOrder | 2025/2025_12_23_collad/5.py:50 | Route order is a total preorder, so `sorted` by route is well defined. |
| Sorting.Insert | z/z3/core.py:13 | Inserting one element lengthens the list by one. |
| Sorting.SortBy | z/z3/core.py:13 | The stable sort keeps the length. |
| Sorting.InsertPermutes | z/z3/core.py:13 | Insertion adds exactly one copy of the element to the multiset. |
| Sorting.SortPermutes | z/z3/core.py:13 | The sort returns a permutation of its input. |
| Sorting.TiesWith | z/z3/core.py:30 | The tied elements are a sub-list of the input, each tied with the key. |
| Sorting.InsertSorted | z/z3/core.py:13 | Insertion into a sorted list keeps it sorted. |
| Sorting.SortSorted | z/z3/core.py:13 | The result of the sort is ordered by the key under any total preorder. |
| Sorting.TiesConcat | z/z3/core.py:30 | The tied elements of a concatenation are those of each part, in order. |
| Sorting.InsertTies | z/z3/core.py:30 | Insertion puts the new element in front of its ties and keeps their order. |
| Sorting.SortStable | z/z3/core.py:13 | Stability: elements with equal keys keep their input order. |
| Sorting.TiesOfPrefix | z/z3/core.py:31 | Truncating a list keeps a prefix of each tie group. |
| Knapsack.ProductSign | z/z3/core.py:8 | Multiplying by a positive weight preserves the sign; this justifies comparing densities by cross-multiplication. |
| Knapsack.DensityTransitive | z/z3/core.py:13 | Density order by cross-multiplication is transitive when weights are positive. |
| Knapsack.DensityOrder | z/z3/core.py:13 | Density order is a total preorder, so the density sort is well defined. |
| Knapsack.MakeItems | z/z3/core.py:12 | The item list has one item per weight, with item i holding `weights[i]` and `values[i]`. |
| Knapsack.ChosenWeight | 2025/2026/mochila_knapsack.py:21-23 | The summed weight of the R positions is never negative. |
| Knapsack.ChosenAppend | 2025/2026/mochila_knapsack.py:23-27 | Appending R adds the item's weight and value; appending L adds nothing. |
| Knapsack.NothingChosen | 2025/2026/mochila_knapsack.py:41-42 | A choice with no R weighs 0 and is worth 0. |
| Knapsack.WeightlessChoice | 2025/2026/mochila_knapsack.py:9 | With positive weights, a choice of weight 0 takes no item. |
| Knapsack.SkipAll | 2025/2026/mochila_knapsack.py:44-46 | The all-L choice has length n and is an R/L route. |
| Knapsack.BruteForce | 2025/2026/mochila_knapsack.py:39-52 | The oracle is never negative; it terminates because n decreases. |
| Knapsack.BruteForceUpperBound | 2025/2026/mochila_knapsack.py:39-52 | No feasible subset of the first n objects is worth more than the oracle. |
| Knapsack.Extend | 2025/2026/mochila_knapsack.py:49-51 | A feasible choice extended by a take or skip that fits stays feasible and gains the item's value only on R. |
| Knapsack.BruteForceAttained | 2026/mochila_knapsack.py:30-42 | For capacity >= 0, some feasible subset of the first n objects is worth exactly the oracle's value. |
| Knapsack.TakeLast | 2026/mochila_knapsack.py:39-41 | When the take branch wins the `max`, an optimal subset of the rest plus R attains the oracle. |
| Knapsack.SkipLast | 2026/mochila_knapsack.py:35-41 | When the object does not fit or skipping wins, an optimal subset of the rest plus L attains the oracle. |
| Knapsack.NothingFits | 2025/z3/z.py:30-34 | If no object fits on its own, the oracle is 0. |
| Knapsack.BruteForcePrefix | 2025/2026/mochila_knapsack.py:39-52 | The oracle over the first n objects ignores the objects after them. |
| Knapsack.OptAppend | 2025/2026/mochila_knapsack.py:41-52 | One more object at the end follows the recursion: base case at capacity 0, forced skip when too heavy, else the max of take and skip. |
| Knapsack.OptSwapLast | 2025/2026/mochila_knapsack.py:64-69 | Exchanging the last two objects leaves the optimum unchanged. |
| Knapsack.OptMoveLast | 2025/2026/mochila_knapsack.py:64-69 | Moving one object to the end leaves the optimum unchanged. |
| Knapsack.OptPermutation | 2025/2026/mochila_knapsack.py:64-69 | The optimum depends only on the multiset of objects, not on their order. |
| Knapsack.FindLast | 2025/2026/mochila_knapsack.py:64-69 | The last object of a list occurs in any permutation of it. Removing it from both leaves permutations of each other. |
| Knapsack.OptOfSorted | 2025/2026/mochila_knapsack.py:64-69 | Sorting by density leaves the optimum unchanged. |
| KnapsackCore.SolveStandard | z/z3/core.py:34-44 | `solve_standard` is never negative; it terminates because n decreases. |
| KnapsackCore.SolveStandardIsBruteForce | z/z3/core.py:34-44 | On positive weights, the list recursion equals the oracle over the items built from the lists. |
| KnapsackCore.ListsAreItems | z/z3/core.py:36-44 | The list recursion follows the oracle on any items that agree with the lists: base case, forced skip, max of take and skip. |
| KnapsackCore.SolveStandardOptimal | z/z3/core.py:34-44 | No feasible subset of the first n items is worth more than `solve_standard`. |
| KnapsackCore.SolveFast | z/z3/core.py:10-32 | `solve_fast` returns the beam's best value over the density-sorted items. It is between 0 and `solve_standard`, and equal to `solve_standard` for at most 9 items. |
| AbsiPro.SolveKnapsackAbsiPro | 2025/2026/mochila_knapsack.py:11-36 | The caller's array ends up stably sorted by density. The result is the beam's best value, between 0 and the optimum of the original list, and equal to that optimum for at most 9 objects. For a non-negative capacity some feasible subset of the sorted objects is worth exactly the result. |
| AbsiPro.SortedObjects | 2026/mochila_knapsack.py:12 | The in-place sort leaves non-increasing density and a permutation of the input, with equal densities in input order. |
| AbsiPro.OracleAfterSort | 2025/2026/mochila_knapsack.py:64-69 | The oracle on the already reordered list equals the optimum of the original list. |
| MochilaListas.BuildObjects | 2025/z3/z.py:15-18 | The loop builds `cantidadN` objects, object i from `pesos_items[i]` and `valores_items[i]`. |
| MochilaListas.ResolverMochilaAbsiPro | 2025/z3/z.py:13-46 | The result is exactly the beam's recorded best (`BestAfter`) over the objects sorted by density, so the `BestMonotone` and `BestRecordsIncludes` properties apply to it. It is between 0 and the optimum of the first `cantidadN` objects, and equals it for at most 9 objects. For capacity >= 0 a feasible subset attains it. It is 0 when no object fits. |
| Beam.Branch | 2025/2026/mochila_knapsack.py:19-27 | A node yields its include successor, only when it fits, followed by its exclude successor, with route + "R" / + "L". |
| Beam.Successors | 2025/2026/mochila_knapsack.py:18-28 | The next frontier has between one and two successors per node. |
| Beam.IncludeBest | 2025/2026/mochila_knapsack.py:24-25 | The running best never decreases within an item. |
| Beam.IncludeBestIsMax | 2025/2026/mochila_knapsack.py:21-25 | The best after an item is the maximum of the old best and every include value created: at least each of them, and equal to one of them. |
| Beam.ValueOrder | z/z3/core.py:30 | Ordering by value is a total preorder. |
| Beam.Prune | z/z3/core.py:29-31 | Up to 1000 nodes the frontier is unchanged. Above that it keeps exactly 500; the result never exceeds 1000. |
| Beam.PruneKeepsHighest | 2025/2026/mochila_knapsack.py:32-34 | A pruned frontier is a sub-multiset, sorted by descending value, and no kept node is worth less than a dropped one. |
| Beam.SortedSplit | z/z3/core.py:30-31 | In a list sorted by value, everything before a cut is worth at least everything after it. |
| Beam.PruneSubset | 2026/mochila_knapsack.py:24-26 | Pruning only drops nodes. |
| Beam.PruneStable | z/z3/core.py:30-31 | Pruning keeps nodes of equal value in frontier order. |
| Beam.Frontier | 2025/z3/z.py:39-44 | Every frontier is non-empty and holds at most 1000 nodes. |
| Beam.BestAfter | 2025/z3/z.py:23 | The recorded best value is never negative. |
| Beam.InSuccessors | 2025/2026/mochila_knapsack.py:19-27 | Every successor comes from some frontier node. |
| Beam.BranchInSuccessors | 2025/2026/mochila_knapsack.py:19-27 | Every successor of a frontier node is in the next frontier. |
| Beam.BranchOk | 2025/2026/mochila_knapsack.py:21-27 | Both successors of a well-formed node are well formed one object later. |
| Beam.ExtendOk | 2025/2026/mochila_knapsack.py:23-27 | A take that fits, or a skip, appends R or L and adds the object's weight and value only on R. |
| Beam.SuccessorsOk | 2026/mochila_knapsack.py:17-22 | The successors of well-formed nodes are well formed. |
| Beam.FrontierOk | 2025/2026/mochila_knapsack.py:15-27 | Frontier invariant: every node's route is "N" plus one R/L per processed object; its weight and value are the sums over the R positions; its weight is at most the capacity. |
| Beam.BestGrows | z/z3/core.py:24-25 | One more item never lowers the best value. |
| Beam.BestMonotone | 2026/mochila_knapsack.py:13-21 | The best value never decreases over the items. |
| Beam.BestRecordsIncludes | z/z3/core.py:15-25 | The best value is at least every include value created, even of nodes pruned later, and is either the old best or one of those values. |
| Beam.BestWitness | z/z3/core.py:18-28 | For capacity >= 0, a feasible subset of the processed items attains the best value. |
| Beam.BestStep | 2025/z3/z.py:30-37 | One item later, a witness of the old best plus L, or the route of the winning include node plus R, attains the new best. |
| Beam.NegativeCapacity | z/z3/core.py:21 | With a negative capacity nothing is ever included, and the result is 0. |
| Beam.NothingIncluded | z/z3/core.py:21-25 | With a negative capacity no well-formed node can take one more item. |
| Beam.BestBounded | 2026/mochila_knapsack.py:11-42 | The beam never claims more than the exhaustive optimum over the same items. |
| Beam.SmallFrontier | z/z3/core.py:29-31 | Up to nine items the frontier holds at most 2^i <= 512 nodes, so pruning never fires. |
| Beam.NodeForBranch | 2025/2026/mochila_knapsack.py:21-27 | The node of a choice extended by a decision that fits is a successor of the node of the choice. |
| Beam.FrontierComplete | 2025/2026/mochila_knapsack.py:17-34 | Up to nine items the frontier holds the node of every feasible choice. |
| Beam.BestCovers | 2025/2026/mochila_knapsack.py:14-25 | Up to nine items no feasible choice is worth more than the best value. |
| Beam.BeamExact | 2026/mochila_knapsack.py:11-42 | Up to nine items the beam result equals the exhaustive optimum. |
| Beam.Expand | 2025/z3/z.py:27-37 | The inner loop builds exactly the successors and the updated best value. |
| Beam.BeamSearch | 2025/2026/mochila_knapsack.py:14-36 | The outer loop returns the recorded best value. It is between 0 and the optimum, exact for at most 9 items, and attained by a feasible subset when capacity >= 0. |
| CollatzSteps.Collatz | 2025/z5/z4/collad/collad/1.py:1-5 | The branch is R exactly for even n, L otherwise. |
| CollatzSteps.CollatzUnstep | 2025/2025_12_23_collad/5.py:11-13 | The step can be undone: the branch letter and the new value determine n. |
| CollatzSteps.OddStepEven | 2025/2025_12_23_collad/3_grafica.py:8-12 | An odd step lands on an even value, so an L is always followed by an R. |
| CollatzSteps.CollatzSign | 2025/2025_12_23_collad/3_negative.py:6-10 | The step keeps the sign, including for negative n. |
| CollatzSteps.Collatz2 | 2025/2025_12_23_collad/3_grafica.py:3-7 | `collatz2` branches R exactly for even n and changes parity. |
| CollatzSteps.Collatz2Involution | 2025/2025_12_23_collad/3_grafica2.py:1-5 | Applying `collatz2`'s value map twice returns n, and the two branches alternate. |
| CollatzSteps.Collatz3 | 2025/2025_12_23_collad/3_grafica2.py:6-10 | `collatz3` halves even n exactly and sends odd n to the even number n + 1. |
| CollatzSteps.Arith | 2025/z5/z4/7.py:13-17 | The progression has k terms, term q being `s * q + a`. |
| CollatzSteps.ArithSnoc | 2025/z5/z4/7.py:15-16 | One more loop iteration appends the next term. |
| CollatzSteps.StepsGiveArith | 2025/2025_12_23_collad/5.py:17-18 | Equal consecutive differences make term i equal to `v[0] + i * (v[1] - v[0])`. |
| CollatzSteps.ArithIffSteps | 2025/2025_12_23_collad/5.py:18 | All differences are equal if and only if the list is the progression of its first value and first difference. |
| CollatzSteps.DetectPattern | 2025/z5/z4/collad/collad/3.py:7-26 | The result is empty exactly below 3 values. It is a progression exactly when all differences are equal, and then it starts at `v[0]` with step `v[1] - v[0]`. Otherwise it is broken. |
| CollatzSteps.DetectArith | 2025/z5/z4/collad/collad/3.py:12-23 | Round trip: three or more terms of a progression are classified as that progression. |
| CollatzSteps.DetectPatternLoop | 2025/2025_12_23_collad/3_grafica2.py:16-35 | The flag-and-break loop returns exactly the classification. |
| CollatzSteps.DetectProgression | 2025/z5/z4/7.py:22-28 | It raises `muyCorto` exactly below the threshold. It returns `(v[0], v[1] - v[0])` exactly when all differences are equal. Otherwise it raises `NoSimple`. |
| CollatzSteps.DetectProgressionArith | 2025/z5/z4/7.py:13-27 | Round trip: a progression at least as long as the threshold is recognised as its own `(start, step)`. |
| CollatzTree.Images | 2025/z5/z4/collad/collad/1.py:23-28 | A branch group is never longer than the seed list. |
| CollatzTree.Origins | 2025/z5/z4/collad/collad/1.py:23-28 | Undoing the step keeps the length. |
| CollatzTree.ImagesSnoc | 2025/z5/z4/collad/collad/1.py:23-28 | One more seed appends its image to its own branch's group and leaves the other group alone. |
| CollatzTree.OriginsSnoc | 2025/z5/z4/collad/collad/1.py:24 | Undoing the step commutes with appending. |
| CollatzTree.SplitSnoc | 2025/z5/z4/collad/collad/1.py:23-28 | One more seed keeps the partition property. |
| CollatzTree.SplitPartition | 2025/z5/z4/collad/collad/1.py:23-28 | The two groups together have as many values as the seeds, and undoing the step on them gives back the seeds as a multiset. |
| CollatzTree.ImagesNegative | 2025/2025_12_23_collad/3_negative.py:30-33 | Negative seeds give negative images on both branches. |
| CollatzTree.SplitByParity | 2025/z5/z4/collad/collad/1.py:20-28 | The seed loop builds `grupo_r` as the even seeds halved, in order, and `grupo_l` as the odd seeds mapped to 3s + 1, in order. |
| CollatzTree.ChildrenOf | 2025/z5/z4/collad/collad/1.py:31-32 | A group contributes at most two children. |
| CollatzTree.NextLevel | 2025/z5/z4/collad/collad/1.py:12-33 | The loop over a level's groups builds exactly the next level. |
| CollatzTree.BuildTree | 2025/z5/z4/collad/collad/1.py:7-35 | `generar_arbol_multiple` returns `niveles + 1` levels, level 0 being `{"": seeds}`, level k being the k-th tree level. |
| CollatzTree.LevelsSnoc | 2025/z5/z4/collad/collad/1.py:34 | Appending the children of the last level extends the tree prefix by one level. |
| CollatzTree.TotalAppend | 2025/z5/z4/collad/collad/3.py:40-41 | Value counts add up over concatenated levels. |
| CollatzTree.ChildrenTotal | 2025/2025_12_23_collad/5.py:26-33 | The next level holds exactly as many values as its parent level. |
| CollatzTree.TreeTotal | 2025/2025_12_23_collad/3_negative.py:22-37 | Every level holds exactly as many values as there are seeds. |
| CollatzTree.ChildOrigin | 2025/z5/z4/collad/collad/1.py:15-32 | Every child is a non-empty branch group of some group of the level, under route + R or + L. |
| CollatzTree.InChildren | 2025/z5/z4/collad/collad/1.py:31-32 | Every child of a group is in the next level. |
| CollatzTree.ChildrenDistinct | 2025/z5/z4/collad/collad/1.py:17-32 | Distinct parent routes give distinct child routes, so a level is a well-formed dict. |
| CollatzTree.ChildrenShape | 2025/2025_12_23_collad/3_grafica.py:40-47 | Children of k-letter R/L routes have (k+1)-letter R/L routes and are non-empty. |
| CollatzTree.TreeDistinct | 2025/z5/z4/collad/collad/1.py:31-34 | The routes of every tree level are distinct. |
| CollatzTree.TreeShape | 2025/z5/z4/collad/collad/3.py:29-42 | Every route at level k is a k-letter string over {R, L}, and below the root no group is empty. |
| CollatzTree.ChildExtendsParent | 2025/z5/z4/collad/collad/1.py:17-32 | Each child route extends a parent route by one letter, and its values are the parent's images on that branch. |
| CollatzTree.ChildKeyPresent | 2025/z5/z4/collad/collad/1.py:31-32 | A child route is present if and only if its group is non-empty. |
| CollatzTree.ChildrenNegative | 2025/2025_12_23_collad/3_negative.py:30-35 | Children of negative groups hold only negative values. |
| CollatzTree.TreeNegative | 2025/2025_12_23_collad/3_negative.py:43-45 | With seeds below 0 every generated value at every level is below 0. |
| CollatzMarks.Take | 2025/z5/z4/collad/collad/3.py:58-65 | `s[:k]` has length min(len s, k). |
| CollatzMarks.FingerprintKey | 2025/z5/z4/collad/collad/3.py:58 | The fingerprint `tuple(valores[:5])` is always a key: the first five values, or all of them when there are fewer. |
| CollatzMarks.PatternKey | 2025/2025_12_23_collad/5.py:52-58 | A group has no key exactly when its first 100 values number at least 3 and are not a progression (`"!!!!!!!"`); otherwise its key is its pattern. |
| CollatzMarks.Record | 2025/2025_12_23_collad/5.py:53-58 | Recording adds the group's key only when it has one and it is new, with the group's route; every route already recorded is kept. |
| CollatzMarks.LinesOf | 2025/z5/z4/collad/collad/3.py:55-67 | One line is printed per visited group. |
| CollatzMarks.SortedLevel | 2025/z5/z4/collad/collad/3.py:55 | Sorting a level keeps its size. |
| CollatzMarks.TraversalStep | 2025/z5/z4/collad/collad/3.py:53-55 | The walk through i + 1 levels is the walk through i levels, then level i in route order. |
| CollatzMarks.SortedLevelOrder | 2025/2025_12_23_collad/5.py:50 | Each level is visited in ascending route order, as a rearrangement of the level. |
| CollatzMarks.HistoryConcat | 2025/z5/z4/collad/collad/3.py:51-63 | The history is carried across levels: visiting a + b equals visiting b from the history a left. |
| CollatzMarks.LinesConcat | 2025/z5/z4/collad/collad/3.py:53-67 | The lines of a + b are those of a, then those of b printed against the history a left. |
| CollatzMarks.HistoryKeeps | 2025/z5/z4/collad/collad/3.py:59-63 | The history only grows, and a recorded route is never overwritten. |
| CollatzMarks.HistoryKeys | 2025/2025_12_23_collad/5.py:53-58 | A key is in the history exactly when it was there already or some visited group has it. |
| CollatzMarks.Visit | 2025/z5/z4/collad/collad/3.py:58-67 | Visiting one more group records its key and prints its line against the history so far. |
| CollatzMarks.LineAt | 2025/z5/z4/collad/collad/3.py:58-67 | The i-th line is computed against the history of the groups before it. |
| CollatzMarks.MarkIff | 2025/z5/z4/collad/collad/3.py:58-63 | First-seen marking: a line is `*` exactly when its group has a key and an earlier group had the same key; otherwise `#`. |
| CollatzMarks.FirstRouteRecorded | 2025/2025_12_23_collad/5.py:44-58 | Each key is recorded once, with the route of the first group of the level-ascending, route-sorted walk that has it. |
| CollatzMarks.MarkByFingerprint | 2025/2025_12_23_collad/3_grafica.py:65-74 | The loop body marks by the first-five-values fingerprint, records it on first sight, and classifies the first 100 values. |
| CollatzMarks.MarkFingerprintWalk | 2025/2025_12_23_collad/3_grafica2.py:65-77 | The inner marking loop prints exactly the first-seen lines of the walk and leaves the matching history. |
| CollatzMarks.MarkFingerprints | 2025/z5/z4/collad/collad/3.py:51-67 | The whole marking loop prints the first-seen lines of the level-by-level, route-sorted walk. |
| CollatzMarks.Only | 2025/2025_12_23_collad/5.py:60-63 | A filtered list is no longer than the original. |
| CollatzMarks.OnlyAppend | 2025/2025_12_23_collad/5.py:60-63 | One more line goes to the end of the list of its kind only. |
| CollatzMarks.OnlySplits | 2025/2025_12_23_collad/5.py:60-63 | Every line goes to exactly one of `rutas_simetria_R` (routes starting with R) and `rutas_imprimir` (the rest). |
| CollatzMarks.MarkByPattern | 2025/2025_12_23_collad/5.py:51-59 | A line is `*` when its pattern is not broken and already recorded; broken patterns are never recorded. |
| CollatzMarks.SplitStep | 2025/2025_12_23_collad/5.py:50-63 | One more group adds its line to the list its route belongs to and records its pattern. |
| CollatzMarks.MarkLevel | 2025/2025_12_23_collad/5.py:47-63 | One level's loop builds both route lists and carries the pattern history. |
| CollatzMarks.Reports | 2025/2025_12_23_collad/5.py:44-67 | There is one report per level. |
| CollatzMarks.ReportAt | 2025/2025_12_23_collad/5.py:44-63 | Report i is level i visited against the history the earlier levels left. |
| CollatzMarks.MarkPatterns | 2025/2025_12_23_collad/5.py:42-67 | The whole loop yields one report per level and one history across levels. |
| CollatzMarks.LevelLines | 2025/2025_12_23_collad/5.py:44-58 | Put together in walk order, the levels' lines are the first-seen marking of the whole walk. |
| CollatzNodes.GenerateList | 2025/z5/z4/7.py:13-17 | `GenerateList(k)` returns exactly the k values `desplazamiento + progresion * q`. |
| CollatzNodes.ArithDeterminesPair | z/z4/7.py:19-25 | Two or more generated seeds determine the pair, so `mytuple` regenerates exactly its list. |
| CollatzNodes.Parity | 2025/z5/z4/7.py:41-46 | The parity of seed m is that of the offset for an even step, and that of m + offset for an odd one. |
| CollatzNodes.ImagesOfArith | 2025/z5/z4/7.py:41-52 | The parity split of a progression is again a progression on each side, with a closed-form start, step and count. |
| CollatzNodes.ImagesOfArithStep | 2025/z5/z4/7.py:41-46 | One more seed appends the next child value exactly when it takes the branch. |
| CollatzNodes.NextImage | 2025/z5/z4/7.py:42-46 | A seed taking the branch adds one to the count, and its image is the next child term. |
| CollatzNodes.NextImageEvenStep | 2025/z5/z4/7.py:42-46 | With an even step, the image of seed m is the m-th child term. |
| CollatzNodes.NextImageOddStep | 2025/z5/z4/7.py:42-46 | With an odd step, the image of a matching seed is the next child term. |
| CollatzNodes.FirstMatchMatches | 2025/z5/z4/7.py:42-46 | With an odd step the seed at FirstMatch takes the branch. |
| CollatzNodes.OddMatchIndex | 2025/z5/z4/7.py:42-46 | With an odd step the seeds taking a branch sit at FirstMatch, FirstMatch + 2, and so on. |
| CollatzNodes.MatchIndex | 2025/z5/z4/7.py:42-46 | A matching seed of parity m + offset sits at FirstMatch + 2t. |
| CollatzNodes.OddImage | 2025/z5/z4/7.py:42 | For an odd step, seeds 2s apart on the same branch have images s (R) or 6s (L) apart. |
| CollatzNodes.NoImage | 2025/z5/z4/7.py:43-46 | A seed not taking the branch leaves its count unchanged. |
| CollatzNodes.NoMatchCount | 2025/z5/z4/7.py:43-46 | A non-matching seed of the right parity leaves the count unchanged. |
| CollatzNodes.ChildCountBound | 2025/z5/z4/7.py:47-50 | A side of the split is empty or holds at least half the seeds, rounded down. |
| CollatzNodes.ChildPatternNeverFails | 2025/z5/z4/7.py:22-52 | With a threshold of at most half the seeds the classifier never raises. A child exists exactly when more than one seed takes the branch, and it is the closed-form pair. |
| CollatzNodes.ChildRegenerates | 2025/z5/z4/7.py:13-27 | A returned child pair regenerates exactly the images on its branch. |
| CollatzNodes.ChildPattern | 2025/z5/z4/7.py:47-52 | A side yields no child exactly when at most one value took it; it raises "muyCorto" exactly when it has 2 to minLen - 1 values; a returned pair regenerates the side's values. |
| CollatzNodes.EntryKey | 2025/z5/z4/7.py:32-36 | The root is stored under "N" whatever its own `ruta`; later nodes under the route they were created with. |
| CollatzNodes.ChildNode | 2025/z5/z4/7.py:47-52 | At most one child node per branch, at depth q1 + 1, keyed by the parent's dict key plus R or L. |
| CollatzNodes.ChildNodesSiblings | 2025/z5/z4/7.py:47-52 | The R and L children of one node are children of that node with different routes. |
| CollatzNodes.SpawnDistinct | 2025/z5/z4/7.py:36-52 | Children appended parent by parent, from parents with distinct keys, have distinct routes. |
| NodeTree.Forest | 2025/z5/z4/7.py:31-54 | A built tree has `niveles + 1` levels, level 0 being `{"N": start}`; the root's children are keyed "NR" and "NL" whatever the start node's `ruta`. |
| NodeTree.ClassifySide | 2025/z5/z4/7.py:47-52 | One side is classified only with more than one value, as the raising `detectar_patron` does. |
| NodeTree.ExpandNode | 2025/z5/z4/7.py:36-52 | The node loop body regenerates 32 seeds, splits them by parity and creates the R and then the L child. |
| NodeTree.ExpandLevel | 2025/z5/z4/7.py:33-53 | One level iteration builds the next level or propagates the first exception. |
| NodeTree.NextNodesFailPersists | 2025/z5/z4/7.py:36-52 | An exception part-way through a level is the level's result. |
| NodeTree.ForestFailPersists | 2025/z5/z4/7.py:33-53 | An exception at some level is the result of the whole call. |
| NodeTree.GenerarArbol | 2025/z5/z4/7.py:31-54 | `generar_arbol` returns the levels of Forest, keyed from "N", or the exception it raises. |
| NodeTree.ForestNeverFails | 2025/z5/z4/7.py:23-39 | With 32 seeds and threshold 16 `detectar_patron` never raises, so the tree is always built. |
| NodeTree.NextNodesNeverFail | 2025/z5/z4/7.py:23-52 | No level expansion raises. |
| NodeTree.NextNodeOrigin | 2025/z5/z4/7.py:47-52 | Every next-level node is the child of one node: its dict key + R or + L, depth q1 + 1, and a pair regenerating that branch's images. |
| NodeTree.ForestStep | 2025/z5/z4/7.py:33-53 | A built tree is the one-shorter tree plus the next level. |
| NodeTree.ForestShape | 2025/z5/z4/7.py:32-52 | Level k holds nodes at depth k whose routes are "N" plus k letters R or L. |
| NodeTree.LastLevelParent | 2025/z5/z4/7.py:49-53 | A node of the newest level has a parent on the level before, and its route has the parent's shape one letter longer. |
| NodeTree.ChildShape | 2025/z5/z4/7.py:49-52 | A child sits one deeper than its parent and extends its route by R or L. |
| NodeTree.NextNodesDistinct | 2025/z5/z4/7.py:36-52 | A level with distinct keys grows a next level with distinct keys, so no `proximo[ruta + ...]` assignment overwrites an entry. |
| NodeTree.ForestDistinct | 2025/z5/z4/7.py:31-54 | Every level of a built tree has distinct keys: the list of nodes is exactly the dict. |
| MemoNodeTree.ChildIsPattern | z/z4/7.py:74-87 | With threshold `cantidadDeSemillas / 2` the classifier never raises. It finds the closed-form child, which regenerates the branch's images. |
| MemoNodeTree.DupForest | z/z4/7.py:39-90 | The tree has `niveles + 1` levels, level 0 being `{"N": start}`; the root's children are keyed from "N" whatever the start node's `ruta`. |
| MemoNodeTree.ClassifyChild | z/z4/7.py:74-82 | `if len(r_vals) > 1: detectar_patron(r_vals)` yields exactly the closed-form child. |
| MemoNodeTree.EmitChild | z/z4/7.py:77-87 | A created node is flagged iff its pair is already in `historial_patrones`, and the pair is recorded. |
| MemoNodeTree.MemoNode | z/z4/7.py:46-88 | A node taken from the memo or computed yields the same children, and the memo stays sound and gains the node's pair. |
| MemoNodeTree.MemoLevel | z/z4/7.py:43-89 | One level iteration builds the next level, keeps the memo sound and growing, and records every node of the level. |
| MemoNodeTree.GenerarArbolMemo | z/z4/7.py:39-90 | The memoised `generar_arbol` returns the tree of DupForest, keyed from "N", with duplicate marks. |
| MemoNodeTree.KeysOfHas | z/z4/7.py:24-25 | Each node's `mytuple` is among the keys of its list. |
| MemoNodeTree.KeysOfMembers | z/z4/7.py:24-25 | Each key comes from some node of the list. |
| MemoNodeTree.KeysOfConcat | z/z4/7.py:24-25 | Keys of a concatenation are the union of the keys. |
| MemoNodeTree.FlaggedAt | z/z4/7.py:53-80 | A node is flagged iff its pair was in the history or belongs to an earlier node. |
| MemoNodeTree.FlaggedConcat | z/z4/7.py:84-87 | Flags stay correct across concatenation when the history carries over. |
| MemoNodeTree.EmitFlags | z/z4/7.py:77-87 | After emitting, the history is the old one plus the emitted pairs, each flagged as its history says. |
| MemoNodeTree.ExpandAllFlags | z/z4/7.py:46-88 | Every node of an expanded level is flagged exactly when its pair came earlier. |
| MemoNodeTree.ExpandAllHistory | z/z4/7.py:54-86 | `historial_patrones` only grows, by exactly the pairs of the created nodes. |
| MemoNodeTree.DuplicateMarks | z/z4/7.py:53-87 | A node below the root is flagged as a duplicate exactly when an earlier node below the root, in level order, has the same pair. |
| MemoNodeTree.FlagStep | z/z4/7.py:43-89 | One more level keeps the duplicate flags correct. |
| MemoNodeTree.FinalHistory | z/z4/7.py:41-79 | The final `historial_patrones` holds exactly the pairs of the nodes below the root. |
| MemoNodeTree.FinalHistoryStep | z/z4/7.py:43-89 | After one more level the history is again the set of pairs below the root. |
| MemoNodeTree.HistoryStep | z/z4/7.py:43-89 | One more level keeps the history equal to the set of pairs below the root. |
| MemoNodeTree.DupForestGrows | z/z4/7.py:43-89 | Each level comes from expanding the previous one with the history so far. |
| MemoNodeTree.BelowStep | z/z4/7.py:89 | Appending a level appends its nodes to the walk below the root. |
| MemoNodeTree.ExpandSiblings | z/z4/7.py:74-87 | The children of one node are children of that node with different routes. |
| MemoNodeTree.ExpandAllOrigin | z/z4/7.py:46-88 | Every node of the next level is a child of some node of this level. |
| MemoNodeTree.ExpandAllDistinct | z/z4/7.py:46-88 | A level with distinct keys grows a next level with distinct keys, so no `proximo[ruta + ...]` assignment overwrites an entry. |
| MemoNodeTree.DupForestDistinct | z/z4/7.py:39-90 | Every level of the memoised tree has distinct keys: the list of nodes is exactly the dict. |
| MemoNodeTree.DupForestKeeps | z/z4/7.py:89 | Appending a level leaves the earlier levels unchanged. |
| MemoNodeTree.DupForestLastDistinct | z/z4/7.py:43-89 | The newest level has distinct keys when the level it grew from has. |
| MemoNodeTree.Unflag | z/z4/7.py:11 | Clearing marks keeps the length and changes only `es_duplicado`. |
| MemoNodeTree.NextNodesIgnoresMarks | 2025/z5/z4/7.py:36-52 | The plain builder reads only pairs and routes, never marks. |
| MemoNodeTree.UnflagConcat | z/z4/7.py:11 | Clearing marks commutes with concatenation. |
| MemoNodeTree.ExpandAllIsNextNodes | z/z4/7.py:63-88 | Apart from marks, a level grows as in the plain builder. |
| MemoNodeTree.EmitUnflagged | z/z4/7.py:77-87 | Without its duplicate mark, a created child is the plain builder's child. |
| MemoNodeTree.UnflagTwice | z/z4/7.py:11 | Clearing marks is idempotent. |
| MemoNodeTree.NextLevelSame | z/z4/7.py:63-88 | Levels equal up to marks grow into levels equal up to marks. |
| MemoNodeTree.SameSnoc | z/z4/7.py:89 | Trees equal up to marks stay so when each gains a level that is equal up to marks. |
| MemoNodeTree.SameStep | z/z4/7.py:43-89 | The memoised and the plain tree grow in step. |
| MemoNodeTree.SameTreeAsPlain | z/z4/7.py:39-90 | With 32 seeds the memoised builder grows the same tree as the plain `generar_arbol` of `2025/z5/z4/7.py`, up to duplicate marks. |
| MemoNodeTree.SameTreeStep | z/z4/7.py:43-89 | One more level of both builders keeps the memoised and the plain tree equal up to marks. |
| MemoNodeTree.Sentinel | z/z4/7.py:72-88 | The stored pair is (-1, -1) exactly when there is no child or the child is (-1, -1) itself. |
| MemoNodeTree.FromSentinel | z/z4/7.py:52-57 | Reading a stored pair back gives "no child" exactly for (-1, -1), and storing the result again gives the same pair. |
| MemoNodeTree.SentinelRoundTrip | z/z4/7.py:52-73 | Encoding "no child" as (-1, -1) loses exactly the genuine child pair (-1, -1). |
| MemoNodeTree.SelfChild | z/z4/7.py:47-80 | The node (-1, -1) over 32 seeds has R child (-1, -1) and L child (-2, -6), so its level-1 R node hits the memo. |
| MemoNodeTree.ExpandFromSentinels | z/z4/7.py:48-62 | The memo-hit path creates one node per stored pair other than (-1, -1), flags each exactly when its pair came earlier, and adds the created pairs to `historial_patrones`. |
| MemoNodeTree.SentinelLosesChild | z/z4/7.py:48-62 | On that hit the as-written decoding drops the R child that recomputation creates. |
| MemoNodeTree.SentinelHarmless | z/z4/7.py:48-88 | When no child is (-1, -1), the as-written hit path creates the same children as recomputation. |
| Pascal.Row | x/2025_12_11/2.py:5-12 | Row n has n + 1 entries, entry j being C(n, j). |
| Pascal.BinomAbove | x/2025_12_11/2.py:8 | C(n, k) is 0 above the diagonal. |
| Pascal.BinomDiagonal | x/2025_12_11/2.py:11 | The last entry C(n, n) is 1. |
| Pascal.RowShape | x/2025_12_11/2.py:7-11 | Row i has i + 1 entries, starts and ends with 1, and each interior entry is the sum of the two above it. |
| Pascal.BinomSymmetric | x/2025_12_11/2.py:8-10 | The triangle is symmetric: C(n, k) = C(n, n - k). |
| Pascal.BinomSumStep | x/2025_12_11/2.py:9 | Pascal's rule on partial row sums. |
| Pascal.BinomSumFull | x/2025_12_11/2.py:8-11 | Summing past the end of a row adds nothing. |
| Pascal.RowSum | x/2025_12_11/2.py:5-12 | Row n sums to 2^n. |
| Pascal.RowSumIsBinomSum | x/2025_12_11/2.py:5-12 | A row's prefix sums are sums of binomials. |
| Pascal.BinomSumPow | x/2025_12_11/2.py:8-11 | A full binomial row sums to 2^n. |
| Pascal.NextRow | x/2025_12_11/2.py:6-11 | The row loop builds exactly row i from row i - 1. |
| Pascal.GenerarTrianguloPascal | x/2025_12_11/2.py:1-13 | The result is `[]` for N < 0, otherwise N + 1 rows, row i being the binomial row. |
| Pascal.ScaledDetermines | x/2025_12_11/2.py:15-24 | The multiplied triangle determines the triangle it was made from: entry (i, j) is `(6*i - scaled[i][j]) / 2`. |
| Pascal.GenerarTrianguloPascalMultiplicado | x/2025_12_11/2.py:15-24 | The new triangle has the same shape as its input, with entry (i, j) equal to `6*i - 2*orig[i][j]`, so by ScaledDetermines the input can be read back from it. |
| Pascal.AlternatingSum | x/2025_12_11/2.py:35-42 | The `valier` loop adds entry 0 and the odd entries and subtracts the other even entries. |
| Pascal.AltBinomTelescopes | x/2025_12_11/2.py:36-42 | By Pascal's rule the alternating sum of the first m binomials is ±C(n - 1, m - 1). |
| Pascal.AltBinomRow | x/2025_12_11/2.py:36-42 | A whole row of two or more entries has alternating sum 0. |
| Pascal.ScaledRow | x/2025_12_11/2.py:21 | Row i of the multiplied triangle has i + 1 entries, `6i - 2 C(i, j)`. |
| Pascal.ValierOfScaledPrefix | x/2025_12_11/2.py:36-42 | `valier` over a prefix of a multiplied row in closed form. |
| Pascal.ValierOfEvenRow | x/2025_12_11/2.py:34-43 | For an even row i `valier` is 6i - 4, except -2 for row 0. |
| Pascal.EvenRowSums | x/2025_12_11/2.py:34-43 | The loop over even rows collects each row's `valier`, one per even row. |
| Pascal.PrintedSums | x/2025_12_11/2.py:26-43 | For N >= 0 the k-th printed sum is 12k - 4, and -2 for k = 0. |
| Goldbach.MultipleMod | 2025/2025_11_03/z3.py:7 | A multiple of q leaves no remainder. |
| Goldbach.SmallDivisor | 2025/2025_11_03/z3.py:6 | A proper divisor above the square root has a cofactor at or below it. |
| Goldbach.BelowRoot | 2025/2025_11_03/z3.py:6 | A trial divisor i with i * i <= n is a proper one. |
| Goldbach.NoSmallDivisor | 2025/2025_11_03/z3.py:6-8 | No divisor up to the square root means n is prime. |
| Goldbach.EsPrimo | 2025/2025_11_03/z3.py:3-8 | `es_primo(n)` is True exactly when n is prime; False below 2. |
| Goldbach.FirstOffsetSpec | 2025/2025_11_03/z3.py:16-28 | The search from d finds the least offset >= d with both k + e and k - e prime. It finds none exactly when no such offset with k - e >= 2 exists. |
| Goldbach.EncontrarParesGoldbach | 2025/2025_11_03/z3.py:10-28 | The loop returns the search's answer and terminates because k - delta falls to 1 or below. |
| Goldbach.GoldbachAnswer | 2025/2025_11_03/z3.py:12-26 | For even E, (True, d) gives primes k + d and k - d >= 2 summing to E, with d minimal. (False, None) means no symmetric prime pair exists. |
| Goldbach.SmallEvenFails | 2025/2025_11_03/z3.py:20-22 | Below 4 the search fails at once. |
| Goldbach.FindsEveryPair | 2025/2025_11_03/z3.py:10-28 | For even E, any pair of primes summing to E makes the search succeed, at an offset no larger than that pair's. |
| BigMul.Pow | z/z5/c/my.c:46-48 | Limb weights are positive. |
| BigMul.ValConcat | z/z5/c/my.c:9-11 | The values of adjacent limb runs add up with the upper run shifted. |
| BigMul.PowAdd | z/z5/c/my.c:41 | Limb weights multiply: Base^(m+n) = Base^m Base^n. |
| BigMul.ValBounds | z/z5/c/my.c:10 | k limbs hold a value in [0, 2^(64k)). |
| BigMul.ValZero | z/z5/c/my.c:16-18 | Zero limbs have value 0. |
| BigMul.ClearBig | z/z5/c/my.c:16-18 | `clear_big` sets all 128 limbs to 0. |
| BigMul.ProductFits | z/z5/c/my.c:46-48 | `a*b + res + carry` is at most 2^128 - 1, so the 128-bit temporary never overflows and the carry is below 2^64. |
| BigMul.ValSnoc | z/z5/c/my.c:44-47 | Writing one more limb adds it at the next weight. |
| BigMul.RowStep | z/z5/c/my.c:44-49 | One inner step keeps "limbs written plus carry shifted equals old limbs plus a times the B limbs read". |
| BigMul.MulAdd | z/z5/c/my.c:46-48 | `prod` splits exactly into its low limb, written back, and its high limb, the next carry. |
| BigMul.RowAdvance | z/z5/c/my.c:44-49 | Writing the low half of one step keeps the row invariant. |
| BigMul.StoreTop | z/z5/c/my.c:50 | The stored carry sits on top of the row's 8 limbs. |
| BigMul.RowTail | z/z5/c/my.c:50 | Assigning the carry to the ninth limb, which held 0, is the same as adding it. |
| BigMul.MulRow | z/z5/c/my.c:37-50 | Row i adds a times B to limbs i to i + 8 and changes nothing else. |
| BigMul.RowInProduct | z/z5/c/my.c:41-50 | Changing limbs i to i + 8 changes the 16-limb value by Base^i times that run's change. |
| BigMul.Splice | z/z5/c/my.c:41 | The 16 product limbs split into the run below row i, the row, and the run above. |
| BigMul.NextRowValue | z/z5/c/my.c:36-37 | Adding row i adds A[i] Base^i times B to the product. |
| BigMul.FastMultV2 | z/z5/c/my.c:32-52 | The 16 low limbs of `res` hold the full product of the 8 low limbs of A and B, whether or not rows with a zero limb of A are skipped. Limbs 16 to 127 stay 0. Limb 0 agrees with `native_mult` of the two low limbs. |
| BigMul.LowLimb | z/z5/c/my.c:47 | The lowest limb of a value is its remainder modulo 2^64. |
| BigMul.NativeIsLowLimb | z/z5/c/my.c:55-57 | `native_mult(a, b)`, modelled by `BigMul.NativeMult` as `a * b` mod 2^64, is the lowest limb of the big product. |
| BigMul.ProductRemainder | z/z5/c/my.c:55-57 | Only the low limbs of the factors reach the low limb of the product. |
| BigMul.ProductFitsSixteenLimbs | z/z5/c/my.c:35-50 | The product of two 8-limb values fits the 16 limbs `fast_mult_v2` writes. |

## Left out

- Floating-point densities: `v / w` is compared by exact integer cross-multiplication. Two different ratios that round to the same float count as ties in Python; the model orders them by their exact values.
- Zero and negative weights: the source divides by the weight, so a zero weight raises `ZeroDivisionError`, and a negative weight would reverse the cross-multiplied density order. Every caller draws positive weights, so item weights are positive in the model (`Weight`), and the list entry points require `weights[i] >= 1`.
- `solve_fast` and `resolver_mochila_absi_pro` index the value list by the weight list's positions, and `2025/z3/z.py` reads the global `cantidadN`. The model requires the value list to be long enough (an `IndexError` in the source) and takes `cantidadN` as the parameter `count`.
- The harness sections of the knapsack files (random objects, timings, prints) are not modelled. Their brute-force call on the reordered list is covered by `AbsiPro.OracleAfterSort`.
- Beam.BeamSearch, KnapsackCore.SolveFast: equality with the optimum is stated for at most 9 items only, because above that pruning can fire and the beam is a heuristic. For larger inputs only the bound and the attaining subset are proved.
- Printing and string rendering: pattern labels such as `(>5n3)` and `!!!!!!!`, the `#`/`*` text, `__repr__`, and `id_ruta` formatting. A printed line is a `Line` value holding the route, the size, the pattern and the mark. The `5.py` report returns its two route lists instead of printing them.
- `collad/1.py` prints `valores[:10]` for each route; that output is not modelled.
- The wave-plotting functions of the Collatz files (numpy, matplotlib) are not modelled.
- The `referencia_original` attribute of `NodoCollatz` is never set to anything but `None`; it is not modelled.
- Python dicts are modelled as sequences of entries in insertion order. This is exact because their keys are proved distinct (`CollatzTree.TreeDistinct`, `NodeTree.ForestDistinct`, `MemoNodeTree.DupForestDistinct`), so no assignment to an existing key ever happens.
- `es_primo` bounds trial division by `int(np.sqrt(n))`. The model uses the exact condition `i * i <= n`; the two can differ only where the float square root is inexact, far beyond the script's inputs.
- The script-level assertion of `2025/2025_11_03/z3.py` (lines 58-79) that the search succeeds for every even E from 4 to 498 is not modelled. That is a finite computation, not a property of the algorithm; `Goldbach.FindsEveryPair` states when success is guaranteed.
- In `my.c`: `fill_random`, `main`, the timing with `clock()`, and the external assembly routine `add_big_asm` (its code is not part of this model). The `restrict` qualifiers become the requirement that `res` shares no storage with A or B; A and B may alias each other because they are only read.
- Integer widths: Python integers are unbounded like Dafny's. The C `uint64_t` limbs are the newtype `U64`, and the 128-bit temporary is written out as an exact product split into two limbs.

## Findings

| source | as written | input that shows it | evidently intended | confidence | as-written member | corrected member |
|---|---|---|---|---|---|---|
| z/z4/7.py:52-73 | The memo stores `(-1, -1)` for "no child". A genuine child pair `(-1, -1)` is then read back on a memo hit as "no child", and that child is dropped. | Start node `(-1, -1)` with 32 seeds. Its even seeds -2, ..., -32 halve to -1, ..., -16, so its R child is `(-1, -1)` again. At level 1 that node hits the memo entry of the start node, and the R child "NRR" of level 2 is lost; recomputation creates it. | A memo hit creates the same children as recomputation. | not executed | MemoNodeTree.SentinelLosesChild | MemoNodeTree.MemoNode |
