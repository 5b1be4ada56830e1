# ExtremeHarmonic verifier core in Dafny

This project models the exact-arithmetic core of the ExtremeHarmonic competitive-ratio prover for
online bin packing. It covers five parts.

- **The knapsack search.** A `KnapsackPattern` holds entries (size, weight, cardinality) with a
  running total size and total weight. A `KnapsackSolver` runs a depth-first branch-and-bound over
  multiplicities of item types. It records the heaviest pattern whose weight, with sand filling the
  free space at the sand expansion, reaches a threshold. The feasibility checks `AllPatterns` and
  `NotQ1Q2` decide which sizes may join a pattern.
- **The weights of item types** (`TypeInfo`): blue and red weights, the w- and v-weights of red
  class k, and the weight function omega of the extended dual LP.
- **`DualLPChecker`.** For each case k (the red class of the item r) and a value y3, it builds the
  sizes and weights of the dual LP. It checks the values y1, y2, y3 and the two side constraints of
  the extended dual LP, searches the knapsack problem, and compares the result with the hand-built
  pattern q3. It also checks the case without r (k = K+1).
- **`BinarySearchSH`.** For each case it bisects on y3 until the dual LP becomes feasible, and
  stores the value found.
- **`Verifier`.** It validates the parameters: sorted sizes and red spaces; consistent bluefit,
  leaves and needs values; a small smallest type; red fractions in [0, 1/3). Then it checks the
  case without r and every case k with the given y3.

## How the model is built

- Exact fractions are Dafny `real`. Java's `intValue()` is `Results.Truncate`.
- Exceptions and `System.exit` become values:
  - `Result<T>` (`Ok`/`Err`) for an operation that returns something;
  - `Outcome` (`Pass`/`Fail`) for a check.
- `KnapsackPattern`, `KnapsackSolver` and `BinarySearchSH` are classes whose methods update
  their fields in place. Each method is proved against a function on values:
  - `Added`, `RemovedOne` and `RemovedAll` for the pattern;
  - `Pack`, `PackFrom` and `Solution` for the search;
  - `Bisect` and `SearchY3` for the bisection.
- The search on values is related to the fold `Fold` over every complete pattern of the unpruned
  tree (`Leaves`). This is how the pruning is proved sound.
- The parameters read from the input become the datatype `DualLP.Problem`: types, red spaces,
  target ratio, sand expansion and threshold. The per-case values y1, y2, y3 become
  `Duals.DualValues`.

Modules:
- `Results`: Option, Result, Outcome, the error codes and Truncate.
- `Types`: TypeInfo.
- `Pattern`: KnapsackPattern.
- `Feasibility`: AllPatterns and NotQ1Q2.
- `Solver`: KnapsackSolver.
- `Duals`: checkY1, checkY2 and checkY3.
- `DualLP`: DualLPChecker.
- `BinarySearch`: BinarySearchSH.
- `Preparation`: the shared part of `initialize`.
- `Verifier`: Verifier.

## Model

| member | source | states |
|---|---|---|
| Results.Truncate | src/KnapsackPattern.java:109-111 | `intValue()` rounds toward zero: for x >= 0 the result is the integer at or just below x, for x < 0 the integer at or just above it |
| Types.ComputeWeights | src/TypeInfo.java:103-106 | succeeds exactly when bluefit is non-zero and, for a non-zero red fraction, redfit is non-zero (a red fraction 0 never divides by redfit); then blue = (1 - red)/bluefit and red = red/redfit or 0, nothing else changes; otherwise a division by zero |
| Types.GetWeightW | src/TypeInfo.java:93-96 | the w-weight of class k is blue + red when needs >= k or needs = 0, and blue otherwise |
| Types.GetWeightV | src/TypeInfo.java:98-101 | the v-weight of class k is blue + red when leaves < k, and red otherwise |
| Types.MixedSlope | src/BinarySearchSH.java:127-137 | the mixed weight (1 - y3) W + y3 V moves by the step in y3 times (V - W); it falls as y3 grows exactly when W > V, which is why the bisection raises lo when W > V |
| Types.MixedBetween | src/BinarySearchSH.java:154 | for y3 in [0, 1] the mixed weight lies between W and V |
| Types.TermAIsFullWeight | src/TypeInfo.java:111-115 | with the weights computeWeights sets, (1 - red)/bluefit + red/redfit is the full weight blue + red of the type (red = 0 included) |
| Types.ComputeOmega | src/TypeInfo.java:108-128 | omega fails exactly on a division by zero. For the type of r, with the weights computeWeights sets (initialize computes them before any omega), it is (1 - y3)(blue + red) + y3 V + y1 (1 - red)/(1 + red). For a type with 0 < needs <= leaves of r it is (1 - y3) W + y3 V + y2 red/redfit. For every other type it is exactly (1 - y3) W + y3 V. W and V are taken at k = needs of r |
| Types.TypeIndex | src/KnapsackPattern.java:196-203 | the first type whose size lower bound is s, or the number of types when none is |
| Pattern.HasSizeIff | src/KnapsackPattern.java:179-182 | containsSize is the existence of an entry of that size |
| Pattern.Find | src/KnapsackPattern.java:121-127 | the index of the first entry of size s, or the length when there is none |
| Pattern.AddedTotals | src/KnapsackPattern.java:74-92 | addItems(s, w, n) raises the total size by s·n and the total weight by w·n |
| Pattern.AddedValid | src/KnapsackPattern.java:74-92 | addItems keeps every cardinality at least 1 and the sizes distinct; afterwards size x is present exactly when it was before, or n > 0 and x = s |
| Pattern.AddedZero | src/KnapsackPattern.java:75 | addItems with n = 0 leaves the entries unchanged |
| Pattern.RemovedOneTotals | src/KnapsackPattern.java:120-139 | removeItem of an absent size changes nothing; otherwise it lowers the total size by exactly s and the total weight by exactly the entry's weight |
| Pattern.DeleteValid | src/KnapsackPattern.java:131-135 | deleting an entry keeps the others' cardinalities and distinct sizes, removes its size and keeps every other size |
| Pattern.RemovedOneValid | src/KnapsackPattern.java:131-135 | removeItem keeps every cardinality at least 1 (an entry of one item is deleted, not decremented) and the sizes distinct |
| Pattern.RemovedAllTotals | src/KnapsackPattern.java:144-159 | removeAllItems of an absent size changes nothing; otherwise it deletes the entry and subtracts card·s and card·w |
| Pattern.RemovedAllValid | src/KnapsackPattern.java:144-159 | removeAllItems keeps the entries valid and leaves no entry of that size |
| Pattern.AddThenRemoveAll | src/KnapsackPattern.java:74-92 | on a pattern without s, addItems(s, w, n) followed by removeAllItems(s) restores the entries exactly |
| Pattern.RemoveOneOfAdded | src/KnapsackSolver.java:135-144 | on a pattern without s, removing one of n >= 1 added items gives the pattern with n - 1 added; this is the step of the solver's while loop |
| Pattern.KnapsackPattern.constructor | src/KnapsackPattern.java:65-69 | a new pattern is empty, with total size and total weight 0 |
| Pattern.KnapsackPattern.AddItems | src/KnapsackPattern.java:74-92 | merges n items into the entry of that size or appends a new entry; the totals grow by s·n and w·n; the pattern stays valid |
| Pattern.KnapsackPattern.Copy | src/KnapsackPattern.java:98-104 | a fresh, valid pattern with the same entries and totals; being fresh, later changes to the original leave it alone |
| Pattern.KnapsackPattern.GetRemainingSpace | src/KnapsackPattern.java:171-173 | 1 minus the size of all items |
| Pattern.KnapsackPattern.HowManyItemsFit | src/KnapsackPattern.java:109-115 | the fit count of ItemsFit on the running total size (its meaning is in ItemsFitBounds and ItemsFitIsLargest) |
| Pattern.KnapsackPattern.GetTotalWeightWithoutSand | src/KnapsackPattern.java:175-177 | the running total weight is the weight of all items |
| Pattern.KnapsackPattern.ContainsSize | src/KnapsackPattern.java:179-182 | true exactly when an entry of that size is present |
| Pattern.KnapsackPattern.RemoveItem | src/KnapsackPattern.java:120-139 | removes one item and deletes an entry left empty; an absent size changes nothing; otherwise the totals fall by one size and one weight |
| Pattern.KnapsackPattern.RemoveAllItems | src/KnapsackPattern.java:144-159 | deletes the entry of that size and lowers the totals by card·s and card·w; an absent size changes nothing |
| Pattern.KnapsackPattern.GetTotalWeightInclSand | src/KnapsackPattern.java:184-186 | the total weight plus the free space 1 - total size times the sand expansion |
| Pattern.KnapsackPattern.GetTotalWeightWInclSand | src/KnapsackPattern.java:193-209 | one w-weight of class k per distinct entry: the type's w-weight when a type has that size, and 1 otherwise |
| Pattern.KnapsackPattern.GetTotalWeightVInclSand | src/KnapsackPattern.java:216-235 | one v-weight per distinct entry: the type's v-weight, 1 for another size, and 0 for a size 1/2 of no type |
| Pattern.ItemsFitBounds | src/KnapsackPattern.java:109-115 | the items counted fit strictly (total size stays below 1), and one more would not fit; an exact multiple of the free space counts one less than the plain quotient |
| Pattern.ItemsFitIsLargest | src/KnapsackPattern.java:109-115 | no count larger than howManyItemsFit fits: it is the largest n with totalSize + n·s < 1 |
| Pattern.WVTotalsIgnoreCards | src/KnapsackPattern.java:193-235 | the W and V totals depend only on the sizes of the entries: cardinalities, weights and the sand expansion play no part |
| Feasibility.CanAdd | src/NotQ1Q2.java:15-23 | AllPatterns accepts everything; NotQ1Q2 refuses exactly the large size when the size of r is present, and the size of r when the large size is present |
| Feasibility.OtherSizesAllowed | src/NotQ1Q2.java:16 | every size other than the two guarded ones is accepted |
| Feasibility.AddedRespects | src/KnapsackSolver.java:125-128 | adding items only when canAdd allows it keeps a pattern free of the forbidden pair, given the two guarded sizes differ |
| Feasibility.EmptyAcceptsAll | src/NotQ1Q2.java:15-23 | the empty pattern holds no forbidden pair and accepts every size |
| Feasibility.CanAddTo | src/AllPatterns.java:11-13 | canAdd on a pattern object (through containsSize) has the value of CanAdd on its entries; it modifies nothing |
| Solver.Filtered | src/KnapsackSolver.java:74-78 | the kept types are those whose expansion reaches the sand expansion, each once, in increasing order |
| Solver.SortByExpansion | src/KnapsackSolver.java:80-86 | the sort is a permutation of its input |
| Solver.SortSorted | src/KnapsackSolver.java:80-86 | the sort orders by decreasing expansion and keeps equal expansions in input order (Collections.sort is stable) |
| Solver.PermutationCorrect | src/KnapsackSolver.java:62-95 | the permutation holds exactly the types whose weight/size reaches the sand expansion, each exactly once, by decreasing expansion, with ties in index order |
| Solver.ExpansionTimesSize | src/KnapsackSolver.java:67 | a type's expansion times its size is its weight |
| Solver.FirstFitting | src/KnapsackSolver.java:153-165 | the first position from i on whose size is below the free space; none before it fits |
| Solver.MaxExpansionFittingMeaning | src/KnapsackSolver.java:153-165 | findMaxExpansionFitting is never below the sand expansion. It equals the sand expansion when no type from i on fits. Otherwise it is the expansion of the first type that fits, raised to the sand expansion when lower |
| Solver.FoldMax | src/KnapsackSolver.java:107-117 | visiting patterns never lowers the record, ends at least as heavy as each visited one, and once one reaches the starting record the final record holds a visited pattern of exactly that weight |
| Solver.FoldFromThreshold | src/KnapsackSolver.java:42-55 | from the threshold and no pattern, a pattern is recorded exactly when some visited pattern reaches the threshold, and then it is a heaviest one |
| Solver.FitsBelowCount | src/KnapsackSolver.java:122-128 | any positive count up to howManyItemsFit fits below 1, and so does a single item |
| Solver.AddedStep | src/KnapsackSolver.java:122-144 | a child adds c <= the start count of the next type. It stays fresh: valid, below 1, only later types absent. Its totals grow by c items. It keeps the forbidden pair out. Items are added only when canAdd accepted the size and it fits |
| Solver.ExpansionShrinks | src/KnapsackSolver.java:153-165 | with less free space and a later position the best fitting expansion is no larger (relies on the decreasing order) |
| Solver.FittingTypeBelow | src/KnapsackSolver.java:153-165 | a type that fits has expansion at most findMaxExpansionFitting |
| Solver.BoundStep | src/KnapsackSolver.java:107-117 | the bound totalWeight + free space · findMaxExpansionFitting of a child is at most its parent's |
| Solver.LeafBound | src/KnapsackSolver.java:107-117 | at a complete pattern the bound is the pattern's weight with sand |
| Solver.BoundSound | src/KnapsackSolver.java:107-117 | no complete pattern below a node weighs more, with sand, than the node's bound, so pruning a node whose bound is below the record loses nothing |
| Solver.BoundSoundFrom | src/KnapsackSolver.java:119-145 | the same for the patterns reached from count c down to 0 of the current type |
| Solver.PackIsFold | src/KnapsackSolver.java:102-147 | the pruned search ends with the same record as visiting every complete pattern of the unpruned tree in order |
| Solver.PackFromIsFold | src/KnapsackSolver.java:135-144 | the while loop over counts c, c - 1, ..., 0 ends with the record of visiting the complete patterns of each count in turn |
| Solver.LeavesValid | src/KnapsackSolver.java:119-145 | every complete pattern holds valid entries, has total size below 1, and keeps the forbidden pair out |
| Solver.ExpansionFailure | src/KnapsackSolver.java:65-68 | the expansion loop fails exactly when some type cannot be read (missing weight or zero size) |
| Solver.FailureAtFirstUnreadable | src/KnapsackSolver.java:65-68 | the failure is that of the first unreadable type: index out of range for a missing weight, division by zero for a zero size |
| Solver.PermutationOrdered | src/KnapsackSolver.java:80-86 | the permutation of a usable instance is ordered as the pruning needs |
| Solver.AllReadable | src/KnapsackSolver.java:65-68 | every type has a weight and a non-zero size exactly when the expansion loop can read the whole instance |
| Solver.UsableSizes | src/KnapsackSolver.java:74-78 | the permutation can be searched exactly when every kept type (expansion at least sand) has a positive size and no two kept types share a size |
| Solver.SolutionErrors | src/KnapsackSolver.java:42-68 | solve fails exactly when some type cannot be read, or when kept types have a non-positive or shared size. An unreadable type is reported at the first one: index out of range for a missing weight, division by zero for a zero size. Otherwise the error is an invalid instance (see Left out) |
| Solver.SolutionCorrect | src/KnapsackSolver.java:42-55 | solve returns no pattern exactly when no complete pattern reaches the threshold with sand; otherwise a complete pattern that reaches it and is at least as heavy as every other; every complete pattern is valid, below 1 and respects NotQ1Q2 |
| Solver.Unrestricted | src/AllPatterns.java:11-13 | the same items, sand and weights under AllPatterns |
| Solver.CountAtMostFit | src/KnapsackSolver.java:122-128 | under AllPatterns each type starts with exactly howManyItemsFit items; under any check with no more |
| Solver.LeavesRestricted | src/KnapsackSolver.java:125 | every complete pattern of the restricted search is one of the unrestricted search |
| Solver.FailureUnrestricted | src/KnapsackSolver.java:65-68 | the expansion loop fails or not regardless of the check |
| Solver.RestrictedNoHeavier | src/KnapsackSolver.java:125 | solve succeeds under NotQ1Q2 exactly when it succeeds under AllPatterns; its pattern is then absent when the unrestricted one is, and never heavier |
| Solver.KnapsackSolver.constructor | src/KnapsackSolver.java:23-32 | keeps sizes, weights, check and sand expansion, with no heaviest pattern |
| Solver.KnapsackSolver.CreatePermutation | src/KnapsackSolver.java:62-95 | the permutation of PermutationCorrect, or the failure of the expansion loop |
| Solver.KnapsackSolver.ComputeExpansions | src/KnapsackSolver.java:65-68 | every type's weight/size, or the failure of the first unreadable type |
| Solver.KnapsackSolver.KeepExpansive | src/KnapsackSolver.java:74-78 | the types whose expansion reaches sand, in index order |
| Solver.KnapsackSolver.WriteToArray | src/KnapsackSolver.java:87-91 | a new array holding the sorted list, element for element |
| Solver.KnapsackSolver.FindMaxExpansionFitting | src/KnapsackSolver.java:153-165 | the scan's result is MaxExpansionFitting |
| Solver.KnapsackSolver.Solve | src/KnapsackSolver.java:42-55 | reports exactly Solution (the heaviest complete pattern reaching the threshold, or none, or the error); the pattern returned is the recorded one and is valid |
| Solver.KnapsackSolver.SearchFromEmpty | src/KnapsackSolver.java:48-53 | the search from the empty pattern leaves the record Solution describes |
| Solver.KnapsackSolver.PackRecursively | src/KnapsackSolver.java:102-147 | restores the shared pattern's entries, keeps the permutation, and leaves the record of the search on values |
| Solver.KnapsackSolver.CountToAdd | src/KnapsackSolver.java:122-128 | the start count: howManyItemsFit when canAdd accepts the size, else 0 |
| Solver.KnapsackSolver.PackType | src/KnapsackSolver.java:119-145 | runs counts n, n - 1, ..., 0 of the type, restores the pattern, and ends in the record of PackFrom |
| Solver.KnapsackSolver.TryCount | src/KnapsackSolver.java:135-144 | one round: the search below n items, then one item removed unless none is left |
| Duals.CheckY1 | src/Verifier.java:123-132 | accepts exactly 0 <= y1 <= 5/100 and reports a negative y1 as such |
| Duals.CheckY2 | src/Verifier.java:135-141 | accepts exactly y2 >= 0 |
| Duals.CheckY3 | src/Verifier.java:144-152 | accepts exactly 0 <= y3 <= 6/10 and names which bound failed |
| DualLP.OmegaWeights | src/DualLPChecker.java:162-163 | omega of every type, or a division by zero exactly when some type's omega divides by zero |
| DualLP.TypesForRedClass | src/DualLPChecker.java:327-337 | every type whose needs is k, and no other, in increasing order |
| DualLP.FirstOfClass | src/DualLPChecker.java:256-261 | the first index from a position on whose needs is k, or an error exactly when there is none |
| DualLP.TypeOfRFromClass | src/DualLPChecker.java:256-261 | the lowest index whose needs is k; an error exactly when no type has needs k |
| DualLP.IsNecessaryToCheckCase | src/DualLPChecker.java:224-236 | a case is checked exactly when its red space is not 0 and some type has needs k |
| DualLP.NecessaryCaseHasTypeOfR | src/DualLPChecker.java:224-261 | in a checked case computeTypeOfRFromClass does not throw |
| DualLP.PairPatternTotals | src/DualLPChecker.java:241-250 | the pattern of two different items has their sizes and weights as totals |
| DualLP.WeightOfQ1IsPatternWeight | src/DualLPChecker.java:241-250 | w1 = 1 + blue + red + (t_{t-1} - t_t)·sand is the weight with sand of q1 = {1 - t_{t-1} of weight 1, r at full weight} |
| DualLP.Q3ComparisonResult | src/DualLPChecker.java:200-216 | compareWithQ3 fails exactly when weightOfQ3 divides by zero (1 + red = 0), or when q3 is chosen (weightOfQ3 above the threshold, and above p or p absent) and either cannot be built (its two items have one size but different weights) or weighs, with sand, other than weightOfQ3; otherwise it returns p unchanged, or q3 when chosen |
| DualLP.Q3PatternWeight | src/DualLPChecker.java:200-216 | q3 weighs weightOfQ3 less y1 (1 - red)/(1 + red); the consistency check holds exactly when that term is 0 |
| DualLP.PlanCase | src/DualLPChecker.java:54-198 | what checkDualLP searches, or the error it stops with first. It needs 0 <= y3 <= 6/10. It skips the search exactly when r is medium and the type of r has red fraction 0. It uses the extended dual LP only when the range of r's type is small enough and w1 exceeds the target. It needs y1, y2 valid and both side constraints |
| DualLP.SolutionWithinTarget | src/DualLPChecker.java:44-49 | a search result that is absent or within the target means every complete pattern is within the target (threshold not above target) |
| DualLP.SimpleWithinTarget | src/DualLPChecker.java:44-49 | a feasible simple dual LP bounds every pattern by the target |
| DualLP.DualLPResultWithinTarget | src/DualLPChecker.java:54-198 | a feasible verdict of checkDualLP bounds every pattern of the dual LP it searched by the target |
| DualLP.PlanResultWithinTarget | src/DualLPChecker.java:150-196 | a plan's result that is absent or within the target bounds every pattern it searches |
| DualLP.ExtendedWithinTarget | src/DualLPChecker.java:186-188 | the extended case of PlanResultWithinTarget |
| DualLP.ComparedWithinTarget | src/DualLPChecker.java:200-216 | compareWithQ3 only replaces the pattern by a heavier one, so a result within the target means the pattern found was |
| DualLP.KPlusOneWithinTarget | src/DualLPChecker.java:263-284 | a passed check of the case without r bounds every pattern without r by the target |
| DualLP.CheckSimpleDualLP | src/DualLPChecker.java:44-49 | solves with AllPatterns and threshold target - 1/1000 |
| DualLP.BuildSmallCase | src/DualLPChecker.java:57-77 | sizes 2/3, 1/2, t_0, ... and weights 1, 1 - y3, (1 - y3) W_i(k) + y3 V_i(k) |
| DualLP.BuildMediumSizes | src/DualLPChecker.java:100-120 | sizes 2/3, 1 - t_{t-1}, 1/2, t_0, ... |
| DualLP.BuildMediumWeights | src/DualLPChecker.java:124-149 | weights 1, 1, 1 - y3, then (1 - y3) W_i(k) + y3 V_i(k) |
| DualLP.BuildExtendedWeights | src/DualLPChecker.java:158-168 | weights 1, 1, 1 - y3, then omega of each type, or omega's division by zero |
| DualLP.CompareWithQ3 | src/DualLPChecker.java:200-216 | reports exactly Q3Comparison on the pattern handed in |
| DualLP.BuildQ3 | src/DualLPChecker.java:207-210 | q3 with the large item of weight 1 and an item of type t, or a refusal when both have the same size but different weights |
| DualLP.CheckDualLP | src/DualLPChecker.java:54-198 | reports exactly DualLPResult: the plan's search result or the first error |
| DualLP.PlanOf | src/DualLPChecker.java:54-149 | the plan of PlanCase |
| DualLP.MediumThirdRefused | src/DualLPChecker.java:113-118 | when t_{t-1} = 1/3 the large types (2/3, 1] and (1 - t_{t-1}, 2/3] both have size 2/3 and weight 1; with sand expansion at most 3/2 every medium search of that case is refused (see Left out) |
| DualLP.MediumPlanOf | src/DualLPChecker.java:100-182 | the plan of the medium case |
| DualLP.RunPlan | src/DualLPChecker.java:124-196 | the search of a plan: none, the simple dual LP, or the extended one with the comparison |
| DualLP.SearchExtended | src/DualLPChecker.java:186-188 | the search with the pattern threshold, then compareWithQ3 |
| DualLP.FindHeaviestPatternWithoutR | src/DualLPChecker.java:290-310 | searches sizes 2/3, 1/2, t_0, ... with weights 1, 1, blue_i |
| DualLP.CheckKPlusOne | src/DualLPChecker.java:263-284 | fails exactly when the search fails or finds a pattern heavier than the target |
| BinarySearch.BisectFeasible | src/BinarySearchSH.java:112-118 | a value the search returns is a centre at which the dual LP is feasible |
| BinarySearch.NarrowedBracket | src/BinarySearchSH.java:127-137 | a narrowing keeps 0 <= lo <= centre <= hi <= 1 and halves the interval |
| BinarySearch.BisectInBracket | src/BinarySearchSH.java:95-137 | values returned lie in the interval, so in [0, 1] |
| BinarySearch.BisectContinues | src/BinarySearchSH.java:121-137 | an infeasible round with W != V continues from the narrowed interval |
| BinarySearch.BisectStops | src/BinarySearchSH.java:106 | after 20 tries or a change of at most 1/10^7 the search ends with no value |
| BinarySearch.BisectEnds | src/BinarySearchSH.java:112-126 | a failing dual LP, a feasible pattern or W = V ends the search |
| BinarySearch.FeasibleWithinTarget | src/BinarySearchSH.java:148-158 | a feasible simple dual LP of BinarySearchSH bounds every pattern by the target |
| BinarySearch.SearchY3Sound | src/BinarySearchSH.java:93-142 | a value findY3 reports is in [0, 1] and makes every pattern of its dual LP weigh at most the target |
| BinarySearch.SearchFromPasses | src/BinarySearchSH.java:79-87 | the loop from case k passes exactly when every case from k on that needs checking finds a value |
| BinarySearch.SearchFromFails | src/BinarySearchSH.java:79-87 | a failing loop names the first case that needs checking and has no value |
| BinarySearch.SearchVerdictSound | src/BinarySearchSH.java:72-91 | a successful start: no pattern without r exceeds the target, and every checked case has a y3 bounding every pattern of its dual LP |
| BinarySearch.StoredStep | src/BinarySearchSH.java:115 | storing case k's value extends the stored values to the cases before k + 1 |
| BinarySearch.BinarySearchSH.constructor | src/BinarySearchSH.java:59 | no y3 value stored for any case |
| BinarySearch.BinarySearchSH.CheckDualLP | src/BinarySearchSH.java:148-158 | the simple dual LP of sizes t_i and weights (1 - y3) W_i(k) + y3 V_i(k) |
| BinarySearch.BinarySearchSH.BuildMixedCase | src/BinarySearchSH.java:149-155 | the size t_i and the weight (1 - y3) W_i(k) + y3 V_i(k) of every type |
| BinarySearch.BinarySearchSH.Probe | src/BinarySearchSH.java:110-123 | the dual LP at the centre, whether it is feasible, and W - V of its pattern |
| BinarySearch.BinarySearchSH.Round | src/BinarySearchSH.java:107-137 | either the end of the search with findY3's result, or the narrowed interval and its centre |
| BinarySearch.BinarySearchSH.FindY3 | src/BinarySearchSH.java:93-142 | reports SearchY3 and stores a found value in y3Values[k] |
| BinarySearch.BinarySearchSH.Bisection | src/BinarySearchSH.java:95-141 | the loop from [0, 1], centre 3/16 and change 1 reports SearchY3 |
| BinarySearch.BinarySearchSH.StartCase | src/BinarySearchSH.java:80-86 | skips a case that needs no check, else stops unless findY3 found a value |
| BinarySearch.BinarySearchSH.SearchCases | src/BinarySearchSH.java:79-87 | passes exactly as SearchFrom says and then every checked case holds its value |
| BinarySearch.BinarySearchSH.Start | src/BinarySearchSH.java:72-91 | checkKPlusOne, then every case; a pass stores every checked case's value |
| Preparation.WeighAll | src/Verifier.java:47-48 | computeWeights of every type in order, or a division by zero exactly when one fails |
| Preparation.Prepared | src/Verifier.java:46-49 | fails on an empty type list or a division by zero; otherwise the problem with sand expansion 1/(1 - t_last) and threshold target - 1/1000 |
| Preparation.PreparedProblem | src/Verifier.java:46-49 | a prepared problem keeps the sizes and fits and sets the weights; sand of the smallest size fills a whole bin; the threshold is 1/1000 below the target |
| Preparation.Initialize | src/BinarySearchSH.java:62-65 | computes the Prepared problem with a loop over the types |
| Verifier.Initialize | src/Verifier.java:32-51 | the prepared problem with the dual values and the first type's upper bound |
| Verifier.AndThen | src/Verifier.java:61-105 | a failure stops at once, otherwise the next check decides |
| Verifier.VerifySizesSorted | src/Verifier.java:154-159 | passes exactly when the sizes strictly decrease |
| Verifier.EnoughTypesNeverGap | src/Verifier.java:166-183 | the gap check never reports a gap; it fails only on an empty type list or by reading before type 0 |
| Verifier.VerifyEnoughTypes | src/Verifier.java:166-183 | the outcome of the two loops of verifyEnoughTypesBetweenOneThirdAndOneHalf |
| Verifier.RedSpaceFromMeaning | src/Verifier.java:190-202 | the red spaces pass exactly when strictly increasing, else the first pair out of order is a duplicate or unsorted |
| Verifier.VerifyRedSpaceValuesSorted | src/Verifier.java:190-202 | passes exactly when the red spaces strictly increase |
| Verifier.FitsExactlyIsQuotient | src/Verifier.java:204-212 | intValue of 1/ub is the number of items of size ub that fit in a bin |
| Verifier.BluefitMeaning | src/Verifier.java:204-212 | with positive bounds the bluefit check passes exactly when bluefit = ⌊1/ub⌋, ub being t_{i-1} or the first type's upper bound |
| Verifier.CountOfIncreasing | src/Verifier.java:220-242 | in increasing red spaces, those below x are the ones before the first that is not |
| Verifier.LeavesMeaning | src/Verifier.java:220-242 | the leaves check passes exactly when free = 1 - ub·bluefit <= ub and leaves + 1 counts the red spaces free reaches, with free < 1 when it reaches them all |
| Verifier.NeedsMeaning | src/Verifier.java:250-281 | red = 0 needs redfit = 0; a red type above the largest red space fails; needs > 0 passes exactly when redSpace[needs-1] < ub·redfit <= redSpace[needs]; needs = 0 compares redSpace[0] with the space left free |
| Verifier.TypesFromPasses | src/Verifier.java:66-70 | the loop over the types passes exactly when every type passes its three checks |
| Verifier.TypeSound | src/Verifier.java:204-281 | a type that passes its three checks is consistent with increasing red spaces |
| Verifier.ParametersSound | src/Verifier.java:61-87 | passing every parameter check: sizes strictly decrease, red spaces strictly increase, the smallest type is below 1/10, red fractions lie in [0, 1/3), every type consistent |
| Verifier.VerifyTypes | src/Verifier.java:66-70 | the loop's outcome is TypesFrom from type 0 |
| Verifier.VerifyRedFractions | src/Verifier.java:82-86 | passes exactly when every red fraction lies in [0, 1/3) |
| Verifier.CheckParameters | src/Verifier.java:61-87 | every parameter check in the source's order |
| Verifier.CaseSound | src/Verifier.java:107-120 | a passed case had a y3 value, a plan, and every pattern the plan searches weighs at most the target |
| Verifier.CheckCasek | src/Verifier.java:107-120 | skips an unnecessary case; fails when checkDualLP fails or its pattern is heavier than the target |
| Verifier.CasesFromPasses | src/Verifier.java:100-102 | the cases from k pass exactly when each checked case from k passes |
| Verifier.CheckCases | src/Verifier.java:100-102 | the loop over the cases has the outcome of CasesFrom |
| Verifier.Start | src/Verifier.java:61-105 | the parameter checks, checkKPlusOne, then every case, as StartVerdict |
| Verifier.StartSound | src/Verifier.java:61-105 | a passed verification: the parameters are sound, no pattern without r exceeds the target, and every checked case is sound |

## Left out

- File and console input and output are not part of this model. Neither are logging, formatting
  and timing: FileIO, `readInput`, `createOutputFile`, `writeKnapsackFile` and `showTime`.
  Instead, the parameters enter as values (`DualLP.Problem`, `Duals.DualValues`).
- `main` methods, the shutdown hooks, and the optimisers ParameterOptimizer and
  SHParameterOptimizer are not part of this model. Nor are LowerBound and the outdated drivers
  BinarySearch, ExtremeHarmonicVerifier and SuperHarmonicVerifier.
- `System.exit(0)` after a failed check and the exceptions both become a `Fail`/`Err` value with an
  error code. The distinction between stopping the program and throwing is not kept.
- `getFirstTypeUpperBound()` is abstract in the source; it is the parameter `firstUb` of
  `Verifier.Initialize`.
- Results.Truncate: does not model Java's 32-bit `int` overflow in `intValue()`; counts are
  unbounded.
- Pattern.KnapsackPattern.AddItems: requires that an existing entry of the same size has the same
  weight. The source would keep the old weight and add the new one to the total. The one caller
  that could violate this, compareWithQ3, is modelled by `DualLP.BuildQ3`, which refuses such a q3.
- DualLP.BuildQ3: refuses, with an invalid-instance error, a q3 whose large item 1 - t_{t-1} and
  item of type t have the same size but the item of type t does not weigh 1. The source's
  compareWithQ3 merges the two items into one entry of two items that keeps weight 1, while its
  total weight adds the second item's own weight, so the entry and the total disagree.
  DualLP.CompareWithQ3 and DualLP.Q3ComparisonResult pass this refusal on.
- Solver.KnapsackSolver.Solve: refuses an instance whose kept types have a non-positive size, or
  two types of the same size, with an invalid-instance error (`Solver.SolutionErrors`). The source
  searches such instances. Items of equal size merge into one entry of the shared pattern, and
  removing all items of the later type also removes those of the earlier one. The model does not
  follow that state. With unequal weights the source's totals are then wrong. With equal weights
  the source may still find the heaviest pattern, but the model refuses the instance all the same.
- DualLP.CheckDualLP and Verifier.Start: a medium case whose type above r has size lower bound
  exactly 1/3 gives two large types of size 2/3 and weight 1. When its search runs and the sand
  expansion is at most 3/2, it ends in an invalid-instance error in the model
  (`DualLP.MediumThirdRefused`), where the source searches it.
- Solver.KnapsackSolver.Solve: the search's record and pattern live on the solver object. The
  pattern it returns is the solver's own copy, so aliasing with later searches is not modelled
  beyond freshness.
- Types.ComputeOmega: the source compares TypeInfo objects by identity; here types are compared
  by their index in the type array.
- DualLP.CheckDualLP: is modelled as a plan (the checks before the search, in the source's order),
  then one search, then compareWithQ3 on its result. The source interleaves array filling and
  checks, but every check except those of compareWithQ3 comes before its one search. compareWithQ3
  divides by 1 + red and checks the weight of q3 after the search, as the model does. So the
  results and errors are the same.
- BinarySearchSH overrides checkY1, checkY2 and checkY3 with methods that do nothing. Its
  checkDualLP never calls them, so they are not modelled.

Behaviour of the source that the model makes explicit, as proved by the lemmas named:
- `getTotalWeightWInclSand` and `getTotalWeightVInclSand` count one w- or v-weight per distinct
  size. They ignore the cardinality, and they never add the sand their name promises
  (`Pattern.WVTotalsIgnoreCards`).
- `verifyEnoughTypesBetweenOneThirdAndOneHalf` never reports a gap between types
  (`Verifier.EnoughTypesNeverGap`).
- compareWithQ3 throws whenever it picks q3 and y1·(1 - red)/(1 + red) is not 0
  (`DualLP.Q3PatternWeight`).
- checkY3's message speaks of 1/2, but it compares with 6/10 (`Duals.CheckY3`).
- verifyNeeds takes 1/2 as the upper bound of type 0, where verifyBluefit and verifyLeaves use the
  first type's upper bound. With needs = 0 it compares redSpace[0] with the space left free by the
  red items (`Verifier.NeedsMeaning`).
