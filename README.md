# GeCO in Dafny

A verified model of the core of GeCO ("Generator for Combinatorial
Optimization"), a Python library that turns problem sizes and a random seed
into mixed-integer programs built with pyscipopt. The library does no solving
itself: it creates variables and linear constraints, draws the instance data
from a seeded random number generator, and builds the graphs some of the
formulations are stated on.

The model has three layers.

- **The program being built.** `Mip.Model` is a value holding the variables
  (name, bounds, objective coefficient, type), the deleted variables, the
  linear constraints (a coefficient map, a relation and a right-hand side)
  and the objective sense. Each pyscipopt call (`addVar`, `addCons`,
  `delVar`, `setMinimize`/`setMaximize`) becomes an append or a removal on
  that value. Every formulation builder is a method with the builder's own
  loops. Its contract states the exact variables and constraints, and lemmas
  state what they mean: which 0/1 assignments are feasible and, for the
  small instances of the tests, which objective value is optimal.
- **The seeded generators.** `Rand.Sampler` is a class standing for the
  Python `random.Random` or numpy `RandomState` object that the
  `py_random_state`/`np_random_state` decorators make from the seed. Every
  draw advances it and is recorded in a ghost log. A generator's contract
  states the lengths, the value ranges and the order of its draws. Lemmas
  show that the same seed gives the same parameters.
- **The graphs.** The formulations read a graph as a value: its nodes and
  edges in insertion order (`Graphs`). The graph builders (`LavrovGraph`,
  `Chimera`, `Biqmac`) work step by step on `NxGraph.Graph`, a class
  standing for `nx.Graph` with its `add_node`, `add_edge` and `remove_edge`.

Python `assert` statements become a `Result` failure. Errors the libraries
raise on bad arguments become preconditions, such as an empty `randint`
range, a `sample` larger than its population, or a missing list index.
Floats are exact Dafny reals.

Several top-level legacy modules (for example `geco/mips/set_cover.py`,
`geco/mips/max_cut.py`, `geco/mips/independent_set.py`,
`geco/mips/scheduling.py`) duplicate the package versions with
differences; the model follows each file as written. The Hooker and Heinz
formulations exist only in `geco/mips/scheduling.py`, and those are the
ones modelled. geco/mips/scheduling/hooker.py and heinz.py call
`hooker_formulation` and `heinz_formulation`, which no package file defines.

## Model

| member | source | states |
|---|---|---|
| SetCover.SetCover | geco/mips/set_cover/generic.py:21-35 | one binary `v_i` per cost with objective `costs[i]`, then one `Σ_{i∈s} v_i ≥ 1` per set in order, sense minimise, model name "Set Cover"; requires every index of a set to have a variable (the list indexing at line 31) |
| SetCover.SumOver | geco/mips/set_cover/generic.py:31 | the quicksum over a set, whatever its iteration order, is the 0/1 indicator expression of the set |
| SetCover.FeasibleIffCover | geco/mips/set_cover/generic.py:24-31 | both directions: an assignment is feasible exactly when it is a 0/1 vector of the right length that picks an element of every set |
| SetCover.WellFormedCover | geco/mips/set_cover/generic.py:24-31 | when every element of every set is below the number of costs, each cover constraint mentions only variables the model added |
| SetCover.SingleElementOptimum | geco/mips/tests/test_set_cover.py:15-19 | `set_cover([1], [{0}])` has optimum 1 |
| SetCover.ThreeSingletonsOptimum | geco/mips/tests/test_set_cover.py:22-26 | three singleton sets of cost 1 have optimum 3 |
| SetCoverYang.SizeRangeNonEmpty | geco/mips/set_cover/yang.py:63 | the size range `[2n//25+1, 3n//25-1]` with n = 10m is non-empty exactly when m ≥ 5 |
| SetCoverYang.YangParams | geco/mips/set_cover/yang.py:57-66 | n = 10m costs in [1,100], then per set one size draw in the range and one sample of that many distinct indices below n; the log records exactly these draws in this order (the same body as set_cover.py:21-30 and set_cover/__init__.py:21-30) |
| SetCoverYang.YangDeterministic | geco/mips/tests/test_set_cover.py:48-53 | parameters read off draws that the same raw rows answer are equal |
| SetCoverYang.SetsDeterministic | geco/mips/set_cover/yang.py:61-64 | the sets part of the draws is determined by the raw rows |
| SetCoverYang.SameSeedSameParams | geco/mips/tests/test_set_cover.py:48-53 | two samplers in the same state give identical (costs, sets) |
| SetCoverYang.YangInstance | geco/mips/set_cover/yang.py:29 | the set cover model of the drawn costs and sets (binary v_i priced costs[i], one covering constraint per set, minimise, "Set Cover"), with 10m costs in [1,100] and m sets of sizes in the range holding only elements below 10m (test_set_cover.py:37-41) |
| SetCoverSun.SunCosts | geco/mips/set_cover/sun.py:6-7 | n costs, each one randint(1, 100) draw, in order |
| SetCoverSun.EmptySets | geco/mips/set_cover/sun.py:12 | m new, pairwise different, empty set objects |
| SetCoverSun.PickTwo | geco/mips/set_cover/sun.py:19-20 | one `sample(range(m), 2)` draw of two different sets below m, and exactly those two objects receive e |
| SetCoverSun.PySet.constructor | geco/mips/set_cover/sun.py:12 | a fresh `set()` is empty |
| SetCoverSun.PySet.Add | geco/mips/set_cover/sun.py:20 | `s.add(e)` leaves the set holding its old elements and e, and nothing else |
| SetCoverSun.RandomJoins | geco/mips/set_cover/sun.py:23-25 | one random() per set object in list order; an object receives e exactly when some random() for a position holding it is below 0.05, or it was picked |
| SetCoverSun.AddElement | geco/mips/set_cover/sun.py:18-25 | the draws for one element: the pair sample, then the random() per set; the round is well drawn |
| SetCoverSun.AddElements | geco/mips/set_cover/sun.py:17-25 | the loop over elements 0..n-1: the draws are the rounds in order, and every object gains exactly the elements its rounds reach |
| SetCoverSun.SunSets | geco/mips/set_cover/sun.py:10-27 | with no backbone, m fresh empty sets; with one, the same objects (shallow copy), which are updated in place; contents gain exactly the reached elements |
| SetCoverSun.CoveredTwice | geco/mips/set_cover/sun.py:18-20 | every element of a round is in two different positions of the result |
| SetCoverSun.AddedBelow | geco/mips/set_cover/sun.py:17 | only elements below n are ever added |
| SetCoverSun.SunParams | geco/mips/set_cover/sun.py:85 | n costs in [1,100], m sets holding only elements below n, every element in at least two sets (test_set_cover.py:88-94) |
| SetCoverSun.SunInstance | geco/mips/set_cover/sun.py:55 | the set cover model of the drawn costs and sets: n variables, m covering constraints, minimise; n costs in [1,100], m sets holding only elements below n, every element in at least two sets |
| SetCoverSun.ExpandSunParams | geco/mips/set_cover/sun.py:115-122 | Failure exactly when n ≤ len(base_costs) (the assert), and then no draw and no change; otherwise n costs starting with the base costs unchanged, the new ones in [1,100], the same set objects, each a superset of its old contents, new elements below n, every element in two sets |
| SetCoverGasse.CountsSum | geco/mips/set_cover/gasse.py:85-86 | the per-column counts add up to the number of slots nnzrs |
| SetCoverGasse.CountsAtLeastTwo | geco/mips/set_cover/gasse.py:82-86 | after the first 2·ncols slots are forced to 0,0,1,1,…, every column is counted at least twice |
| SetCoverGasse.ForceTwoPerColumn | geco/mips/set_cover/gasse.py:82-83 | the first 2·ncols slots hold 0,0,1,1,…, the rest are unchanged |
| SetCoverGasse.RowsOutsideCount | geco/mips/set_cover/gasse.py:100-102 | `setdiff1d(arange(n), excl)` holds n rows minus the excluded rows below n |
| SetCoverGasse.RemainingCount | geco/mips/set_cover/gasse.py:99-103 | excluding the prefix rows of a straddling column leaves exactly i rows to draw from |
| SetCoverGasse.FillPastPrefix | geco/mips/set_cover/gasse.py:95-96 | a column past the prefix succeeds exactly when n ≤ nrows (numpy raises otherwise) and then holds n distinct rows below nrows; earlier slots unchanged |
| SetCoverGasse.FillStraddling | geco/mips/set_cover/gasse.py:99-105 | a straddling column succeeds exactly when n ≤ nrows, keeps the permutation prefix and then holds n distinct rows below nrows |
| SetCoverGasse.FillColumn | geco/mips/set_cover/gasse.py:94-105 | succeeds exactly when n ≤ nrows; the column's slots then hold distinct rows below nrows, the prefix and earlier slots unchanged |
| SetCoverGasse.FillColumns | geco/mips/set_cover/gasse.py:90-108 | the loop over col_nrows fails exactly when some count exceeds nrows; otherwise indptr starts at 0, grows by each count, ends at nnzrs, and every column holds distinct rows |
| SetCoverGasse.IndptrSnoc | geco/mips/set_cover/gasse.py:106-107 | appending i after `i += n` keeps the column pointer of the counts |
| SetCoverGasse.CsrRows | geco/mips/set_cover/gasse.py:114-121 | the CSR transpose: nrows lists, row r listing only columns below ncols that hold r, strictly ascending |
| SetCoverGasse.CsrRowsComplete | geco/mips/set_cover/gasse.py:114-121 | both directions: row r lists column c exactly when column c holds r |
| SetCoverGasse.RowsCovered | geco/mips/set_cover/gasse.py:89 | the permutation in the first nrows slots puts every row into some column |
| SetCoverGasse.ColumnsCoverTwo | geco/mips/set_cover/gasse.py:82-105 | every column covers at least two different rows |
| SetCoverGasse.DrawCosts | geco/mips/set_cover/gasse.py:111 | ncols costs, each in [1, max_coef] |
| SetCoverGasse.LayOut | geco/mips/set_cover/gasse.py:82-108 | the CSC layout: nnzrs slots, ncols counts each ≥ 2, the column pointer of the counts, a permutation of the rows in the first nrows slots, every column holding distinct rows |
| SetCoverGasse.GasseParams | geco/mips/set_cover/gasse.py:76-122 | the assert of line 78 fails when nnzrs < nrows, that of line 79 when nnzrs < 2·ncols; the numpy error of a too long column only after both passed; on success ncols costs in [1, max_coef], nrows non-empty strictly ascending row lists of columns below ncols, every column covering two rows |
| SetPacking.SetPacking | geco/mips/set_packing/generic.py:32-47 | n binary `v_i` with objective `values[i]`, then for each of the first m lists one `Σ v_j ≤ 1` (a term per entry, repeats counted), maximise, the given name; requires n ≤ len(values) and the first m lists to index below n, where Python raises IndexError (the same builder as set_packing.py:97-112) |
| SetPacking.SumOf | geco/mips/set_packing/generic.py:42-43 | the quicksum over a list is the sum with one unit term per entry |
| SetPacking.FeasibleIffPacking | geco/mips/set_packing/generic.py:36-43 | both directions: feasible exactly when a 0/1 vector of length n picks at most one entry of each list |
| SetPacking.SingleElementOptimum | geco/mips/tests/test_set_packing.py:16-22 | `set_packing(1, 1, [5], [[0]])` has optimum 5 |
| SetPackingYang.SizeRangeNonEmpty | geco/mips/set_packing/yang.py:62 | with n = 5m the size range `[2n//25+1, 3n//25-1]` is non-empty exactly for m = 7, m = 9 and m ≥ 10 |
| SetPackingYang.DrawSizes | geco/mips/set_packing/yang.py:61-63 | m size draws, each in the range and so at most n |
| SetPackingYang.DrawSamples | geco/mips/set_packing/yang.py:64-66 | one sample per size, each of exactly that many distinct indices below n |
| SetPackingYang.YangAssembled | geco/mips/set_packing/yang.py:59-66 | the value draws, then the size draws, then the samples, laid end to end, are the draws of yang_parameters |
| SetPackingYang.YangParameters | geco/mips/set_packing/yang.py:59-67 | n = 5m, n values in [1,100], m distinct lists of the drawn sizes below n; the log holds all values first, then all sizes, then all samples (the same body as set_packing.py:58-66) |
| SetPackingYang.YangDeterministic | geco/mips/set_packing/yang.py:59-67 | parameters read off draws answered from the same raw rows are equal |
| SetPackingYang.SamplesDeterministic | geco/mips/set_packing/yang.py:64-66 | the sample lists read off draws answered from the same raw rows, with the same sizes, are equal |
| SetPackingYang.ListsDeterministic | geco/mips/set_packing/yang.py:64-66 | any two lists of samples read off draws answered from the same raw rows, of equal count, are equal |
| SetPackingYang.SameSeedSameParams | geco/mips/set_packing/yang.py:59-67 | two samplers in the same state give identical parameters |
| SetPackingYang.YangInstance | geco/mips/set_packing/yang.py:6-35 | the set packing model of the drawn values and lists, named "Yang Set Packing": 5m binary variables with objective in [1,100], one packing constraint per drawn list, maximise; m lists of distinct indices below 5m with sizes in the range (test_set_packing.py:8-13) |
| Knapsack.Check | geco/mips/knapsack/generic.py:21-24 | no assert fails exactly when the lengths agree, capacity ≥ 0 and all weights and profits are ≥ 0; otherwise the first failing one |
| Knapsack.Knapsack | geco/mips/knapsack/generic.py:21-37 | Failure exactly when an assert fails, naming the first; otherwise one binary per profit with that objective, one constraint `Σ weight·x ≤ capacity`, maximise (the same builder as knapsack.py:26-40) |
| Knapsack.FeasibleIffFits | geco/mips/knapsack/generic.py:28-33 | both directions: feasible exactly when a 0/1 vector of the right length has total weight at most the capacity |
| Knapsack.WellFormedKnapsack | geco/mips/knapsack/generic.py:28-33 | the capacity constraint mentions only the variables the model added |
| KnapsackYang.YangParams | geco/mips/knapsack/yang.py:36-43 | n profits then n weights, each a randint(1, 10n) draw in that order, and capacity = ⌊Σweights / 5⌋ (the same body as knapsack.py:16-23) |
| KnapsackYang.YangInstance | geco/mips/knapsack/yang.py:69 | the generated profits are passed in knapsack's weights slot and the weights in its profits slot, as written |
| KnapsackPisinger.GenerateFromDistribution | geco/mips/knapsack/pisinger.py:41-51 | two lists of n values; with profit_first all profits are drawn first and each weight from its profit, otherwise the other way round |
| KnapsackPisinger.CallsValues | geco/mips/knapsack/pisinger.py:45-49 | a generator that draws nothing is a plain function of its argument |
| KnapsackPisinger.StronglyCorrelatedRelation | geco/mips/knapsack/pisinger.py:94-100 | every profit is its weight plus R/10, and only the n weights are drawn |
| KnapsackPisinger.SubsetSumRelation | geco/mips/knapsack/pisinger.py:150-156 | every profit equals its weight |
| KnapsackPisinger.InverseStronglyCorrelatedRelation | geco/mips/knapsack/pisinger.py:112-118 | the profits are drawn from uniform(1, R) and every weight is its profit plus R/10 |
| KnapsackPisinger.AlmostStronglyCorrelatedRelation | geco/mips/knapsack/pisinger.py:130-138 | the profit's uniform draw has equal bounds, so every profit is weight + R/10 − R/500 |
| KnapsackPisinger.CorrectedAlmostStronglyCorrelatedBand | geco/mips/knapsack/pisinger.py:130-136 | with the band `uniform(w + R/10 - R/500, w + R/10 + R/500)`, every profit lies within abs(R)/500 of its weight plus R/10, one draw per item |
| KnapsackPisinger.WeaklyCorrelatedRelation | geco/mips/knapsack/pisinger.py:76-82 | every profit is at least 1 (the max(1, ·)) |
| KnapsackPisinger.CorrelatedTemplate | geco/mips/knapsack/pisinger.py:35-38 | generated profits and weights go to knapsack's weights and profits slots, as written; Failure exactly when an assert of knapsack fails |
| KnapsackPisinger.SpannerItems | geco/mips/knapsack/pisinger.py:193-204 | per item, one choice of a spanner index, then one uniform(1, m) multiplier applied to both its profit and weight |
| KnapsackPisinger.Normalized | geco/mips/knapsack/pisinger.py:189-190 | every value x becomes x/m + 1, the length unchanged |
| KnapsackPisinger.Spanner | geco/mips/knapsack/pisinger.py:184-206 | the spanner set is v items of the distribution, normalised by m; n items are drawn from it; Failure exactly when an assert of knapsack fails |
| Packing.Packing | geco/mips/packing/generic.py:32-54 | n variables `v_i` priced costs[i], binary (ub 1) or non-negative integer (no ub); m constraints `Σ_j coefs[i][j]·v_j ≤ limits[i]`; maximise; the given name; requires the lists to be long enough for the indexing Python does (the same builder as packing.py:67-86) |
| Packing.WellFormedPacking | geco/mips/packing/generic.py:45-49 | every constraint mentions only live variables |
| Packing.FeasibleIffWithinLimits | geco/mips/packing/generic.py:36-49 | both directions: feasible exactly when x has n entries, all ≥ 0 (and ≤ 1 when binary), and every weighted row sum is within its limit |
| Packing.SingleIntegerOptimum | geco/mips/tests/test_packing.py:28-34 | `packing(1, 1, [1], [[1]], [5], False)` has optimum 5 |
| PackingTang.TangParams | geco/mips/packing/tang.py:61-74 | n costs in [1,10], then m rows of n coefficients in [5,30] (binary) or [0,5], then m limits in [10n,20n] or [9n,10n], drawn in that order (as packing.py:28-39) |
| PackingTang.CoefsDeterministic | geco/mips/packing/tang.py:63-72 | coefficient rows and limits read off draws answered from the same raw rows are equal |
| PackingTang.TangDeterministic | geco/mips/packing/tang.py:61-74 | all three parameter lists read off the same raw rows are equal |
| PackingTang.SameSeedSameParams | geco/mips/tests/test_packing.py:47-52 | two samplers in the same state give identical parameters (the same-seed half of test_seeding) |
| PackingTang.RowsToReals | geco/mips/packing/tang.py:29 | each coefficient row is passed on unchanged, as numbers |
| PackingTang.TangInstance | geco/mips/packing/tang.py:29 | the packing model of the drawn parameters, named "Tang Packing", with n variables and m constraints (test_packing.py:8-25) |
| ProductionPlanning.UncapacitatedLotSizing | geco/mips/production_planning/generic.py:41-71 | per step i = 0..T the variables x_i (obj p[i]), y_i binary (obj h[i]), s_i (obj q[i]); x_0 removed; per step i ≥ 1 the flow `s_{i-1} + x_i = d[i] + s_i` and `x_i ≤ M·y_i`; then `s_0 = initial` and `s_T = final`; minimise; 3T+2 live variables and 2T+2 constraints (the same builder as production_planning.py:48-115) |
| ProductionPlanning.AddStepVars | geco/mips/production_planning/generic.py:46-54 | the loop over range(T+1): step j's three variables at handles 3j, 3j+1, 3j+2 |
| ProductionPlanning.AddStepConss | geco/mips/production_planning/generic.py:60-64 | the loop over range(1, T+1): step j's flow and set-up constraints at positions 2(j−1) and 2(j−1)+1 |
| ProductionPlanning.WellFormedLotSizing | geco/mips/production_planning/generic.py:57-67 | no constraint mentions the deleted x_0 |
| ProductionPlanning.BoundsMeaning | geco/mips/production_planning/generic.py:46-54 | the live variables are in bounds exactly when x_i ≥ 0 for i ≥ 1, y_i ∈ {0,1} and s_i ≥ 0 |
| ProductionPlanning.StepMeaning | geco/mips/production_planning/generic.py:60-64 | step i's two constraints hold exactly when storage balances demand and x_i ≤ M·y_i |
| ProductionPlanning.ConssMeaning | geco/mips/production_planning/generic.py:60-67 | all constraints hold exactly when every step is balanced and set up, s_0 = initial and s_T = final |
| ProductionPlanning.FeasibleIffPlan | geco/mips/production_planning/generic.py:41-71 | both directions: feasible exactly when x has 3(T+1) entries and is a lot-sizing plan |
| ProductionPlanningTang.TangParams | geco/mips/production_planning/tang.py:65-77 | M = 100, initial 0, final 20; per step p, h, q, d each a randint(1, 10) draw in that order, T+1 steps (as production_planning.py:32-45) |
| ProductionPlanningTang.StepsDeterministic | geco/mips/production_planning/tang.py:72-76 | the four lists read off draws answered from the same raw rows are equal |
| ProductionPlanningTang.TangInstance | geco/mips/production_planning/tang.py:27-29 | the lot-sizing model of the drawn parameters, named "Tang Production Planning" |
| FacilityLocation.CapacitatedFacilityLocation | geco/mips/facility_location/generic.py:50-93 | c·f binary x_ij (obj transportation cost) in product order, then f binary y_j (obj fixed cost); c demand rows `Σ_j x_ij ≥ 1`, f capacity rows `Σ_i d_i·x_ij − cap_j·y_j ≤ 0`, one total-capacity row, then the c·f links `x_ij ≤ y_j`; minimise; cf+f variables and c+f+1+cf constraints (the same builder as facility_location.py:24-93) |
| FacilityLocation.LoadSum | geco/mips/facility_location/generic.py:74-79 | the capacity row of facility j: customer i's demand on x_ij for every i, and −cap_j on y_j |
| FacilityLocation.AddAssignVars | geco/mips/facility_location/generic.py:57-61 | x_ij for (i, j) in itertools.product order, at handle i·f + j |
| FacilityLocation.AddLinks | geco/mips/facility_location/generic.py:90-91 | the linking rows x_ij ≤ y_j, in product order |
| FacilityLocation.AddOpenVars | geco/mips/facility_location/generic.py:63-65 | y_j at handle c·f + j, after the assignment variables |
| FacilityLocation.AddServiceConss | geco/mips/facility_location/generic.py:68-87 | the demand rows, then the capacity rows, then the total-capacity row, in that order |
| FacilityLocation.WellFormedFacility | geco/mips/facility_location/generic.py:57-91 | every constraint mentions only live variables |
| FacilityLocation.ServedIffAssigned | geco/mips/facility_location/generic.py:69-71 | over 0/1 values customer i's demand row holds exactly when some x_ij is 1 |
| FacilityLocation.LoadValue | geco/mips/facility_location/generic.py:75-77 | over 0/1 values the demand terms of facility j add up to the demand assigned to it |
| FacilityLocation.OpenCapacityValue | geco/mips/facility_location/generic.py:84-86 | over 0/1 values Σ_j cap_j·y_j is the capacity of the open facilities |
| FacilityLocation.DemandMeaning | geco/mips/facility_location/generic.py:68-71 | the demand row of customer i holds exactly when i is served |
| FacilityLocation.CapacityMeaning | geco/mips/facility_location/generic.py:73-81 | the capacity row of j holds exactly when its load is at most cap_j if open and 0 if closed |
| FacilityLocation.TotalMeaning | geco/mips/facility_location/generic.py:83-87 | the total row holds exactly when the open capacity covers the total demand |
| FacilityLocation.LinkMeaning | geco/mips/facility_location/generic.py:90-91 | the link (i, j) holds exactly when assigning i to j implies j is open |
| FacilityLocation.ConssMeaning | geco/mips/facility_location/generic.py:68-91 | all constraints hold exactly when the 0/1 plan serves every customer, respects capacities and the total, and uses only open facilities |
| FacilityLocation.FeasibleIffPlan | geco/mips/facility_location/generic.py:50-93 | both directions: feasible exactly when x is a 0/1 vector of length cf+f that is such a plan |
| FacilityLocationCornuejols.DrawAll | geco/mips/facility_location.py:99-109 | c_x, c_y, f_x, f_y from random(), then demands in [5,36], capacities in [10,161], fixed bases in [100,111] and extras in [0,91] (each `randint(a, b + 1)` includes both ends), in that order |
| FacilityLocationCornuejols.ScaledCapacities | geco/mips/facility_location.py:113-116 | one capacity per facility |
| FacilityLocationCornuejols.TruncScaledSum | geco/mips/facility_location.py:115-116 | truncating each scaled capacity loses less than one unit per entry |
| FacilityLocationCornuejols.RatioBounds | geco/mips/facility_location.py:113-116 | scaling by goal/Σraw and truncating gives a total in (goal − f, goal] |
| FacilityLocationCornuejols.CapacitiesMeetRatio | geco/mips/facility_location.py:112-116 | with at least one facility the adjusted capacities add up to at most ratio·total demand and more than that minus f |
| FacilityLocationCornuejols.FixedCosts | geco/mips/facility_location.py:108-110 | one fixed cost per facility, from the capacities before rescaling |
| FacilityLocationCornuejols.TransportCosts | geco/mips/facility_location.py:119-126 | a c × f matrix of distance·10·demand |
| FacilityLocationCornuejols.CornuejolsParams | geco/mips/facility_location.py:97-127 | the drawn demands, fixed costs, transport costs and rescaled capacities, with those shapes and in that draw order |
| FacilityLocationCornuejols.FixedDeterministic | geco/mips/facility_location.py:108-109 | the fixed-cost draws read off the same raw rows are equal |
| FacilityLocationCornuejols.FacilitiesDeterministic | geco/mips/facility_location.py:103-104 | the facility locations read off the same raw rows are equal |
| FacilityLocationCornuejols.IntegersDeterministic | geco/mips/facility_location.py:106-109 | the integer draws read off the same raw rows are equal |
| FacilityLocationCornuejols.CornuejolsDeterministic | geco/mips/facility_location.py:97-127 | all draws read off the same raw rows are equal |
| FacilityLocationCornuejols.SameSeedSameParams | geco/mips/facility_location.py:97-127 | two samplers in the same state give identical parameters |
| FacilityLocationCornuejols.CornuejolsInstance | geco/mips/facility_location.py:15-21 | the facility model of the drawn parameters under the default name, well formed |
| CombinatorialAuction.CombinatorialAuction | geco/mips/combinatorial_auction/generic.py:4-23 | one binary `x_{i+1}` per bid priced by the bid; for each of the n_items + n_dummy_items slots that some bundle names, in slot order, `Σ x ≤ 1` over its bids; maximise; requires every bundle item to index a slot (Python raises IndexError) |
| CombinatorialAuction.SumOf | geco/mips/combinatorial_auction/generic.py:20-21 | the quicksum over item_bids: one unit term per entry, repeats counted |
| CombinatorialAuction.ReadBids | geco/mips/combinatorial_auction/generic.py:8-15 | the loop over the bids: one variable per bid, and slot t lists the bids naming t, in bid order |
| CombinatorialAuction.AddBundle | geco/mips/combinatorial_auction/generic.py:14-15 | every slot t gains bid i once per occurrence of t in the bundle, and nothing else changes |
| CombinatorialAuction.AddItemConss | geco/mips/combinatorial_auction/generic.py:18-21 | one constraint per slot with bids, none for the others, in slot order |
| CombinatorialAuction.ItemBidsMembers | geco/mips/combinatorial_auction/generic.py:14-15 | both directions: bid i is listed under item t exactly when its bundle names t |
| CombinatorialAuction.WellFormedAuction | geco/mips/combinatorial_auction/generic.py:18-21 | every constraint mentions only live variables |
| CombinatorialAuction.PicksItemBids | geco/mips/combinatorial_auction/generic.py:20-21 | the quicksum over item_bids counts how often x sells the item |
| CombinatorialAuction.ItemConsMeaning | geco/mips/combinatorial_auction/generic.py:19-21 | over 0/1 values an item's constraint holds exactly when it is sold at most once |
| CombinatorialAuction.UnbidItemUnsold | geco/mips/combinatorial_auction/generic.py:19 | an item no bid names is never sold, so skipping its constraint loses nothing |
| CombinatorialAuction.ItemConssMeaning | geco/mips/combinatorial_auction/generic.py:18-21 | over 0/1 values all item constraints hold exactly when no item is sold twice |
| CombinatorialAuction.FeasibleIffNoItemSoldTwice | geco/mips/combinatorial_auction/generic.py:4-23 | both directions: feasible exactly when x is a 0/1 vector, one entry per bid, selling no item twice |
| CombinatorialAuction.FeasibleIsBinary | geco/mips/combinatorial_auction/generic.py:12 | every feasible assignment is 0/1 with one entry per bid |
| CombinatorialAuction.SingleBidOptimum | geco/mips/tests/test_combinatorial_auction.py:9-22 | `combinatorial_auction([([0], 2)], 0, 1)` has one variable, one constraint and optimum 2 |
| IndependentSet.NodeVarsAreUnit | geco/mips/independent_set/generic.py:28-31 | the variables named after the relabelled nodes are binary with objective 1 |
| IndependentSet.EdgeConss | geco/mips/independent_set/generic.py:33-34 | one constraint `x_u + x_v ≤ 1` per edge, in edge order |
| IndependentSet.AddNodeVars | geco/mips/independent_set/generic.py:28-31 | one binary variable str(node) per node 0..n−1, in node order, objective 1 |
| IndependentSet.AddEdgeConss | geco/mips/independent_set/generic.py:33-34 | the edge constraints appended after the existing ones, nothing else changed |
| IndependentSet.EdgeConssLive | geco/mips/independent_set/generic.py:33-34 | the edge constraints mention only live variables |
| IndependentSet.IndependentSet | geco/mips/independent_set/generic.py:25-38 | after convert_node_labels_to_integers: a binary variable per node, one edge constraint per edge, maximise, the given name, well formed |
| IndependentSet.ObjectiveFromNodes | geco/mips/independent_set/generic.py:29 | over 0/1 values the objective from handle i on counts the selected nodes from i on |
| IndependentSet.ObjectiveIsSize | geco/mips/independent_set/generic.py:29 | over 0/1 values the objective is the number of selected nodes |
| IndependentSet.NodeBounds | geco/mips/independent_set/generic.py:29 | the variables are in bounds exactly when x is 0/1 |
| IndependentSet.EdgeConsMeaning | geco/mips/independent_set/generic.py:34 | over 0/1 values an edge constraint holds exactly when not both ends are selected |
| IndependentSet.EdgeConssMeaning | geco/mips/independent_set/generic.py:33-34 | all edge constraints hold exactly when the selected nodes are independent |
| IndependentSet.FeasibleIffIndependent | geco/mips/independent_set/generic.py:25-38 | both directions: feasible exactly when x is a 0/1 vector, one entry per node, selecting an independent set |
| IndependentSet.CompleteCounts | geco/mips/tests/test_independent_set.py:18-23 | on the complete graph K_n: n variables and n(n−1)/2 constraints |
| IndependentSet.CompleteIndependentIffSmall | geco/mips/tests/test_independent_set.py:26-32 | on K_n a node set is independent exactly when it has at most one node |
| IndependentSet.CompleteOptimum | geco/mips/tests/test_independent_set.py:26-32 | on K_n with n ≥ 1 the optimum is 1 |
| IndependentSet.CandidatesMembers | geco/mips/independent_set/generic.py:68 | both directions: a candidate is a leftover node adjacent to the centre |
| IndependentSet.CandidatesCons | geco/mips/independent_set/generic.py:68-69 | the candidate list of `[v] + rest` is v (when adjacent) followed by the candidates of rest |
| IndependentSet.Without | geco/mips/independent_set/generic.py:76 | the filtered leftover list is no longer than the input |
| IndependentSet.WithoutMembers | geco/mips/independent_set/generic.py:76 | both directions: a node stays exactly when it was leftover and is not in the clique |
| IndependentSet.WithoutCons | geco/mips/independent_set/generic.py:76 | the filter of `[v] + s` is v (when kept) followed by the filter of s |
| IndependentSet.GrowClique | geco/mips/independent_set/generic.py:70-74 | the for loop adds each candidate joined to every clique member so far, in candidate order |
| IndependentSet.GreedyCliquesStep | geco/mips/independent_set/generic.py:65-76 | one round of the while loop: the grown clique of the first leftover node, then the rounds on what remains |
| IndependentSet.GetCliques | geco/mips/independent_set/generic.py:60-78 | the cliques _get_cliques returns, starting from the nodes sorted by descending degree (degree ties among candidates in leftover order) |
| IndependentSet.GrowBounds | geco/mips/independent_set/generic.py:67-74 | growing keeps the start, adds only candidates, and keeps a clique a clique |
| IndependentSet.PartitionCons | geco/mips/independent_set/generic.py:75-76 | a non-empty clique in front of a partition of the remaining nodes partitions all of them |
| IndependentSet.AllCliquesCons | geco/mips/independent_set/generic.py:75 | a clique in front of a list of cliques is a list of cliques |
| IndependentSet.RoundTakes | geco/mips/independent_set/generic.py:66-76 | a round's clique holds its centre, lies within the leftover nodes and is a clique |
| IndependentSet.GreedyCliquesPartition | geco/mips/independent_set/generic.py:65-76 | the rounds split the leftover nodes into non-empty, pairwise disjoint sets covering all of them |
| IndependentSet.GreedyCliquesAreCliques | geco/mips/independent_set/generic.py:70-74 | every set the rounds produce is a clique of the graph |
| IndependentSet.GreedyCliquesCount | geco/mips/independent_set/generic.py:65-75 | at most one clique per leftover node, and the first clique holds the first node |
| IndependentSet.LeftoverSorted | geco/mips/independent_set/generic.py:63 | the sorted node list has the same nodes, is in non-increasing degree order, and starts with a node of maximum degree |
| IndependentSet.CliquesPartition | geco/mips/independent_set/generic.py:41-78 | the returned cliques partition the nodes 0..n−1, with at most n of them |
| IndependentSet.SortedLength | geco/mips/independent_set/generic.py:63 | sorting keeps all n nodes |
| IndependentSet.CliquesAreCliques | geco/mips/independent_set/generic.py:41-78 | every returned set is a clique |
| IndependentSet.FirstCliqueDensest | geco/mips/independent_set/generic.py:63-66 | the first clique holds a node of maximum degree |
| IndependentSet.CliqueConss | geco/mips/independent_set/generic.py:112-113 | one `Σ_{v ∈ C} x_v ≤ 1` per clique, in clique order |
| IndependentSet.AddCliqueConss | geco/mips/independent_set/generic.py:112-113 | the clique constraints appended, nothing else changed |
| IndependentSet.CliqueConssLive | geco/mips/independent_set/generic.py:112-113 | the clique constraints mention only live variables |
| IndependentSet.CliqueIndependentSet | geco/mips/independent_set/generic.py:102-117 | after relabelling: one binary variable per node, one constraint per clique of _get_cliques, maximise, well formed |
| IndependentSet.CliqueConsMeaning | geco/mips/independent_set/generic.py:113 | over 0/1 values a clique constraint holds exactly when at most one clique node is chosen |
| IndependentSet.AdjacentNotBoth | geco/mips/independent_set/generic.py:71-74 | an independent set never holds both ends of an edge |
| IndependentSet.IndependentMeetsCliqueOnce | geco/mips/independent_set/generic.py:112-113 | an independent set meets every clique at most once |
| IndependentSet.IndependentIsFeasible | geco/mips/independent_set/generic.py:102-117 | every independent 0/1 selection is feasible for the clique model (it is a relaxation) |
| IndependentSet.Cycle5Degrees | geco/mips/independent_set/generic.py:63 | every node of C5 has degree 2 |
| IndependentSet.SortEqualDegrees | geco/mips/independent_set/generic.py:63 | a stable sort on equal degrees keeps the order |
| IndependentSet.Cycle5Sorted | geco/mips/independent_set/generic.py:63 | on C5 the sorted nodes are 0, 1, 2, 3, 4 |
| IndependentSet.Cycle5Cliques | geco/mips/independent_set/generic.py:60-78 | on C5 the cliques are {0,1}, {2,3}, {4} |
| IndependentSet.CliqueModelAdmitsAdjacentNodes | geco/mips/independent_set/generic.py:102-117 | on C5 the clique model accepts x = (1,0,1,0,1) with objective 3, although nodes 4 and 0 are adjacent |
| IndependentSet.AcceptsOneFromEachClique | geco/mips/independent_set/generic.py:112-113 | with cliques {0,1}, {2,3}, {4}, picking 0, 2 and 4 is feasible with objective 3 |
| IndependentSet.Cycle5NotIndependent | geco/mips/independent_set/generic.py:33-34 | {0, 2, 4} is not independent in C5 |
| IndependentSet.UncoveredMembers | geco/mips/independent_set/generic.py:112-113 | both directions: an edge is uncovered exactly when no clique contains both its ends |
| IndependentSet.CoveredCliqueIndependentSet | geco/mips/independent_set/generic.py:102-117 | the corrected clique model: the clique constraints, then `x_u + x_v ≤ 1` for every edge no clique covers |
| IndependentSet.UncoveredBounded | geco/mips/independent_set/generic.py:33-34 | the uncovered edges join nodes below n |
| IndependentSet.InsideCliqueExcludes | geco/mips/independent_set/generic.py:112-113 | when every clique is met at most once, an edge inside a clique does not have both ends selected |
| IndependentSet.CliqueConssMeaning | geco/mips/independent_set/generic.py:112-113 | all clique constraints hold exactly when every clique is met at most once |
| IndependentSet.EdgeListMeaning | geco/mips/independent_set/generic.py:33-34 | all edge constraints of a list hold exactly when no listed edge has both ends selected |
| IndependentSet.IndependentMeetsCovered | geco/mips/independent_set/generic.py:112-113 | an independent selection meets every clique once and no uncovered edge twice |
| IndependentSet.CoveredMeansIndependent | geco/mips/independent_set/generic.py:112-113 | a 0/1 selection meeting every clique once and no uncovered edge twice is independent |
| IndependentSet.CoveredFeasibleIffIndependent | geco/mips/independent_set/generic.py:102-117 | both directions: the corrected clique model is feasible exactly when x is an independent 0/1 selection |
| IndependentSet.CoveredCycle5 | geco/mips/independent_set/generic.py:102-117 | the corrected model rejects (1,0,1,0,1) on C5 |
| IndependentSet.CandidatesAll | geco/mips/independent_set/generic.py:68 | when the centre is joined to every leftover node, all of them are candidates |
| IndependentSet.WithoutAll | geco/mips/independent_set/generic.py:76 | removing a clique that holds every leftover node leaves nothing |
| IndependentSet.OneClique | geco/mips/independent_set/generic.py:65-76 | a list of pairwise adjacent distinct nodes gives a single clique |
| IndependentSet.CompleteCliques | geco/mips/tests/test_independent_set.py:43-47 | on K_n the cliques are the single set of all n nodes, so one constraint (at most len(graph.edges)) |
| IndependentSet.CompleteCliqueModel | geco/mips/independent_set/generic.py:102-117 | on K_n the clique model has n unit binary variables and the single constraint that at most one of all n nodes is chosen |
| IndependentSet.SingleCliqueBound | geco/mips/independent_set/generic.py:102-117 | under that single constraint no feasible point has objective above 1 |
| IndependentSet.CliqueCompleteAttains | geco/mips/tests/test_independent_set.py:50-56 | selecting node 0 alone is feasible for the clique model of K_n with objective 1 |
| IndependentSet.CliqueCompleteOptimum | geco/mips/tests/test_independent_set.py:50-56 | clique_independent_set(K_n) with n ≥ 1 has optimum 1 (the test uses complete_graph(3)) |
| IndependentSet.SortedNodesDistinct | geco/mips/independent_set/generic.py:63 | the sorted node list has no repeats |
| IndependentSet.GrowAllJoined | geco/mips/independent_set/generic.py:70-74 | pairwise joined candidates all adjacent to the centre are all taken |
| IndependentSetLegacy.AddLabelVars | geco/mips/independent_set.py:29-32 | one binary variable str(node) per node, in graph.nodes order, objective 1 |
| IndependentSetLegacy.LegacyIndependentSet | geco/mips/independent_set.py:27-39 | the node variables, then `x_u + x_v ≤ 1` for every pair of itertools.combinations(graph.nodes, 2), maximise |
| IndependentSetLegacy.LegacyNamesDistinct | geco/mips/independent_set.py:29-32 | distinct node labels give distinct variable names |
| IndependentSetLegacy.LegacyCounts | geco/mips/independent_set.py:34-35 | n variables and n(n−1)/2 constraints, whatever the edges |
| IndependentSetLegacy.LegacyFeasibleIff | geco/mips/independent_set.py:27-39 | both directions: feasible exactly when x is 0/1 and selects at most one node, whatever the graph |
| IndependentSetLegacy.LegacyOptimum | geco/mips/independent_set.py:27-39 | with at least one node the optimum is 1 |
| IndependentSetLegacy.EdgelessPairIndependent | geco/mips/independent_set.py:34-35 | two nodes without an edge form an independent set of size 2 |
| IndependentSetLegacy.LegacyRejectsIndependentPair | geco/mips/independent_set.py:34-35 | on two nodes without an edge the legacy model rejects selecting both, though {0,1} is independent |
| IndependentSetLegacy.EdgelessPairOptimum | geco/mips/independent_set/generic.py:33-34 | the edge-based model on two unjoined nodes accepts both, with optimum 2 |
| MaxCut.CutWeightPrefix | geco/mips/max_cut/generic.py:27-41 | the cut weight depends only on the node entries of x |
| MaxCut.NaiveBlocks | geco/mips/max_cut/generic.py:27-41 | one block per edge, in edge order, the k-th using edge variable n + k |
| MaxCut.NodeVars | geco/mips/max_cut/generic.py:11-12 | one binary variable str(v) per node, objective 0, in node order |
| MaxCut.EdgeNames | geco/mips/max_cut/generic.py:17 | one non-empty undirected name per edge |
| MaxCut.NamedVars | geco/mips/max_cut/generic.py:19-21 | one binary variable per name, objective the edge weight |
| MaxCut.AddNodeVars | geco/mips/max_cut/generic.py:10-12 | the node variables, nothing else changed |
| MaxCut.AddEdgeVars | geco/mips/max_cut/generic.py:14-23 | the edge variables appended, and all_non_negative exactly when no weight is below 0 |
| MaxCut.AddNaiveBlock | geco/mips/max_cut/generic.py:28-41 | the two (or, with a negative weight, four) constraints of one edge appended |
| MaxCut.AddNaiveConss | geco/mips/max_cut/generic.py:27-41 | the blocks of all edges appended, in edge order |
| MaxCut.NaiveBlocksBounded | geco/mips/max_cut/generic.py:27-41 | every block mentions only node and edge variables |
| MaxCut.NaiveWellFormed | geco/mips/max_cut/generic.py:27-41 | the naive model mentions only live variables |
| MaxCut.Naive | geco/mips/max_cut/generic.py:7-43 | node variables, then edge variables named "(u,v)" with the edge weight, maximise, then per edge `x_u + x_v + y ≤ 2` and `−x_u − x_v + y ≤ 0`, plus `x_u − x_v − y ≤ 0` and `−x_u + x_v − y ≤ 0` when some weight is negative (the same builder as max_cut.py:53-89) |
| MaxCut.CutBoundsMeaning | geco/mips/max_cut/generic.py:29-34 | over 0/1 values the two upper constraints hold exactly when y = 1 implies the ends are on different sides |
| MaxCut.SignBoundsMeaning | geco/mips/max_cut/generic.py:35-41 | over 0/1 values the two lower constraints hold exactly when ends on different sides force y = 1 |
| MaxCut.NaiveBlockMeaning | geco/mips/max_cut/generic.py:28-41 | an edge block holds exactly when y = 1 implies a cut edge and, with four constraints, a cut edge implies y = 1 |
| MaxCut.BinaryVarsBounds | geco/mips/max_cut/generic.py:12-21 | the variables are in bounds exactly when x is 0/1 |
| MaxCut.NaiveModelObjs | geco/mips/max_cut/generic.py:10-21 | nodes cost 0 and edge k costs weight k |
| MaxCut.NaiveConssMeaning | geco/mips/max_cut/generic.py:27-41 | all naive constraints hold exactly when every edge variable agrees with its ends as above |
| MaxCut.NaiveModelShape | geco/mips/max_cut/generic.py:7-43 | the naive model of a labelled graph has the positional shape used by the optimum proof |
| MaxCut.ShapeFeasibleIff | geco/mips/max_cut/generic.py:7-43 | both directions: feasible exactly when x is 0/1 of length n + m and its edge variables agree |
| MaxCut.NaiveFeasibleIff | geco/mips/max_cut/generic.py:7-43 | the same, stated for the labelled graph |
| MaxCut.NaiveObjective | geco/mips/max_cut/generic.py:12-21 | the objective is the weighted sum of the edge variables |
| MaxCut.EdgeTermsBelowCut | geco/mips/max_cut/generic.py:15-41 | on a feasible x the edge terms are at most the weight of the cut x's nodes define, using that with two constraints per edge all weights are ≥ 0 |
| MaxCut.ShapeFeasibleBelowCut | geco/mips/max_cut/generic.py:7-43 | every feasible x is a side assignment whose objective is at most its cut weight |
| MaxCut.CutAssignment | geco/mips/max_cut/generic.py:7-43 | a side assignment extended by one entry per edge |
| MaxCut.CutTermsFrom | geco/mips/max_cut/generic.py:19-21 | the edge terms of the extended assignment equal the cut weight |
| MaxCut.CutAssignmentAgrees | geco/mips/max_cut/generic.py:27-41 | the extended assignment is 0/1 and meets every edge block |
| MaxCut.ShapeCutAttained | geco/mips/max_cut/generic.py:7-43 | every cut is attained by a feasible assignment with objective equal to its weight |
| MaxCut.ShapeOptimumIsMaxCut | geco/mips/max_cut/generic.py:7-43 | both directions: the optimum is v exactly when v is the maximum cut weight |
| MaxCut.NaiveCutAttained | geco/mips/max_cut/generic.py:7-43 | the same attainment for the labelled graph |
| MaxCut.NaiveOptimumIsMaxCut | geco/mips/max_cut/generic.py:7-43 | both directions: naive(graph) has optimum v exactly when v is the maximum cut weight |
| MaxCut.NaiveCounts | geco/mips/max_cut/generic.py:7-43 | n + m variables and 2m constraints with non-negative weights, 4m otherwise |
| MaxCut.EdgeNamesDistinct | geco/mips/max_cut/generic.py:17-21 | distinct edges get distinct names, and (u,v) and (v,u) the same |
| MaxCut.K3Labelled | geco/mips/tests/test_max_cut.py:36 | complete_graph(3) is a simple labelled graph |
| MaxCut.K3Relabel | geco/mips/tests/test_max_cut.py:36 | complete_graph(3) relabels to the positional triangle |
| MaxCut.TriangleCutWeight | geco/mips/max_cut/generic.py:7-43 | on the triangle the cut weight adds the weights of the edges whose ends differ |
| MaxCut.TriangleMaxCutUnit | geco/mips/tests/test_max_cut.py:49-60 | the maximum cut of K3 with unit weights is 2 |
| MaxCut.TriangleMaxCutNegative | geco/mips/tests/test_max_cut.py:35-46 | the maximum cut of K3 with weights −1 is 0 |
| MaxCut.NaiveK3Unit | geco/mips/tests/test_max_cut.py:49-60 | naive(K3, weights 1): 6 variables, 6 constraints, maximise, optimum 2 |
| MaxCut.NaiveK3Negative | geco/mips/tests/test_max_cut.py:35-46 | naive(K3, weights −1): 6 variables, 12 constraints, maximise, optimum 0 |
| MaxCutTriangle.H | geco/mips/max_cut/generic.py:73-75 | the handle of pair {a, b} is the position of (min, max) among the pairs of combinations(nodes, 2) |
| MaxCutTriangle.PairWeightsFrom | geco/mips/max_cut/generic.py:51-56 | one weight per pair of nodes: the weight of the first matching edge, 0 when there is none |
| MaxCutTriangle.PairWeights | geco/mips/max_cut/generic.py:51-56 | one weight per pair of nodes |
| MaxCutTriangle.PairNames | geco/mips/max_cut/generic.py:51-52 | the undirected name of each pair of the caller's labels |
| MaxCutTriangle.NoMatchZero | geco/mips/max_cut/generic.py:55-56 | a pair no edge joins gets weight 0 |
| MaxCutTriangle.FirstMatch | geco/mips/max_cut/generic.py:53-54 | a pair gets the weight of the first edge joining it |
| MaxCutTriangle.PairWeightMeaning | geco/mips/max_cut/generic.py:53-56 | a pair without an edge weighs 0 and a pair with an edge weighs that edge's weight |
| MaxCutTriangle.PairNameLookup | geco/mips/max_cut/generic.py:73-75 | both directions: _get_edge_variable(a, b) finds pair p exactly when p is the handle of {a, b} |
| MaxCutTriangle.TriangleBlocks | geco/mips/max_cut/generic.py:63-68 | one block per triple of combinations(nodes, 3), in order |
| MaxCutTriangle.AddPairVars | geco/mips/max_cut/generic.py:51-59 | one binary variable per pair with its weight, in combinations order |
| MaxCutTriangle.AddTriangleBlock | geco/mips/max_cut/generic.py:64-68 | the constraints of one triple appended |
| MaxCutTriangle.AddTriangleConss | geco/mips/max_cut/generic.py:63-68 | the blocks of all triples appended |
| MaxCutTriangle.TriangleBlockBounded | geco/mips/max_cut/generic.py:64-68 | a triple's constraints mention only pair variables |
| MaxCutTriangle.TriangleWellFormed | geco/mips/max_cut/generic.py:63-68 | the constraints mention only live variables |
| MaxCutTriangle.Build | geco/mips/max_cut/generic.py:46-70 | pair variables, then per triple `x_ij ≤ x_ik + x_kj` and `x_ij + x_ik + x_kj ≤ 2`, and with full also the other two triangle inequalities |
| MaxCutTriangle.Triangle | geco/mips/max_cut/generic.py:46-70 | triangle(graph) as written: per triple only `x_ij ≤ x_ik + x_kj` and `x_ij + x_ik + x_kj ≤ 2` (the same builder as max_cut.py:92-116) |
| MaxCutTriangle.TriangleCorrected | geco/mips/max_cut/generic.py:63-68 | the corrected builder with all three triangle inequalities per triple |
| MaxCutTriangle.TriangleCounts | geco/mips/max_cut/generic.py:46-70 | n(n−1)/2 variables and 2 (or 4) constraints per triple, n(n−1)(n−2)/6 triples |
| MaxCutTriangle.IneqMeaning | geco/mips/max_cut/generic.py:67 | `x_ij ≤ x_ik + x_kj` holds exactly as the inequality says |
| MaxCutTriangle.AtMostTwoMeaning | geco/mips/max_cut/generic.py:68 | `x_ij + x_ik + x_kj ≤ 2` holds exactly as the inequality says |
| MaxCutTriangle.TriangleBlockMeaning | geco/mips/max_cut/generic.py:64-68 | a triple's block holds exactly when its inequalities hold |
| MaxCutTriangle.TriangleConssMeaning | geco/mips/max_cut/generic.py:63-68 | all constraints hold exactly when every triple's inequalities hold |
| MaxCutTriangle.TriangleFeasibleIff | geco/mips/max_cut/generic.py:46-70 | both directions: feasible exactly when x is 0/1 with one entry per pair and all triple inequalities hold |
| MaxCutTriangle.ModelShape | geco/mips/max_cut/generic.py:46-70 | the model has the positional shape used by the optimum proof |
| MaxCutTriangle.ShapeFeasibleIff | geco/mips/max_cut/generic.py:46-70 | the feasibility characterisation on that shape |
| MaxCutTriangle.CutVector | geco/mips/max_cut/generic.py:51-59 | the pair vector of a side assignment: 1 exactly on pairs whose sides differ |
| MaxCutTriangle.SidesOf | geco/mips/max_cut/generic.py:51-59 | a side per node read off a pair vector |
| MaxCutTriangle.CutVectorAt | geco/mips/max_cut/generic.py:73-75 | the cut vector at {a, b} is 1 exactly when a and b are on different sides |
| MaxCutTriangle.CutVectorHolds | geco/mips/max_cut/generic.py:63-68 | every cut vector meets all triangle inequalities, as written or corrected |
| MaxCutTriangle.FullHoldsIsCut | geco/mips/max_cut/generic.py:63-68 | a 0/1 pair vector meeting all four inequalities per triple is the cut vector of some side assignment |
| MaxCutTriangle.ObjectiveIsPairTerms | geco/mips/max_cut/generic.py:57-59 | the objective is the weighted sum over pairs |
| MaxCutTriangle.WeightsStep | geco/mips/max_cut/generic.py:53-56 | an edge that is not a loop puts its weight at its pair |
| MaxCutTriangle.SelfLoopStep | geco/mips/max_cut/generic.py:51-56 | a self-loop contributes no pair weight |
| MaxCutTriangle.CutTermsFromEdge | geco/mips/max_cut/generic.py:51-59 | the pair terms of a cut vector equal the cut weight of the graph |
| MaxCutTriangle.TriangleObjective | geco/mips/max_cut/generic.py:57-59 | the objective of x is its pair terms under the pair weights |
| MaxCutTriangle.CutObjective | geco/mips/max_cut/generic.py:46-70 | a cut vector's objective is the cut's weight |
| MaxCutTriangle.TriangleCutAttained | geco/mips/max_cut/generic.py:46-70 | every cut is feasible with objective its weight, as written or corrected |
| MaxCutTriangle.AsWrittenAtLeastMaxCut | geco/mips/max_cut/generic.py:46-70 | as written, the optimum is at least the maximum cut weight (a relaxation) |
| MaxCutTriangle.CorrectedFeasibleIsCut | geco/mips/max_cut/generic.py:63-68 | in the corrected model every feasible x is a cut vector with objective that cut's weight |
| MaxCutTriangle.OptimumIsMaxCut | geco/mips/max_cut/generic.py:63-68 | the corrected optimum is the maximum cut weight |
| MaxCutTriangle.MaxCutIsOptimum | geco/mips/max_cut/generic.py:63-68 | the maximum cut weight is the corrected optimum |
| MaxCutTriangle.CorrectedOptimumIsMaxCut | geco/mips/max_cut/generic.py:63-68 | both directions: the corrected model's optimum is v exactly when v is the maximum cut weight |
| MaxCutTriangle.K3Shape | geco/mips/max_cut/generic.py:51-66 | on three nodes: pairs (0,1), (0,2), (1,2), one triple, and the handles of x_ij, x_ik, x_kj |
| MaxCutTriangle.K3Weights | geco/mips/tests/test_max_cut.py:22-25 | on K3 the pair weights are the edge weights |
| MaxCutTriangle.K3Objective | geco/mips/max_cut/generic.py:57-59 | on K3 the objective is w0·x0 + w1·x1 + w2·x2 |
| MaxCutTriangle.K3Holds | geco/mips/max_cut/generic.py:63-68 | on K3 the constraints are `x01 ≤ x02 + x12` and `x01 + x02 + x12 ≤ 2` (plus the other two when corrected) |
| MaxCutTriangle.K3Feasible | geco/mips/max_cut/generic.py:46-70 | both directions: the K3 feasibility condition, written out |
| MaxCutTriangle.TriangleK3Unit | geco/mips/tests/test_max_cut.py:21-32 | triangle(K3, weights 1): 3 variables, 2 constraints, optimum 2 |
| MaxCutTriangle.K3UnitOptimum | geco/mips/tests/test_max_cut.py:21-32 | on that shape the optimum is 2 |
| MaxCutTriangle.K3UnitBound | geco/mips/tests/test_max_cut.py:21-32 | no feasible point exceeds 2 |
| MaxCutTriangle.AsWrittenK3Exceeds | geco/mips/max_cut/generic.py:63-68 | K3 with weights (−1, 1, −1): the maximum cut is 0, yet x = (0,1,0) is feasible with objective 1, so 0 is not the optimum |
| MaxCutTriangle.K3NoCut | geco/mips/max_cut/generic.py:63-68 | on that shape (0,1,0) is feasible with objective 1 |
| MaxCutTriangle.K3MaxCut | geco/mips/max_cut/generic.py:46-70 | the maximum cut of K3 with weights (−1, 1, −1) is 0 |
| MaxCutTriangle.CorrectedK3 | geco/mips/max_cut/generic.py:63-68 | the corrected model on the same instance has optimum 0 and rejects (0,1,0) |
| MaxCutLegacy.EmptyEdge | geco/mips/max_cut.py:37-50 | one binary variable per edge named "(u,v)" with the edge weight, no constraint, maximise, named "Odd-Cycle MaxCut" |
| MaxCutLegacy.EmptyEdgeModelShape | geco/mips/max_cut.py:37-50 | the positional shape of that model |
| MaxCutLegacy.EmptyEdgeFeasibleIff | geco/mips/max_cut.py:37-50 | both directions: feasible exactly when x is 0/1 with one entry per edge |
| MaxCutLegacy.PositiveEdges | geco/mips/max_cut.py:41-46 | the 0/1 vector selecting exactly the edges with positive weight |
| MaxCutLegacy.TermsBelowPositive | geco/mips/max_cut.py:41-46 | no 0/1 vector gets more than the sum of the positive weights |
| MaxCutLegacy.PositiveEdgesTerms | geco/mips/max_cut.py:41-46 | selecting the positive edges gets exactly that sum |
| MaxCutLegacy.EmptyEdgeOptimum | geco/mips/max_cut.py:37-50 | the optimum is the sum of the positive weights, attained by selecting those edges |
| MaxCutLegacy.CutBelowPositive | geco/mips/max_cut.py:41-46 | no cut weighs more than the sum of the positive weights |
| MaxCutLegacy.EmptyEdgeRelaxes | geco/mips/max_cut.py:37-50 | the maximum cut weight is at most the empty-edge optimum (a relaxation) |
| MaxCutLegacy.EmptyEdgeK3 | geco/mips/tests/test_max_cut.py:12-18 | on K3 with weights 1: 3 variables, no constraint, optimum 3 while the maximum cut is 2 |
| MaxCutTang.TangParams | geco/mips/max_cut/tang.py:61-64 | one randint(0, 10) draw per edge, in edge order, each in [0,10] (as max_cut.py:30-34) |
| MaxCutTang.SeedZeroWeights | geco/mips/max_cut/tang.py:32 | the weights of a fresh seed-0 generator: count values in [0,10] |
| MaxCutTang.SeedZeroWeightAt | geco/mips/max_cut/tang.py:32 | weight k is the k-th randint(0, 10) of the seed-0 stream |
| MaxCutTang.FirstDrawsOfSeedZero | geco/mips/max_cut/tang.py:32 | any weights drawn from the start of the seed-0 stream are those weights |
| MaxCutTang.TangInstance | geco/mips/max_cut/tang.py:31-36 | the naive model of the G(n, m) graph with the seed-0 weights: n + m variables, 2m constraints, maximise (as max_cut.py:11-27) |
| MaxCutTang.TangHundredFifty | geco/mips/tests/test_max_cut.py:4-9 | for n = 100 and m = 50: 150 variables, 100 constraints, maximise |
| Coloring.CellBelow | geco/mips/graph_coloring/generic.py:38-43 | the handle of x[v, c] in product order lies below n·h |
| Coloring.CellSplit | geco/mips/graph_coloring/generic.py:38-43 | every product-order handle k is the cell (k / h, k % h) |
| Coloring.CellInjective | geco/mips/graph_coloring/generic.py:38-43 | distinct (vertex, colour) pairs have distinct handles |
| Coloring.Row | geco/mips/graph_coloring/generic.py:52 | the h handles x[v, 0..h−1] of one vertex |
| Coloring.Column | geco/mips/graph_coloring/generic.py:99 | the n handles x[0..n−1, c] of one colour |
| Coloring.PairName | geco/mips/graph_coloring/generic.py:40 | a name f"x_{a}_{b}" is longer than its prefix |
| Coloring.PicksZero | geco/mips/graph_coloring/generic.py:52 | over 0/1 values a quicksum is 0 exactly when every term is 0 |
| Coloring.PicksOne | geco/mips/graph_coloring/generic.py:52 | over 0/1 values a quicksum is 1 exactly when exactly one term is 1 |
| Coloring.BinaryObjsBounds | geco/mips/graph_coloring/generic.py:38-48 | all-binary variables are in bounds exactly when x is 0/1 |
| Coloring.BinaryObjsObjective | geco/mips/graph_coloring/generic.py:38-48 | the objective is the weighted sum of x by the variables' objectives |
| Coloring.BinaryObjsFeasible | geco/mips/graph_coloring/generic.py:38-59 | over all-binary variables, feasible exactly when x is 0/1 of the right length and meets every constraint |
| Coloring.SameColourNotAdjacent | geco/mips/graph_coloring/generic.py:55-57 | in a proper colouring two vertices of one colour are not adjacent |
| Coloring.Cycle5ThreeColours | geco/mips/tests/test_graph_coloring.py:7-11 | any proper colouring of C5 uses three distinct colours |
| Coloring.Cycle5Chromatic | geco/mips/tests/test_graph_coloring.py:7-11 | the chromatic number of C5 is 3 |
| Coloring.Path3Chromatic | geco/mips/graph_coloring/generic.py:138-148 | the chromatic number of the path on three nodes is 2 |
| Coloring.Edge2Chromatic | geco/mips/graph_coloring/generic.py:261-262 | the chromatic number of a single edge is 2 |
| Coloring.RankBounds | geco/mips/graph_coloring/generic.py:197-224 | the rank of a colour among the used ones is between 1 and their number |
| Coloring.RankMono | geco/mips/graph_coloring/generic.py:197-224 | ranks keep the order of the colours |
| Coloring.RenumberInjective | geco/mips/graph_coloring/generic.py:197-224 | renumbering sends distinct colours to distinct values in 1..k |
| Coloring.Compact | geco/mips/graph_coloring/generic.py:197-224 | every proper colouring can be renumbered to a proper one on colours 1..k that gives vertex 0 the colour k, k the number of colours used |
| Coloring.BoundedCard | geco/mips/graph_coloring/generic.py:197-224 | a set of colours within 1..m has at most m members |
| ColoringAssignment.XVars | geco/mips/graph_coloring/generic.py:38-43 | n·h binary variables x_{v}_{c} in itertools.product order, objective 0 |
| ColoringAssignment.WVars | geco/mips/graph_coloring/generic.py:45-48 | h binary variables w_{c}, objective 1 |
| ColoringAssignment.OneColourConss | geco/mips/graph_coloring/generic.py:51-52 | constraint (2) per vertex: `Σ_c x[v, c] = 1` |
| ColoringAssignment.EdgeBlock | geco/mips/graph_coloring/generic.py:56-57 | constraint (3) per colour for one edge: `x[u, c] + x[v, c] ≤ w[c]` |
| ColoringAssignment.EdgeBlocks | geco/mips/graph_coloring/generic.py:55-57 | one block per edge, in edge order |
| ColoringAssignment.AddXVars | geco/mips/graph_coloring/generic.py:38-43 | the x variables appended |
| ColoringAssignment.AddWVars | geco/mips/graph_coloring/generic.py:45-48 | the w variables appended |
| ColoringAssignment.AddOneColourConss | geco/mips/graph_coloring/generic.py:51-52 | the constraints (2) appended |
| ColoringAssignment.AddEdgeBlock | geco/mips/graph_coloring/generic.py:56-57 | the constraints (3) of one edge appended |
| ColoringAssignment.AddEdgeConss | geco/mips/graph_coloring/generic.py:55-57 | the constraints (3) of all edges appended |
| ColoringAssignment.AssignmentBounded | geco/mips/graph_coloring/generic.py:51-57 | the constraints mention only the nh + h variables |
| ColoringAssignment.AssignmentCounts | geco/mips/tests/test_graph_coloring.py:22-23 | n + m·h constraints |
| ColoringAssignment.AssignmentVars | geco/mips/graph_coloring/generic.py:32-48 | the model holds the x variables then the w variables, and no constraint |
| ColoringAssignment.AssignmentWellFormed | geco/mips/graph_coloring/generic.py:32-59 | well formed, with nh + h variables and n + mh constraints |
| ColoringAssignment.Assignment | geco/mips/graph_coloring/generic.py:32-63 | ASS-S after relabelling: the x and w variables, (2) per vertex, (3) per edge and colour, minimise; nh + h variables and n + mh constraints (test_graph_coloring.py:22-23) |
| ColoringAssignment.RowZeroOne | geco/mips/graph_coloring/generic.py:52 | a vertex's row of a 0/1 vector is 0/1 |
| ColoringAssignment.OneColourMeaning | geco/mips/graph_coloring/generic.py:52 | (2) holds for v exactly when v has exactly one colour |
| ColoringAssignment.EdgeColourMeaning | geco/mips/graph_coloring/generic.py:57 | (3) holds for edge k and colour c exactly as the inequality says |
| ColoringAssignment.EdgeBlockMeaning | geco/mips/graph_coloring/generic.py:56-57 | an edge's block holds exactly when (3) holds for every colour |
| ColoringAssignment.AssignmentConssMeaning | geco/mips/graph_coloring/generic.py:51-57 | all constraints hold exactly when every vertex has one colour and every edge respects every colour |
| ColoringAssignment.AssignmentObjs | geco/mips/graph_coloring/generic.py:38-48 | objective 0 on the x variables and 1 on the w variables |
| ColoringAssignment.XWObjs | geco/mips/graph_coloring/generic.py:38-48 | the variables are binary with those objectives |
| ColoringAssignment.AssignmentModelShape | geco/mips/graph_coloring/generic.py:32-63 | the built model has the positional shape used by the optimum proof |
| ColoringAssignment.ShapeFeasibleIff | geco/mips/graph_coloring/generic.py:32-59 | both directions: feasible exactly when x is 0/1 of length nh + h, each vertex has one colour and every edge respects every colour |
| ColoringAssignment.AssignmentFeasibleIff | geco/mips/graph_coloring/generic.py:32-63 | the same, stated for the labelled graph |
| ColoringAssignment.WOnesCard | geco/mips/graph_coloring/generic.py:45-48 | the count of w variables set is the size of the set of paid colours |
| ColoringAssignment.XPartObjective | geco/mips/graph_coloring/generic.py:38-43 | the x variables add nothing to the objective |
| ColoringAssignment.WPartObjective | geco/mips/graph_coloring/generic.py:45-48 | the w variables add one per paid colour |
| ColoringAssignment.AssignmentObjective | geco/mips/graph_coloring/generic.py:38-48 | over 0/1 values the objective is the number of paid colours |
| ColoringAssignment.ColourOf | geco/mips/graph_coloring/generic.py:52 | a vertex with one colour: the colour whose cell is set |
| ColoringAssignment.Decode | geco/mips/graph_coloring/generic.py:52 | the colouring read off a feasible x |
| ColoringAssignment.DecodeEdge | geco/mips/graph_coloring/generic.py:55-57 | the ends of each edge get different colours, both paid |
| ColoringAssignment.DecodeProper | geco/mips/graph_coloring/generic.py:51-57 | the decoded colouring is proper with colours below h, and its colours on edge ends are paid |
| ColoringAssignment.DecodeDiffers | geco/mips/graph_coloring/generic.py:55-57 | the decoded colouring is proper |
| ColoringAssignment.DecodePaid | geco/mips/graph_coloring/generic.py:55-57 | every colour of an edge end is paid |
| ColoringAssignment.Encode | geco/mips/graph_coloring/generic.py:38-48 | a colouring written as an x vector of length nh + h |
| ColoringAssignment.EncodeX | geco/mips/graph_coloring/generic.py:38-43 | x[v, c] = 1 exactly when v has colour c |
| ColoringAssignment.EncodeW | geco/mips/graph_coloring/generic.py:45-48 | w[c] = 1 exactly when c is the colour of an edge end |
| ColoringAssignment.EncodeEdge | geco/mips/graph_coloring/generic.py:57 | an encoded proper colouring meets (3) |
| ColoringAssignment.EncodeFeasible | geco/mips/graph_coloring/generic.py:51-57 | an encoded proper colouring is 0/1, meets (2) and (3), and pays exactly its colours |
| ColoringAssignment.FeasibleBound | geco/mips/graph_coloring/generic.py:32-59 | the objective of any feasible point is at least the number of colours its decoded colouring uses |
| ColoringAssignment.EncodeObjective | geco/mips/graph_coloring/generic.py:32-59 | an encoded proper colouring is feasible with that number of colours as objective |
| ColoringAssignment.FewestIsOptimum | geco/mips/graph_coloring/generic.py:32-59 | the fewest colours is the optimum |
| ColoringAssignment.OptimumIsFewest | geco/mips/graph_coloring/generic.py:32-59 | the optimum is the fewest colours |
| ColoringAssignment.AssignmentOptimum | geco/mips/graph_coloring/generic.py:32-63 | both directions: the optimum is r exactly when r is the fewest colours, below h, on edge ends of a proper colouring |
| ColoringAssignment.Cycle5Touched | geco/mips/tests/test_graph_coloring.py:15 | every vertex of C5 is an edge end |
| ColoringAssignment.Cycle5Colouring | geco/mips/tests/test_graph_coloring.py:14-25 | (0,1,0,1,2) properly colours C5 with three colours |
| ColoringAssignment.Cycle5AtLeastThree | geco/mips/tests/test_graph_coloring.py:7-11 | every proper colouring of C5 uses at least three colours |
| ColoringAssignment.Cycle5Fewest | geco/mips/tests/test_graph_coloring.py:7-11 | the fewest colours for C5 with H = 5 is 3 |
| ColoringAssignment.AssignmentCycle5 | geco/mips/tests/test_graph_coloring.py:14-25 | assignment(C5, 5): 30 variables, 30 constraints, optimum 3 |
| ColoringAsymmetric.ColourUsedConss | geco/mips/graph_coloring/generic.py:98-99 | constraint (5) per colour: `w[c] ≤ Σ_v x[v, c]` |
| ColoringAsymmetric.ColourOrderConss | geco/mips/graph_coloring/generic.py:102-103 | constraint (6) per colour c ≥ 1: `w[c] ≤ w[c−1]`, h − 1 of them |
| ColoringAsymmetric.AddColourUsedConss | geco/mips/graph_coloring/generic.py:98-99 | the constraints (5) appended |
| ColoringAsymmetric.AddColourOrderConss | geco/mips/graph_coloring/generic.py:102-103 | the constraints (6) appended |
| ColoringAsymmetric.ExtraBounded | geco/mips/graph_coloring/generic.py:98-103 | (5) and (6) mention only the nh + h variables |
| ColoringAsymmetric.AsymmetricWellFormed | geco/mips/graph_coloring/generic.py:91-104 | well formed, with nh + h variables and n + mh + h + (h−1) constraints |
| ColoringAsymmetric.AssignmentAsymmetric | geco/mips/graph_coloring/generic.py:91-104 | ASS: the assignment model followed by (5) and (6); n + mh + h + (h−1) constraints (test_graph_coloring.py:36-37) |
| ColoringAsymmetric.ColourUsedEval | geco/mips/graph_coloring/generic.py:99 | the value of (5)'s expression is w[c] minus the vertices of colour c |
| ColoringAsymmetric.ColourUsedMeaning | geco/mips/graph_coloring/generic.py:99 | (5) holds exactly when a paid colour is used by some vertex |
| ColoringAsymmetric.ColourOrderMeaning | geco/mips/graph_coloring/generic.py:103 | (6) holds exactly when w[c] ≤ w[c−1] |
| ColoringAsymmetric.ColourUsedConssMeaning | geco/mips/graph_coloring/generic.py:98-99 | all (5) hold exactly when every paid colour is used |
| ColoringAsymmetric.ColourOrderConssMeaning | geco/mips/graph_coloring/generic.py:102-103 | all (6) hold exactly when the paid colours are a prefix 0..k−1 |
| ColoringAsymmetric.ExtraMeaning | geco/mips/graph_coloring/generic.py:98-103 | (5) and (6) together hold exactly when the paid colours are used and a prefix |
| ColoringAsymmetric.AsymmetricModelShape | geco/mips/graph_coloring/generic.py:91-104 | the built model has the positional shape used by the optimum proof |
| ColoringAsymmetric.AsymmetricFeasibleIff | geco/mips/graph_coloring/generic.py:91-104 | both directions: feasible exactly when feasible for ASS-S with the paid colours used and a prefix; the objective is unchanged |
| ColoringAsymmetric.AsymmetricAtLeast | geco/mips/graph_coloring/generic.py:91-104 | no feasible point costs less than the fewest colours |
| ColoringAsymmetric.EncodePicks | geco/mips/graph_coloring/generic.py:99 | an encoded colouring pays only colours some vertex has |
| ColoringAsymmetric.EncodePaidUsed | geco/mips/graph_coloring/generic.py:98-99 | an encoded proper colouring meets (5) |
| ColoringAsymmetric.EncodePaidPrefix | geco/mips/graph_coloring/generic.py:102-103 | an encoded colouring whose colours are 0..k−1 meets (6) |
| ColoringAsymmetric.EncodePrefix | geco/mips/graph_coloring/generic.py:91-104 | such a colouring is feasible with its number of colours as objective |
| ColoringAsymmetric.PrefixIsBelow | geco/mips/graph_coloring/generic.py:102-103 | a downward-closed colour set is exactly 0..k−1 |
| ColoringAsymmetric.FreeColour | geco/mips/graph_coloring/generic.py:102-103 | a colour set that is not a prefix has a colour ≥ its size and a free colour below it |
| ColoringAsymmetric.Recolour | geco/mips/graph_coloring/generic.py:102-103 | every vertex of colour c gets d, the rest unchanged |
| ColoringAsymmetric.RecolourProper | geco/mips/graph_coloring/generic.py:102-103 | moving to an unused colour below h keeps the colouring proper |
| ColoringAsymmetric.RecolourUsed | geco/mips/graph_coloring/generic.py:102-103 | the used colours swap c for d, their number unchanged |
| ColoringAsymmetric.RecolourLowers | geco/mips/graph_coloring/generic.py:102-103 | moving to a lower colour lowers the colour sum |
| ColoringAsymmetric.PrefixColouring | geco/mips/graph_coloring/generic.py:102-103 | every proper colouring can be renumbered to use the colours 0..k−1, k unchanged |
| ColoringAsymmetric.EncodeRenumbered | geco/mips/graph_coloring/generic.py:91-104 | every proper colouring gives a feasible point with its number of colours as objective |
| ColoringAsymmetric.AsymmetricFewestIsOptimum | geco/mips/graph_coloring/generic.py:91-104 | the fewest colours is the optimum |
| ColoringAsymmetric.AsymmetricOptimumIsFewest | geco/mips/graph_coloring/generic.py:91-104 | the optimum is the fewest colours |
| ColoringAsymmetric.AsymmetricOptimum | geco/mips/graph_coloring/generic.py:91-104 | both directions: the optimum is r exactly when r is the fewest colours, the same as for ASS-S |
| ColoringAsymmetric.AsymmetricCycle5 | geco/mips/tests/test_graph_coloring.py:28-39 | assignment_asymmetric(C5, 5): 30 variables, 39 constraints, optimum 3 |
| ColoringAsymmetric.Cycle5Prefix | geco/mips/tests/test_graph_coloring.py:28-39 | the colouring (0,1,0,1,2) uses the prefix 0, 1, 2 |
| ColoringRepresentatives.PairRow | geco/mips/graph_coloring/generic.py:132 | the pairs (u, 0..n−1) of one row of itertools.product |
| ColoringRepresentatives.IndexMembers | geco/mips/graph_coloring/generic.py:132-136 | the dictionary x has exactly the kept pairs as keys, each mapped to its own position |
| ColoringRepresentatives.ProductMembers | geco/mips/graph_coloring/generic.py:132 | itertools.product(nodes, nodes) holds exactly the pairs below n |
| ColoringRepresentatives.ProductDistinct | geco/mips/graph_coloring/generic.py:132 | itertools.product lists no pair twice |
| ColoringRepresentatives.KeptMembers | geco/mips/graph_coloring/generic.py:133 | a pair gets a variable exactly when it is not an edge or lies on the diagonal |
| ColoringRepresentatives.KeptDistinct | geco/mips/graph_coloring/generic.py:132-136 | filtering keeps the pairs distinct |
| ColoringRepresentatives.KeptConcat | geco/mips/graph_coloring/generic.py:132-136 | filtering distributes over concatenation |
| ColoringRepresentatives.KeptAtMost | geco/mips/graph_coloring/generic.py:132-136 | filtering never adds pairs |
| ColoringRepresentatives.RowKept | geco/mips/graph_coloring/generic.py:132-136 | every row keeps its diagonal pair and at most n pairs |
| ColoringRepresentatives.ProductKept | geco/mips/graph_coloring/generic.py:132-136 | u rows keep between u and u·n pairs |
| ColoringRepresentatives.PairsCount | geco/mips/graph_coloring/generic.py:132-136 | the REP model has between n and n² variables |
| ColoringRepresentatives.PairsMembers | geco/mips/graph_coloring/generic.py:132-136 | the kept pairs are distinct and are exactly the non-edges and the diagonal, both as a list and as keys of x |
| ColoringRepresentatives.PairsDistinct | geco/mips/graph_coloring/generic.py:132-136 | no pair gets two variables |
| ColoringRepresentatives.IndexOfDistinct | geco/mips/graph_coloring/generic.py:132-136 | in a list without repeats, the dictionary maps the k-th pair back to k |
| ColoringRepresentatives.PairKey | geco/mips/graph_coloring/generic.py:132-136 | every kept pair has a variable |
| ColoringRepresentatives.RepVars | geco/mips/graph_coloring/generic.py:134-136 | one named binary variable per kept pair |
| ColoringRepresentatives.RepColumn | geco/mips/graph_coloring/generic.py:141 | the handles x[u, v] for the listed u |
| ColoringRepresentatives.CoverConss | geco/mips/graph_coloring/generic.py:139-141 | constraint (8), one per vertex |
| ColoringRepresentatives.SepBlocks | geco/mips/graph_coloring/generic.py:144-148 | constraint (9), one block per vertex u over all edges |
| ColoringRepresentatives.LinkBlocks | geco/mips/graph_coloring/generic.py:144-148 | the corrected model's block per vertex: `x[u, v] ≤ x[u, u]` for every v in the open non-neighbourhood |
| ColoringRepresentatives.KeptStep | geco/mips/graph_coloring/generic.py:132-136 | one more pair of the product keeps it or not, as the if says |
| ColoringRepresentatives.RepVarsSnoc | geco/mips/graph_coloring/generic.py:134-136 | one more kept pair adds one variable |
| ColoringRepresentatives.IndexSnoc | geco/mips/graph_coloring/generic.py:136 | one more kept pair adds one key to x |
| ColoringRepresentatives.AddRepVar | geco/mips/graph_coloring/generic.py:136 | one variable appended and its handle stored in x |
| ColoringRepresentatives.AddRepVars | geco/mips/graph_coloring/generic.py:131-136 | the loop builds all the kept variables and the dictionary x |
| ColoringRepresentatives.ClosedMembers | geco/mips/graph_coloring/generic.py:140 | the closed non-neighbourhood of v is itself and the nodes not adjacent to it |
| ColoringRepresentatives.ClosedKeys | geco/mips/graph_coloring/generic.py:140-141 | every x[u, v] that (8) reads exists |
| ColoringRepresentatives.OpenKeys | geco/mips/graph_coloring/generic.py:145-148 | every x[u, v], x[u, u] that (9) reads exists |
| ColoringRepresentatives.AddCoverConss | geco/mips/graph_coloring/generic.py:139-141 | the constraints (8) appended |
| ColoringRepresentatives.AddSepBlock | geco/mips/graph_coloring/generic.py:146-148 | the constraints (9) of one u appended |
| ColoringRepresentatives.AddSepConss | geco/mips/graph_coloring/generic.py:144-148 | the constraints (9) appended |
| ColoringRepresentatives.AddLinkBlock | geco/mips/graph_coloring/generic.py:144-148 | the corrected link constraints of one u appended |
| ColoringRepresentatives.AddLinkConss | geco/mips/graph_coloring/generic.py:144-148 | all corrected link constraints appended |
| ColoringRepresentatives.SepBlockSize | geco/mips/graph_coloring/generic.py:146-148 | a (9) block has at most one constraint per edge |
| ColoringRepresentatives.RepCount | geco/mips/graph_coloring/generic.py:139-148 | between n and n + n·m constraints |
| ColoringRepresentatives.SepBounded | geco/mips/graph_coloring/generic.py:146-148 | (9) mentions only existing variables |
| ColoringRepresentatives.LinkBounded | geco/mips/graph_coloring/generic.py:144-148 | the link constraints mention only existing variables |
| ColoringRepresentatives.CoverBounded | geco/mips/graph_coloring/generic.py:139-141 | (8) mentions only existing variables |
| ColoringRepresentatives.RepBounded | geco/mips/graph_coloring/generic.py:139-148 | all constraints mention only existing variables |
| ColoringRepresentatives.RepWellFormed | geco/mips/graph_coloring/generic.py:131-150 | well formed, n to n² variables, n to n + nm constraints |
| ColoringRepresentatives.Representatives | geco/mips/graph_coloring/generic.py:127-151 | REP as written: relabelled graph, the kept variables, (8), (9), minimise; the counts above |
| ColoringRepresentatives.LinkedWellFormed | geco/mips/graph_coloring/generic.py:131-150 | the corrected model is well formed |
| ColoringRepresentatives.RepresentativesLinked | geco/mips/graph_coloring/generic.py:127-151 | the corrected REP: (9) plus `x[u, v] ≤ x[u, u]` for every non-adjacent v |
| ColoringRepresentatives.LinkedBounded | geco/mips/graph_coloring/generic.py:144-148 | the corrected constraints mention only existing variables |
| ColoringRepresentativesOptimum.XAtKey | geco/mips/graph_coloring/generic.py:132-136 | x[u, v] of a point is its value at the pair's handle |
| ColoringRepresentativesOptimum.XAtBinary | geco/mips/graph_coloring/generic.py:135 | values of binary variables are 0/1 |
| ColoringRepresentativesOptimum.CoverMeaning | geco/mips/graph_coloring/generic.py:139-141 | (8) holds for v exactly when some node of its closed non-neighbourhood represents it |
| ColoringRepresentativesOptimum.SepConsMeaning | geco/mips/graph_coloring/generic.py:148 | one (9) holds exactly as the inequality says |
| ColoringRepresentativesOptimum.SepBlockMeaning | geco/mips/graph_coloring/generic.py:146-148 | a (9) block holds exactly when every edge inside u's non-neighbourhood meets it |
| ColoringRepresentativesOptimum.LinkConsMeaning | geco/mips/graph_coloring/generic.py:144-148 | one link constraint holds exactly when `x[u, v] ≤ x[u, u]` |
| ColoringRepresentativesOptimum.LinkBlockMeaning | geco/mips/graph_coloring/generic.py:144-148 | a link block holds exactly when every link of u holds |
| ColoringRepresentativesOptimum.CoverConssMeaning | geco/mips/graph_coloring/generic.py:139-141 | all (8) hold exactly when every vertex is represented |
| ColoringRepresentativesOptimum.SepConssMeaning | geco/mips/graph_coloring/generic.py:144-148 | all (9) hold exactly when no representative serves both ends of an edge above its own value |
| ColoringRepresentativesOptimum.LinkConssMeaning | geco/mips/graph_coloring/generic.py:144-148 | all link constraints hold exactly when only representatives represent |
| ColoringRepresentativesOptimum.RepConssMeaning | geco/mips/graph_coloring/generic.py:139-148 | REP's constraints hold exactly when covered and separated |
| ColoringRepresentativesOptimum.LinkedConssMeaning | geco/mips/graph_coloring/generic.py:139-148 | the corrected constraints hold exactly when covered, separated and linked |
| ColoringRepresentativesOptimum.RepObjs | geco/mips/graph_coloring/generic.py:134 | objective 1 on x[u, u] and 0 elsewhere |
| ColoringRepresentativesOptimum.DiagMembers | geco/mips/graph_coloring/generic.py:134 | the handles that count are exactly the diagonal ones set to 1 |
| ColoringRepresentativesOptimum.WeightedStep | geco/mips/graph_coloring/generic.py:134 | one handle adds 1 exactly when diagonal and set |
| ColoringRepresentativesOptimum.DiagStep | geco/mips/graph_coloring/generic.py:134 | the count of set diagonal handles grows the same way |
| ColoringRepresentativesOptimum.WeightedDiag | geco/mips/graph_coloring/generic.py:134 | over 0/1 values the objective counts the set diagonal handles |
| ColoringRepresentativesOptimum.DiagNodesCard | geco/mips/graph_coloring/generic.py:134 | distinct diagonal handles name distinct nodes |
| ColoringRepresentativesOptimum.DiagNodesAreReps | geco/mips/graph_coloring/generic.py:134 | the set diagonal handles name exactly the representatives |
| ColoringRepresentativesOptimum.DiagReps | geco/mips/graph_coloring/generic.py:134 | their number is the number of representatives |
| ColoringRepresentativesOptimum.RepVarsObjs | geco/mips/graph_coloring/generic.py:134-136 | the variables are binary with those objectives |
| ColoringRepresentativesOptimum.RepModelShape | geco/mips/graph_coloring/generic.py:127-151 | REP has the positional shape used by the proofs |
| ColoringRepresentativesOptimum.LinkedModelShape | geco/mips/graph_coloring/generic.py:127-151 | the corrected model has it too, with the links |
| ColoringRepresentativesOptimum.ShapeFeasibleIff | geco/mips/graph_coloring/generic.py:127-151 | both directions: feasible exactly when 0/1, covered, separated and, for the corrected model, linked |
| ColoringRepresentativesOptimum.ShapeObjective | geco/mips/graph_coloring/generic.py:134 | the objective is the number of representatives |
| ColoringRepresentativesOptimum.RepresentativesFeasibleIff | geco/mips/graph_coloring/generic.py:127-151 | REP: feasible exactly when 0/1, covered and separated; objective the number of representatives |
| ColoringRepresentativesOptimum.LinkedFeasibleIff | geco/mips/graph_coloring/generic.py:127-151 | corrected REP: feasible exactly when 0/1, covered, separated and linked; same objective |
| ColoringRepresentativesOptimum.EncodeRep | geco/mips/graph_coloring/generic.py:132-136 | a colouring written as a 0/1 point |
| ColoringRepresentativesOptimum.EncodeAt | geco/mips/graph_coloring/generic.py:132-136 | x[u, v] = 1 exactly when u is the first node of v's colour |
| ColoringRepresentativesOptimum.FirstRepresentsSelf | geco/mips/graph_coloring/generic.py:134 | the first node of a colour represents itself |
| ColoringRepresentativesOptimum.EncodeCovered | geco/mips/graph_coloring/generic.py:139-141 | an encoded proper colouring meets (8) |
| ColoringRepresentativesOptimum.EncodeSeparated | geco/mips/graph_coloring/generic.py:144-148 | an encoded proper colouring meets (9) |
| ColoringRepresentativesOptimum.EncodeLinked | geco/mips/graph_coloring/generic.py:144-148 | an encoded proper colouring meets the links |
| ColoringRepresentativesOptimum.EncodeReps | geco/mips/graph_coloring/generic.py:134 | it has one representative per colour |
| ColoringRepresentativesOptimum.RepOf | geco/mips/graph_coloring/generic.py:140-141 | a representative of a covered vertex |
| ColoringRepresentativesOptimum.DecodeRep | geco/mips/graph_coloring/generic.py:139-141 | the colouring that gives every vertex its representative |
| ColoringRepresentativesOptimum.DecodeEdge | geco/mips/graph_coloring/generic.py:144-148 | under (8) and (9) the ends of an edge get different representatives |
| ColoringRepresentativesOptimum.DecodeProper | geco/mips/graph_coloring/generic.py:139-148 | the decoded colouring is proper |
| ColoringRepresentativesOptimum.DecodeColours | geco/mips/graph_coloring/generic.py:144-148 | with the links, its colours are representatives |
| ColoringRepresentativesOptimum.EncodeFeasible | geco/mips/graph_coloring/generic.py:127-151 | an encoded proper colouring is feasible, with its number of colours as objective |
| ColoringRepresentativesOptimum.DecodeFeasible | geco/mips/graph_coloring/generic.py:127-151 | a feasible point of the corrected model decodes to a proper colouring using at most the objective's colours |
| ColoringRepresentativesOptimum.EncodesAll | geco/mips/graph_coloring/generic.py:127-151 | every proper colouring is reached |
| ColoringRepresentativesOptimum.DecodesAll | geco/mips/graph_coloring/generic.py:127-151 | every feasible point of the corrected model is matched by a colouring |
| ColoringRepresentativesOptimum.ChromaticIsOptimum | geco/mips/graph_coloring/generic.py:127-151 | when both hold the chromatic number is the optimum |
| ColoringRepresentativesOptimum.OptimumIsChromatic | geco/mips/graph_coloring/generic.py:127-151 | and the optimum is the chromatic number |
| ColoringRepresentativesOptimum.LinkedOptimum | geco/mips/graph_coloring/generic.py:127-151 | both directions: the corrected model's optimum is r exactly when r is the chromatic number |
| ColoringRepresentativesOptimum.RepresentativesAtMostChromatic | geco/mips/graph_coloring/generic.py:127-151 | REP as written never has an optimum above the chromatic number |
| ColoringRepresentativesOptimum.AtMostChromatic | geco/mips/graph_coloring/generic.py:127-151 | an optimum of a model that reaches every colouring is at most the chromatic number |
| ColoringRepresentativesOptimum.SeparatedLinked | geco/mips/graph_coloring/generic.py:144-148 | when every open non-neighbourhood holds an edge at every node, (9) already implies the links |
| ColoringRepresentativesOptimum.LinkedSameOptimum | geco/mips/graph_coloring/generic.py:127-151 | then REP and the corrected model have the same optima |
| ColoringRepresentativesOptimum.RepresentativesOptimum | geco/mips/graph_coloring/generic.py:127-151 | then both directions: REP's optimum is r exactly when r is the chromatic number |
| ColoringRepresentativesOptimum.Cycle5NoLoops | geco/mips/tests/test_graph_coloring.py:42-52 | C5 has no loop |
| ColoringRepresentativesOptimum.Cycle5OpenOnEdges | geco/mips/tests/test_graph_coloring.py:42-52 | C5 meets that condition |
| ColoringRepresentativesOptimum.RepresentativesCycle5 | geco/mips/tests/test_graph_coloring.py:42-52 | representatives(C5) has optimum 3 |
| ColoringRepresentativesOptimum.Select | geco/mips/graph_coloring/generic.py:132-136 | the 0/1 point that sets exactly the given pairs |
| ColoringRepresentativesOptimum.SelectAt | geco/mips/graph_coloring/generic.py:132-136 | x[u, v] of it is 1 exactly for those pairs |
| ColoringRepresentativesOptimum.SoleRepresentative | geco/mips/graph_coloring/generic.py:139-141 | a vertex adjacent to all others represents itself in every covered point |
| ColoringRepresentativesOptimum.Path3Middle | geco/mips/graph_coloring/generic.py:140 | the middle of the path 0-1-2 has only itself in its closed non-neighbourhood |
| ColoringRepresentativesOptimum.Path3NoSeparation | geco/mips/graph_coloring/generic.py:144-148 | on that path (9) constrains nothing |
| ColoringRepresentativesOptimum.Path3Covered | geco/mips/graph_coloring/generic.py:139-141 | the point x[2, 0] = x[0, 2] = x[1, 1] = 1 meets (8) |
| ColoringRepresentativesOptimum.Path3Reps | geco/mips/graph_coloring/generic.py:134 | it has the single representative 1 |
| ColoringRepresentativesOptimum.RepresentativesPath3 | geco/mips/graph_coloring/generic.py:127-151 | representatives(path 0-1-2) has optimum 1 while the chromatic number is 2 |
| ColoringRepresentativesOptimum.Path3Reached | geco/mips/graph_coloring/generic.py:127-151 | that point is feasible with objective 1 |
| ColoringRepresentativesOptimum.Path3AtLeastOne | geco/mips/graph_coloring/generic.py:127-151 | no feasible point is below 1 |
| ColoringRepresentativesOptimum.LinkedPath3 | geco/mips/graph_coloring/generic.py:127-151 | the corrected model on the same path has optimum 2 |
| ColoringSetCovering.CovName | geco/mips/graph_coloring/generic.py:181 | a variable name f"x_{s}" starts with "x_" |
| ColoringSetCovering.CovVars | geco/mips/graph_coloring/generic.py:180-183 | one binary variable of objective 1 per listed subset |
| ColoringSetCovering.CovIndexMembers | geco/mips/graph_coloring/generic.py:180-183 | the dict x has exactly the listed subsets as keys; a repeated subset keeps its last variable |
| ColoringSetCovering.KeptIsIndexed | geco/mips/graph_coloring/generic.py:180-183 | the last copy of each subset is the one x holds |
| ColoringSetCovering.CovConss | geco/mips/graph_coloring/generic.py:185-186 | one covering constraint per vertex |
| ColoringSetCovering.CovSnoc | geco/mips/graph_coloring/generic.py:180-183 | one more subset adds one variable and rebinds its key |
| ColoringSetCovering.AddCovVar | geco/mips/graph_coloring/generic.py:181 | one variable appended and its handle stored |
| ColoringSetCovering.AddCovVars | geco/mips/graph_coloring/generic.py:180-183 | the dict comprehension: all variables and the dict x |
| ColoringSetCovering.CoveringHandles | geco/mips/graph_coloring/generic.py:186 | the handles x[tuple(s)] of the subsets holding v, in list order |
| ColoringSetCovering.AddCovConss | geco/mips/graph_coloring/generic.py:185-186 | the covering constraints appended |
| ColoringSetCovering.CovHandlesMembers | geco/mips/graph_coloring/generic.py:186 | v's constraint reads exactly the variables of the subsets holding v |
| ColoringSetCovering.CovWellFormed | geco/mips/graph_coloring/generic.py:176-190 | the model is well formed |
| ColoringSetCovering.SetCovering | geco/mips/graph_coloring/generic.py:154-190 | one variable per listed subset, one constraint per vertex, minimise (test_graph_coloring.py:55-65) |
| ColoringSetCovering.PicksPositive | geco/mips/graph_coloring/generic.py:186 | a quicksum of 0/1 values is at least 1 exactly when some term is 1 |
| ColoringSetCovering.CovConsMeaning | geco/mips/graph_coloring/generic.py:186 | v's constraint holds exactly when some chosen subset holds v |
| ColoringSetCovering.CovConssMeaning | geco/mips/graph_coloring/generic.py:185-186 | all hold exactly when every vertex is covered |
| ColoringSetCovering.Ones | geco/mips/graph_coloring/generic.py:181 | objective 1 on every variable |
| ColoringSetCovering.OnesMembers | geco/mips/graph_coloring/generic.py:181 | the counted handles are exactly those set to 1 |
| ColoringSetCovering.CountOnes | geco/mips/graph_coloring/generic.py:181 | over 0/1 values the objective is the number of chosen subsets |
| ColoringSetCovering.OnesStep | geco/mips/graph_coloring/generic.py:181 | each variable adds 1 exactly when set |
| ColoringSetCovering.CovVarsObjs | geco/mips/graph_coloring/generic.py:180-183 | the variables are binary with objective 1 |
| ColoringSetCovering.SetCoveringFeasibleIff | geco/mips/graph_coloring/generic.py:154-190 | both directions: feasible exactly when 0/1 of the right length and every vertex is covered; objective the number chosen |
| ColoringSetCovering.ChosenCover | geco/mips/graph_coloring/generic.py:185-186 | the chosen subsets of a feasible point cover the vertices |
| ColoringSetCovering.Indicate | geco/mips/graph_coloring/generic.py:180-183 | the 0/1 point that sets exactly the given handles |
| ColoringSetCovering.ImageCard | geco/mips/graph_coloring/generic.py:180-183 | replacing positions by the kept copy of their subset never grows a set |
| ColoringSetCovering.CoverChosen | geco/mips/graph_coloring/generic.py:185-186 | every cover gives a feasible point using at most as many subsets |
| ColoringSetCovering.SetCoveringOptimum | geco/mips/graph_coloring/generic.py:154-190 | both directions: the optimum is r exactly when r is the size of a smallest cover |
| ColoringSetCovering.MinCoverIsOptimum | geco/mips/graph_coloring/generic.py:154-190 | the size of a smallest cover is the optimum |
| ColoringSetCovering.ClassOf | geco/mips/graph_coloring/generic.py:186 | a chosen subset holding a covered vertex |
| ColoringSetCovering.CoverColouring | geco/mips/graph_coloring/generic.py:154-190 | when the subsets are independent sets, a cover gives a proper colouring with no more colours than chosen subsets |
| ColoringSetCovering.SetCoveringAtLeastChromatic | geco/mips/graph_coloring/generic.py:154-190 | then no feasible point costs less than the chromatic number |
| ColoringPartialOrdering.YVars | geco/mips/graph_coloring/generic.py:197-206 | n·h binary y variables, objective 1 exactly on vertex q = 0 |
| ColoringPartialOrdering.ZVars | geco/mips/graph_coloring/generic.py:208-213 | n·h binary z variables of objective 0 |
| ColoringPartialOrdering.EndsBlocks | geco/mips/graph_coloring/generic.py:216-218 | (16) and (17) per vertex: `z[v, 1] = 0` and `y[H−1, v] = 0` |
| ColoringPartialOrdering.StepRows | geco/mips/graph_coloring/generic.py:221-224 | (18), (19) and (21) per vertex and colour below H−1 |
| ColoringPartialOrdering.OrderBlock | geco/mips/graph_coloring/generic.py:261-262 | (20) for one edge and the first m colours |
| ColoringPartialOrdering.OrderBlocks | geco/mips/graph_coloring/generic.py:261-262 | one block per edge |
| ColoringPartialOrdering.LinkConss | geco/mips/graph_coloring/generic.py:307-308 | (14) per vertex and colour: `x[v, c] = 1 − (y[c, v] + z[v, c])` |
| ColoringPartialOrdering.ClashBlock | geco/mips/graph_coloring/generic.py:311-312 | (23) for one edge and every colour |
| ColoringPartialOrdering.ClashBlocks | geco/mips/graph_coloring/generic.py:311-312 | one block per edge |
| ColoringPartialOrdering.StepRowSize | geco/mips/graph_coloring/generic.py:221-224 | three constraints per colour below H−1 |
| ColoringPartialOrdering.BaseCount | geco/mips/graph_coloring/generic.py:216-224 | the base model has 2n + 3(H−1)n constraints |
| ColoringPartialOrdering.OrderCount | geco/mips/tests/test_graph_coloring.py:68-78 | with (20) over m colours: 2n + 3(H−1)n + m·|E| |
| ColoringPartialOrdering.HybridCount | geco/mips/tests/test_graph_coloring.py:81-91 | POP2: 2n + 3(H−1)n + nH + H·|E| |
| ColoringPartialOrdering.YBelow | geco/mips/graph_coloring/generic.py:197-213 | every y and z handle is below the last variable |
| ColoringPartialOrdering.EndsBounded | geco/mips/graph_coloring/generic.py:216-218 | (16) and (17) mention only existing variables |
| ColoringPartialOrdering.StepRowBounded | geco/mips/graph_coloring/generic.py:221-224 | (18), (19) and (21) mention only existing variables |
| ColoringPartialOrdering.BaseBounded | geco/mips/graph_coloring/generic.py:216-224 | the base constraints mention only existing variables |
| ColoringPartialOrdering.OrderBounded | geco/mips/graph_coloring/generic.py:261-262 | POP's constraints mention only existing variables |
| ColoringPartialOrdering.LinkBounded | geco/mips/graph_coloring/generic.py:307-308 | (14) mentions only existing variables |
| ColoringPartialOrdering.ClashBounded | geco/mips/graph_coloring/generic.py:311-312 | (23) mentions only existing variables |
| ColoringPartialOrdering.HybridBounded | geco/mips/graph_coloring/generic.py:291-314 | POP2's constraints mention only existing variables |
| ColoringPartialOrdering.AddBaseVars | geco/mips/graph_coloring/generic.py:197-213 | the y then the z variables appended |
| ColoringPartialOrdering.AddBase | geco/mips/graph_coloring/generic.py:193-228 | _partial_ordering_base_model: the variables, (16)-(19), (21), minimise |
| ColoringPartialOrdering.BaseModel | geco/mips/graph_coloring/generic.py:193-228 | the same on a model without constraints |
| ColoringPartialOrdering.OrderWellFormed | geco/mips/graph_coloring/generic.py:253-264 | well formed with 2nH variables and 2n + 3(H−1)n + m·|E| constraints |
| ColoringPartialOrdering.OrderModel | geco/mips/graph_coloring/generic.py:253-264 | base model plus (20) over the first m colours |
| ColoringPartialOrdering.PartialOrdering | geco/mips/graph_coloring/generic.py:231-264 | POP as written: (20) over colors[:-1]; 2nH variables, 2n + 4n(H−1) constraints on C5 (test_graph_coloring.py:68-78) |
| ColoringPartialOrdering.OrderedPartialOrdering | geco/mips/graph_coloring/generic.py:231-264 | corrected POP: (20) over every colour |
| ColoringPartialOrdering.HybridWellFormed | geco/mips/graph_coloring/generic.py:291-314 | POP2 is well formed with 3nH variables |
| ColoringPartialOrdering.HybridModel | geco/mips/graph_coloring/generic.py:291-314 | the x variables, the base model, (14) and (23) |
| ColoringPartialOrdering.HybridPartialOrdering | geco/mips/graph_coloring/generic.py:267-314 | POP2: 3nH variables and 2n + 3(H−1)n + nH + H·|E| constraints (test_graph_coloring.py:81-91) |
| ColoringPartialOrderingOptimum.EndsBlockMeaning | geco/mips/graph_coloring/generic.py:216-218 | (16) and (17) of v hold exactly as stated |
| ColoringPartialOrderingOptimum.EndsMeaning | geco/mips/graph_coloring/generic.py:216-218 | all of them hold exactly when every vertex meets both |
| ColoringPartialOrderingOptimum.StepBlockMeaning | geco/mips/graph_coloring/generic.py:222-224 | (18), (19), (21) of v and c hold exactly as stated |
| ColoringPartialOrderingOptimum.StepRowMeaning | geco/mips/graph_coloring/generic.py:221-224 | a vertex's row holds exactly when all its colours do |
| ColoringPartialOrderingOptimum.StepsMeaning | geco/mips/graph_coloring/generic.py:221-224 | all rows hold exactly when every vertex's do |
| ColoringPartialOrderingOptimum.BaseMeaning | geco/mips/graph_coloring/generic.py:216-224 | the base constraints hold exactly when (16)-(19) and (21) hold |
| ColoringPartialOrderingOptimum.OrderBlockMeaning | geco/mips/graph_coloring/generic.py:262 | an edge's (20) block holds exactly when each of its colours does |
| ColoringPartialOrderingOptimum.OrderConssMeaning | geco/mips/graph_coloring/generic.py:253-264 | POP's constraints hold exactly when base and (20) hold |
| ColoringPartialOrderingOptimum.LinkConsMeaning | geco/mips/graph_coloring/generic.py:308 | (14) of v and c holds exactly as stated |
| ColoringPartialOrderingOptimum.LinkCellMeaning | geco/mips/graph_coloring/generic.py:307-308 | (14) constraints are in product order |
| ColoringPartialOrderingOptimum.LinksMeaning | geco/mips/graph_coloring/generic.py:307-308 | all (14) hold exactly when every cell does |
| ColoringPartialOrderingOptimum.ClashesMeaning | geco/mips/graph_coloring/generic.py:311-312 | all (23) hold exactly when every edge and colour does |
| ColoringPartialOrderingOptimum.HybridConssMeaning | geco/mips/graph_coloring/generic.py:291-314 | POP2's constraints hold exactly when base, (14) and (23) hold |
| ColoringPartialOrderingOptimum.Levels | geco/mips/graph_coloring/generic.py:221-224 | the colour of each vertex read as the first c with y[c, v] = 0 |
| ColoringPartialOrderingOptimum.ZeroOnwards | geco/mips/graph_coloring/generic.py:222 | by (18), once y[c, v] = 0 it stays 0 |
| ColoringPartialOrderingOptimum.Staircase | geco/mips/graph_coloring/generic.py:222 | y[·, v] is 1 exactly below its first zero |
| ColoringPartialOrderingOptimum.DecodeVertex | geco/mips/graph_coloring/generic.py:216-224 | under (16)-(19), (21) each vertex has a level l with 1 ≤ l < H, at most vertex 0's, y below l and z above l |
| ColoringPartialOrderingOptimum.DecodeBase | geco/mips/graph_coloring/generic.py:216-224 | the levels are graded and y, z match them |
| ColoringPartialOrderingOptimum.MatchesBase | geco/mips/graph_coloring/generic.py:216-224 | conversely y, z matching graded levels meet the base constraints |
| ColoringPartialOrderingOptimum.FirstZeroOf | geco/mips/graph_coloring/generic.py:222 | matching values decode back to the level |
| ColoringPartialOrderingOptimum.LevelsOf | geco/mips/graph_coloring/generic.py:221-224 | decoding an encoding gives the levels back |
| ColoringPartialOrderingOptimum.OrderAtMeaning | geco/mips/graph_coloring/generic.py:262 | (20) for an edge and c holds exactly when not both ends have level c |
| ColoringPartialOrderingOptimum.OrdersMeaning | geco/mips/graph_coloring/generic.py:261-262 | all (20) hold exactly when no edge has both ends on one of the first m levels |
| ColoringPartialOrderingOptimum.LinksMatch | geco/mips/graph_coloring/generic.py:307-308 | (14) holds exactly when x is the level indicator and z[v, 0] = 0 |
| ColoringPartialOrderingOptimum.ClashesMatch | geco/mips/graph_coloring/generic.py:311-312 | (23) holds exactly when no edge has both ends on one level |
| ColoringPartialOrderingOptimum.EncodeYZ | geco/mips/graph_coloring/generic.py:197-213 | graded levels written as y, z values |
| ColoringPartialOrderingOptimum.EncodeX | geco/mips/graph_coloring/generic.py:297-302 | levels written as x values |
| ColoringPartialOrderingOptimum.EncodeYZMatches | geco/mips/graph_coloring/generic.py:197-213 | the encoding matches its levels |
| ColoringPartialOrderingOptimum.EncodeXMatches | geco/mips/graph_coloring/generic.py:297-302 | the x encoding matches its levels |
| ColoringPartialOrderingOptimum.EncodeBinary | geco/mips/graph_coloring/generic.py:197-213 | the encodings are 0/1 |
| ColoringPartialOrderingOptimum.PopObjs | geco/mips/graph_coloring/generic.py:201 | objective 1 on y[c, 0] and 0 elsewhere |
| ColoringPartialOrderingOptimum.YObj | geco/mips/graph_coloring/generic.py:201 | the k-th y variable has objective 1 exactly when it belongs to vertex 0 |
| ColoringPartialOrderingOptimum.PopVarsObjs | geco/mips/graph_coloring/generic.py:197-213 | the variables are binary with those objectives |
| ColoringPartialOrderingOptimum.WindowSum | geco/mips/graph_coloring/generic.py:201 | the objective sums the ones of y[·, 0] |
| ColoringPartialOrderingOptimum.ObjectiveIsValue | geco/mips/graph_coloring/generic.py:201 | the objective is the level of vertex 0 |
| ColoringPartialOrderingOptimum.PartialOrderingShape | geco/mips/graph_coloring/generic.py:231-264 | POP has the positional shape with m = H − 1 |
| ColoringPartialOrderingOptimum.OrderedShape | geco/mips/graph_coloring/generic.py:231-264 | the corrected POP has it with m = H |
| ColoringPartialOrderingOptimum.HybridShapeOf | geco/mips/graph_coloring/generic.py:267-314 | POP2 has its shape |
| ColoringPartialOrderingOptimum.PopFeasibleIff | geco/mips/graph_coloring/generic.py:231-264 | both directions: feasible exactly when 0/1, the length is 2nH, and base and (20) hold |
| ColoringPartialOrderingOptimum.PopDecode | geco/mips/graph_coloring/generic.py:231-264 | a feasible point decodes to graded levels that separate every edge on the first m levels, objective vertex 0's level |
| ColoringPartialOrderingOptimum.PopEncode | geco/mips/graph_coloring/generic.py:231-264 | such levels encode to a feasible point with that objective and decode back |
| ColoringPartialOrderingOptimum.HybridFeasibleIff | geco/mips/graph_coloring/generic.py:267-314 | both directions: feasible exactly when 0/1, the length is 3nH, and base, (14) and (23) hold |
| ColoringPartialOrderingOptimum.HybridDecode | geco/mips/graph_coloring/generic.py:267-314 | a feasible point decodes to a proper graded levelling with x its indicator |
| ColoringPartialOrderingOptimum.HybridEncode | geco/mips/graph_coloring/generic.py:267-314 | such a levelling encodes to a feasible point and decodes back |
| ColoringPartialOrderingOptimum.ChromaticAtMost | geco/mips/graph_coloring/generic.py:231-264 | the chromatic number is at most n |
| ColoringPartialOrderingOptimum.AtLeastChromatic | geco/mips/graph_coloring/generic.py:231-264 | a levelling separating every used level costs at least the chromatic number |
| ColoringPartialOrderingOptimum.BestColouring | geco/mips/graph_coloring/generic.py:231-264 | below H the chromatic number is reached by a proper graded levelling |
| ColoringPartialOrderingOptimum.AllTop | geco/mips/graph_coloring/generic.py:261-262 | every vertex on level H − 1 |
| ColoringPartialOrderingOptimum.AllTopFeasible | geco/mips/graph_coloring/generic.py:261-262 | as written, that levelling meets every (20), whatever the edges |
| ColoringPartialOrderingOptimum.PopOptimum | geco/mips/graph_coloring/generic.py:231-264 | both directions: POP's optimum is min(χ, H − 1) |
| ColoringPartialOrderingOptimum.OrderedOptimum | geco/mips/graph_coloring/generic.py:231-264 | both directions: the corrected POP's optimum is χ, and exists only when χ < H |
| ColoringPartialOrderingOptimum.HybridOptimum | geco/mips/graph_coloring/generic.py:267-314 | both directions: POP2's optimum is χ, and exists only when χ < H |
| ColoringPartialOrderingOptimum.PartialOrderingOptimum | geco/mips/graph_coloring/generic.py:231-264 | the same for partial_ordering on a labelled graph |
| ColoringPartialOrderingOptimum.OrderedPartialOrderingOptimum | geco/mips/graph_coloring/generic.py:231-264 | the same for the corrected POP |
| ColoringPartialOrderingOptimum.HybridPartialOrderingOptimum | geco/mips/graph_coloring/generic.py:267-314 | the same for hybrid_partial_ordering |
| ColoringPartialOrderingOptimum.PartialOrderingCycle5 | geco/mips/tests/test_graph_coloring.py:68-78 | partial_ordering(C5, 5): 50 variables, 90 constraints, optimum 3 |
| ColoringPartialOrderingOptimum.HybridPartialOrderingCycle5 | geco/mips/tests/test_graph_coloring.py:81-91 | hybrid_partial_ordering(C5, 5): 75 variables, 120 constraints, optimum 3 |
| ColoringPartialOrderingOptimum.PartialOrderingEdge2 | geco/mips/graph_coloring/generic.py:261-262 | partial_ordering(K2, 2) has optimum 1 although K2 needs 2 colours |
| ColoringPartialOrderingOptimum.OrderedPartialOrderingEdge2 | geco/mips/graph_coloring/generic.py:261-262 | the corrected model on K2 with H = 2 has no optimum: K2 needs level 2 = H |
| SchedulingParams.RowDraws | geco/mips/scheduling/generic.py:45-49 | the log of one task's randint(lo, 20 + 5i) calls, one per facility |
| SchedulingParams.ProcessingDrawsSnoc | geco/mips/scheduling/generic.py:45-49 | one more task appends its row's draws |
| SchedulingParams.ProcessingDrawsSize | geco/mips/scheduling/generic.py:45-49 | T·F processing-time draws |
| SchedulingParams.ProcessingRow | geco/mips/scheduling/generic.py:45-49 | one task's processing times: F values, entry i in [lo, 20 + 5i], each one logged draw |
| SchedulingParams.ProcessingTimes | geco/mips/scheduling/generic.py:43-49 | T rows of F values, lo = 2 below 22 tasks and 5 from 22 |
| SchedulingParams.Deadlines | geco/mips/scheduling/generic.py:61-64 | T deadlines, each one uniform draw in [βT/4, βT] with β = 20/9 |
| SchedulingParams.GenerateParams | geco/mips/scheduling/generic.py:7-77 | the six parameters in draw order: capacities all 10, one cost value per facility shared by every task, release times all 0, resources in [1, 9] |
| SchedulingParams.ProcessingRowDeterministic | geco/mips/scheduling/generic.py:45-49 | a row is fixed by the raw values it reads |
| SchedulingParams.ProcessingExplainedSplit | geco/mips/scheduling/generic.py:45-49 | the processing draws split into rows read one after another |
| SchedulingParams.ProcessingDeterministic | geco/mips/scheduling/generic.py:43-49 | the processing times are fixed by the raw values |
| SchedulingParams.UniformsDeterministic | geco/mips/scheduling/generic.py:61-64 | the deadlines are fixed by the raw values |
| SchedulingParams.RunsDeterministic | geco/mips/scheduling/generic.py:7-77 | the four runs of draws are fixed by the raw values |
| SchedulingParams.ParamsDeterministic | geco/mips/scheduling/generic.py:7-77 | all six parameters are fixed by the raw values |
| SchedulingParams.ShapeDetermined | geco/mips/scheduling/generic.py:51-59 | capacities, costs and release times are fixed by the cost draws |
| SchedulingParams.SameSeedSameParams | geco/mips/scheduling/generic.py:6-7 | the same seed gives the same six parameters |
| SchedulingParams.HookerParams | geco/mips/scheduling/hooker.py:8-39 | the first five of generate_params' results; the resource draws still advance the sampler |
| SchedulingParams.GridTasks | geco/mips/scheduling/hooker.py:74 | the numbers of tasks 10, 12, …, 22 |
| SchedulingParams.HookerGrid | geco/mips/scheduling/hooker.py:73-79 | one parameter tuple per combination |
| SchedulingParams.HookerGridShape | geco/mips/scheduling/hooker.py:73-79 | 140 tuples (3, n, t, seed) in product order |
| SchedulingParams.SeedsAt | geco/mips/scheduling/hooker.py:76-77 | entry k of the product of the seeds is [k] |
| SchedulingParams.InnerAt | geco/mips/scheduling/hooker.py:75-77 | entry 10b + k of horizons × seeds is [[10, 100][b], k] |
| SchedulingParams.GridPoint | geco/mips/scheduling/hooker.py:77 | combination (2a + b)·10 + k is [10 + 2a, [10, 100][b], k] |
| SchedulingHooker.XH | geco/mips/scheduling.py:44-48 | the handle of x[j, i, t]: after the T L variables, in product order |
| SchedulingHooker.LVars | geco/mips/scheduling.py:37-40 | T binary variables L_j of objective 1 |
| SchedulingHooker.XRow | geco/mips/scheduling.py:44-48 | the N variables x[j, i, ·] |
| SchedulingHooker.XTaskRows | geco/mips/scheduling.py:44-48 | the F rows of task j |
| SchedulingHooker.XTasks | geco/mips/scheduling.py:44-48 | every task's variables, task after task |
| SchedulingHooker.XTaskAt | geco/mips/scheduling.py:44-48 | x[j, i, t] sits at entry i·N + t of task j's block |
| SchedulingHooker.XVarsCover | geco/mips/scheduling.py:44-48 | every x entry is some x[j, i, t] |
| SchedulingHooker.XHInjective | geco/mips/scheduling.py:44-48 | equal handles name equal triples |
| SchedulingHooker.XHDistinct | geco/mips/scheduling.py:44-48 | distinct triples have distinct handles |
| SchedulingHooker.HookerVarsAt | geco/mips/scheduling.py:37-48 | T + T·F·N variables: L_j at j and x[j, i, t] at its handle |
| SchedulingHooker.XAt | geco/mips/scheduling.py:44-48 | x[j, i, t] is at its handle |
| SchedulingHooker.HookerVarsBinary | geco/mips/scheduling.py:39-47 | every variable is named and binary |
| SchedulingHooker.LateTerms | geco/mips/scheduling.py:55-57 | the terms −(t + p[j, i])·x[j, i, t] of constraint (a) |
| SchedulingHooker.LateRow | geco/mips/scheduling.py:52-58 | constraint (a) of task j at every t |
| SchedulingHooker.LateBlocks | geco/mips/scheduling.py:52-58 | constraint (a) for all tasks, task after task |
| SchedulingHooker.HandleRow | geco/mips/scheduling.py:62-67 | the handles x[j, i, ·] |
| SchedulingHooker.HandleRows | geco/mips/scheduling.py:62-67 | the handles of task j, row by row |
| SchedulingHooker.AssignConss | geco/mips/scheduling.py:61-68 | constraint (b), one per task |
| SchedulingHooker.Window | geco/mips/scheduling.py:76-77 | the times t' in range(t − p + 1, t + 1) with x[j, i, t'] present: those in 0..t after t − p |
| SchedulingHooker.WindowHandles | geco/mips/scheduling.py:74-78 | the handles of that window |
| SchedulingHooker.LoadRows | geco/mips/scheduling.py:72-78 | the c[j, i]-weighted terms of constraint (c), task by task |
| SchedulingHooker.CapacityRow | geco/mips/scheduling.py:71-79 | constraint (c) of facility i at every t |
| SchedulingHooker.CapacityBlocks | geco/mips/scheduling.py:71-79 | constraint (c) for all facilities |
| SchedulingHooker.FixRow | geco/mips/scheduling.py:82-86 | constraint (d) of (i, j): `x[j, i, t] = 0` for t < r[j] or t > N − p[j, i], at most one per t |
| SchedulingHooker.FixRows | geco/mips/scheduling.py:82-86 | the (d) rows of facility i |
| SchedulingHooker.FixBlocks | geco/mips/scheduling.py:82-86 | constraint (d) in product order |
| SchedulingHooker.Build | geco/mips/scheduling.py:33-90 | fails when r is empty (min raises) or min(r) ≠ 0 (the assert), otherwise the model with d[j] subtracted k times in (a) |
| SchedulingHooker.LateTasksFormulation | geco/mips/scheduling.py:11-90 | as written: the same failures, d[j] subtracted F times inside the quicksum |
| SchedulingHooker.CorrectedLateTasksFormulation | geco/mips/scheduling.py:11-90 | corrected: the same failures, d[j] subtracted once |
| SchedulingHooker.HookerVarsSize | geco/mips/scheduling.py:37-48 | T + T·F·N variables |
| SchedulingHooker.HookerVarCount | geco/mips/scheduling.py:37-48 | F·T·N + T variables |
| SchedulingHooker.FixCount | geco/mips/scheduling.py:82-86 | at most F·T·N fixing constraints |
| SchedulingHooker.HookerConssSize | geco/mips/scheduling.py:51-86 | T·N + T + F·N constraints plus those of (d) |
| SchedulingHooker.HookerConsCount | geco/mips/scheduling.py:51-86 | between T·N + T + F·N and that plus F·T·N |
| SchedulingHooker.TaskHandlesAt | geco/mips/scheduling.py:62-67 | (b)'s handles of task j in product order |
| SchedulingHooker.AssignMeaning | geco/mips/scheduling.py:68 | (b) holds exactly when task j starts exactly once |
| SchedulingHooker.FixRowMeaning | geco/mips/scheduling.py:85-86 | (d) holds exactly when no start is outside [r[j], N − p[j, i]] |
| SchedulingHooker.LoadValue | geco/mips/scheduling.py:73-78 | the value of (c)'s sum is the load on i at t |
| SchedulingHooker.CapacityMeaning | geco/mips/scheduling.py:79 | (c) holds exactly when the load is at most C[i] |
| SchedulingHooker.LateValue | geco/mips/scheduling.py:53-58 | the value of (a) is N·L_j plus the (t + p)x terms, before the deadline terms |
| SchedulingHooker.LateTermsBelow | geco/mips/scheduling.py:56 | a started x[j, i, t] adds at most −(t + p[j, i]) |
| SchedulingHooker.LateForced | geco/mips/scheduling.py:52-58 | if task j starts on i at t and t + p[j, i] exceeds k·d[j], (a) forces L_j = 1 |
| SchedulingHookerExample.StartFirst | geco/mips/scheduling.py:44-48 | the point that starts task 0 on facility 0 at time 0 and leaves L_0 = 0 |
| SchedulingHookerExample.LateExampleFits | geco/mips/scheduling.py:52-58 | a one-task instance whose processing time exceeds d but not F·d |
| SchedulingHookerExample.FirstTermsValue | geco/mips/scheduling.py:56 | that point gives (a) the value −p[0, 0] before deadlines |
| SchedulingHookerExample.AsWrittenLateUnforced | geco/mips/scheduling.py:52-58 | as written, when p ≤ F·d, a late task 0 meets (a) with L_0 = 0 |
| SchedulingHookerExample.CorrectedLateForced | geco/mips/scheduling.py:52-58 | with d subtracted once, the same point breaks (a) whenever p > d |
| SchedulingHeinz.XH | geco/mips/scheduling.py:160-163 | the handle j·F + k of x[j, k], below T·F |
| SchedulingHeinz.XRow | geco/mips/scheduling.py:161-163 | task j's F variables x[j, k] of objective c[j, k] |
| SchedulingHeinz.XRows | geco/mips/scheduling.py:160-163 | the x variables, task after task |
| SchedulingHeinz.Admitted | geco/mips/scheduling.py:170 | the time steps t with R[j] ≤ t ≤ d[j] − p[j, k] |
| SchedulingHeinz.YRow | geco/mips/scheduling.py:167-172 | one key (j, k, t) per admitted time step |
| SchedulingHeinz.YTaskRows | geco/mips/scheduling.py:167-172 | the keys of task j, facility by facility |
| SchedulingHeinz.YRows | geco/mips/scheduling.py:167-172 | the keys of every task in product order |
| SchedulingHeinz.YVars | geco/mips/scheduling.py:171 | one binary y variable of objective 0 per key |
| SchedulingHeinz.YH | geco/mips/scheduling.py:166-172 | the handle of an existing y[j, k, t], after the x variables |
| SchedulingHeinz.XRowHandles | geco/mips/scheduling.py:177 | the handles x[j, 0..F−1] |
| SchedulingHeinz.AssignConss | geco/mips/scheduling.py:176-177 | constraint (12), one per task |
| SchedulingHeinz.Below | geco/mips/scheduling.py:183 | the t of a range with t < n |
| SchedulingHeinz.StartHandles | geco/mips/scheduling.py:182-185 | the handles y[j, k, t] of the listed start times |
| SchedulingHeinz.StartRow | geco/mips/scheduling.py:180-186 | constraint (13) of task j on every facility |
| SchedulingHeinz.StartBlocks | geco/mips/scheduling.py:180-186 | constraint (13) in product order |
| SchedulingHeinz.Present | geco/mips/scheduling.py:194-195 | the y handles of a window that exist |
| SchedulingHeinz.UseRows | geco/mips/scheduling.py:191-196 | the r[j, k]-weighted terms of constraint (14), task by task |
| SchedulingHeinz.CapacityRow | geco/mips/scheduling.py:189-198 | constraint (14) of facility k at every time step |
| SchedulingHeinz.CapacityBlocks | geco/mips/scheduling.py:189-198 | constraint (14) in product order |
| SchedulingHeinz.EpsilonRow | geco/mips/scheduling.py:201 | the pairs (t1, t2) of one release time with every larger deadline |
| SchedulingHeinz.EpsilonRows | geco/mips/scheduling.py:201 | the filtered product of R and d.values(), release by release |
| SchedulingHeinz.EnergyTerms | geco/mips/scheduling.py:204-208 | the terms p·r·x[j, k] of every job inside [t1, t2] |
| SchedulingHeinz.EnergyRow | geco/mips/scheduling.py:202-210 | constraint (15) of facility k for every pair |
| SchedulingHeinz.EnergyBlocks | geco/mips/scheduling.py:202-210 | constraint (15) in product order |
| SchedulingHeinz.XVarsBinary | geco/mips/scheduling.py:162 | every x variable is named and binary |
| SchedulingHeinz.YVarsBinary | geco/mips/scheduling.py:171 | every y variable is named and binary |
| SchedulingHeinz.HeinzVarsBinary | geco/mips/scheduling.py:160-172 | every variable is named and binary |
| SchedulingHeinz.Build | geco/mips/scheduling.py:156-212 | fails on an empty R or d (min/max raise) and when (13) reads a missing y key (KeyError); otherwise the model |
| SchedulingHeinz.HeinzFormulation | geco/mips/scheduling.py:136-212 | as written: (13) ranges over range(R[j], int(d[j]) − p[j, k]) filtered by t < len(time_steps) |
| SchedulingHeinz.CorrectedHeinzFormulation | geco/mips/scheduling.py:136-212 | corrected: (13) over the y keys that exist; never fails on a missing key |
| SchedulingHeinz.AdmittedMember | geco/mips/scheduling.py:170 | a time step is admitted exactly when it is in range and R[j] ≤ t ≤ d[j] − p[j, k] |
| SchedulingHeinz.AdmittedDistinct | geco/mips/scheduling.py:167-172 | admitted time steps are distinct |
| SchedulingHeinz.YKeysMember | geco/mips/scheduling.py:167-172 | y[j, k, t] exists exactly when j, k are in range and t is an admitted time step |
| SchedulingHeinz.YTaskDistinct | geco/mips/scheduling.py:167-172 | a task's keys are distinct and its own |
| SchedulingHeinz.YKeysDistinct | geco/mips/scheduling.py:167-172 | no key gets two variables |
| SchedulingHeinz.ExistingKeysPresent | geco/mips/scheduling.py:180-186 | the corrected (13) reads only existing keys |
| SchedulingHeinz.BelowMember | geco/mips/scheduling.py:183 | the filter keeps exactly the t below n |
| SchedulingHeinz.NoMissingKey | geco/mips/scheduling.py:180-186 | with non-negative processing times the as-written (13) reads only existing keys |
| SchedulingHeinz.StartKeyPresent | geco/mips/scheduling.py:183 | each start time it reads has a y variable |
| SchedulingHeinz.XVarsSize | geco/mips/scheduling.py:160-163 | T·F x variables |
| SchedulingHeinz.YKeysBound | geco/mips/scheduling.py:166-172 | at most T·F·|time steps| y variables |
| SchedulingHeinz.HeinzVarCount | geco/mips/scheduling.py:160-172 | F·T + |keys| variables, at most F·T + F·T·|time steps| |
| SchedulingHeinz.EpsilonBound | geco/mips/scheduling.py:201 | at most |R|·|d| pairs |
| SchedulingHeinz.HeinzConsCount | geco/mips/scheduling.py:176-210 | T + F·T + |time steps|·F + |pairs|·F constraints |
| SchedulingHeinz.AssignMeaning | geco/mips/scheduling.py:177 | (12) holds exactly when task j runs on exactly one facility |
| SchedulingHeinz.StartMeaning | geco/mips/scheduling.py:181-186 | (13) holds exactly when the chosen starts of (j, k) number x[j, k] |
| SchedulingHeinz.UsageValue | geco/mips/scheduling.py:191-196 | the value of (14)'s sum is the resource use on k at t |
| SchedulingHeinz.CapacityMeaning | geco/mips/scheduling.py:190-198 | (14) holds exactly when that use is at most C[k] |
| SchedulingHeinz.EnergyValue | geco/mips/scheduling.py:204-208 | the value of (15)'s sum is the energy of every job inside [t1, t2] |
| SchedulingHeinz.EnergyMeaning | geco/mips/scheduling.py:203-210 | (15) holds exactly when that energy is at most C[k]·(t2 − t1) |
| SchedulingHeinz.EpsilonRowMember | geco/mips/scheduling.py:201 | the pairs of t1 are exactly (t1, t2) with t2 a deadline above t1 |
| SchedulingHeinz.EpsilonMember | geco/mips/scheduling.py:201 | the pairs are exactly (t1, t2) with t1 a release time below the deadline t2 |
| SchedulingHeinz.AssignConsAt | geco/mips/scheduling.py:176-177 | (12) of task j is constraint j |
| SchedulingHeinz.StartBlockCell | geco/mips/scheduling.py:180-186 | (13) of (j, k) sits at j·F + k of its block |
| SchedulingHeinz.StartConsAt | geco/mips/scheduling.py:180-186 | and at T + j·F + k of the model |
| SchedulingHeinz.FeasibleParts | geco/mips/scheduling.py:156-212 | a feasible point is 0/1 and meets (12) and (13) of task j |
| SchedulingHeinz.AssignPart | geco/mips/scheduling.py:176-177 | all (12) hold exactly when every task is assigned once |
| SchedulingHeinz.StartPart | geco/mips/scheduling.py:180-186 | all (13) hold exactly when every (j, k) has x[j, k] chosen starts |
| SchedulingHeinz.CapacityPart | geco/mips/scheduling.py:189-198 | all (14) hold exactly when every facility is within capacity at every step |
| SchedulingHeinz.EnergyPart | geco/mips/scheduling.py:201-210 | all (15) hold exactly when every facility is within its energy room for every pair |
| SchedulingHeinz.HeinzBounds | geco/mips/scheduling.py:160-172 | the bounds hold exactly when the point is 0/1 |
| SchedulingHeinz.ConssPart | geco/mips/scheduling.py:176-210 | all constraints hold exactly when the four conditions do |
| SchedulingHeinz.FeasibleIffSchedule | geco/mips/scheduling.py:156-212 | both directions: feasible exactly when the point is a schedule: assigned, started as often as assigned, within capacity and energy room |
| SchedulingHeinzExample.OnesAt | geco/mips/scheduling.py:160-172 | the 0/1 point with ones at two handles |
| SchedulingHeinzExample.BelowNone | geco/mips/scheduling.py:183 | a range starting at or above n keeps nothing |
| SchedulingHeinzExample.LateReleaseNoStarts | geco/mips/scheduling.py:183 | as written, a task released at or after len(time_steps) has no start time in (13) |
| SchedulingHeinzExample.AsWrittenLateReleaseInfeasible | geco/mips/scheduling.py:176-186 | then (12) and (13) clash and the model is infeasible |
| SchedulingHeinzExample.YHDiffer | geco/mips/scheduling.py:166-172 | distinct keys have distinct handles |
| SchedulingHeinzExample.XHDiffer | geco/mips/scheduling.py:160-163 | distinct (j, k) have distinct handles |
| SchedulingHeinzExample.OtherStarts | geco/mips/scheduling.py:182-185 | a point starting only (j, k) at t starts no other (j', k') |
| SchedulingHeinzExample.OwnStarts | geco/mips/scheduling.py:182-185 | it starts (j, k) once |
| SchedulingHeinzExample.StartOnlyStarts | geco/mips/scheduling.py:180-186 | and so (13) sees for every (j', k') as many starts as x[j', k'] |
| SchedulingHeinzExample.StartOnlyAssigns | geco/mips/scheduling.py:177 | that point assigns task j once |
| SchedulingHeinzExample.CorrectedStartsMet | geco/mips/scheduling.py:176-186 | in the corrected model it meets (12) and (13) |
| SchedulingHeinzExample.ExampleFacts | geco/mips/scheduling.py:157 | the one-task example: time steps 5..9, R[0] = 5 ≥ their number 5, start 5 admitted, one pair (5, 10) |
| SchedulingHeinzExample.AsWrittenExampleInfeasible | geco/mips/scheduling.py:136-212 | as written, the example has no feasible point |
| SchedulingHeinzExample.PicksAtMost | geco/mips/scheduling.py:192 | a count of handles is at most their number |
| SchedulingHeinzExample.ExampleWithinCapacity | geco/mips/scheduling.py:189-198 | the example's capacity never binds |
| SchedulingHeinzExample.ExampleWithinRoom | geco/mips/scheduling.py:201-210 | nor does its energy room |
| SchedulingHeinzExample.OneTaskAssigned | geco/mips/scheduling.py:176-177 | with one task, assigning it once meets all of (12) |
| SchedulingHeinzExample.CorrectedExampleFeasible | geco/mips/scheduling.py:136-212 | the corrected model has the feasible point that starts task 0 on facility 0 at 5 |
| ParameterGrid.Prepend | geco/mips/utilities/generic.py:57 | prefixing every combination with one value keeps their number and puts the value in front of each |
| ParameterGrid.PrefixedAt | geco/mips/utilities/generic.py:57 | the combinations that start with the a-th value of the first list sit in one block, in the order of the remaining combinations |
| ParameterGrid.PrefixedEntry | geco/mips/utilities/generic.py:57 | every position of the expanded list is some value of the first list followed by some combination of the rest, at the block offset of that value |
| ParameterGrid.ProductOrder | geco/mips/utilities/generic.py:57 | `itertools.product` order: the first list varies slowest and the last fastest |
| ParameterGrid.ProductSize | geco/mips/utilities/generic.py:57 | the product has exactly the product of the list lengths as its number of combinations |
| ParameterGrid.ProductMembers | geco/mips/utilities/generic.py:57 | every combination takes, for each list, one value of that list |
| ParameterGrid.ProductComplete | geco/mips/utilities/generic.py:57 | every choice of one value per list occurs in the product |
| ParameterGrid.ProductEmpty | geco/mips/utilities/generic.py:57 | an empty candidate list makes the product empty |
| ParameterGrid.PrefixedNothing | geco/mips/utilities/generic.py:57 | prefixing no combinations gives none |
| ParameterGrid.Bind | geco/mips/utilities/generic.py:59 | the keyword dictionary has exactly the parameter names as keys and binds the i-th name to the i-th value |
| ParameterGrid.ExpandParameters | geco/mips/utilities/generic.py:41-59 | exactly ∏ len(list) results, the q-th being the function applied to the q-th combination of the product bound to the names |
| ParameterGrid.ExpandBindings | geco/mips/utilities/generic.py:56-59 | each call binds every name to a value from its own list, and every such binding is made by some call |
| ParameterGrid.ExpandEmpty | geco/mips/utilities/generic.py:57-59 | an empty candidate list yields no result at all |
| ParameterGrid.Generate | geco/generator.py:4-21 | the first `count` instances of the endless generator: each is the generating function applied to the sampler state the previous instances left |
| ParameterGrid.GenerateN | geco/generator.py:24-43 | exactly n pairs with indices 0 .. n-1 ascending, the i-th instance being produced from the state after i earlier calls on the same sampler |
| ParameterGrid.StateAfterAdd | geco/generator.py:42-43 | running j calls and then k more leaves the sampler where j + k calls would |
| ParameterGrid.GeneratedAfter | geco/generator.py:42-43 | the k-th instance after n earlier calls is the (n + k)-th instance from the start |
| Naming.DigitChar | geco/mips/utilities/naming.py:8 | a decimal digit is written as the character whose code is `'0'` plus the digit |
| Naming.NatToString | geco/mips/utilities/naming.py:8 | the decimal form of a natural number is a non-empty string of digits |
| Naming.NatRoundTrip | geco/mips/utilities/naming.py:8 | reading the digits back gives the number |
| Naming.IntToString | geco/mips/utilities/naming.py:8 | the decimal form of an integer starts with `-` exactly when it is negative and is otherwise all digits |
| Naming.IntRoundTrip | geco/mips/utilities/naming.py:8 | parsing the decimal form gives the integer back |
| Naming.IntToStringInjective | geco/mips/utilities/naming.py:8 | two integers have the same decimal form if and only if they are equal |
| Naming.IndexOf | geco/mips/utilities/naming.py:8 | the position of the first occurrence of a character, or the length when there is none |
| Naming.IndexOfAfterPrefix | geco/mips/utilities/naming.py:8 | the first comma of "a,b" is the one after a, since a has no comma |
| Naming.PairRoundTrip | geco/mips/utilities/naming.py:8 | the "(a,b)" format parses back into the pair (a, b) |
| Naming.EdgeNameRoundTrip | geco/mips/utilities/naming.py:1-8 | `undirected_edge_name(u, v)` is "(min,max)": it parses back to the smaller end then the larger |
| Naming.EdgeNameSymmetric | geco/mips/utilities/naming.py:6-7 | `undirected_edge_name(u, v) == undirected_edge_name(v, u)` |
| Naming.EdgeNameInjective | geco/mips/utilities/naming.py:1-8 | two edges get the same name if and only if they join the same unordered pair |
| Rand.RandIntOf | geco/mips/set_cover.py:23 | `randint(lo, hi)` lies in [lo, hi], both ends included |
| Rand.RandomOf | geco/mips/set_cover/sun.py:24 | `random()` lies in [0, 1) |
| Rand.UniformOf | geco/mips/scheduling/generic.py:64 | `uniform(a, b)` lies between a and b whichever is larger |
| Rand.PickFrom | geco/mips/set_cover.py:28 | the k values drawn without replacement form a sub-multiset of the pool |
| Rand.SubMultisetDistinct | geco/mips/set_cover.py:28 | drawing without replacement from distinct values gives distinct values |
| Rand.SampleOf | geco/mips/set_cover.py:28 | `sample(range(n), k)` gives k distinct values below n |
| Rand.ChoiceOf | geco/graphs/biqmac.py:51 | `choice(options)` is one of the options |
| Rand.SignOf | geco/graphs/biqmac.py:214 | `choices([1, -1], weights=[plus, minus])` is ±1, and never the side whose weight is 0 |
| Rand.NpChoicesOf | geco/mips/set_cover/gasse.py:82 | numpy `choice(n, size)` gives `size` values below n |
| Rand.NpRandIntsOf | geco/mips/set_cover/gasse.py:111 | numpy `randint(high, size)` gives `size` values in [0, high) |
| Rand.SameRawSameDraw | geco/mips/set_cover.py:23-28 | two draws with the same request from the same raw numbers give the same value: the generators are deterministic in the seed |
| Rand.NewDrawsExplained | geco/mips/set_cover.py:23-28 | the draws made after a prefix of the sampler's history are explained by the stream from that position on |
| Rand.IntsDeterministic | geco/mips/set_cover.py:23 | two runs of the same `randint` comprehension from the same sampler position draw the same list |
| Rand.ExplainedSplit | geco/mips/set_cover.py:23-28 | a run of draws splits into its first n draws and the draws from position n on |
| Rand.Sampler.FromSeed | geco/generator.py:4 | a sampler made from an integer seed has drawn nothing and follows that seed's stream |
| Rand.Sampler.RandInt | geco/mips/set_cover.py:23 | one `randint(lo, hi)` draw in [lo, hi], appended to the sampler's history |
| Rand.Sampler.Sample | geco/mips/set_cover.py:28 | one `sample(range(n), k)` draw of k distinct values below n, appended to the history |
| Rand.Sampler.Random | geco/mips/set_cover/sun.py:24 | one `random()` draw in [0, 1), appended to the history |
| Rand.Sampler.Uniform | geco/mips/scheduling/generic.py:64 | one `uniform(a, b)` draw between a and b, appended to the history |
| Rand.Sampler.Choice | geco/graphs/biqmac.py:51 | one `choice` draw among the options, appended to the history |
| Rand.Sampler.WeightedSign | geco/graphs/biqmac.py:214 | one weighted ±1 draw that never picks a side of weight 0, appended to the history |
| Rand.Sampler.NpChoices | geco/mips/set_cover/gasse.py:82 | one numpy `choice(n, size)` draw of `size` values below n, appended to the history |
| Rand.Sampler.NpChoiceDistinct | geco/mips/set_cover/gasse.py:96 | one numpy `choice(pool, size, replace=False)` draw: a sub-multiset of the pool, appended to the history |
| Rand.Sampler.NpPermutation | geco/mips/set_cover/gasse.py:89 | one numpy `permutation(n)` draw: n distinct values below n, appended to the history |
| Rand.Sampler.NpRandInts | geco/mips/set_cover/gasse.py:111 | one numpy `randint(high, size)` draw of `size` values in [0, high), appended to the history |
| Rand.RandInts | geco/mips/set_cover.py:23 | `[seed.randint(lo, hi) for _ in range(count)]`: count values in [lo, hi], logged as count consecutive draws |
| Rand.RandomsDeterministic | geco/mips/facility_location.py:99 | two runs of the same `random()` comprehension from the same position draw the same list |
| Rand.Randoms | geco/mips/facility_location.py:99 | `[seed.random() for _ in range(count)]`: count values in [0, 1), logged as count consecutive draws |
| Rand.IntDraws | geco/mips/set_cover.py:23 | the history of a `randint` comprehension is determined by its values |
| Rand.RandomDraws | geco/mips/facility_location.py:99 | the history of a `random()` comprehension is determined by its values |
| Rand.IntsDrawnIs | geco/mips/set_cover.py:23 | a history that explains a `randint` comprehension is exactly its draw list |
| Rand.RandomsDrawnIs | geco/mips/facility_location.py:99 | a history that explains a `random()` comprehension is exactly its draw list |
| Rand.ExplainedConcat | geco/mips/set_cover.py:23-28 | the draws of two consecutive comprehensions are explained by consecutive parts of the stream |
| Rand.ExplainedParts | geco/mips/production_planning/tang.py:72-76 | the same for four consecutive parts |
| Rand.RowsDrawnShape | geco/mips/scheduling/generic.py:45-49 | a table drawn row by row has `width` entries per row and `width` draws per row |
| Rand.RowsDeterministic | geco/mips/scheduling/generic.py:45-49 | two runs of the same row-by-row table from the same position draw the same table |
| Rand.RandRows | geco/mips/scheduling/generic.py:66-68 | `count` rows of `width` values in [lo, hi], drawn row by row |
| Rand.PermutationCovers | geco/mips/set_cover/gasse.py:89 | a permutation of range(n) contains every value below n |
| Combinations.Row | geco/mips/max_cut/generic.py:51 | the pairs (i, j) with i < j < n in ascending j |
| Combinations.PairsFrom | geco/mips/max_cut/generic.py:51 | the pairs whose first element is at least i are increasing and below n |
| Combinations.Pairs | geco/mips/max_cut/generic.py:51 | `itertools.combinations(range(n), 2)`: every pair is increasing and below n |
| Combinations.Lift | geco/mips/max_cut/generic.py:63 | putting i in front of each pair keeps their number and order |
| Combinations.TriplesFrom | geco/mips/max_cut/generic.py:63 | the triples whose first element is at least i are increasing and below n |
| Combinations.Triples | geco/mips/max_cut/generic.py:63 | `itertools.combinations(range(n), 3)`: every triple is increasing and below n |
| Combinations.PairsFromCount | geco/mips/max_cut/generic.py:51 | there are C(n - i, 2) pairs from i on |
| Combinations.PairsCount | geco/mips/max_cut/generic.py:51 | there are C(n, 2) pairs |
| Combinations.PairsFromMembers | geco/mips/max_cut/generic.py:51 | both directions: a pair occurs from i on exactly when i <= a < b < n |
| Combinations.PairsMembers | geco/mips/max_cut/generic.py:51 | both directions: a pair occurs exactly when a < b < n |
| Combinations.PairIndexFromCorrect | geco/mips/max_cut/generic.py:51 | the closed-form index of (a, b) among the pairs from i on holds (a, b) |
| Combinations.PairIndexFromOf | geco/mips/max_cut/generic.py:51 | the closed-form index of the k-th pair from i on is k |
| Combinations.PairIndexCorrect | geco/mips/max_cut/generic.py:51 | the pair at the closed-form index of (a, b) is (a, b) |
| Combinations.PairIndexOf | geco/mips/max_cut/generic.py:51 | the closed-form index of the k-th pair is k, so every pair occurs once |
| Combinations.TriplesFromCount | geco/mips/max_cut/generic.py:63 | there are C(n - i, 3) triples from i on |
| Combinations.TriplesCount | geco/mips/max_cut/generic.py:63 | there are C(n, 3) triples |
| Combinations.LiftMembers | geco/mips/max_cut/generic.py:63 | both directions: a triple is in the lifted list exactly when it starts with i and its tail is one of the pairs |
| Combinations.TriplesFromHas | geco/mips/max_cut/generic.py:63 | every increasing triple from i on below n occurs |
| Combinations.TriplesFromMembers | geco/mips/max_cut/generic.py:63 | both directions: a triple occurs from i on exactly when i <= a < b < c < n |
| Combinations.TriplesMembers | geco/mips/max_cut/generic.py:63 | both directions: a triple occurs exactly when a < b < c < n |
| Graphs.Neighbours | geco/mips/independent_set/generic.py:68 | both directions: v is a neighbour of u exactly when v is a node joined to u by an edge |
| Graphs.Relabel | geco/mips/independent_set/generic.py:25 | `convert_node_labels_to_integers`: n nodes numbered by position, and the k-th edge joins the positions of the k-th labelled edge's ends |
| Graphs.RelabelIsGraph | geco/mips/independent_set/generic.py:25 | relabelling gives a simple graph whose edge ends are below n |
| Graphs.RelabelAdjacency | geco/mips/independent_set/generic.py:25 | both directions: positions i and j are joined exactly when the labels at i and j are |
| Graphs.RelabelIdentity | geco/mips/independent_set/generic.py:102 | a graph already labelled 0 .. n-1 is unchanged by relabelling |
| Graphs.CompleteIsLabelled | geco/mips/tests/test_independent_set.py:13-15 | `complete_graph(n)` relabels to the graph whose edges are all pairs i < j < n |
| Graphs.CompleteAdjacent | geco/mips/tests/test_independent_set.py:13-15 | any two distinct nodes of the complete graph are adjacent |
| Graphs.Insert | geco/mips/independent_set/generic.py:63 | inserting a node into a degree-sorted list adds exactly that node |
| Graphs.SortByDegree | geco/mips/independent_set/generic.py:63 | `sorted(nodes, key=-degree)` is a permutation of the nodes |
| Graphs.InsertSorted | geco/mips/independent_set/generic.py:63 | insertion keeps the list in descending degree order |
| Graphs.SortByDegreeSorted | geco/mips/independent_set/generic.py:63-69 | the sorted list is in descending degree order and a permutation of its input |
| Graphs.Cycle5Relabel | geco/mips/tests/test_graph_coloring.py:15 | `cycle_graph(5)` relabels to the 5-cycle 0-1-2-3-4-0 |
| Mip.QuicksumKeys | geco/mips/set_cover/generic.py:31 | `quicksum` has a coefficient for exactly the variables it sums |
| Mip.QuicksumUnit | geco/mips/set_cover/generic.py:31 | a quicksum of variables gives each variable its multiplicity as coefficient |
| Mip.UnitSumOfSet | geco/mips/set_cover/generic.py:31 | a quicksum over a set of distinct variables is the 0/1 indicator of the set |
| Mip.EvalQuicksum | geco/mips/set_cover/generic.py:31 | evaluating a quicksum at an assignment is the sum of its terms' values |
| Mip.EvalIndicator | geco/mips/set_cover/generic.py:31 | at a 0/1 assignment the indicator of a set evaluates to the number of its chosen variables |
| Mip.EvalUnitTerms | geco/mips/set_cover/generic.py:31 | at a 0/1 assignment a quicksum of variables counts the chosen ones |
| Mip.TermsScaled | geco/mips/knapsack/generic.py:30-32 | a sum with one common coefficient is the coefficient times the number of chosen variables |
| Mip.EvalLinear | geco/mips/knapsack/generic.py:30-32 | a weighted quicksum over consecutive variables evaluates to the dot product |
| Mip.LinearKeys | geco/mips/knapsack/generic.py:30-32 | both directions: a weighted quicksum over consecutive variables mentions exactly those variables |
| Mip.LinearSum | geco/mips/knapsack/generic.py:30-32 | the loop that builds the weighted quicksum term by term ends with that quicksum |
| Mip.AddVars | geco/mips/set_cover/generic.py:24-27 | `addVar` calls append their variables in order and change nothing else |
| Mip.AddConss | geco/mips/set_cover/generic.py:30-31 | `addCons` calls append their constraints in order and change nothing else |
| Mip.AddBlocks | geco/mips/set_cover/generic.py:30-31 | adding one block of constraints per loop step appends the blocks in order |
| Mip.SatisfiesAllAppend | geco/mips/set_cover/generic.py:30-31 | both directions: an assignment satisfies two appended constraint lists exactly when it satisfies each |
| Mip.SatisfiesFlatten | geco/mips/set_cover/generic.py:30-31 | both directions: an assignment satisfies the appended blocks exactly when it satisfies every block |
| Mip.FlattenSize | geco/mips/set_cover/generic.py:30-31 | blocks of c constraints each give c times the number of blocks |
| Mip.OptimumUnique | geco/mips/tests/test_set_cover.py:15-19 | a model has at most one optimal objective value |
| Mip.BinaryBounds | geco/mips/set_cover/generic.py:25 | both directions: a binary variable's bounds admit exactly 0 and 1 |
| NxGraph.Find | geco/graphs/lavrov_graph.py:29-32 | the position of the first edge joining a and b in either orientation, or the edge count when there is none |
| NxGraph.Graph.constructor | geco/graphs/chimera.py:29 | `nx.Graph()` has no nodes and no edges |
| NxGraph.Graph.AddNode | geco/graphs/chimera.py:35 | `add_node` appends a node not yet present and leaves the edges alone |
| NxGraph.Graph.AddNodesFrom | geco/graphs/lavrov_graph.py:26 | `add_nodes_from` adds the nodes one after another |
| NxGraph.Graph.AddEdge | geco/graphs/chimera.py:42-46 | `add_edge` adds missing ends as nodes, and either appends a new edge or updates the weight of the existing one in place |
| NxGraph.Graph.RemoveEdge | geco/graphs/biqmac.py:44 | `remove_edge` drops the one edge joining the pair and keeps the nodes |
| NxGraph.AddedSimple | geco/graphs/chimera.py:42-46 | adding an edge never creates a parallel edge |
| NxGraph.RemovedSimple | geco/graphs/biqmac.py:44 | removing an edge keeps the graph simple |
| NxGraph.AddedHas | geco/graphs/chimera.py:42-46 | after `add_edge(a, b)` the pair is joined, and every pair joined before still is |
| NxGraph.AddedFresh | geco/graphs/chimera.py:42-46 | adding a pair not yet joined appends exactly that edge |
| NxGraph.AddedFrom | geco/graphs/chimera.py:42-46 | every edge after `add_edge` was there before or joins the added pair with its new weight |
| NxGraph.AddAllFresh | geco/graphs/lavrov_graph.py:28-32 | adding a list of pairs that are all different gives exactly that list of edges |
| NxGraph.AddAllHas | geco/graphs/lavrov_graph.py:28-32 | every pair added at some point is an edge of the result |
| NxGraph.NodesOfSet | geco/graphs/lavrov_graph.py:26-32 | the nodes are the explicitly added ones together with the ends of the added edges |
| NxGraph.NodesOfDistinct | geco/graphs/lavrov_graph.py:26-32 | the node list never repeats a node |
| NxGraph.KeptMember | geco/graphs/biqmac.py:253-259 | every kept edge is the i-th drawn pair with the i-th drawn weight, and that weight is non-zero unless zeros are kept |
| NxGraph.KeptComplete | geco/graphs/biqmac.py:253-259 | every drawn pair whose weight is non-zero, or every pair when zeros are kept, is kept |
| NxGraph.NonzeroKept | geco/graphs/biqmac.py:253-259 | with zero edges dropped, every edge of the graph carries a non-zero drawn weight |
| LavrovGraph.SuccValue | geco/graphs/lavrov_graph.py:28 | (i + 1) % k is i + 1, or 0 after the last position |
| LavrovGraph.Lavrov | geco/graphs/lavrov_graph.py:25-34 | the nodes and edges in insertion order; 2k nodes for k >= 1 and 4k edges for k >= 3 |
| LavrovGraph.AddRound | geco/graphs/lavrov_graph.py:28-32 | one loop step adds the inner, outer and two crossing edges of step i |
| LavrovGraph.RoundsMember | geco/graphs/lavrov_graph.py:28-32 | every edge added comes from some earlier step |
| LavrovGraph.RoundsContain | geco/graphs/lavrov_graph.py:28-32 | the edges of every earlier step are among those added |
| LavrovGraph.RoundsLength | geco/graphs/lavrov_graph.py:28-32 | four `add_edge` calls per step |
| LavrovGraph.RoundSimple | geco/graphs/lavrov_graph.py:29-32 | for k >= 3 the four edges of a step join four different pairs |
| LavrovGraph.RoundsApart | geco/graphs/lavrov_graph.py:29-32 | for k >= 3 two different steps share no pair |
| LavrovGraph.RoundsSimple | geco/graphs/lavrov_graph.py:28-32 | for k >= 3 no pair is added twice |
| LavrovGraph.LavrovEdgeCount | geco/graphs/tests/test_lavrov_graph.py:6-10 | for k >= 3 there are exactly 4k edges |
| LavrovGraph.LavrovHasEdges | geco/graphs/tests/test_lavrov_graph.py:14-17 | the inner and outer cycle edges and the two crossing edges of every step are present |
| LavrovGraph.RoundEndsInRange | geco/graphs/lavrov_graph.py:26-32 | every edge end lies in [0, 2k) |
| LavrovGraph.RangeInEnds | geco/graphs/lavrov_graph.py:28-32 | every number in [0, 2k) is an edge end |
| LavrovGraph.LavrovNodeMember | geco/graphs/lavrov_graph.py:26-32 | both directions: for k >= 1 a node is present exactly when it lies in [0, 2k) |
| LavrovGraph.LavrovNodeSet | geco/graphs/lavrov_graph.py:25-34 | for k >= 1 exactly the 2k nodes 0 .. 2k-1; for k = 0 the nodes 0 and -1 and no edge |
| Chimera.ChimeraGraph | geco/graphs/chimera.py:19-68 | nodes and edges in insertion order; n·m·t·2 nodes; `inter` called n·m·t² times and `intra` n(m-1)t + (n-1)mt times, once per edge; that many edges |
| Chimera.AddSites | geco/graphs/chimera.py:31-35 | the node loops add the sites in row, column, position, side order |
| Chimera.AddCross | geco/graphs/chimera.py:38-46 | the cell loops add every left-right pair of every cell, one `inter` call each |
| Chimera.AddRight | geco/graphs/chimera.py:48-56 | the horizontal loops add the side-1 edges to the next column, one `intra` call each |
| Chimera.AddDown | geco/graphs/chimera.py:58-66 | the vertical loops add the side-0 edges to the next row, one `intra` call each |
| Chimera.CellSitesFacts | geco/graphs/chimera.py:33-35 | both directions: a cell has exactly the 2t sites of that row and column |
| Chimera.SitesFacts | geco/graphs/chimera.py:31-35 | both directions: n·m·t·2 distinct nodes, exactly the tuples (row, col, pos, side) in range |
| Chimera.CellCrossFacts | geco/graphs/chimera.py:40-46 | both directions: a cell has t² distinct edges, exactly side 0 to side 1 within it |
| Chimera.CrossFacts | geco/graphs/chimera.py:38-46 | both directions: n·m·t² distinct intra-cell edges |
| Chimera.RightFacts | geco/graphs/chimera.py:48-56 | both directions: n(m-1)t distinct horizontal side-1 edges |
| Chimera.DownFacts | geco/graphs/chimera.py:58-66 | both directions: (n-1)mt distinct vertical side-0 edges |
| Chimera.ChimeraSimple | geco/graphs/chimera.py:38-66 | no pair is added twice, so every `add_edge` adds a new edge |
| Chimera.ChimeraCounts | geco/graphs/tests/test_chimera.py:21-25 | the node count and each edge family's count |
| Chimera.FourPerSide | geco/graphs/tests/test_chimera.py:28-32 | with t = 4 the edge count is 24nm - 4(n + m) |
| Chimera.ChimeraWeights | geco/graphs/chimera.py:42-66 | intra-cell edges take weights from `inter` in call order and inter-cell edges from `intra` |
| Chimera.SelbyC | geco/graphs/chimera.py:76-101 | the chimera graph with m×m cells of 8 nodes: 8m² nodes and 24m² - 8m edges, the two asserts of the source |
| Chimera.SelbyCounts | geco/graphs/chimera.py:95-96 | the counts behind the two asserts |
| Chimera.SelbyWeights | geco/graphs/chimera.py:87-91 | every edge weight is a multiple of 1/10: in [-1, 1] for intra-cell edges, in [-0.5, 0.5] for the rest |
| Biqmac.NodeNameRoundTrip | geco/graphs/biqmac.py:204-205 | "(i, j)" parses back to (i, j) |
| Biqmac.NodeNameInjective | geco/graphs/biqmac.py:204-205 | both directions: two node names agree exactly when their coordinates do |
| Biqmac.BalancedCounts | geco/graphs/biqmac.py:208-219 | the sequence has exactly `plus` ones and `minus` minus ones |
| Biqmac.EqualManyOnes | geco/graphs/biqmac.py:208-219 | 2n values, n of them +1 and n of them -1, one weighted draw each; the counters never go negative |
| Biqmac.NextFacts | geco/graphs/biqmac.py:251 | the next index wraps around to 0 and differs from j once the torus has 2 or more columns |
| Biqmac.T2gBase | geco/graphs/biqmac.py:222-261 | n² nodes named "(i, j)" in order; `weight_func` called 2n² times; an edge for every draw that is non-zero or when zeros are kept |
| Biqmac.AddTorusNodes | geco/graphs/biqmac.py:245-247 | the node loops add the names row by row |
| Biqmac.AddTorusEdges | geco/graphs/biqmac.py:249-259 | the edge loops connect (i, j)-(i, next) and (j, i)-(next, i) in that order, skipping zero draws unless zeros are kept |
| Biqmac.TorusNodesFacts | geco/graphs/biqmac.py:245-247 | n² distinct nodes, each the name of some (i, j) in range |
| Biqmac.TorusPairsLength | geco/graphs/biqmac.py:249-259 | 2n² edge draws |
| Biqmac.TorusSimple | geco/graphs/biqmac.py:249-259 | for n >= 3 no pair is drawn twice |
| Biqmac.TorusEdgeCount | geco/graphs/tests/test_biqmac.py:105-111 | for n >= 3, keeping zero edges gives exactly 2n² edges, so every node has degree 4 on average |
| Biqmac.TorusNonzero | geco/graphs/biqmac.py:253-259 | without zero edges every edge has a non-zero weight and joins a row or column neighbour pair |
| Biqmac.TorusHasSteps | geco/graphs/biqmac.py:255-259 | keeping zero edges, every row step and column step is an edge |
| Biqmac.WeighEdges | geco/graphs/biqmac.py:38-44 | each edge of the drawn graph gets one weight draw, zero-weight edges being removed only when zeros are not kept; the nodes stay |
| Biqmac.WeighedEdges | geco/graphs/biqmac.py:38-44 | both directions: an edge survives exactly when it is the i-th edge with the i-th weight and that weight is kept |
| GraphUtilities.EdgeweightProperties | geco/graphs/utilities.py:6-38 | the maximum weight, minimum weight and zero count over all edges; failure when an edge has no weight (the `d[weight_label]` lookup) |
| GraphUtilities.MaxWeightIsMax | geco/graphs/utilities.py:26-32 | the maximum is at least every weight and is one of them, or -inf exactly when there are no edges |
| GraphUtilities.MinWeightIsMin | geco/graphs/utilities.py:27-34 | the minimum is at most every weight and is one of them, or +inf exactly when there are no edges |
| GraphUtilities.ZeroWeightsCount | geco/graphs/utilities.py:28-36 | the zero count is at most the edge count, is 0 exactly when no weight is 0, and is the edge count exactly when all are 0 |
| GraphUtilities.FindParallelEdges | geco/graphs/utilities.py:41-72 | every (u, v) reported by the neighbour scans, with its multiplicity minus one, deduplicated when the graph is undirected |
| GraphUtilities.ScanNeighbours | geco/graphs/utilities.py:63-66 | one node's scan appends the neighbours with more than one edge |
| GraphUtilities.RowParallelMember | geco/graphs/utilities.py:63-66 | both directions: a report comes from a neighbour exactly when it has more than one edge |
| GraphUtilities.ParallelMember | geco/graphs/utilities.py:62-66 | both directions: a report comes from some node's scan exactly when that node's neighbour has parallel edges |
| GraphUtilities.SimpleHasNone | geco/graphs/utilities.py:62-66 | a graph without parallel edges reports nothing |
| GraphUtilities.RemoveDuplicateParallelEdges | geco/graphs/utilities.py:75-82 | the filter loop returns the deduplicated list |
| GraphUtilities.SeenMember | geco/graphs/utilities.py:76-80 | both directions: an edge is in `seen` exactly when it heads a kept report |
| GraphUtilities.DedupKeepsFirsts | geco/graphs/utilities.py:75-82 | the output is an order-preserving subsequence that keeps exactly the first report of each unordered pair |
| GraphUtilities.DedupApart | geco/graphs/utilities.py:79 | no two kept reports are for the same pair in either orientation |
| GraphUtilities.DedupCovers | geco/graphs/utilities.py:75-82 | every input report's pair is covered by a kept report |

## Left out

- Solving, I/O and pyscipopt internals: the SCIP parameter and event-handler helpers, `optimize`, temporary files, `shuffle` (an MPS round trip through SCIP), the MIPLIB and OR-Library loaders and parsers (downloads, archives, pandas). The optima the model proves are stated as properties of the model value; nothing is solved.
- SetCoverGasse.Nonzeros: `int(nrows * ncols * density)` is computed on exact reals, not doubles. For nrows = ncols = 10 and density = 0.57 Python's double product is 56.99999999999999, which gives 56 where the model gives 57. That changes which assert fires and every later draw. The same exact-real reading applies to the Pisinger and Cornuejols arithmetic and to every `uniform` and `random()` draw.
- KnapsackPisinger.GenerateFromDistribution: the generator values are computed on exact reals (`max`, `ceil`, `%` on floats, `w / d`), so double rounding is not modelled.
- FacilityLocationCornuejols.CornuejolsParams: `np.sqrt` is a parameter `root`, and the float parts (coordinates, transport costs, the capacity rescaling) are on exact reals.
- SchedulingParams.GenerateParams: the deadlines of `uniform(beta * T / 4, beta * T)` are exact reals; only their bounds are stated.
- The Pisinger `circle` distribution (a square root of a drawn value) is not part of this model.
- SetCoverYang.YangParams: requires `m == 0 || m >= 5`, because for 1 <= m <= 4 the `randint` size range is empty and Python raises ValueError; the error path is not modelled.
- SetPackingYang.YangParameters: requires `SizesOk(m)` (m = 0, 7, 9 or m >= 10), because for the other m the `randint` size range is empty and Python raises ValueError; the error path is not modelled. The same requirement holds for SetPackingYang.YangInstance.
- SetCoverSun.ExpandSunParams: requires at least two backbone sets when the expansion runs, because `sample(range(m), k=2)` raises ValueError otherwise.
- SetCover.SetCover: requires every element of a set to index an existing variable. Python raises IndexError on a too-large index. Python also accepts a negative index, counting from the end, which `set<nat>` excludes.
- CombinatorialAuction.CombinatorialAuction: a bundle item is a `nat`. Python raises IndexError on an item at or above n_items + n_dummy_items. Python also accepts a negative item, appending the bid to a slot counted from the end of `bids_per_item`, which `seq<nat>` excludes.
- SetPacking.SetPacking: a list entry is a `nat`. Python raises IndexError on an entry at or above n. Python also accepts a negative entry, reading `vars` from the end, which `seq<seq<nat>>` excludes.
- ColoringPartialOrdering.PartialOrdering: requires `h >= 2` or no vertex, because `z[v, 1]` raises KeyError for h < 2; the same holds for ColoringPartialOrdering.OrderedPartialOrdering and ColoringPartialOrdering.HybridPartialOrdering.
- Rand.SeedStream: the Mersenne Twister and numpy's generator are replaced by an arbitrary fixed stream of raw numbers per seed. Draws are deterministic in the seed and in the draws before them, but the values are not Python's. In particular MaxCutTang.SeedZeroWeights and MaxCutTang.TangInstance state "the weights of seed 0" against that stream, not against Python's seed-0 values.
- Rand.Sampler.Random: `random()`, `uniform` and the weighted `choices` are computed from the raw stream by fixed functions; only their ranges are stated, not their distributions.
- Global random state: `random.seed` in `t2g_base` and `np.random.seed` in `selby_c` become a weight callback (Biqmac.T2gBase) or a seed stream (Chimera.SelbyC). `preserve_random_state`, which restores the global state afterwards, is not modelled.
- networkx random graph generators (`gnm_random_graph`, `dense_gnm_random_graph`, `barabasi_albert_graph`, and so on) are not modelled. The graph they return is a parameter: MaxCutTang.IsGnm gives its node and edge counts, and Biqmac.WeighEdges takes it as an existing graph. The float edge count `int(d * n(n-1)/2)` is not modelled.
- Biqmac.WeighEdges: iterates over a snapshot of the edge list taken before the loop. The source iterates the live `graph.edges` view while `remove_edge` changes it, so with keep_zero_edges=False CPython raises RuntimeError ("dictionary changed size during iteration") at the first zero weight. The model removes the edge and carries on, as test_biqmac.py:26-33 expects. The weight functions `one_or_minus_one`, `negative_ten_to_ten` and `zero_to_ten` are the callback `f`.
- IndependentSet.GetCliques: breaks degree ties among a centre's neighbours in leftover order. The source sorts `set(neighbors).intersection(leftover)`, and the stable sort keeps CPython's set iteration (hash-slot) order for nodes of equal degree. With nodes 0..9 and edges (0,3), (0,9), for example, Python's first cliques are {0, 9} then {3}, where the model's are {0, 3} then {9}. The partition and clique properties are proved for the model's order only.
- Node labels: MaxCut.Naive, MaxCutTriangle.Build, MaxCutTriangle.Triangle, MaxCutTriangle.TriangleCorrected, MaxCutLegacy.EmptyEdge, MaxCutTang.TangInstance and IndependentSetLegacy.LegacyIndependentSet take a graph labelled by integers. The source names variables `str(v)` for any hashable label, so with mixed labels such as 1 and "1" two nodes share one name (and, in the legacy independent-set dictionary, one variable); that case is not modelled. IndependentSet.IndependentSet is generic in the label type, and the colouring builders relabel to integers first.
- Graphs: a formulation reads its graph's nodes and edges in insertion order. networkx reports the edges of `graph.edges` in adjacency order, which can differ, so variable and constraint order may differ from the source's when edges were not inserted node by node.
- ParameterGrid.Generate: the endless `generate` is modelled by its first `count` instances.
- ParameterGrid.GenerateN: the generating function is a pure function of the sampler state returning the next state. The model says nothing about a function that keeps state elsewhere.
- Graph attributes (`graph.graph["name"]`, `graph.graph["seed"]`) and model names passed through unchanged are not modelled beyond the name field of the model.
- GraphUtilities.EdgeweightProperties: the weight label is fixed to "weight".
- GraphUtilities.FindParallelEdges: reads an adjacency value with an edge count per neighbour (a MultiGraph), not a networkx object.
- Biqmac.EqualManyOnes: computes the whole list of 2n values at once; the generator's laziness is not modelled.
- Biqmac.TorusEdgeCount: proves 2n² edges for n >= 3, so the average degree is 4. That the maximum degree is 4 is not proved.
- Excluded as wrappers over other libraries or as not runnable: `pegasus`, `dwave_chimera_graph` and `_initialize_weights_chimera` (dwave), the biqmac `g05`/`pm1s`/`pm1d`/`wd`/`pwd` wrappers, `biqmac_rudy` (global `random` state, and weight functions called with an argument they do not take), `graph_properties` (networkx planarity, clustering and k-core, and an undefined `g`), the independent-set Gasse and Barabási-Albert generators, the Gasse combinatorial-auction generator (probability-weighted numpy choices; it also returns inside its bidder loop), the Beasley facility generator and the float parts of the Cornuejols one.
- `hooker_instance` and `heinz_instance` in geco/mips/scheduling/hooker.py and heinz.py call `hooker_formulation`/`heinz_formulation` with a `name=` argument, and no package file defines those functions. `generate_hookers_instances` in geco/mips/scheduling.py passes `seed=` to a function without that parameter. These calls are not part of this model; the parameter grid of hooker.py is.

## Findings

| source | as written | input that shows it | evidently intended | confidence | as-written member | corrected member |
|---|---|---|---|---|---|---|
| geco/mips/max_cut/generic.py:63-68 | `triangle` adds two of the four triangle inequalities per node triple | K3 with weights (-1, 1, -1): x = (0, 1, 0) is feasible with objective 1, while the maximum cut weighs 0 | all four inequalities, so that the optimum is the maximum cut | not executed | MaxCutTriangle.AsWrittenK3Exceeds | MaxCutTriangle.CorrectedOptimumIsMaxCut |
| geco/mips/scheduling.py:52-58 | constraint (a) subtracts d_j once per facility inside the sum over facilities | 2 facilities, 1 task, 10 time steps, processing time 5, deadline 3: task 0 starts at 0 and ends at 5 > 3, yet L = 0 meets (a), since 5 <= 2 · 3 | d_j subtracted once, so that a late task has L = 1 | not executed | SchedulingHookerExample.AsWrittenLateUnforced | SchedulingHookerExample.CorrectedLateForced |
| geco/mips/graph_coloring/generic.py:261-262 | constraint (20) of `partial_ordering` runs only over `colors[:-1]` | K2 with colour bound 2: the model's optimum is 1, while K2 needs 2 colours | (20) over all colours. Even then `z[v, 1] == 0` (generic.py:217) leaves only h-1 colours, so K2 with bound 2 has no solution; the corrected model is stated with that restriction | not executed | ColoringPartialOrderingOptimum.PartialOrderingEdge2 | ColoringPartialOrderingOptimum.OrderedPartialOrderingEdge2 |
| geco/mips/graph_coloring/generic.py:127-151 | `representatives` has no links x_uv <= x_uu | the path 0-1-2: x_20 = x_02 = x_11 = 1 is feasible with objective 1, while the path needs 2 colours | the links x_uv <= x_uu, so that the optimum is the chromatic number | not executed | ColoringRepresentativesOptimum.RepresentativesPath3 | ColoringRepresentativesOptimum.LinkedPath3 |
| geco/mips/independent_set/generic.py:102-117 | `clique_independent_set` constrains only pairs inside one clique of the greedy partition | the 5-cycle: x = (1, 0, 1, 0, 1) is feasible with objective 3, although nodes 4 and 0 are adjacent | also `x_u + x_v <= 1` for every edge no clique covers, so that feasibility means independence | not executed | IndependentSet.CliqueModelAdmitsAdjacentNodes | IndependentSet.CoveredFeasibleIffIndependent |
| geco/mips/independent_set.py:34-35 | the legacy `independent_set` adds `x_u + x_v <= 1` for every node pair, edge or not | two nodes with no edge: selecting both is rejected, although {0, 1} is independent | one constraint per edge, as geco/mips/independent_set/generic.py:33-34 does | not executed | IndependentSetLegacy.LegacyRejectsIndependentPair | IndependentSetLegacy.EdgelessPairOptimum |
| geco/mips/scheduling.py:179-186 | constraint (13) keeps only the start times t with `t < len(time_steps)`, comparing a time step with a count of steps | one facility, one task, p = 2, R = 5, d = 10: the steps are 5..9, (13) has no term and forces x = 0, and (12) cannot be met | (13) over the y variables that exist, so that task 0 can start at 5 | not executed | SchedulingHeinzExample.AsWrittenExampleInfeasible | SchedulingHeinzExample.CorrectedExampleFeasible |
| geco/mips/knapsack/pisinger.py:130-136 | the profit generator of `almost_strongly_correlated_distribution` calls `uniform(w + R/10 - R/500, w + R/10 - R/500)`, both bounds equal | R = 1000 and any weight w: every profit is exactly w + 98, never another point of [w + 98, w + 102] | the upper bound w + R/10 + R/500, a band around w + R/10 | not executed | KnapsackPisinger.AlmostStronglyCorrelatedRelation | KnapsackPisinger.CorrectedAlmostStronglyCorrelatedBand |
