# Multiscale optimal transport: a Dafny model

This project models the core of `pic-tests/multiscale_matlab.cpp`, a multiscale approximation of optimal transport between two square density grids X and Y. The model covers three parts.

1. The **DecompositionChain** constructor turns an `res x res` grid into a chain of levels.
   - The finest level holds one leaf DataNode per cell.
   - Each coarsening pass cuts the current side `scaledRes` into groups of `clusterSize` cells (`partitionInIndex`).
   - Each pass builds one parent per pair of groups. A parent's measure is the sum of its children's measures, and its index is checked against the safety bound `unbelievable`.
   - The chain is then reversed, so level 0 is the single root.
2. **decomposeCost** gives one cost matrix per level. The finest is the input cost. A coarser entry is the sum of the finer costs over every child pair, divided by the two child counts.
3. **TransportPlan** starts from the root plan: one transport from the X root to the Y root, carrying the X root's measure. **propagate** splits every coarse transport over the children of its endpoints.
   - It works greedily on working residual measures and a working cost matrix.
   - Each round, `search` picks the cheapest y child of a live x child.
   - A round either settles the transport, exhausts the y child (its column becomes infinite through `setToInf`), or exhausts the x child (its row becomes infinite).
   - Running out of live x children throws: the mass conservation violation.

The DataNode and level structures are values.
- A node's children are the indices of its children in the next finer level.
- Every node's index equals its position, so an index stands for the C++ pointer.
- The constructor loops and decomposeCost are methods over sequences. Each is proved to build exactly a specification function (`Leaves`, `ParentLevel`, `Chain`, `CostLevel`), and the properties of the structure are lemmas about those functions.
- propagate works in place, as the source does:
  - The residuals are `array<real>`.
  - The working cost is an `array2<Ext>`, where `Ext` is a finite value or `Inf`.
  - The plan is a class whose `transports` field the method fills.

Measures and costs are exact `real` numbers. The tolerance `__EPS__` is a positive constant.

## Model

| member | source | states |
|---|---|---|
| Decomposition.NewInternal | pic-tests/multiscale_matlab.cpp:33-46 | the internal DataNode constructor fails with ConstructionError exactly when its index exceeds the bound; otherwise the node keeps the given measure, children and index |
| Decomposition.BuildLeaves | pic-tests/multiscale_matlab.cpp:118-125 | the double loop over the grid pushes exactly the leaves `Leaves(X, res)` |
| Decomposition.GatherRun | pic-tests/multiscale_matlab.cpp:145-149 | the innermost loop appends the children (k, l) of one row of the block, and the running measure stays the total of the children gathered so far |
| Decomposition.GatherChildren | pic-tests/multiscale_matlab.cpp:142-150 | the children of parent (i, j) are exactly its block of the finer level, and its measure is their total |
| Decomposition.BuildParentNode | pic-tests/multiscale_matlab.cpp:151 | the parent of groups (i, j) is built iff its index j + i*n passes the guard; otherwise the result is ConstructionError |
| Decomposition.BuildParentRow | pic-tests/multiscale_matlab.cpp:141-152 | one row of parents is built iff the row's last index passes the guard, and is then the row of parents in push order |
| Decomposition.BuildParentRows | pic-tests/multiscale_matlab.cpp:140-153 | one pass succeeds iff every parent index passes the guard, and then yields every parent in push order |
| Decomposition.BuildParents | pic-tests/multiscale_matlab.cpp:130-153 | one pass succeeds iff n*n <= bound + 1 (n groups per side), and then yields the parent level |
| Decomposition.ReverseAndNumber | pic-tests/multiscale_matlab.cpp:160-164 | reversing the built levels and assigning level numbers yields `Numbered(built)`: level l is built level |built|-1-l, numbered l |
| Decomposition.CoarsenAll | pic-tests/multiscale_matlab.cpp:127-158 | the coarsening loop runs until scaledRes is 1; it succeeds iff the first pass's indices pass the guard, and then yields every level in build order |
| Decomposition.BuildChain | pic-tests/multiscale_matlab.cpp:115-165 | the constructor succeeds iff the guard is quiet, and then builds `Chain(X, res, cs)` |
| Grouping.GroupsUseDivision | pic-tests/multiscale_matlab.cpp:133-136 | for scaledRes >= 2*clusterSize there are scaledRes/clusterSize groups, and the last holds scaledRes%clusterSize + clusterSize cells |
| Grouping.GroupsSingle | pic-tests/multiscale_matlab.cpp:131-132 | there is a single group iff scaledRes < 2*clusterSize |
| Grouping.GroupsTotal | pic-tests/multiscale_matlab.cpp:130-136 | the group sizes add up to scaledRes |
| Grouping.GroupsFull | pic-tests/multiscale_matlab.cpp:134 | every group but the last holds clusterSize cells |
| Grouping.GroupsLast | pic-tests/multiscale_matlab.cpp:135 | with several groups, the last holds between clusterSize and 2*clusterSize - 1 cells |
| Grouping.GroupsShrink | pic-tests/multiscale_matlab.cpp:156 | the new scaledRes, the group count, is below the old one whenever that is at least 2, so the coarsening loop ends |
| Grouping.ChildIndexInRange | pic-tests/multiscale_matlab.cpp:146 | every child index j*cs + l + (i*cs + k)*scaledRes names a node of the finer level |
| Grouping.ChildIndexDecode | pic-tests/multiscale_matlab.cpp:146 | a child index decodes back to the group row i and group column j of its parent |
| Grouping.ChildIndexInjective | pic-tests/multiscale_matlab.cpp:146 | distinct (k, l) of one parent give distinct child indices |
| DecompositionProofs.ChildCount | pic-tests/multiscale_matlab.cpp:144-149 | parent (i, j) has partitionInIndex[i] * partitionInIndex[j] children |
| DecompositionProofs.ChildrenDistinct | pic-tests/multiscale_matlab.cpp:144-149 | no parent lists a child twice |
| DecompositionProofs.ParentsDisjoint | pic-tests/multiscale_matlab.cpp:140-153 | two parents of one pass share no child |
| DecompositionProofs.ParentLevelPartitions | pic-tests/multiscale_matlab.cpp:140-153 | one pass builds n*n parents, indexed by position, whose children are valid and disjoint, carry the parent's measure, and cover every finer node |
| DecompositionProofs.LeavesShape | pic-tests/multiscale_matlab.cpp:120-124 | there are res*res leaves; leaf (i, j) sits at position i*res + j, carries index j + i*res equal to its position and density X[j][i], and has no children |
| Conservation.ParentLevelConserves | pic-tests/multiscale_matlab.cpp:142-151 | one pass conserves the total measure of the level |
| ChainProofs.LevelsFromShape | pic-tests/multiscale_matlab.cpp:127-158 | the build order has Depth levels, each indexed by position and carrying the total measure, ending in one node, each refining and covering the previous one |
| ChainProofs.NumberedShape | pic-tests/multiscale_matlab.cpp:160-164 | after the reversal, level 0 is the single root carrying the total, the last level is the first built, and each level refines and covers the next |
| ChainProofs.ChainShape | pic-tests/multiscale_matlab.cpp:115-164 | the chain has Depth levels numbered 0.., a single root carrying the total leaf measure, the leaves last, and each level partitioning the next with the same total |
| ChainProofs.GuardQuiet | pic-tests/multiscale_matlab.cpp:43-45 | with the bound at least res*res - 1 (the MATLAB gateway sets res*res), the index guard never fires |
| ChainProofs.DepthOfEight | pic-tests/multiscale_matlab.cpp:129-136 | res = 8 and clusterSize = 2 give four levels of sides 8, 4, 2, 1 |
| ChainProofs.ChainsReadyForCost | pic-tests/multiscale_matlab.cpp:362-372 | two chains from res x res grids with a res^2 x res^2 cost meet everything decomposeCost indexes: children exist and lie within the next finer level |
| CostHierarchy.CostLevelShape | pic-tests/multiscale_matlab.cpp:362-386 | costChain[l] is a |X_l| x |Y_l| matrix; the last is the input cost; a coarser entry (i, j) is the finer cost summed over the child pairs, divided by the two child counts |
| CostHierarchy.CostLevelBounds | pic-tests/multiscale_matlab.cpp:376-385 | when every input cost lies in [lo, hi], so does every entry of every coarser matrix |
| CostHierarchy.PairCostSum | pic-tests/multiscale_matlab.cpp:376-381 | the two innermost loops compute costSum, the sum over every child pair |
| CostHierarchy.CoarsenCost | pic-tests/multiscale_matlab.cpp:367-386 | the loops over i and j fill costChain[l] with the coarse matrix of the next finer one |
| CostHierarchy.DecomposeCost | pic-tests/multiscale_matlab.cpp:362-389 | costChain has one matrix per X level, and level l is `CostLevel(cost, Xc, Yc, l)` |
| Plans.FirstMinInf | pic-tests/multiscale_matlab.cpp:212-219 | a search result whose cost is Inf means every candidate is Inf |
| Plans.Search | pic-tests/multiscale_matlab.cpp:209-220 | search returns the first position holding the strictly smallest working cost of row x; with every candidate at Inf, it returns the first child |
| Plans.SetToInf | pic-tests/multiscale_matlab.cpp:222-232 | exactly row `index` (opOnX) or column `index` becomes Inf; every other entry is unchanged |
| Propagation.Scan | pic-tests/multiscale_matlab.cpp:268-273 | the scan stops at the first child from ptr on whose residual is at least EPS; running past the last child is MassConservationViolation |
| Propagation.NotStuck | pic-tests/multiscale_matlab.cpp:276-277 | while the transport still has mass the y children can take, search never picks an exhausted (Inf) y child of a live x child |
| Propagation.Settle | pic-tests/multiscale_matlab.cpp:283-289 | the last step takes the remaining amount from both residuals and emits it; the books and the working invariant hold |
| Propagation.ExhaustY | pic-tests/multiscale_matlab.cpp:290-297 | the y child gives its whole residual, drops to 0 and its column becomes Inf; the books and the working invariant hold |
| Propagation.ExhaustChosenY | pic-tests/multiscale_matlab.cpp:290-297 | exhausting the y child that search chose emits its whole residual, zeroes it, turns exactly its column to Inf (every other cost unchanged), leaves every other x residual alone, and so removes one finite cost from row x |
| Propagation.ExhaustX | pic-tests/multiscale_matlab.cpp:298-305 | the x child gives its whole residual and drops to 0 while every other x residual is unchanged; exactly its row becomes Inf and every other cost is unchanged; the books and the working invariant hold |
| Propagation.DispenseStep | pic-tests/multiscale_matlab.cpp:280-305 | one round emits a transport from x to the y child at position k. It settles exactly when the amount fits both residuals within EPS, and then leaves nothing and the costs unchanged. Otherwise it carries the smaller of the two residuals, leaves more than EPS, and turns exactly that y child's column (y smaller) or x's row to Inf, which kills x or removes a finite cost from its row. No other x residual changes |
| Propagation.Round | pic-tests/multiscale_matlab.cpp:276-305 | the returned k is search's choice on the costs before the round (the first strict minimum of row x). The round then meets DispenseStep's guarantees for it, cost updates included: costs are unchanged when it settles; otherwise exactly the column of ych[k] (y smaller) or the row of x becomes Inf |
| Propagation.Turn | pic-tests/multiscale_matlab.cpp:276-305 | one pass of the inner loop at the live child xch[ptr] the scan found. Search picks position k, the first strict minimum of that child's row of working costs as the pass starts, and the transport goes from xch[ptr] to ych[k]. A pass that does not settle ships the smaller of the two residuals (the y one when strictly smaller). The children before ptr stay below EPS, and costs only turn to Inf. The settling pass ships exactly the amount; any other pass keeps the loop state and spends the x child or strikes a finite cost of its row |
| Propagation.Conclude | pic-tests/multiscale_matlab.cpp:284-288 | the round that settles the transport leaves transports that ship exactly the coarse amount |
| Propagation.Dispense | pic-tests/multiscale_matlab.cpp:263-306 | every transport emitted joins a child of the coarse x node to a child of the coarse y node, and each residual drops by exactly the flow through that node; costs only turn to Inf. Every step that does not settle comes from a live x child and ships the smaller of its x and y residuals, taken after the steps before it. It throws MassConservationViolation only when every x child is below EPS; then every step was such a step and left more than EPS of the amount unshipped. Otherwise the transports ship exactly the amount and leave more than EPS after every step but the last |
| Propagation.Demand | pic-tests/multiscale_matlab.cpp:263-266 | before each coarse transport, the children of its y node still hold at least its amount |
| Propagation.Residuals | pic-tests/multiscale_matlab.cpp:248-257 | the working measures start as the fine nodes' measures |
| Propagation.WorkingCost | pic-tests/multiscale_matlab.cpp:260 | the working cost starts as a copy of costChain[level+1] |
| Propagation.Carry | pic-tests/multiscale_matlab.cpp:264-306 | one coarse transport of the outer loop. On success the propagate state advances by one transport, whose segment is dispensed greedily as Dispense states, measured against the fine measures less every earlier transport. On failure the segment's steps are all greedy, leave more than EPS of the amount, and end with the x node's children spent |
| Propagation.PropagateEdges | pic-tests/multiscale_matlab.cpp:246-309 | the new plan is the concatenation of one segment per coarse transport, and every transport joins fine nodes. Segment k ships transport k's amount between its endpoints' children, leaves more than EPS after every step but its last, and every step but its last ships the smaller of its x and y residuals, measured against the fine measures less all transports before it. The total shipped is preserved, and no fine node sends or receives more than its measure plus EPS. It throws only at the first coarse transport not fully dispensed, and only after greedy steps that leave every child of its x node below EPS while more than EPS of the amount is still to move |
| Propagation.TransportPlan.AtLevel | pic-tests/multiscale_matlab.cpp:202-207 | the private constructor: an empty plan at the given level over the same chains |
| Propagation.TransportPlan.Root | pic-tests/multiscale_matlab.cpp:234-240 | the root plan is one transport from the X root to the Y root carrying the X root's measure, at level 0 |
| Propagation.TransportPlan.Propagate | pic-tests/multiscale_matlab.cpp:242-309 | propagate returns a fresh plan one level finer over the same chains and costs. Its transports join nodes of the finer levels. Segment k ships exactly coarse transport k's amount between children of its endpoints, greedily step by step as PropagateEdges states. The total shipped is preserved, within every fine node's measure plus EPS. It throws MassConservationViolation only at the first coarse transport not fully dispensed, and only after greedy steps that leave every child of its x node below EPS while more than EPS of the amount is still to move |
| PlanProofs.ChainLevelNonNegative | pic-tests/multiscale_matlab.cpp:142-151 | every level of the chain of a non-negative density is non-negative |
| PlanProofs.RootCanPropagate | pic-tests/multiscale_matlab.cpp:234-240 | over chains built from non-negative res x res grids (res >= 2) with the decomposed costs, the root plan satisfies everything propagate needs, provided X's total mass is at most Y's |

## Left out

- DataNode centers (the floating means of the children's centers) are not modelled. Nothing in the core reads them.
- `TransportPlan::refine` is not part of this model, because it calls a solver whose source is not part of this model. Neither is the `core` driver that alternates propagate and refine.
- `mexFunction`, the `print` methods, `printf` and `clock` are not modelled: they are MATLAB I/O and diagnostics.
- `invalidate` and the `delete` calls are not modelled: they are memory management. Nodes are values here.
- Floating-point rounding is not modelled. Measures and costs are exact reals.
- Integer width is not modelled: the source's `int` and `unsigned` indices and counts are unbounded `nat` here. A `res` that overflows them would need a res² x res² cost matrix far beyond memory.
- Decomposition.BuildChain: requires res >= 1 and clusterSize >= 2. The `core` driver fixes clusterSize to 2 (pic-tests/multiscale_matlab.cpp:393). With clusterSize 1 and res >= 2, the split makes res groups of one, so the side never shrinks and the loop never ends. For res = 0 the source builds a childless root whose center divides by zero.
- CostHierarchy.DecomposeCost: requires the Y chain to be at least as deep as the X chain, and the finest cost to be sized by the two finest levels. The source indexes out of range otherwise.
- Plans.Search: returns the chosen child's position among yChildren rather than the node pointer. Requires a non-empty candidate list, since the source dereferences `begin()`.
- Propagation.WorkingCost: the input costs are finite. Inf marks arise only through setToInf.
- Propagation.PropagateEdges: requires the coarse plan to be receivable, meaning no y node is asked for more than its measure. Without this the source can loop forever: once every y candidate is Inf, search returns the first child and the y-exhaust branch emits zero-amount transports without end. The fine measures must also be non-negative.
- Propagation.TransportPlan.Propagate: the new plan may overdraw a fine node by up to EPS. So it is not proved that the next level's plan is again receivable, and chaining propagates is not covered.
- Propagation.PropagateEdges: does not state which y child each step goes to. That is search's choice against the working costs as struck so far, which Round and Turn state for one step. The contract therefore does not decide whether a given plan throws. The exception cannot simply be excluded either: by a reading of the source, an exactly receivable plan can end with two x children each left just under EPS by y-exhaust steps, and the scan then runs off the end with up to 2·EPS unshipped.
- Propagation.TransportPlan.Propagate: as for PropagateEdges, which y child each step goes to is not stated, so the contract does not decide whether a given plan throws.
- Propagation.Carry: as for PropagateEdges, which y child each step goes to is not stated.
- Propagation.Dispense: zero-amount transports, which the source can emit, are kept, and nothing states their absence. Negative transports down to -EPS are possible too: a settling round can leave a y residual in [-EPS, 0) without striking its column, and a later round that picks that child takes the y-exhaust branch and pushes its negative residual. Dispense itself does not restate, round by round, which y child search chose or how the costs changed; Round and Turn state the choice, and Round the cost update of each branch.
