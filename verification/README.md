# PCAA verification

A Dafny model of two parts of PCAA and of what supports them:

- the PBQP solver (`software/pbqp`): a graph of unary cost vectors and edge cost matrices that is
  reduced in place (R0, R1, R2), conditioned (RN, branching), searched by branch-and-reduce and
  solved backwards by reconstruction, all in saturating 32-bit costs with an absorbing infinity;
- the accelerator (`accelerator`, `pcaalib`): the command codec, the functional L0 executor, the
  tiled L2 engine with its counters, and ordered batches over guest memory;
- what joins them (`tools/pbqp_model_kernel.cpp`): staging of solver operands in guest memory and the
  solver's project/add kernel as a batch of accelerator commands;
- the Bellman-Ford oracle (`probes`) and the problem storage (`software/pbqp/pbqp_storage.cpp`).

## How it is organised

Costs come first. `Costs` has the two machine additions and the exact costs they stand for
(`Ext`, an unbounded integer or infinity). A *budget* bounds how far a machine cost may be from
zero; while the budgets of a sum total less than infinity, every order of saturating additions is
the exact sum. `Graphs` gives a problem state its meaning, `Objective`, and `Safe` says that some
distribution of budgets over nodes, edges and offset explains all its finite costs. `Building`
proves that the range accepted by the API makes a problem safe, and every reduction and
conditioning step keeps it safe by moving budgets along with the costs.

`Reductions`, `ReductionTwo` and `Conditioning` hold one function per rewrite and prove that it
keeps the objective. `Runs` lifts this to whole runs through two relations: `Below` (the new
problem never costs more) and `Tracks` (assignments that follow the recorded choices cost the
same). `Search` is the exact search with and without pruning, `Enumeration` the exhaustive one,
`Descent` the local descent, `Capacity` the supply of edge slots, `Blocking` exactly when it runs out,
`StaleCosts` what the public evaluation means on reduced problems. Four modules tell in terms of
assignments what the search functions compute: `Stars` the RN scores, `SearchVisits` selection, bound test
and number of visits, `RnRuns` the steps of the RN strategy, `EnumerationOrder` the assignment that enumeration keeps. `Problems`, `Kernels`,
`Heuristic`, `Evaluation`, `Solvers`, `LocalSearch` and `Strategies` are the imperative code:
classes, arrays and loops, each method proved to compute the function that specifies it.

`GuestMemory`, `Commands`, `Codec` and `Streams` model bytes, commands and their encoding.
`WireLayouts` gives the documented bytes of every descriptor and `Validity` the well-formed commands.
`Semantics` says what a primitive command does to memory: every output is computed from the
memory before the command; `Meanings` proves this to be what the documentation prescribes. `Executor` (L0) and `Transfers`, `Lanes`, `Engine`, `L2Engine` (L2)
are both proved against it; `Batches` and `Devices` add descriptor fetch and ordered batches and
conclude that both devices agree. `Meters` has the engine's statistics: a balance that every step
keeps, and bills that say what a completed piece of work adds to them.

`GuestStaging` is the staging area with its view cache, `StreamBatches` says that a batch over an
encoded stream runs the encoded commands, `VectorRuns` what projection and addition commands do to the
values memory holds. `ProjectJobs` folds project/add jobs on the host, `ProjectAdd` in staged memory,
`KernelPlans` says when jobs can be staged, built and submitted, and `DeviceKernel` runs the whole kernel
on a device and compares the two. `Basics` has what all
modules share.

Where a loop carries a property of a large recursive function, the property is passed as a ghost
function value (`Progress`, `RowCheck`, `Step`, `Check`), so that the loop is proved for any such
function and the definition is used only at the ends. Counters are treated alike: `Audited` marks the
statistics whose definition a proof opens.

## Findings

- R2 can fail for lack of a fill slot on a problem that has a solution: `Capacity.FullPathFails` gives
  one. A run fails if and only if the problem is `Blocking.Blocked`: every slot is in use, and the first
  active node with one or two edges has two neighbours that are not joined
  (`Blocking.ReduceAllFullExactly`, `Blocking.ExploreFullExactly`, `Strategies.RnRunFullExactly`).
- `pbqp_evaluate` reads every node's unary vector without looking at the active flag, and does not add
  the offset. On a reduced problem it is neither the active part nor the objective
  (`StaleCosts.StaleEvaluation`); `StaleCosts.EvaluatedExactly` says exactly when it is.
- The restarts of local search need not start from single changes of the all-zero assignment, because
  the descent works in place: `LocalSearch.RestartElsewhere` gives a problem, `LocalSearch.StartsFromChange`
  the exact condition.
- Local search on a problem without nodes reports a capacity error, because its scratch arrays have
  no elements (`Strategies.SolveLocal`).
- A project/add job without rows is accepted by the software kernel and rejected by the device kernel,
  because no command describes it (`KernelPlans.RowlessJob`). `KernelPlans.SpaciousOutcome` gives the
  exact condition under which both agree; the solver's domains are never empty.

## Model

| member | source | states |
|---|---|---|
| `Costs.AddExact` | accelerator/src/cost_math.cpp:8-36 | operands within budgets that total less than INF: neither addition saturates, clamps or refuses, and the result is the exact sum within the summed budget |
| `Costs.AddCheckedExactly` | accelerator/src/cost_math.cpp:8-36 | infinity is 0x1fffffff; the checked sum refuses operands above it and finite sums below the least 32-bit number, and is otherwise the exact sum cut off at infinity; the saturating one gives that least number instead of refusing |
| `Costs.FoldExact` | accelerator/src/cost_math.cpp:8-36 | a left-to-right saturating sum of any length is the exact sum when the terms' budgets total less than INF |
| `Costs.FirstMin` | software/pbqp/pbqp.cpp:1499-1514 | minimum and first index of a vector, {INF, 0} for an empty one |
| `Graphs.EvaluateExact` | software/pbqp/pbqp.cpp:1107-1122 | on a safe graph the saturating evaluation of any valid assignment is its exact objective |
| `Building.BuiltIsGood` | software/pbqp/pbqp.cpp:1741-1748 | costs within (INF-1)/(node capacity + edge capacity) make a built problem safe |
| `Building.RangeExactly` | software/pbqp/pbqp.cpp:34-37 | a cost is accepted exactly when it is infinite or as many costs of its size as there are node and edge slots add up to less than infinity |
| `Building.RangeLargest` | software/pbqp/pbqp.cpp:1741-1748 | no larger range is safe: that many equal costs outside it saturate although their exact sum is finite |
| `Building.AddNode` | software/pbqp/pbqp.cpp:1659-1680 | exact condition of every status, the range as an inequality, the new node, and that a built problem stays built |
| `Building.AddEdge` | software/pbqp/pbqp.cpp:1682-1724 | status as a function of the arguments in the code's order of checks, the range as an inequality, the claimed slot and its stored block, and that a built problem stays built |
| `Building.RowMajor` | software/pbqp/pbqp.cpp:1696-1719 | the entry for two values is the given cost at row times columns plus column |
| `Building.EdgeKeepsBuilt` | software/pbqp/pbqp.cpp:1706-1722 | a new in-range edge between distinct unjoined nodes keeps all graph invariants and the safe range |
| `Building.NewProblem` | software/pbqp/pbqp_storage.cpp:251-275 | an initialised problem is empty, with every edge slot free, and satisfies the building invariant |
| `Reductions.R0Preserves` | software/pbqp/pbqp.cpp:914-934 | R0 keeps well-formedness and safety; the new objective is the old one minimised over the node and its record attains it |
| `Reductions.R1Preserves` | software/pbqp/pbqp.cpp:936-984 | the same for R1, for both orientations of the edge |
| `ReductionTwo.R2Preserves` | software/pbqp/pbqp.cpp:986-1105 | the same for R2, whether the fill edge is new or existing and however the three edges are oriented |
| `ReductionTwo.FillSlot` | software/pbqp/pbqp.cpp:50-59 | the slot joining the pair, or else a free slot while no edge joins the pair |
| `ReductionTwo.MergedAt` | software/pbqp/pbqp.cpp:1071-1088 | whichever way round the fill edge is stored, its entry for the neighbours' values is the old one plus the minimum for these values |
| `Conditioning.ConditionPreserves` | software/pbqp/pbqp.cpp:698-744 | conditioning keeps the objective of every assignment with the fixed value, well-formedness and safety, and its record says that value |
| `Conditioning.ConditionStructure` | software/pbqp/pbqp.cpp:698-744 | conditioning deactivates exactly that node, keeps the graph invariants and never adds active edges |
| `Runs.ReduceNodeStep` | software/pbqp/pbqp.cpp:392-416 | one exact step by degree: tracked, below, safe, one active node less, same slots |
| `Runs.ReduceAllPreserves` | software/pbqp/pbqp.cpp:1322-1335 | a whole run of reductions preserves the problem and leaves no node of degree two or less |
| `Runs.ReconstructSettles` | software/pbqp/pbqp.cpp:1448-1473 | from any values legal on the active nodes, reverse replay gives a valid assignment that agrees with every record, keeps those values and their objective |
| `Runs.ChoiceLegal` | software/pbqp/pbqp.cpp:1456-1471 | when the later records are settled, the values a record consults are legal and its table entry exists and is legal |
| `Runs.ReplayForgets` | software/pbqp/pbqp.cpp:1448-1473 | reconstruction does not depend on what the entries of eliminated nodes held before |
| `Runs.FinishedRunOptimal` | software/pbqp/pbqp.cpp:360-369 | after a run that eliminates all nodes the offset is the true optimum of the original problem and the reconstruction attains it |
| `Search.BoundSound` | software/pbqp/pbqp.cpp:1269-1303 | offset plus relaxation bound never exceeds any assignment's objective, negative costs included |
| `Search.BoundLargest` | software/pbqp/pbqp.cpp:1269-1303 | the relaxation bound is the largest sum of one lower bound per active unary vector and per active matrix, and is one |
| `Search.ExploreExact` | software/pbqp/pbqp.cpp:1305-1446 | under every incumbent: OK is the true optimum, attained, and beats a finite incumbent; PRUNED means the incumbent is finite and nothing beats it |
| `Search.PruningInvisible` | software/pbqp/pbqp.cpp:1344-1349 | with or without the bound test the search gives the same optimum and the same assignment, ties included, or reports exactly that a finite incumbent is not beaten |
| `Search.SelectTo` | software/pbqp/pbqp.cpp:135-171 | the selected node is the first among the active nodes that no other is preferred to |
| `SearchVisits.SelectedFirst` | software/pbqp/pbqp.cpp:135-171 | counting edges and matrix entries at each node: no active node is ahead of the selected one under the policy, and it is ahead of all active ones before it |
| `SearchVisits.PrunesExactly` | software/pbqp/pbqp.cpp:1344-1349 | a state is pruned exactly when some sum of lower bounds of its terms reaches a finite incumbent |
| `SearchVisits.VisitsMean` | software/pbqp/pbqp.cpp:1305-1446 | visits told by costs: one from a state that is finished or hopeless after reduction, otherwise one more than those of its children, each searched under the least of the incumbent and the costs of all assignments with a smaller value of the selected node |
| `SearchVisits.BlockedVisits` | software/pbqp/pbqp.cpp:1322-1335 | a blocked problem takes a single visit |
| `Capacity.FullExactly` | software/pbqp/pbqp.cpp:178-200 | R2 runs out of slots if and only if its neighbours are not joined and all slots are active |
| `Capacity.ReduceAllRoom` | tools/pbqp_run.cpp:261-264 | with a spare slot or a slot per pair, a whole run never lacks a fill slot and keeps that room |
| `Capacity.ExploreRoom` | software/pbqp/pbqp.cpp:1305-1446 | with room the search, pruned or not, never reports a capacity error |
| `Capacity.FullPathFails` | software/pbqp/pbqp.cpp:997-1003 | a three-node path with two edge slots on which exact reduction fails |
| `Blocking.ReduceAllFullExactly` | software/pbqp/pbqp.cpp:1322-1335 | a run of exact reductions runs out of slots if and only if every slot is in use and the first linked node has two neighbours that are not joined |
| `Blocking.ExploreFullExactly` | software/pbqp/pbqp.cpp:1305-1446 | the search, pruned or not and under every incumbent, runs out of slots exactly on the same problems |
| `Blocking.ConditionFrees` | software/pbqp/pbqp.cpp:698-744 | fixing a node with an edge leaves a slot to spare |
| `Blocking.NoneLinkedBefore` | software/pbqp/pbqp.cpp:76-83 | before the first linked node of `Blocking.Blocked`, and anywhere if there is none, active nodes have no edge or more than two |
| `Enumeration.EnumerateComplete` | software/pbqp/pbqp.cpp:1124-1161 | enumeration misses no assignment of the active nodes |
| `EnumerationOrder.EnumerateKeeps` | software/pbqp/pbqp.cpp:1124-1161 | enumeration keeps the lexicographically first of the cheapest assignments, or the incumbent if nothing is cheaper |
| `EnumerationOrder.CallsCounted` | software/pbqp/pbqp.cpp:1124-1161 | one call for every combination of values of the first nodes, for every number of them |
| `Enumeration.CoreOptimal` | software/pbqp/pbqp.cpp:425-440 | reduce, enumerate the core, reconstruct: the true optimum of the original problem, attained |
| `Descent.ScoreCompares` | software/pbqp/pbqp.cpp:585-606 | comparing local scores of two values compares the whole objectives |
| `Descent.LocalShare` | software/pbqp/pbqp.cpp:581-606 | the objective is what a node pays, its entry and those of its edges, plus what does not depend on its value |
| `Descent.FirstLeastScore` | software/pbqp/pbqp.cpp:607-630 | the first least score belongs to the first value at which the node pays least, and is below the current one exactly when the node then pays less |
| `Descent.MoveLowersMeasure` | software/pbqp/pbqp.cpp:629-635 | an accepted move lowers (forbidden terms, finite sum) even where the objective stays infinite |
| `Descent.SettledIsOptimal` | software/pbqp/pbqp.cpp:578-637 | a sweep without a move ends where no single change improves the objective |
| `Kernels.Min2` | software/pbqp/pbqp.cpp:1499-1514 | refuses exactly when some addition is refused; otherwise minimum and first index of the sums |
| `Kernels.Min3` | software/pbqp/pbqp.cpp:1516-1533 | the same for three vectors |
| `Kernels.Min2Value` | software/pbqp/pbqp.cpp:1543-1555 | the same minimum without the index |
| `Kernels.CostAddVector` | software/pbqp/pbqp.cpp:1573-1589 | all or nothing: refuses on unequal lengths or any refused sum, otherwise the vector of sums |
| `Kernels.MinplusProject` | software/pbqp/pbqp.cpp:1591-1609 | one minimum per matrix row, refusing exactly when a row does |
| `Kernels.Map3Project` | software/pbqp/pbqp.cpp:1611-1633 | one minimum and first index per row of the varying matrix |
| `Kernels.Map3ProjectBatch` | software/pbqp/pbqp.cpp:1646-1653 | vector jobs side by side give the minima of all pairs in row-major order |
| `Kernels.Min3Pairs` | software/pbqp/pbqp.cpp:1050-1069 | scalar jobs, one per pair, give the same list and refuse the same inputs |
| `Kernels.PairJobsAnswers` | software/pbqp/pbqp.cpp:1018-1069 | the scalar job list asks for exactly the minima of the vector jobs |
| `Heuristic.ScoreAccepted` | software/pbqp/pbqp.cpp:746-887 | on a safe graph no projection and no accumulation of an RN score is refused, and each is exact |
| `Stars.ScoreIsLeast` | software/pbqp/pbqp.cpp:778-880 | the score of a value is the least cost of the node, its edges and its neighbours over all assignments that give the node this value, and is attained |
| `Stars.ChoiceIsFirstLeast` | software/pbqp/pbqp.cpp:778-887 | the value RN fixes is the first whose cheapest such cost is cheapest of all |
| `Heuristic.ScorePerEdge` | software/pbqp/pbqp.cpp:831-856 | per-edge batches give the RN scores, which are the least costs of `Stars.ScoreIsLeast` |
| `Heuristic.ScorePerNode` | software/pbqp/pbqp.cpp:871-880 | one batch for all edges, accumulated afterwards, gives the same scores and refuses the same inputs |
| `Heuristic.ScoreVector` | software/pbqp/pbqp.cpp:800-870 | project/add vector jobs give the same scores; they also refuse a sum out of range |
| `Heuristic.ScoringAccepted` | software/pbqp/pbqp.cpp:746-887 | on a safe graph all three ways are accepted |
| `Heuristic.FirstCheapest` | software/pbqp/pbqp.cpp:882-887 | the chosen value is the first with the least score |
| `Problems.Problem.FindEdge` | software/pbqp/pbqp.cpp:50-59 | the first active slot joining the pair |
| `Problems.Problem.NeighborCount` | software/pbqp/pbqp.cpp:61-74 | the degree and the first two incident slots |
| `Problems.Problem.FindReducibleNode` | software/pbqp/pbqp.cpp:76-83 | the first active node of degree at most two |
| `Runs.NoneReducibleBefore` | software/pbqp/pbqp.cpp:76-83 | no active node before the one found has degree at most two |
| `Problems.Problem.SelectRnNode` | software/pbqp/pbqp.cpp:135-171 | the first most preferred active node under each policy |
| `Problems.Problem.AddFillEdge` | software/pbqp/pbqp.cpp:178-200 | claims the first free slot for a zero matrix, or changes nothing |
| `Capacity.NoneFreeBefore` | software/pbqp/pbqp.cpp:178-200 | every slot before the one claimed is in use |
| `Problems.Problem.ReduceR0` | software/pbqp/pbqp.cpp:914-934 | in place, the state after R0 |
| `Problems.Problem.ReduceR1` | software/pbqp/pbqp.cpp:936-984 | in place, the state after R1; a kernel error exactly when an addition is refused |
| `Problems.Problem.ReduceR2` | software/pbqp/pbqp.cpp:986-1105 | in place, the state after R2 by the scalar or the vector path; a capacity error exactly when no slot is left, a kernel error exactly when a slot is found and an addition is refused |
| `Problems.Problem.ConditionNode` | software/pbqp/pbqp.cpp:698-744 | in place, the conditioned state; an argument error exactly for an inactive node or a value out of range |
| `Problems.Problem.ReduceRN` | software/pbqp/pbqp.cpp:746-912 | in place, the node fixed to its first best score, the same under every batching; never refused on a safe graph |
| `Problems.Problem.ReduceNode` | software/pbqp/pbqp.cpp:392-416 | dispatch by degree; on a safe graph the only failure is a missing fill slot |
| `Problems.GoodAccepted2` | software/pbqp/pbqp.cpp:1018-1069 | on a safe graph no kernel refuses an addition of R2 |
| `Evaluation.EvaluateActiveCore` | software/pbqp/pbqp.cpp:1107-1122 | skipping inactive terms computes the sum over all terms |
| `Evaluation.Evaluate` | software/pbqp/pbqp.cpp:1726-1739 | on every problem, the saturating sum of all stored unary entries, active or not, and the active edges; on a problem with all nodes active and no offset, the exact objective |
| `StaleCosts.FoldClosed` | accelerator/src/cost_math.cpp:8-36 | a left-to-right saturating sum of any 32-bit costs is infinite exactly when a term is or the lifted sum reaches infinity on the way, and otherwise the exact sum plus what clamping at the least cost lifts it |
| `StaleCosts.EvaluatedExactly` | software/pbqp/pbqp.cpp:1726-1739 | for all stored 32-bit costs: the result equals the cost of the active part, or the objective, exactly when the active part is infinite, or nothing saturates and stale terms and lift add up to zero, or to the offset |
| `StaleCosts.EvaluatedMeans` | software/pbqp/pbqp.cpp:1726-1739 | its reading while all stored costs are in range: the result is the cost of the active part plus the stale terms |
| `StaleCosts.OneSidedMeans` | software/pbqp/pbqp.cpp:1726-1739 | its reading where the selected stale costs do not differ in sign: equal to the active part exactly when that is infinite or each of them is zero |
| `StaleCosts.StaleEvaluation` | software/pbqp/pbqp.cpp:1726-1739 | an R0-reduced problem on which the evaluation is neither the active part nor the objective |
| `StaleCosts.ClampedCancels` | software/pbqp/pbqp.cpp:1726-1739 | stored costs, outside what building accepts, on which the lift makes up for stale terms that do not add up to zero |
| `Evaluation.RemainingCoreLowerBound` | software/pbqp/pbqp.cpp:1269-1303 | the loops compute the relaxation bound |
| `Evaluation.ReconstructSolution` | software/pbqp/pbqp.cpp:1448-1473 | in place, the replay of all records, last first |
| `Evaluation.EnumerateActiveCore` | software/pbqp/pbqp.cpp:1124-1161 | in place, the first cheapest assignment, whatever later entries held, or stopped exactly when the limit lies before the end of its calls; only active entries from the current node on change |
| `Solvers.SolveBranchAndReduce` | software/pbqp/pbqp.cpp:1305-1446 | recursion over conditioned clones returns what the search function says, and stops at the search limit exactly when the visits it needs exceed it |
| `Solvers.ReduceAll` | software/pbqp/pbqp.cpp:1322-1335 | the reduction loop ends in the fully reduced state or reports the missing slot |
| `LocalSearch.DescendNode` | software/pbqp/pbqp.cpp:580-635 | moves exactly when some value makes the node pay strictly less, and then to the first value at which it pays least; otherwise the node is settled |
| `LocalSearch.RunLocalDescent` | software/pbqp/pbqp.cpp:566-643 | sweeps the nodes in order until nothing moves, and terminates; local optimum, never costlier than its start, reported cost is the evaluation |
| `LocalSearch.SolveLocalSearch` | software/pbqp/pbqp.cpp:645-679 | the first of the cheapest local optima found, with its exact cost, no worse than the all-zero assignment; one restart per nonzero value of each node, in order, each the descent from what the previous one left |
| `LocalSearch.StartsFromChange` | software/pbqp/pbqp.cpp:655-675 | a restart starts from a single change of the all-zero assignment exactly when what the previous descent left is zero at all other nodes |
| `LocalSearch.RestartElsewhere` | software/pbqp/pbqp.cpp:655-675 | a two-node problem on which every run restarts elsewhere |
| `Strategies.SolveExact` | software/pbqp/pbqp.cpp:360-439 | what every status of the exact strategies says about the problem before the call; a capacity error exactly on blocked problems, and a search limit exactly when the strategy needs more search nodes than allowed |
| `Strategies.SolveHeuristicRN` | software/pbqp/pbqp.cpp:360-416 | the RN strategy's offset is the exact cost, on the untouched problem, of its assignment; a capacity error exactly on blocked problems |
| `RnRuns.FixesForemost` | software/pbqp/pbqp.cpp:360-390 | where no node has fewer than three edges, the run goes on from the problem in which the foremost node under the policy is fixed to the first value with the cheapest star |
| `RnRuns.ReducesFirst` | software/pbqp/pbqp.cpp:358-416 | otherwise it goes on from the exact elimination of the first node with fewer than three edges, or fails with it |
| `Strategies.RnRunRoom` | software/pbqp/pbqp.cpp:360-416 | with room an RN run always finishes |
| `Strategies.RnRunFullExactly` | software/pbqp/pbqp.cpp:360-416 | an RN run fails exactly on blocked problems |
| `Strategies.SolveHybrid` | software/pbqp/pbqp.cpp:310-336 | the hybrid never worsens the RN result and ends in a local optimum; it is where descent from the RN assignment ends |
| `Strategies.SolveLocal` | software/pbqp/pbqp.cpp:345-347 | local search alone: a capacity error exactly without nodes, otherwise the first of the cheapest local optima of the descent from zero and the restarts in order |
| `Strategies.ReportedIsEvaluated` | software/pbqp/pbqp.cpp:1726-1739 | the reported cost is what evaluating the returned assignment on the untouched problem gives |
| `GuestMemory.FromToBytes` | pcaalib/src/codec.c:12-43 | reading back a stored little-endian value gives it |
| `GuestMemory.ToFromBytes` | pcaalib/src/codec.c:12-43 | storing a value that was read gives the same bytes |
| `Commands.SpanExact` | pcaalib/src/codec.c:57-69 | the overflow tests accept exactly the views whose last byte is addressable |
| `Codec.LayoutExtent` | pcaalib/src/codec.c:71-120 | each format's fields fill its two, three or four slots |
| `Codec.CanonicalValid` | pcaalib/src/codec.c:310-317 | swapping the sources of an aliased addition keeps validity, opcode and format |
| `Codec.DecodeEncode` | pcaalib/src/codec.c:274-457 | decoding an encoded valid command, whatever follows, gives it back up to the aliased-source swap and its exact size |
| `Codec.EncodeDecode` | pcaalib/src/codec.c:365-457 | encoding a decoded command gives back exactly the accepted bytes |
| `WireLayouts.EncodesExactly` | doc/arch.md:161-173 | the encoding of a valid command is the documented descriptor and the only one: opcode, format, dimensions, addresses, strides and reserved zeros, each at its documented offset as a little-endian number |
| `WireLayouts.DecodesExactly` | pcaalib/src/codec.c:365-457 | the decoder accepts exactly the documented descriptors of valid commands at the front of the bytes, an addition in place with its target first |
| `Validity.ValidExactly` | pcaalib/src/codec.c:126-261 | accepted are exactly the commands of matching dimensions that fit their fields, touch only addressable bytes, and whose output spans clear their sources or add in place |
| `Validity.StatusExactly` | pcaalib/src/codec.c:126-261 | of the others, those with a number too large for its field are out of range and the rest invalid |
| `Streams.WalkEncoded` | pcaalib/src/codec.c:481-502 | walking an encoded stream recovers every command and takes exactly its bytes |
| `Streams.EncodedWalk` | pcaalib/src/codec.c:365-457 | a stream that can be walked is the encoding of the commands found |
| `Streams.StreamLength` | pcaalib/src/codec.c:459-479 | the measured size is the length of the encoding |
| `Streams.EncodedStreamSize` | pcaalib/src/codec.c:459-479 | accepted exactly when the list is not empty, all commands are valid primitives and count and bytes fit 32 bits; otherwise the error of an empty list, of an overlong one, or of the first command that is a batch, is invalid (with its own status) or makes the total overflow |
| `Streams.FaultsAgree` | pcaalib/src/codec.c:466-476 | the first fault of a list, and so its error, is unique |
| `Streams.EncodeOne` | pcaalib/src/codec.c:274-363 | status, and the bytes of the buffer after encoding in place, which are those of `WireLayouts.EncodesExactly` |
| `Streams.EncodeStream` | pcaalib/src/codec.c:481-502 | success exactly when the list is streamable and fits, and then the buffer starts with the whole encoding; no space for a streamable list that does not fit; otherwise the error of measuring, and an untouched buffer |
| `Semantics.ValidIndependent` | pcaalib/src/codec.c:126-261 | the validity rules make every output independent of earlier outputs, exact in-place addition included |
| `Semantics.ElementKept` | accelerator/src/accelerator.cpp:339-360 | storing outputs does not change what later outputs are computed from |
| `Meanings.CommandMeans` | doc/arch.md:246-449 | a valid primitive completes with a memory exactly when every output holds the least of its sums of documented operands, followed by the first column that has it where an index is asked for, and no other byte differs; it fails exactly when some cost cannot be read or added or some output written |
| `Meanings.CostExactly` | accelerator/include/accel_protocol.h:56-67 | a stored cost is the 32-bit two's complement number of its four bytes, lowest first |
| `Executor.Reduce` | accelerator/src/accelerator.cpp:243-268 | the element loop of a reduction computes minimum and first index, failing exactly on an unreadable or refused element |
| `Executor.VectorOutput` | accelerator/src/accelerator.cpp:292-337 | one output of a vector command, likewise |
| `Executor.L0.ExecuteVectorCommand` | accelerator/src/accelerator.cpp:339-360 | DONE exactly when the specification says so, with its memory; failures touch only outputs |
| `Executor.L0.ExecuteCommand` | accelerator/src/accelerator.cpp:220-290 | every primitive: DONE exactly when the specification of `Meanings.CommandMeans` says so, with its memory; failures touch only outputs; a batch is refused here |
| `Transfers.RejectsExactly` | accelerator/src/l2_accelerator.cpp:193-197 | the engine's range test accepts exactly the transfers whose bytes avoid null, overflow and its own registers |
| `Transfers.TransferRead` | accelerator/src/l2_accelerator.cpp:193-241 | succeeds exactly when the bytes may be touched and read, returns them, and counts one request per piece; requests tile the transfer and never cross an aligned beat |
| `Transfers.TransferWrite` | accelerator/src/l2_accelerator.cpp:193-241 | stores all bytes or, on failure, a writable prefix of them |
| `Transfers.Load` | accelerator/src/l2_accelerator.cpp:365-409 | contiguous assembly across beats and strided gather both load the view's costs, or fail exactly when a cost cannot be read or touched, charging four bytes per cost |
| `Lanes.RunTree` | accelerator/src/l2_accelerator.cpp:437-453 | the in-place pairwise tree with odd tails leaves the best live lane first, for every count and width |
| `Lanes.MergeGroup` | accelerator/src/l2_accelerator.cpp:437-460 | merging a group into a state that starts at {INF, 0} gives minimum and first index of the longer row, all-INF rows included |
| `Lanes.AddGroup` | accelerator/src/l2_accelerator.cpp:411-435 | one lane group: refused exactly when an addition is; sums in the lanes and written back |
| `Lanes.ReduceChunk` | accelerator/src/l2_accelerator.cpp:556-575 | a chunk of a row in groups of any lane count extends the row state by its sums |
| `Engine.ChunkExtends` | accelerator/src/l2_accelerator.cpp:525-571 | a loaded chunk extends the accepted part of its row by exactly its sums |
| `Engine.ReduceRow` | accelerator/src/l2_accelerator.cpp:518-575 | a reduction in chunks of any size computes the row's minimum and first index, and the work done |
| `Engine.ProjectTile` | accelerator/src/l2_accelerator.cpp:518-575 | all chunks of a tile leave each row's result in its state, and the work done: bytes, lane groups, merges and lane elements |
| `L2Engine.RunProjection` | accelerator/src/l2_accelerator.cpp:518-582 | a projection in tiles leaves the specified memory or fails like it, with its whole work |
| `L2Engine.RunAddition` | accelerator/src/l2_accelerator.cpp:525-577 | an addition in chunks, read before written, leaves the specified memory, in place or not, with its whole work |
| `L2Engine.L2.Primitive` | accelerator/src/l2_accelerator.cpp:472-584 | every primitive: DONE exactly when the specification says so, with its memory and exactly its bill; failures touch only outputs; only a command that completes need avoid the registers |
| `L2Engine.TrafficClosed` | scripts/l2_report.rb:122-165 | operand and result bytes of every primitive; a projection reads 4*(m*n + s*n*ceil(m/tm)) operand bytes for s shared vectors |
| `L2Engine.WorkClosed` | accelerator/src/l2_accelerator.cpp:411-460 | lane groups, merges and lane elements of every primitive: a pass over the row for every sum of two costs, the sums of two shared vectors once per tile, one merge per group of every reduced row |
| `L2Engine.RowGroupsClosed` | accelerator/src/l2_accelerator.cpp:525-560 | a row of full chunks and a rest takes the lane groups of each |
| `L2Engine.TilesCeiling` | accelerator/src/l2_accelerator.cpp:518-521 | the number of tiles is the number of rows over `tm`, rounded up |
| `Meters.CyclesExplained` | accelerator/src/l2_accelerator.cpp:170-241 | total cycles are the sum of the phase cycles, waits are requests times (latency + acceptance delay), and every cycle is explained by requests, addition passes, merges and their trees, output checks, decode, drain and control |
| `Meters.RequestBalanced` | accelerator/src/l2_accelerator.cpp:208-239 | every request keeps all counters in balance: two cycles of its own phase each, requests and lane slots partitioned |
| `Meters.SettledReport` | scripts/l2_report.rb:123-137 | when all submissions completed: bytes moved are bytes asked for, descriptor requests are headers and bodies, two decodes per command, every child drained |
| `Meters.LevelsExact` | accelerator/src/l2_accelerator.cpp:441-453 | the tree takes the base-two logarithm of the lane count, rounded up |
| `Meters.GroupsExact` | accelerator/src/l2_accelerator.cpp:556-557 | a chunk takes its columns over the lanes, rounded up |
| `Batches.ChildFromStart` | accelerator/src/accelerator.cpp:189-209 | because the stream is untouched, each child is the one encoded there when the batch began |
| `Validity.FetchExactly` | accelerator/src/accelerator.cpp:143-157 | a device finds a command exactly where its bytes can be read, within what is available and below 2^64, and are the documented descriptor of a well-formed command |
| `Batches.ChildKeepsGuard` | pcaalib/src/pcaa.c:120-171 | a checked child leaves stream and descriptor bytes alone, even when it fails |
| `Validity.HitsExactly` | pcaalib/src/pcaa.c:120-171 | the protection test is positive exactly when some output of the command has a byte in the range |
| `Batches.StopsExactly` | doc/arch.md:325-328 | a run stops at child i exactly when the children before it complete, leaving the memory and place it stops with, and child i does not |
| `Batches.BatchLeavesAt` | doc/arch.md:325-334 | after any batch, every byte is that of the completed children under the completion record, except the outputs of the child it stopped at and a record that cannot be written |
| `Batches.FailStop` | doc/arch.md:326-329 | after a failure at child i the children before it have completed and keep their results, none after it ran, and the record is (i, i) |
| `Devices.ReadCommand` | accelerator/src/accelerator.cpp:143-157 | header, then body: the command at an address within the available bytes |
| `Devices.OutputHits` | pcaalib/src/pcaa.c:120-171 | whether any addressed output element meets a range |
| `Validity.ConflictsExactly` | accelerator/src/accelerator.cpp:159-170 | a batch is refused at once exactly when its record shares a byte with its stream or its descriptor |
| `Devices.ExecuteBatchL0` | accelerator/src/accelerator.cpp:159-218 | ordered and fail-stop: completion record (count, MAX), (i, i) or (count, count) over the memory of the completed children, where a failing child may have changed only its own outputs and an unwritable record at most a writable prefix of its bytes; guarded bytes unchanged |
| `Devices.ExecuteBatchL2` | accelerator/src/l2_accelerator.cpp:324-363 | the same for the engine, with exactly the work of its children and record; what a batch does not complete need not avoid the registers |
| `Devices.ExecuteL0` | accelerator/src/accelerator.cpp:127-141 | what a doorbell on the functional device does to status and memory, on success and on failure |
| `Devices.ExecuteL2` | accelerator/src/l2_accelerator.cpp:271-289 | what a doorbell on the engine does to status and memory, on success and on failure, for every configuration and every memory on which the accesses of completed commands avoid its registers, with the work of a completed submission |
| `Devices.DevicesAgree` | doc/arch.md:309-341 | the rules leave no freedom in status, in memory on success, or after a failure in any byte but the outputs of the failing command and a record that cannot be written |
| `Devices.RunBoth` | accelerator/src/l2_accelerator.cpp:365-584 | L2 refines L0: same status, the same memory on DONE, and on ERROR the same bytes except the outputs of the failing command and a record that cannot be written |
| `Devices.MemoryAvoids` | accelerator/src/l2_accelerator.cpp:193-197 | on memory apart from the engine's registers every submission avoids them |
| `Devices.BatchDescriptors` | scripts/l2_report.rb:154-164 | a completed batch fetched its own descriptor and its whole child stream, no more |
| `StreamBatches.BatchRunsCommands` | pcaalib/src/systemc_device.cpp:77-121 | a batch whose stream is an encoding runs exactly the encoded commands, in order, and takes the whole stream |
| `GuestStaging.RegionsApart` | tools/pbqp_model_kernel.cpp:71-89 | staged regions never overlap |
| `GuestStaging.Area.Allocate` | tools/pbqp_model_kernel.cpp:71-89 | the next aligned bytes above everything staged, growing memory up to its limit; nothing exactly when they do not fit |
| `GuestStaging.Area.CopyView` | tools/pbqp_model_kernel.cpp:584-607 | the address given holds exactly the strided view, one copy per batch for equal views, and every earlier copy stays; the room it takes and the status it leaves |
| `GuestStaging.Area.CopyMatrix` | tools/pbqp_model_kernel.cpp:609-625 | the matrix, rows one after another, in a region of its own; a byte count that wraps at 64 bits takes the wrapped room and then fails as a write off the end of memory, with everything staged before intact |
| `VectorRuns.ProjectDoes` | software/pbqp/pbqp.cpp:1591-1609 | a projection command over staged operands fails exactly when the software kernel refuses, and leaves its row minima |
| `VectorRuns.AddDoes` | software/pbqp/pbqp.cpp:1573-1589 | an addition command over staged operands likewise |
| `ProjectJobs.SoftwareProjectAddBatch` | software/pbqp/pbqp.cpp:1635-1644 | in place, the jobs folded in order, refused exactly when that fold is |
| `ProjectAdd.JobRuns` | tools/pbqp_model_kernel.cpp:437-462 | the two commands of a job succeed exactly when its additions are accepted, then add its projection to its scores and keep everything else staged |
| `ProjectAdd.BatchFolds` | tools/pbqp_model_kernel.cpp:436-466 | a batch of the commands of all jobs finishes exactly when the fold is accepted, with every score block holding its total |
| `KernelPlans.BuildExactly` | tools/pbqp_model_kernel.cpp:448-462 | for staged operands only the shape decides: out of range above 16 bits, invalid without rows or columns or with a unary vector of another length, otherwise both commands are valid |
| `KernelPlans.BuiltStream` | tools/pbqp_model_kernel.cpp:638-645 | built commands fail to form a stream only by exceeding 32 bits, at 80 bytes a job |
| `KernelPlans.SpaciousOutcome` | tools/pbqp_model_kernel.cpp:426-466 | with room for operands, stream, record and descriptor: the first wrong shape is not built, an overlong stream is not submitted, and otherwise the kernel succeeds exactly when the fold is accepted |
| `KernelPlans.RowlessJob` | tools/pbqp_model_kernel.cpp:438-454 | a job without rows is accepted by the software kernel and cannot be built for the device |
| `DeviceKernel.DeviceFolds` | pcaalib/src/systemc_device.cpp:77-146 | the same for any device that follows the batch rules, with its completion record |
| `DeviceKernel.StageJobs` | tools/pbqp_model_kernel.cpp:436-463 | stages and builds exactly as the plan over shapes and room says, with its status at the first job that fails |
| `DeviceKernel.Submit` | pcaalib/src/systemc_device.cpp:77-121 | refused exactly for an overlong stream or lack of room, otherwise stream, record and descriptor lie above all operands |
| `DeviceKernel.ProjectAddBatch` | tools/pbqp_model_kernel.cpp:426-473 | on the functional device or the engine: the status is decided by shapes, room and whether the fold is accepted; success leaves the folded jobs on the host, anything else leaves the host alone |
| `DeviceKernel.CompareKernels` | tools/pbqp_model_kernel.cpp:426-473 | device and software kernels agree when jobs sharing a score vector use the same length and no input aliases it: once staged, built and submitted, which shapes and room decide, the device succeeds exactly when the software accepts, with the same scores |
| `BellmanFord.Shorten` | probes/src/bellman_ford.cpp:123-127 | without a negative cycle every walk can be cut to fewer edges than vertices at no cost |
| `BellmanFord.RelaxExact` | probes/src/bellman_ford.cpp:108-122 | one in-place pass: distances only fall, every edge is used, every value is a walk's weight, and whether anything changed |
| `BellmanFord.ImprovedCycle` | probes/src/bellman_ford.cpp:123-128 | an improvement after all rounds proves a reachable negative cycle |
| `BellmanFord.SettledNoCycle` | probes/src/bellman_ford.cpp:123-128 | no improvement proves there is none |
| `BellmanFord.SettledShortest` | probes/src/bellman_ford.cpp:129-136 | without a cycle the table holds exactly the shortest distances |
| `BellmanFord.Fits64` | probes/include/bellman_ford.h:47-50 | with fewer than 2^32 relaxations so far, no stored distance or candidate leaves 64 bits |
| `BellmanFord.PassLimit` | probes/include/bellman_ford.h:47-50 | the relaxations of a run number at most vertices times edges |
| `BellmanFord.NoOverflow` | probes/include/bellman_ford.h:47-50 | while vertices times edges stay below 2^32, every stored distance and every candidate of every pass, the detecting one included, is a 64-bit value other than the unreached mark |
| `BellmanFord.Oracle` | probes/src/bellman_ford.cpp:49-138 | both flags are exact for valid input, and false for invalid input; no pass of the run leaves 64 bits while vertices times edges stay below 2^32 |
| `Storage.BlocksApart` | software/pbqp/pbqp_storage.cpp:128-161 | live blocks and their headers are aligned, in bounds and disjoint |
| `Storage.StackedWrite` | software/pbqp/pbqp_storage.cpp:128-161 | writing inside a live block leaves every saved header alone |
| `Storage.PlaceBlock` | software/pbqp/pbqp_storage.cpp:132-144 | the wrap-around tests fail exactly when the aligned block does not fit capacity or address space |
| `Storage.NextExactly` | software/pbqp/pbqp_storage.cpp:128-149 | the offset found is the least aligned one behind a header; there is none exactly when every such offset is out of capacity or address space |
| `Storage.Arena.Allocate` | software/pbqp/pbqp_storage.cpp:128-149 | the new block, its saved header and the unchanged rest |
| `Storage.Arena.Deallocate` | software/pbqp/pbqp_storage.cpp:151-161 | freeing the newest block gives back all since its allocation; freeing another is ignored |
| `Storage.AddStorage` | software/pbqp/pbqp_storage.cpp:24-35 | the padded running total, failing exactly on overflow |
| `Storage.StorageSize` | software/pbqp/pbqp_storage.cpp:61-71 | the measuring pass gives the padded total of all sections or fails where one overflows |
| `Storage.ProblemArraysApart` | software/pbqp/pbqp_storage.cpp:44-110 | the arrays of a problem are aligned, disjoint and inside the measured size |
| `Storage.ProblemSlicesApart` | software/pbqp/pbqp_storage.cpp:104-125 | the unary vector of every node, the matrix of every edge and the eight statistics arrays never overlap and stay inside the measured size |

## Left out

- Edge matrices are rows of a square, not flat strided memory; node slots above the node count, and
  the stale tail of a reconstruction table, are absent.
- Solvers.SolveBranchAndReduce: failures of scratch allocation, which the code also reports as a search
  limit, are not modelled; nor are its statistics and trace events.
- Strategies.SolveExact: scratch allocation failures and the argument checks on null pointers and a
  short assignment array are absent; nothing is said about the answer when the search limit stops it,
  because the code promises nothing then.
- StaleCosts.EvaluatedMeans: only stored costs in range, as StaleCosts.EvaluatedExactly covers the others.
- StaleCosts.OneSidedMeans: only stale costs of one sign, as StaleCosts.EvaluatedExactly covers the others.
- StaleCosts.ClampedCancels: its costs are given, not reached by reductions from an accepted problem.
- `pbqp_bruteforce` is the enumeration above without a limit and over all nodes.
- Of the device kernels in `tools/pbqp_model_kernel.cpp` only the project/add batch is modelled; the
  others stage and submit in the same way. Failing allocations of the host are absent; guest memory
  grows up to its limit or to 2^63 - 1 bytes.
- Registers, doorbells, SystemC time and diagnostics are absent, and so are the counters of tiles,
  chunks, splits, gathers, shared rereads and cycles per opcode; counters do not wrap around.
- Devices.ExecuteL2: memory is a map of bytes with read-only addresses; bytes that can be written
  but not read are not modelled.
- BellmanFord.Oracle: the 32-bit distances and predecessors are absent; arithmetic is unbounded, and
  `BellmanFord.NoOverflow` shows where 64 bits suffice.
- Storage.ProblemArraysApart: sizes of the node and edge records are parameters.
- Text input and output, the graph generator, timing formulas and the report scripts.
