# tsBNgen sampling engine in Dafny

This project models the sampling engine of tsBNgen (`tsBNgen/tsBNgen.py`) and proves
properties of the model. tsBNgen generates time series from a dynamic Bayesian network
given by four things:
- an adjacency matrix `Mat`;
- node types in `Node_Type`, where 'D' is discrete and 'C' is continuous;
- level counts in `N_level`;
- three phases, each a parent dictionary with a CPD dictionary: `Parent`/`CPD` at
  time 0, `Parent2`/`CPD2` for the recurring steps, and `Parent3`/`CPD3` for the
  secondary recurring steps after the switch point.

Loopback dictionaries (`loopbacks`, `loopbacks2`) declare which past samples of a parent
a node reads.

The model follows the program's structure, one module per concern:

- `Topology`: the graph. It covers `np.nonzero`, `zero_loc`, `Child`, the in-degrees,
  `Roots_length`, walks, reachability and acyclicity, plus the invariant of Kahn's loop
  in `DAG_ordering`.
- `Keys`: `str`, `int_to_str` and the CPD and loopback keys built from them.
- `Validation`: `Valid_BN`.
- `MixedRadix`: `Level_multiplied` and `continous_cpd`, the mixed-radix composite row
  index. An independent decoder serves as its inverse.
- `Lag`: loopback lag resolution. Python negative indexing, the lag offset `-1-mm`
  (earlier parent) or `-1-(mm-1)` (otherwise), the deletion of consumed keys, and a
  reference meaning of a lag in terms of series steps.
- `Sampling`: the reference for one node step (`Prepare`): the parent lookup, the role
  test, the discrete-parent context, the CPD entry selected and the draw. It also holds
  the predicates that tie a whole step to it (`NodeStep`, `DrawnUpTo`, `StepFaithful`).
- `Schedule`: the phases served by one series, and `max` over the declared lags.
- `Generator`: the class `TsBNgen`. Its fields are what the source updates in place:
  - `Node` (the buffers), `top_order` and `Role`;
  - `flag` (the phase), the two loopback dictionaries;
  - `all_parents`, `parent_N_level`, `level_multiply` and `BN_Nodes`.

  Its methods are the loops of `DAG_ordering`, `BFS`, `Role_Assignment`,
  `Multinomial_Select`, `Level_multiplied`, `Initial_sample`, `BN_sample`,
  `BN_sample_loopback`, `BN_data_gen` and `BN_sample_gen_loopback`. Each is proved
  against the functions of the modules above.

Randomness is a nondeterministic choice. `np.random.multinomial(1, dist)` is any one-hot
vector of the distribution's length, so `Multinomial_Select` returns some level in
`1..len(dist)`. `np.random.normal` is any real, and continuous samples are opaque. The
exceptions the source can raise become an `Error` value:
- IndexError on a buffer, on `Role` or on a CPD table;
- KeyError on a parent or CPD dictionary;
- the `Valid_BN` exception;
- ValueError from `top_order.index` or from `max` of no lag;
- AttributeError when `top_order` does not exist yet.

Methods return an `Outcome` or a `Result`. A failure before any draw leaves the buffers
alone: `Valid_BN`, `Role_Assignment` or a missing `top_order` (AttributeError). So does a
failing node step. A step of `Initial_sample`, `BN_sample` or `BN_sample_loopback` appends
node by node, however, so when it fails at node `q` the samples of the nodes before `q`
in the order stay appended (`Generator.TsBNgen.SampleAll`).

Behaviour of the code that the model reproduces as written:
- `Role_Assignment` writes `Role[ii]` for an ordered root `ii`. When a cycle has
  shortened `top_order` below `ii`, this raises IndexError, before `flag` is set.
- The parent list of every ordered node is looked up first, when its CPD key is built.
  This gives a KeyError even for a continuous node, which `Valid_BN` skips.
- The second branch of `BN_sample` restores the dictionary inside the parent loop
  (line 553). The other branches restore it after the loop. `Lag.ResolveDistinctParents`
  proves the two agree whenever the parent list has no repeated parent.
  `Lag.RepeatedParentDiffers` shows the repeated-parent case where they differ.
- `BN_sample_loopback` runs `Valid_BN(Parent3)` against the old order before
  `DAG_ordering` recomputes it. `Validation.CheckParentsSameNodes` and
  `Generator.SameNodes` prove the verdict is the same for both orders.
- `BN_sample_gen_loopback` evaluates `max` over `loopbacks2`'s lags even when
  `custom_time` is set, so no declared lag means a ValueError in both branches.
- The schedule is modelled for every switch point. With `1 <= switch <= T` a series has
  exactly `T` steps: step 0 runs `Initial_sample`, the steps of `range(1, switch)` run
  `BN_sample` and the steps of `range(switch, T)` run `BN_sample_loopback`
  (tsBNgen/tsBNgen.py:804-808 and 814-818, `Schedule.GenScheduleMatchesPhases`). With all lags 0 the switch
  point is 0 and a series has `T + 1` steps; a switch point beyond `T` also lengthens
  the series (`Schedule.GenScheduleOverrun`).
- A lag of 0 for a parent at or after the child reads that parent's first sample,
  `Node[jj][0]` (`Lag.LagZeroAtOrAfterReadsFirst`). The reference meaning of a lag,
  `Lag.StepValues`, therefore admits lag 0 only for an earlier parent.
- `int_to_str` is not injective (`Keys.IntToStrNotInjective`), and loopback keys of
  different children can collide (`Keys.LoopbackKeyCollision`).

## Model

| member | source | states |
|---|---|---|
| Keys.NatToStr | tsBNgen/tsBNgen.py:388 | `str(ii)` of a node id is a non-empty string of decimal digits |
| Keys.ParseNatToStr | tsBNgen/tsBNgen.py:388 | reading the digits of `str(n)` back recovers `n`, so `str` is invertible on node ids |
| Keys.NatToStrInjective | tsBNgen/tsBNgen.py:388 | distinct node ids have distinct keys `str(ii)` in the parent dictionaries |
| Keys.IntToStrAppend | tsBNgen/tsBNgen.py:337-340 | `int_to_str` of a concatenation is the concatenation of the two parts' strings |
| Keys.IntToStrNotInjective | tsBNgen/tsBNgen.py:337-340 | `[1, 11]` and `[11, 1]` both give "111", so CPD keys of different parent lists can coincide |
| Keys.LoopbackKeyInjective | tsBNgen/tsBNgen.py:507 | for one child, distinct parents have distinct loopback keys `int_to_str(jj) + str(ii)` |
| Keys.LoopbackKeyCollision | tsBNgen/tsBNgen.py:507 | the relations 1 -> 11 and 11 -> 1 share the loopback key "111" |
| Keys.IntToStr | tsBNgen/tsBNgen.py:337-340 | `int_to_str` of a list of node ids: a digit string, empty exactly for the empty list and at least one digit per id |
| Keys.ContextKey | tsBNgen/tsBNgen.py:388 | the CPD key `int_to_str(Parent[str(ii)]) + str(ii)`: a digit string with at least one digit per parent plus one for the node |
| Keys.LoopbackKey | tsBNgen/tsBNgen.py:507 | the loopback key `int_to_str(jj) + str(ii)`: a digit string of at least two digits |
| Seqs.IndexOf | tsBNgen/tsBNgen.py:509 | `top_order.index(jj)` exists exactly when `jj` is in the order, and is then the first position holding `jj` |
| Topology.Nonzero | tsBNgen/tsBNgen.py:253 | `np.nonzero(row)[0]` holds exactly the positions of the non-zero entries, strictly increasing |
| Topology.ZeroLoc | tsBNgen/tsBNgen.py:170 | `zero_loc` holds exactly the indices of the zero entries, strictly increasing |
| Topology.ZeroLocCount | tsBNgen/tsBNgen.py:170 | `zero_loc` finds as many indices as the list has zero entries |
| Topology.Child | tsBNgen/tsBNgen.py:252-254 | `Child(Row)` holds exactly the targets of the edges leaving `Row`, all node ids, strictly increasing |
| Topology.Column | tsBNgen/tsBNgen.py:204 | `Mat.iloc[:, v]` has one entry per row, and entry `r` is `Mat[r][v]` |
| Topology.InDegrees | tsBNgen/tsBNgen.py:220 | `np.count_nonzero(Mat, axis=0)` has one count per node |
| Topology.InDegreesCountParents | tsBNgen/tsBNgen.py:220 | the in-degree of every node is the number of its parents |
| Topology.SumZero | tsBNgen/tsBNgen.py:204 | a sum of non-negative entries is non-negative, and is 0 exactly when every entry is 0 |
| Topology.ColumnSumZeroIffRoot | tsBNgen/tsBNgen.py:204 | for a non-negative matrix, a column sums to 0 exactly when its in-degree is 0, exactly when the node has no parent |
| Topology.AcyclicIffUntainted | tsBNgen/tsBNgen.py:235 | no walk repeats a node exactly when no node lies on or below a cycle |
| Topology.ClosedHoldsReachable | tsBNgen/tsBNgen.py:146-154 | a child-closed node list that holds `Row` holds every node reachable from `Row` |
| Topology.PathIntoOrder | tsBNgen/tsBNgen.py:219-236 | a walk that ends inside a parents-first order lies inside it at increasing positions and repeats no node |
| Topology.NoSourceTainted | tsBNgen/tsBNgen.py:225-232 | when every node of a set has a parent inside the set (the nodes Kahn's loop never frees), every node of the set lies on or below a cycle |
| Topology.KahnStart | tsBNgen/tsBNgen.py:220-224 | the in-degree list and the queue seeded by `zero_loc` satisfy the loop invariant with an empty order: in-degrees count unvisited parents, queued nodes are exactly those at 0 |
| Topology.KahnPop | tsBNgen/tsBNgen.py:226-228 | popping the queue's head, a node not yet ordered, and appending it to the order keeps parents first and enters the neighbour loop's invariant |
| Topology.KahnRelax | tsBNgen/tsBNgen.py:229-232 | decrementing one child's in-degree and queueing it when it reaches 0 keeps the neighbour loop's invariant |
| Topology.KahnResume | tsBNgen/tsBNgen.py:229-232 | after the last child the loop invariant between pops holds again |
| Topology.KahnDone | tsBNgen/tsBNgen.py:225-236 | when the queue runs dry the order is duplicate-free, parents first, holds exactly the nodes on no cycle and below no cycle, and holds every node exactly when the graph is acyclic |
| Topology.EdgesPointForward | tsBNgen/tsBNgen.py:219-236 | in a duplicate-free parents-first order every edge points from an earlier to a later position |
| Validation.NodeValid | tsBNgen/tsBNgen.py:360-362 | the condition `Valid_BN` enforces on one node: a continuous node always passes; a discrete node that passes has a parent list of discrete nodes only |
| Validation.CheckParents | tsBNgen/tsBNgen.py:360-362 | `Valid_BN` passes exactly when every ordered discrete node has a parent list with no continuous parent; it fails only with the exception or a KeyError; the exception implies an ordered discrete node with a continuous parent; with every list present, any failure is the exception |
| Validation.CheckParentsSameNodes | tsBNgen/tsBNgen.py:360-362 | two orders holding the same nodes get the same verdict |
| Validation.CheckParentsRejects | tsBNgen/tsBNgen.py:360-362 | Example: a discrete node whose only parent is continuous is rejected with the exception |
| MixedRadix.Multipliers | tsBNgen/tsBNgen.py:460-468 | `level_multiply` as a reference definition: `[1]` for no level, else entry `i` is the product of the level counts after position `i`; `MixedRadix.LevelMultiplied` proves the loop computes it |
| MixedRadix.WeightedSum | tsBNgen/tsBNgen.py:472-473 | `sum((v - 1) * m for v, m in zip(...))`, stopping at the shorter list; `MixedRadix.ExtraValuesIgnored` states the truncation |
| MixedRadix.CompositeIndex | tsBNgen/tsBNgen.py:470-473 | the row `continous_cpd` returns; its bounds, inverse `Decode` and injectivity are proved by the lemmas below |
| MixedRadix.PyInsert | tsBNgen/tsBNgen.py:468 | `list.insert` makes the list one longer, and past the end it appends |
| MixedRadix.LevelMultiplied | tsBNgen/tsBNgen.py:460-468 | `Level_multiplied` gives `[1]` for no levels and otherwise one entry per level, each the product of the strictly later levels, the last one 1 |
| MixedRadix.ProductPositive | tsBNgen/tsBNgen.py:464 | a product of positive level counts is at least 1 |
| MixedRadix.CompositeIndexCons | tsBNgen/tsBNgen.py:470-473 | the index of values `[v] + rest` is `(v - 1)` times the product of the later levels plus the index of `rest` |
| MixedRadix.CompositeIndexBounds | tsBNgen/tsBNgen.py:470-473 | for 1-based values within their level counts, `continous_cpd` lies in `[0, product of the levels)` |
| MixedRadix.Decode | tsBNgen/tsBNgen.py:470-473 | the reference decoder of a row index gives one value per level |
| MixedRadix.DecodeCompositeIndex | tsBNgen/tsBNgen.py:470-473 | decoding the index of in-range values gives the values back |
| MixedRadix.CompositeIndexDecode | tsBNgen/tsBNgen.py:470-473 | every row below the product of the levels is the index of exactly the decoded values, and those are in range |
| MixedRadix.CompositeIndexInjective | tsBNgen/tsBNgen.py:470-473 | distinct in-range parent values select distinct CPD rows |
| MixedRadix.CompositeIndexExamples | tsBNgen/tsBNgen.py:460-473 | Example: no levels give multipliers `[1]` and row 0; levels [2, 3] give multipliers [3, 1], values [1, 2] row 1 and values [2, 3] row 5 |
| MixedRadix.ExtraValuesIgnored | tsBNgen/tsBNgen.py:472 | `zip` stops at the shorter list: values beyond the multipliers do not change the index |
| Lag.PyIndex | tsBNgen/tsBNgen.py:511 | Python subscription succeeds exactly for positions in `-len..len-1`, counts negative positions from the end, and otherwise raises IndexError |
| Lag.Contribution | tsBNgen/tsBNgen.py:507-518 | one parent turn: with a loopback entry, ValueError when the parent is not in `top_order`, else one value per declared lag and exactly that entry deleted; without one, one value for another node and none for the node itself, with the dictionary unchanged |
| Lag.Resolve | tsBNgen/tsBNgen.py:506-521 | the parent loop threading the dictionary from parent to parent: the dictionary it leaves has no key the original lacked |
| Lag.ResolveMode | tsBNgen/tsBNgen.py:506-553 | the loop with the restore after it or inside it (line 553): no key is ever added, and with the restore inside the loop the dictionary comes back whole |
| Lag.StepValues | tsBNgen/tsBNgen.py:509-518 | the reference meaning of one relation during a step: one value per declared lag, the latest sample of another node without an entry, nothing for the node itself |
| Lag.LaggedReads | tsBNgen/tsBNgen.py:509-515 | the lag loop succeeds exactly when every offset is in range, and then reads one level per declared lag, lag `mm` at offset `-1-mm` (earlier parent) or `-1-(mm-1)` |
| Lag.SingleLagRead | tsBNgen/tsBNgen.py:509-515 | a single declared lag reads a single sample |
| Lag.ResolveEach | tsBNgen/tsBNgen.py:537-553 | with the restore inside the loop, the dictionary after the loop is the one before it |
| Lag.ResolveShape | tsBNgen/tsBNgen.py:506-521 | a resolved parent loop gives one level count per parent, `N_level` of that parent, and leaves exactly the parents' keys deleted |
| Lag.ContributionAgree | tsBNgen/tsBNgen.py:507-518 | what a parent contributes depends on the dictionary only through its own relation's key |
| Lag.ResolveDistinctParents | tsBNgen/tsBNgen.py:506-553 | for a parent list without repeats, restoring inside the loop (line 553) and after it (line 521) succeed together and read the same values and level counts |
| Lag.RepeatedParentDiffers | tsBNgen/tsBNgen.py:537-553 | Example: a parent listed twice reads its lagged sample twice with the restore inside the loop, and its lagged then its latest sample otherwise |
| Lag.ContributionAtStep | tsBNgen/tsBNgen.py:507-518 | in the middle of step `t`, both offsets reach the parent's sample of step `t - mm`, and a parent without an entry reads its sample of this step if already drawn and of the previous step otherwise; a self-parent without an entry reads nothing |
| Lag.ResolveAtStep | tsBNgen/tsBNgen.py:506-521 | in the middle of a step, the parent loop with one restore succeeds and reads exactly the reference values of every distinct parent |
| Lag.ResolveEachAtStep | tsBNgen/tsBNgen.py:537-553 | in the middle of a step, the parent loop restoring after every parent succeeds and reads exactly the reference values |
| Lag.LagExamples | tsBNgen/tsBNgen.py:511-515 | Example: lag 2 of an earlier parent reads the sample of two steps back; lag 1 of a later parent reads the previous step's sample |
| Lag.LagZeroAtOrAfterReadsFirst | tsBNgen/tsBNgen.py:514-515 | lag 0 of a parent at or after the child reads the first sample of its buffer |
| Sampling.ParentsOf | tsBNgen/tsBNgen.py:388 | the parent lookup succeeds exactly when the node has a list, gives that list, and otherwise raises KeyError |
| Sampling.DiscreteParents | tsBNgen/tsBNgen.py:534 | `D_Parent` holds exactly the discrete entries of the list and keeps it duplicate-free |
| Sampling.LatestLevels | tsBNgen/tsBNgen.py:396-398 | the initial context succeeds exactly when every parent's buffer is non-empty, and then holds each parent's latest level and its `N_level` |
| Sampling.SelectDistribution | tsBNgen/tsBNgen.py:275-299 | a missing CPD key raises KeyError; a row read is a table entry at that index, the whole entry is a distribution; entries of the right shape always give that |
| Sampling.DrawSource | tsBNgen/tsBNgen.py:275-299 | the distribution `Multinomial_Select` passes on in each phase: a missing CPD key always fails, a missing `Role` entry fails in the initial phase and a missing parent list is a KeyError in the others |
| Sampling.Conclude | tsBNgen/tsBNgen.py:526-530 | the type test that ends a node step: a categorical draw exactly for a discrete node, with the context the step built; a discrete node without its CPD key is a KeyError and a continuous node never fails here |
| Sampling.Prepare | tsBNgen/tsBNgen.py:387-388 | one node step up to the draw: a KeyError when the node has no parent list in the phase, and a categorical draw only for a discrete node |
| Sampling.PrepareInitial | tsBNgen/tsBNgen.py:387-435 | the node step of `Initial_sample`: an IndexError when `Role` has no entry, a categorical draw only for a discrete node and no context for a root |
| Sampling.PrepareRecurring | tsBNgen/tsBNgen.py:500-603 | the node step of `BN_sample` and `BN_sample_loopback`, as intended: a categorical draw only for a discrete node whose parents are all discrete |
| Sampling.PrepareAllDiscrete | tsBNgen/tsBNgen.py:502-530 | the all-discrete branch: it always builds a context, and draws categorically only for a discrete node |
| Sampling.PrepareMixed | tsBNgen/tsBNgen.py:532-579 | the branch with discrete and continuous parents: a Gaussian draw with the discrete parents' context |
| Sampling.PrepareRecurringAsWritten | tsBNgen/tsBNgen.py:581-603 | the recurring node step as written: every success is the intended result, and `BN_sample_loopback` (the secondary phase) is unaffected |
| Sampling.PrepareMatchesType | tsBNgen/tsBNgen.py:387-435 | once `Valid_BN` has accepted the phase for a node, a successful node step draws from a categorical distribution exactly when the node is discrete |
| Sampling.PrepareRootExample | tsBNgen/tsBNgen.py:389-390 | Example: a discrete root draws from its unconditional distribution in the initial phase |
| Sampling.PrepareAtStep | tsBNgen/tsBNgen.py:502-528 | a discrete node with distinct discrete parents, in the middle of a recurring step, reads the CPD row of exactly the samples its lags name, and its context pairs those with the parents' level counts |
| Sampling.SinterceptExample | tsBNgen/tsBNgen.py:581-603 | Example: as written, a recurring step of a node whose only parent is continuous raises NameError; as intended it draws a Gaussian without context |
| Sampling.AllContinuousDrawsGaussian | tsBNgen/tsBNgen.py:581-603 | as intended, a node whose parents are all continuous draws a Gaussian without context in either recurring phase; the as-written reading agrees everywhere else |
| Sampling.DrawnStart | tsBNgen/tsBNgen.py:500 | before the first node of a step nothing has been drawn |
| Sampling.DrawnStep | tsBNgen/tsBNgen.py:500-530 | a node that draws from the plan its turn's buffers give extends the drawn prefix of the order by one node |
| Sampling.DrawnDone | tsBNgen/tsBNgen.py:500-603 | when every ordered node has drawn, every one received one sample admitted by its plan and no other buffer changed |
| Sampling.TypedAppend | tsBNgen/tsBNgen.py:390 | appending a sample admitted by a draw that matches the node's type keeps every buffer entry of its node's type |
| Schedule.GenSchedule | tsBNgen/tsBNgen.py:800-821 | the phases one series of `BN_sample_gen_loopback` serves: at least one step, and `Initial_sample` at step 0 and at no other step |
| Schedule.DataGenSchedule | tsBNgen/tsBNgen.py:634-637 | the phases one series of `BN_data_gen` serves: `Initial_sample` at step 0 only, and never `BN_sample_loopback` |
| Schedule.SwitchPoint | tsBNgen/tsBNgen.py:802-817 | the step where `BN_sample_loopback` takes over: 0 exactly when `custom_time` is 0 and the largest lag is 0 |
| Schedule.GenScheduleLength | tsBNgen/tsBNgen.py:804-808 | a series serves one initial step, `switch - 1` recurring and `T - switch` secondary steps, each count floored at 0 |
| Schedule.GenScheduleMatchesPhases | tsBNgen/tsBNgen.py:804-808 | with `1 <= switch <= T` a series has `T` steps, step 0 initial, steps before the switch point recurring, the rest secondary |
| Schedule.GenScheduleOverrun | tsBNgen/tsBNgen.py:805-807 | Example: switch point 0 gives `T + 1` steps, a switch point beyond `T` gives more than `T` |
| Schedule.DataGenScheduleShape | tsBNgen/tsBNgen.py:634-637 | `BN_data_gen` serves the initial phase first and the recurring phase after it, `T` steps when `T >= 1` |
| Schedule.Cycle | tsBNgen/tsBNgen.py:632 | `N` series of a schedule serve `N` times its length |
| Schedule.SeqMax | tsBNgen/tsBNgen.py:800 | `max` of a non-empty list is an element at least every element |
| Schedule.MaxLag | tsBNgen/tsBNgen.py:800 | `max(sum(loopbacks2.values(), []))` raises ValueError exactly when no lag is declared, and otherwise is a declared lag at least every declared lag |
| Generator.RoleVector | tsBNgen/tsBNgen.py:202-205 | the `Role` list `Role_Assignment` builds: one entry per ordered node, each 0 or 1 |
| Generator.RolesMarkRoots | tsBNgen/tsBNgen.py:202-205 | for an acyclic non-negative graph, `Role` has one entry per node, 1 exactly at the nodes without a parent, and `Roots_length()` of them |
| Generator.RootCount | tsBNgen/tsBNgen.py:319-320 | a list marking exactly the zero in-degree nodes has `Roots_length()` marks |
| Generator.KahnOrder | tsBNgen/tsBNgen.py:219-236 | `top_order` is duplicate-free, parents first, and holds exactly the nodes on no cycle and below no cycle; `visited_count` is its length, equals the node count exactly when the graph is acyclic, and falls short exactly when some node is missing |
| Generator.ReleaseChildren | tsBNgen/tsBNgen.py:229-232 | the neighbour loop returns the state between two pops |
| Generator.ReadLags | tsBNgen/tsBNgen.py:509-515 | the lag loop computes the reference lagged reads, stopping at the first IndexError |
| Generator.StepLengths | tsBNgen/tsBNgen.py:387-435 | a step that appended one sample to every ordered node grew every node on no cycle and below no cycle by one, and no other |
| Generator.SameNodes | tsBNgen/tsBNgen.py:667 | any two orders `DAG_ordering` can leave hold the same nodes |
| Generator.SeriesAdvance | tsBNgen/tsBNgen.py:638-640 | storing one more series extends the stored prefix of `BN_Nodes` by one series and leaves every buffer empty |
| Generator.SeriesOfLengthT | tsBNgen/tsBNgen.py:798-821 | with `1 <= switch <= T`, an acyclic graph and empty buffers, every stored series of every node holds `T` samples |
| Generator.BfsPop | tsBNgen/tsBNgen.py:149-153 | one turn of `BFS` keeps: `child` starts with `Row`, is duplicate-free and reachable, the queue is reachable, and every edge out of `child` leads into `child` or the queue |
| Generator.TsBNgen.constructor | tsBNgen/tsBNgen.py:108-129 | stores the configuration, one empty buffer per node, `flag` 0, and no order yet |
| Generator.TsBNgen.DagOrdering | tsBNgen/tsBNgen.py:219-236 | `top_order` becomes an order of exactly the nodes on no cycle and below no cycle; the visited count reports acyclicity in both directions |
| Generator.TsBNgen.Bfs | tsBNgen/tsBNgen.py:146-154 | the result starts with `Row`, is duplicate-free, and holds exactly the nodes reachable from `Row` |
| Generator.TsBNgen.RoleAssignment | tsBNgen/tsBNgen.py:202-205 | succeeds exactly when no ordered root has an id beyond the order's length (else IndexError), and then `Role` is the reference role vector |
| Generator.TsBNgen.MultinomialSelect | tsBNgen/tsBNgen.py:275-299 | succeeds exactly when the phase's distribution exists and is non-empty, fails with its lookup error otherwise, and returns a level in `1..len(dist)` |
| Generator.TsBNgen.LatestParents | tsBNgen/tsBNgen.py:396-398 | the initial parent loop computes the reference latest levels and level counts |
| Generator.TsBNgen.ConsumeParent | tsBNgen/tsBNgen.py:507-518 | one parent turn gives the reference contribution and leaves the live dictionary as the reference says; the other dictionary is untouched |
| Generator.TsBNgen.SetLive | tsBNgen/tsBNgen.py:521 | the restore makes the phase's dictionary the saved copy and touches nothing else |
| Generator.TsBNgen.ParentTurn | tsBNgen/tsBNgen.py:537-553 | a parent turn, followed when asked by the restore inside the loop |
| Generator.TsBNgen.CollectParents | tsBNgen/tsBNgen.py:506-519 | the parent loop computes the reference resolution (one restore per node, or one per parent) and leaves the live dictionary as the reference says |
| Generator.TsBNgen.Store | tsBNgen/tsBNgen.py:390 | appends the sample to the node's buffer and changes no other buffer |
| Generator.TsBNgen.DrawSample | tsBNgen/tsBNgen.py:527-530 | draws exactly when the concluded plan succeeds and has a category, and the sample is admitted by the plan and matches the node's type |
| Generator.TsBNgen.DrawAndStore | tsBNgen/tsBNgen.py:527-530 | the node step's outcome and buffers agree with the concluded plan |
| Generator.TsBNgen.InitialNode | tsBNgen/tsBNgen.py:387-435 | an initial node step agrees with the reference plan for the buffers as they stand, and records the context it built |
| Generator.TsBNgen.InitialContext | tsBNgen/tsBNgen.py:389-393 | the role lookup (IndexError when missing) selects the root branch or the parent branches as the reference does |
| Generator.TsBNgen.InitialParents | tsBNgen/tsBNgen.py:393-419 | a non-root initial node builds the context of all or of its discrete parents, as the reference does |
| Generator.TsBNgen.LatestContext | tsBNgen/tsBNgen.py:394-401 | the latest parent levels are stored in `all_parents`/`parent_N_level` and the row is their composite index |
| Generator.TsBNgen.RecurringNode | tsBNgen/tsBNgen.py:500-530 | a recurring node step agrees with the reference plan for the buffers and dictionary as they stand; a completed step leaves both dictionaries as they were |
| Generator.TsBNgen.RecurringContext | tsBNgen/tsBNgen.py:502-556 | the branch on the parents' types resolves the context as the reference does and restores the dictionary |
| Generator.TsBNgen.RestoredParents | tsBNgen/tsBNgen.py:506-521 | the parent loop with the restore after it gives the reference resolution and leaves both dictionaries unchanged |
| Generator.TsBNgen.RecordContext | tsBNgen/tsBNgen.py:523-525 | stores the context and returns its composite index |
| Generator.TsBNgen.DiscreteParentsContext | tsBNgen/tsBNgen.py:502-525 | all-discrete parents: the reference plan with one restore after the loop, dictionaries unchanged |
| Generator.TsBNgen.MixedParentsContext | tsBNgen/tsBNgen.py:532-556 | mixed parents: only the discrete ones resolved, restored after each parent in `BN_sample` and after the loop in `BN_sample_loopback`, dictionaries unchanged |
| Generator.TsBNgen.NodeTurn | tsBNgen/tsBNgen.py:387-435 | a node's turn agrees with the reference plan in whichever phase `flag` selects |
| Generator.TsBNgen.SampleAll | tsBNgen/tsBNgen.py:500-603 | a completed step is faithful to the reference plans node by node and leaves the dictionaries as they were; a failed one stopped at a node whose plan fails, with every earlier node drawn |
| Generator.TsBNgen.PhaseStep | tsBNgen/tsBNgen.py:500-603 | a completed step is faithful, grows every node on no cycle and below no cycle by one, and records its phase |
| Generator.TsBNgen.OrderAndRoles | tsBNgen/tsBNgen.py:382-383 | orders the nodes, then assigns the roles, failing exactly as `Role_Assignment` does |
| Generator.TsBNgen.InitialSample | tsBNgen/tsBNgen.py:382-435 | `Initial_sample`: an IndexError from `Role_Assignment` comes before `flag` is set and leaves the buffers; a completed call has the reference roles, an accepted `Parent`, a faithful step and one more sample per node on no cycle and below no cycle |
| Generator.TsBNgen.InitialPhase | tsBNgen/tsBNgen.py:384-435 | sets `flag` 0 and fails exactly with `Valid_BN`'s verdict before drawing; otherwise one faithful step |
| Generator.TsBNgen.BnSample | tsBNgen/tsBNgen.py:497-603 | `BN_sample`: AttributeError without an order, `Valid_BN(Parent2)`'s verdict, then a faithful step that grows each node on no cycle and below no cycle by one and leaves `loopbacks` as it was |
| Generator.TsBNgen.BnSampleLoopback | tsBNgen/tsBNgen.py:665-692 | `BN_sample_loopback`: AttributeError without an order, `Valid_BN(Parent3)` on the old order, a recomputed order accepted too, then a faithful step with `loopbacks2` as it was |
| Generator.TsBNgen.Reorder | tsBNgen/tsBNgen.py:666-667 | recomputing the order keeps `Valid_BN`'s acceptance of `Parent3` |
| Generator.TsBNgen.RepeatedSample | tsBNgen/tsBNgen.py:636-637 | `k` completed calls of `BN_sample` grow each node on no cycle and below no cycle by `k` and serve `k` recurring steps |
| Generator.TsBNgen.RepeatedLoopback | tsBNgen/tsBNgen.py:807-808 | `k` completed calls of `BN_sample_loopback` grow each node on no cycle and below no cycle by `k` and serve `k` secondary steps |
| Generator.TsBNgen.StoreSeries | tsBNgen/tsBNgen.py:638-640 | `BN_Nodes[jj][ii]` takes `Node[jj]` and every buffer is emptied |
| Generator.TsBNgen.ResetSeries | tsBNgen/tsBNgen.py:630-631 | `BN_Nodes` gets `N` empty series per node |
| Generator.TsBNgen.DataGenSeries | tsBNgen/tsBNgen.py:634-637 | one series of `BN_data_gen` grows every node on no cycle and below no cycle by the schedule's length and serves its phases |
| Generator.TsBNgen.GenSeries | tsBNgen/tsBNgen.py:804-808 | one series of `BN_sample_gen_loopback` grows every node on no cycle and below no cycle by the schedule's length and serves its phases |
| Generator.TsBNgen.BnDataGen | tsBNgen/tsBNgen.py:630-640 | `BN_data_gen` stores `N` series of the schedule's length, empties the buffers and serves `N` copies of the schedule |
| Generator.TsBNgen.BnSampleGenLoopback | tsBNgen/tsBNgen.py:798-821 | `BN_sample_gen_loopback`: ValueError when no lag is declared, the switch point `custom_time` or else the largest lag, then `N` stored series of the schedule's length |
| Generator.TsBNgen.GenAllSeries | tsBNgen/tsBNgen.py:803-811 | the series loop stores `N` series of the schedule's length and empties the buffers |
| Generator.TsBNgen.GaussianSelect | tsBNgen/tsBNgen.py:438-457 | a Gaussian draw gives a continuous sample |
| Generator.TsBNgen.ContinousCpd | tsBNgen/tsBNgen.py:470-473 | `level_multiply` becomes the place values of `parent_N_level` and the result is the composite row index of `all_parents` |

## Left out

- setup.py: packaging metadata, no logic.
- Randomness: `np.random.multinomial` is any one-hot vector of the distribution's length, and `np.random.normal` is any real. Probabilities are not modelled.
- The linear-Gaussian arithmetic is left out because it is floating point. This covers the coefficient sums over continuous parents, the intercept and sigma (tsBNgen/tsBNgen.py:421-435, 558-603, 726-773), and the parameters passed to `Gaussian_select`. So are the errors those loops can raise: IndexError on short buffers, KeyError on CPD fields, and the deletions from `self.loopbacks` at lines 743 and 767, where `loopbacks2` was evidently meant.
- Generator.TsBNgen.GaussianSelect: states only that the sample is continuous. The default `ii=0` of `Gaussian_select`, which makes the calls at lines 392, 407, 530 and 699 consult node 0's parents, is not modelled.
- Generator.TsBNgen.BnSampleLoopback: its "`loopbacks` unchanged" holds because the regression loops that delete from `self.loopbacks` (lines 743, 767) are left out. As written, those deletions raise KeyError or change `loopbacks` permanently.
- Generator.TsBNgen.BnSampleGenLoopback: a sampling failure does not make the switch point defined, so the iff between ValueError and "no lag declared" is stated as two implications over the lag lists.
- Sampling.NetworkValid: the model requires consistent sizes of `Mat`, `Node_Type` and `N_level`, and parent ids below the node count. The source never checks these, and pandas would fail on violations in ways not modelled.
- pandas and numpy data handling: `Mat` is an integer matrix and `Mat.iloc`/`np.count_nonzero` are sequence functions.
- `__repr__`, `parents_len` and the message printed for a cycle (tsBNgen/tsBNgen.py:236): no computation the rest depends on.
- CPD contents: entries are opaque (a distribution, a table of distributions or a regression record), keyed through `int_to_str`.
- Continuous buffer entries carry an opaque real; only their count and type are tracked.

## Findings

| source | as written | input that shows it | evidently intended | confidence | as-written member | corrected member |
|---|---|---|---|---|---|---|
| tsBNgen/tsBNgen.py:601-602 | the all-continuous branch of `BN_sample` passes `temp+sintercept`, a name never bound, so it always raises NameError | a continuous node 1 whose only parent in `Parent2` is the continuous node 0, at any recurring step | `temp+intercept`, the value bound on line 601, as in the other branches and in `BN_sample_loopback` | high, not executed | Sampling.PrepareRecurringAsWritten, Sampling.SinterceptExample | Sampling.PrepareRecurring, Sampling.AllContinuousDrawsGaussian |
