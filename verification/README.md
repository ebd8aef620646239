# Proofs about the Cassandra collection's planners

This project models the parts of the collection that decide something hard and proves what they are for:

- the planner of single-token rings: where new nodes go, which nodes move, in which order, and what the shares of the
  ring are before and after;
- the order to start the nodes of a new cluster in, under the token allocator's rack rule;
- the inventory an import writes: each node's variables factored into cluster, datacenter, rack and host files;
- the choice of the block devices to tune, and of those left alone because the operating system is on them;
- the application of a unified diff to a live file;
- the progress of a streaming operation from one check to the next.

A ring is a sequence of nodes `(position, name, rack)` on a circle `[0, size)`, with `size` any positive number. Shares
are numbers of tokens, that is numerators over `size`. The reference every share is counted against is pointwise: the
replicas of token `t` are what the walk from the owner of `t` gives (`Shares.HolderMap`). Code that works by changing
variables is a method with loops (`_place`'s walk writes into the fields of a class), and each method is proved against
a function or a predicate; the theorems are lemmas about those. An exception of the source is a `Result` or an `Option`.
Every lemma turns automatic induction off: a proof is what its body says.

## Modules

| module | what it holds |
|---|---|
| Arith, Lists, Options, Sorting | floor division, lists without repeats, a stable sort by an ordering |
| Ring | rings, their order, permutations |
| Replication, Shares, Transfer | replica walks, ownership, what a change streams |
| Balanced, RoundRobin, NewDatacenter | even positions, rack round robin, the shares they give a new datacenter |
| Assignment, Spacing, Rebalance | matching nodes to targets, the search over spacings, the balanced plan |
| MoveOrder, MoveSafety, RebalanceOrder | ordering moves, what a run keeps, a balanced plan never blocks itself, its targets moved on or not |
| Evenness, Placement, PlaceSearch, PlaceChoice | how even a ring is, racks ordered over new positions |
| Middles, Bisect, BisectPlan | plans that move no node |
| FreeSpots | positions that nobody in the cluster holds |
| Cluster, OperatorMoves, EvenOut, MovePlan | the move plan of a whole cluster, and when its tokens stay unique |
| SeveralTokens, HiddenTokens | nodes with several tokens: where the plan fails, and what to test before it is made |
| StartOrder | the start order scheduler |
| Inventory, GroupNames, GroupTexts | factoring variables into levels and the merge; group names, and when the round trip is exact |
| DeviceGraph, DiskPlan | block devices and the choice of those to tune |
| Patch | the unified diff applier |
| Stream, StreamBytes | the streaming progress state machine; when the bytes done fall |

## Model

| member | source | states |
|---|---|---|
| Ring.SortedRingSpec | plugins/module_utils/cassandra_tokens.py:114-120 | a ring is refused exactly when two nodes share a token, else it is the same nodes in token order |
| Replication.Replicas | plugins/module_utils/cassandra_tokens.py:123-138 | the walk that stops early gives the replicas of the rule applied to the whole round |
| Replication.ReplicasSpec | plugins/module_utils/cassandra_tokens.py:123-138 | every range has exactly min(rf, nodes) distinct replicas, its owner first, on exactly min(rf, racks) racks |
| Shares.OwnerIndex | plugins/module_utils/cassandra_tokens.py:156-161 | the first node at or after a position, round the ring |
| Shares.OwnerSpec | plugins/module_utils/cassandra_tokens.py:156-161 | a node owns a token exactly when it lies after the previous position and up to its own, round the ring |
| Shares.RangeSize | plugins/module_utils/cassandra_tokens.py:149 | the modular length of a range is the number of tokens it holds |
| Shares.Ownership | plugins/module_utils/cassandra_tokens.py:141-153 | interval sums are, for every node, the tokens it owns and the tokens it replicates; refused exactly on a shared token |
| Shares.EffectiveSharesAddUp | plugins/module_utils/cassandra_tokens.py:141-153 | effective shares add up to exactly min(rf, nodes) rings |
| Shares.PrimarySharesAddUp | plugins/module_utils/cassandra_tokens.py:141-153 | primary shares add up to exactly one ring |
| Transfer.TransferPlan | plugins/module_utils/cassandra_tokens.py:164-183 | gained and lost are, for every node of either ring, the tokens replicated after and not before, and the reverse |
| Transfer.GainMinusLoss | plugins/module_utils/cassandra_tokens.py:164-183 | gained minus lost is the effective share after minus the one before |
| Transfer.GainsEqualLosses | plugins/module_utils/cassandra_tokens.py:164-183 | two rings with equally many nodes: as much is gained as lost in all |
| Balanced.BalancedValid | plugins/module_utils/cassandra_tokens.py:85-91 | balanced positions are in order and on the circle, none twice |
| Balanced.BalancedGaps | plugins/module_utils/cassandra_tokens.py:85-91 | every gap, the one through zero included, is the floor or the ceiling of size / count |
| Balanced.DatacentersApart | plugins/module_utils/cassandra_tokens.py:80-91 | datacenters of N1 and N2 nodes with indexes i and j never share a position when N1 * N2 * (100 * abs(i - j) + 1) <= size |
| RoundRobin.RackOrder | plugins/module_utils/cassandra_tokens.py:99-111 | the popped queues give the rounds of the racks |
| RoundRobin.RackOrderPermutes | plugins/module_utils/cassandra_tokens.py:99-111 | the same nodes, each once |
| RoundRobin.RackOrderKeepsInventoryOrder | plugins/module_utils/cassandra_tokens.py:99-111 | each rack's nodes stay in inventory order |
| RoundRobin.RackOrderAlternates | plugins/module_utils/cassandra_tokens.py:99-111 | racks of one size: place i is of rack i modulo the number of racks |
| NewDatacenter.NextNodesReplicate | plugins/module_utils/cassandra_tokens.py:123-138 | with racks in turn all the way round, the replicas of a range are the next min(rf, nodes) nodes, for every rf and rack count |
| NewDatacenter.NewDatacenterIsEven | plugins/filter/cassandra_tokens.py:110-116 | a new datacenter with racks of one size: any two effective shares differ by at most one token, and the planner's evenness test holds |
| Assignment.Assign | plugins/module_utils/cassandra_tokens.py:336-370 | the dynamic program is optimal: no plan that keeps the ring order moves fewer nodes, and none that moves as few goes less far |
| Assignment.TotalBelowBig | plugins/module_utils/cassandra_tokens.py:336-370 | the weight of one move exceeds any total distance |
| Assignment.SumDecodes | plugins/module_utils/cassandra_tokens.py:336-370 | so moves and distance are read back from the weighted sum |
| Assignment.FillRow | plugins/module_utils/cassandra_tokens.py:336-370 | one row of the table from the one before, with where each entry comes from |
| Spacing.FarFromAll | plugins/module_utils/cassandra_tokens.py:395-401 | a node far from three targets beside the rounded index is far from every target, despite the floors |
| Spacing.BoundIsTrue | plugins/module_utils/cassandra_tokens.py:395-401 | the bound never exceeds the moves of any plan on that spacing |
| Spacing.Offsets | plugins/module_utils/cassandra_tokens.py:389-393 | spacings tried: the convention first, every other one a node's own, none within tolerance of another, every node's own one covered |
| Spacing.PrunedIsWorse | plugins/module_utils/cassandra_tokens.py:404-406 | a spacing cut off by its bound has no plan cheaper than the one kept |
| Spacing.SearchSpacings | plugins/module_utils/cassandra_tokens.py:403-411 | the pruned search finds the optimum over every spacing and every plan: moves, distance, convention first |
| Rebalance.ToleranceFits | plugins/module_utils/cassandra_tokens.py:330-333 | the tolerance is at least one token and at most half a spacing |
| Rebalance.SettledApart | plugins/module_utils/cassandra_tokens.py:412-415 | nodes that stay within tolerance and nodes on their targets never share a position |
| Rebalance.RoomLeft | plugins/module_utils/cassandra_tokens.py:416-418 | as many targets are left as there are new nodes, none of them held |
| Rebalance.PlanBalanced | plugins/module_utils/cassandra_tokens.py:373-419 | refused exactly for too many nodes or a shared token; else the cheapest plan over every spacing tried, each the convention or a node's own, carried out with no token and no name twice, the new nodes on the targets left as evenly as they get (`PlaceChoice.Place`) |
| MoveOrder.GapTestIsExact | plugins/module_utils/cassandra_tokens.py:422-444 | onto a free token, the gap test passes exactly when the move leaves the cyclic order of the names as it is |
| MoveOrder.OrderMoves | plugins/module_utils/cassandra_tokens.py:429-454 | every step is the one the rule picks and all the moves are ordered; refused exactly when the rule's run ends with every move left onto a held token |
| MoveOrder.CompleteOrBlocked | plugins/module_utils/cassandra_tokens.py:429-454 | moves either can all be run, in one order only, or block each other |
| MoveSafety.RunKeepsApart | plugins/module_utils/cassandra_tokens.py:429-454 | no two nodes share a token after any prefix of any run |
| MoveSafety.RunTakesOnce | plugins/module_utils/cassandra_tokens.py:429-454 | a run takes each move at most once |
| MoveSafety.SomeMoverPasses | plugins/module_utils/cassandra_tokens.py:429-454 | with a node that stays and goals in ring order, some mover always has a clear path |
| MoveSafety.AnchoredRunIsSafe | plugins/module_utils/cassandra_tokens.py:429-454 | such a run never blocks, and every step keeps the cyclic order |
| RebalanceOrder.NoTargetHeld | plugins/module_utils/cassandra_tokens.py:336-411 | if no node stays, no node is within the tolerance of any target: the plan would not have had the fewest moves |
| RebalanceOrder.GoalsInOrder | plugins/module_utils/cassandra_tokens.py:373-415 | seen from a node that stays, the nodes end in the order they start in, even with targets moved on by less than the tolerance |
| RebalanceOrder.AimedMovesCanRun | plugins/module_utils/cassandra_tokens.py:373-454 | the moves of a balanced plan, their targets moved on by less than the tolerance, never block each other; while a node stays, every step keeps the cyclic order |
| RebalanceOrder.BalancedMovesCanRun | plugins/module_utils/cassandra_tokens.py:373-454 | so the moves of the plan itself never block each other |
| RebalanceOrder.OrderBalanced | plugins/module_utils/cassandra_tokens.py:373-454 | ordering the moves of a balanced plan never fails |
| Evenness.BalanceKey | plugins/module_utils/cassandra_tokens.py:186-192 | the key of a ring from its ownership table |
| Evenness.SortDownSorted | plugins/module_utils/cassandra_tokens.py:186-192 | largest share first, so that the first one is the largest |
| Evenness.KeyIgnoresNames | plugins/module_utils/cassandra_tokens.py:186-192 | rings with the same racks on the same positions have the same key, whatever the names |
| Placement.BuiltIsPlacement | plugins/module_utils/cassandra_tokens.py:224-228 | any order of the racks gives a placement of all the new nodes on all the positions |
| Placement.OrdersHasAll | plugins/module_utils/cassandra_tokens.py:230-231 | every order of the racks is among the candidates |
| PlaceSearch.SlotBySlot | plugins/module_utils/cassandra_tokens.py:232-237 | slot by slot, a rack that leaves the ring so far the most even |
| PlaceSearch.Alternate | plugins/module_utils/cassandra_tokens.py:195-207 | all the nodes, each of a rack other than the one before it unless only that rack is left |
| PlaceChoice.Place | plugins/module_utils/cassandra_tokens.py:210-239 | for at most 7 nodes or one rack, at least as even as every placement there is; for more, as the slot by slot one and as the alternating one; always as the one given |
| Middles.MiddleInRange | plugins/module_utils/cassandra_tokens.py:280-299 | the middle of a range lies in it, on no node's position |
| Middles.SplitKeepsNearEven | plugins/module_utils/cassandra_tokens.py:280-299 | splitting a largest range keeps the largest at most twice the smallest plus one |
| Middles.FullRing | plugins/module_utils/cassandra_tokens.py:288-296 | no range can be split exactly when every position is taken |
| Bisect.SplitsKeepNearEven | plugins/module_utils/cassandra_tokens.py:280-299 | near even after any number of splits |
| Bisect.SplitsFromEmpty | plugins/module_utils/cassandra_tokens.py:280-299 | near even from an empty ring on |
| Bisect.SplitLargest | plugins/module_utils/cassandra_tokens.py:280-299 | each node splits a largest range at the lowest middle; refused exactly when the circle is smaller than the ring to be |
| Bisect.BestMiddle | plugins/module_utils/cassandra_tokens.py:250-262 | the middle with the least key, then the lowest position |
| Bisect.GreedyBisect | plugins/module_utils/cassandra_tokens.py:242-266 | each node at the best middle of the ring so far, by all shares or the largest only; refused exactly when the circle is too small |
| BisectPlan.SeenBefore | plugins/module_utils/cassandra_tokens.py:309-317 | a greedy plan skipped as already seen is bettered all the same |
| BisectPlan.PlanBisect | plugins/module_utils/cassandra_tokens.py:302-322 | refused exactly on a shared token or too small a circle; no node moved, each new one on a free position of its own, never less even than any of three greedy plans |
| FreeSpots.Nudge | plugins/filter/cassandra_tokens.py:141-150 | it ends, and each spot is the first position from its start that is neither taken nor a spot before it |
| FreeSpots.NudgedApart | plugins/filter/cassandra_tokens.py:141-150 | nudged spots are outside the taken ones and different from each other |
| FreeSpots.NudgeKeepsFree | plugins/filter/cassandra_tokens.py:141-150 | nothing is moved on exactly when the spots were free and different |
| FreeSpots.NudgedNear | plugins/filter/cassandra_tokens.py:141-150 | a spot is moved on past no more positions than are taken |
| FreeSpots.FreeOffset | plugins/filter/cassandra_tokens.py:131-138 | the first offset from the datacenter's own on whose positions nobody holds; refused exactly when none of those tried is free |
| OperatorMoves.WantedMoves | plugins/filter/cassandra_tokens.py:463-480 | exactly the moves asked for that are not refused, and exactly the refused names |
| EvenOut.WidestIs | plugins/filter/cassandra_tokens.py:119-124 | the spread is attained and bounds every difference of two shares |
| EvenOut.Better | plugins/filter/cassandra_tokens.py:119-124 | closer shares for some replication factor |
| EvenOut.EvenMoves | plugins/filter/cassandra_tokens.py:481-484 | the moves of the cheapest plan, each target moved on past the tokens held elsewhere; refused exactly for too many nodes |
| EvenOut.UndisturbedIsNear | plugins/filter/cassandra_tokens.py:481-484 | in a cluster of no more nodes than the tolerance, or with no target held elsewhere, no target is moved on by the tolerance or more |
| EvenOut.NudgedPlanRuns | plugins/filter/cassandra_tokens.py:481-493 | then no two nodes end on one token, the moves never block each other, and while a node stays every step keeps the cyclic order |
| Cluster.ClusterRun | plugins/filter/cassandra_tokens.py:491-517 | a datacenter's run keeps the tokens of the whole cluster, as the planner knows them, distinct, and moves no other node |
| Cluster.SafeUnlessHidden | plugins/filter/cassandra_tokens.py:441-517 | steps that are safe as the planner knows the cluster are safe as it is exactly when none lands on a token the planner does not see |
| MovePlan.OrderInCluster | plugins/filter/cassandra_tokens.py:489-493 | all the moves in the one order there is; no step, and a problem, exactly when they block each other |
| MovePlan.PlanWanted | plugins/filter/cassandra_tokens.py:463-493 | with targets: exactly the moves not refused, in order, with a problem exactly when some name is refused; no step, and a problem, exactly when they block each other |
| MovePlan.PlanEven | plugins/filter/cassandra_tokens.py:481-493 | without: an error exactly for too many nodes or when two would end on one token; no step exactly when there is no move, the moves bring no shares closer, or they block each other; neither error nor block in a cluster of no more nodes than the tolerance, or when no target is held elsewhere |
| MovePlan.PlanDatacenter | plugins/filter/cassandra_tokens.py:444-493 | which of the two a datacenter gets, or no step: nodes with several tokens, nodes not normal, targets of other datacenters only |
| MovePlan.PlanCluster | plugins/filter/cassandra_tokens.py:415-525 | the steps are those of each datacenter's plan, one after the other, each planned from where the steps before leave the cluster; a problem exactly when a datacenter has one or a name is unknown; never refused with targets, nor when the cluster has no more nodes than the tolerance |
| MovePlan.UniqueUnlessHidden | plugins/filter/cassandra_tokens.py:415-525 | from a cluster with pairwise distinct tokens, no two nodes of any datacenters share one after any step exactly when no step lands on a token of a several-token node other than its last one |
| MovePlan.NothingLeftToCheck | plugins/filter/cassandra_tokens.py:518-523 | the planner's own check at the end never finds two nodes on one token |
| SeveralTokens.SeveralTokensCollide | plugins/filter/cassandra_tokens.py:441-480 | node A on 0, node V of another datacenter on 10 and 20, A asked to move to 10: the step is planned and both have 10 |
| SeveralTokens.HiddenTargetCollides | plugins/filter/cassandra_tokens.py:441-480 | so for every such cluster, node and token |
| SeveralTokens.GuardIsExact | plugins/filter/cassandra_tokens.py:415-525 | whatever the targets, no plan ever puts two nodes on one token exactly when every node has one token or no datacenter is planned: each has a node with several tokens or one not normal |
| SeveralTokens.TargetsOffHidden | plugins/filter/cassandra_tokens.py:463-480 | with targets none of which is such a token, no two nodes share one after any step |
| HiddenTokens.TargetsAreExact | plugins/filter/cassandra_tokens.py:441-525 | for given targets: two nodes come to share a token exactly when, of the moves asked for and not refused in a datacenter that is planned and does not block, one is onto such a token; read off the cluster and the targets, without the plan |
| HiddenTokens.FarIsEnough | plugins/filter/cassandra_tokens.py:441-525 | without targets: never, when no such token is at a target of a spacing that may be chosen (the convention's or a node's own) or fewer positions after it than the cluster has nodes |
| StartOrder.TestFeasible | plugins/filter/cassandra_seeds.py:39-53 | the counting loop decides the closed form |
| StartOrder.FeasibleIsExact | plugins/filter/cassandra_seeds.py:39-53 | on a ring with a rack, the look-ahead is true exactly when some order of the nodes left is accepted |
| StartOrder.EmptyRingDiffers | plugins/filter/cassandra_seeds.py:39-53 | on an empty ring it is not: two nodes of one rack |
| StartOrder.EmptyRingExact | plugins/filter/cassandra_seeds.py:39-53 | on an empty ring it misses exactly the nodes of which one rack alone has several |
| StartOrder.GreedyPermutes | plugins/filter/cassandra_seeds.py:79-92 | every node is started, once |
| StartOrder.SomeoneIsGood | plugins/filter/cassandra_seeds.py:80-87 | while every datacenter can go on, some node passes the look-ahead |
| StartOrder.GreedyIsComplete | plugins/filter/cassandra_seeds.py:56-92 | every node is accepted when it joins exactly when any order at all has that, and when every datacenter has an accepted order |
| StartOrder.StartInOrder | plugins/filter/cassandra_seeds.py:56-92 | running nodes first, then seeds and others as picked; complete |
| Inventory.WalkIsRight | plugins/filter/cassandra_import.py:1086-1105 | every value goes to the highest level where all that share the file agree, and nothing else changes |
| Inventory.SitsOnce | plugins/filter/cassandra_import.py:1086-1105 | a node's value belongs at exactly one level |
| Inventory.Layout.WalkDown | plugins/filter/cassandra_import.py:1086-1105 | the walk that writes the two dictionaries does that, and says whether all agree at the top |
| Inventory.Layout.PlaceAll | plugins/filter/cassandra_import.py:1297 | every key in turn, whatever the groups; drift is exactly the keys that differ, in order |
| Inventory.WalkAllPlaces | plugins/filter/cassandra_import.py:1297 | after every key: each value at the highest level where all that share the file agree, the others as they were |
| Inventory.MergeGivesBack | plugins/filter/cassandra_import_check.py:96-104 | merging the levels gives a node its own value, and nothing where it had none |
| Inventory.Layout.HostVars | plugins/filter/cassandra_import_check.py:96-104 | successive updates along the chain, then the host's own |
| Inventory.FoundIsHeld | plugins/filter/cassandra_import_check.py:129-137 | the chain found leads to the host |
| Inventory.HeldIsFound | plugins/filter/cassandra_import_check.py:129-137 | a host that is listed is found |
| Inventory.HostsFileLists | plugins/filter/cassandra_import.py:1267-1273 | the hosts file lists every node once, under its cluster's, its datacenter's and its rack's group |
| Inventory.EveryNodeItsOwn | plugins/filter/cassandra_import_check.py:96-137 | factored and merged back through the hosts file, every node has exactly its variables, beside those fixed for its groups before |
| GroupNames.SlugIsName | plugins/filter/cassandra_import.py:1074-1076 | whatever the text, its slug is letters, digits and underscores, starts with a letter and does not end with an underscore |
| GroupNames.GroupsSame | plugins/filter/cassandra_import.py:1256-1263 | groups are named alike exactly when what is joined in their names is |
| GroupNames.RoundTripIsExact | plugins/filter/cassandra_import.py:1279-1297 | the variables placed: for every assignment of them, every node read gets exactly its own back, beside `cassandra_dc` and `cassandra_rack`, exactly when no slugged datacenter is named like another's datacenter_rack, and datacenters with one datacenter_rack in common have that rack only |
| GroupNames.DatacenterAsRack | plugins/filter/cassandra_import.py:1256-1263 | a datacenter named like another's rack: the variables for which that fails |
| GroupNames.RackAsRack | plugins/filter/cassandra_import.py:1256-1263 | racks of two datacenters named alike, one of these with another rack: the variables for which that fails |
| GroupNames.DatacenterNamedLikeRack | plugins/filter/cassandra_import.py:1256-1263 | it fails for two nodes: datacenter `a` with rack `b`, and a datacenter `a-b` |
| GroupNames.RacksNamedAlike | plugins/filter/cassandra_import.py:1256-1263 | it fails for datacenter `a` with racks `b-c` and `r`, and datacenter `a-b` with rack `c` |
| GroupNames.AlikeAlone | plugins/filter/cassandra_import.py:1256-1263 | and the variables placed are all given back while `a` has rack `b-c` only, although the two racks share a group |
| GroupTexts.AllBackIsExact | plugins/filter/cassandra_import.py:1250-1297 | with the two the layout writes itself: for every assignment of variables, every node read gets exactly its own back and every node of the ring its own `cassandra_dc` and `cassandra_rack`, exactly when datacenters with one slug have one text, racks with one datacenter_rack have one text, and no slugged datacenter is a datacenter_rack |
| GroupTexts.AlikeAloneLosesRack | plugins/filter/cassandra_import.py:1267-1275 | datacenter `a` with rack `b-c` and datacenter `a-b` with rack `c`: the first node gets `cassandra_rack` `c`, whatever the variables |
| GroupTexts.DashedLosesRack | plugins/filter/cassandra_import.py:1267-1275 | one datacenter with racks `b-c` and `b_c`: the first node gets rack `b_c` |
| GroupTexts.CasedLosesDatacenter | plugins/filter/cassandra_import.py:1267-1275 | datacenters `DC1` and `dc1`: the first node gets `cassandra_dc` `dc1` |
| DeviceGraph.Uppermost | plugins/module_utils/cassandra_disks.py:144-157 | it ends, and gives each top of what is built on a device once, and only those |
| DeviceGraph.OtherUses | plugins/module_utils/cassandra_disks.py:160-172 | exactly the uses of those tops that are not Cassandra's |
| DeviceGraph.Levels | plugins/module_utils/cassandra_disks.py:175-187 | it ends, and gives each device under one exactly once, itself included |
| DiskPlan.OsUses | plugins/module_utils/cassandra_disks.py:371-372 | leaving out Cassandra's own devices hides no filesystem of the operating system |
| DiskPlan.ReadMounts | plugins/module_utils/cassandra_disks.py:318-352 | the devices to tune and where the last directory of each is mounted; exactly the commitlog directories; nothing of the operating system counts as Cassandra's |
| DiskPlan.ReadGiven | plugins/module_utils/cassandra_disks.py:354-368 | devices set by hand: the known ones to tune, the unknown ones as they are |
| DiskPlan.AddStack | plugins/module_utils/cassandra_disks.py:376-432 | exactly what one filesystem asks for is added, for each value of tune_os, the commitlog alone included |
| DiskPlan.DataDisks | plugins/module_utils/cassandra_disks.py:373-374 | exactly the disks under a filesystem that is not the commitlog's alone |
| DiskPlan.Plan | plugins/module_utils/cassandra_disks.py:264-470 | with tune_os false, no known device picked has a filesystem of the operating system at the top of anything built on it, and exactly the devices wanted without one are picked; with it true, one not marked has none |
| Patch.PatchLines | plugins/filter/cassandra_apply_config.py:56-86 | the cursor loop applies the diff line by line, or finds that it does not fit |
| Patch.PatchedIsAccounted | plugins/filter/cassandra_apply_config.py:56-86 | for any diff: the result without its added lines is the live file without the deleted ones, in order; added and deleted are the diff's |
| Patch.DiffGivesNew | plugins/filter/cassandra_apply_config.py:56-86 | a well-formed diff from one file to another, applied to the first, gives the second, when in each hunk nothing but empty lines follows an empty line written without its space: always for a diff that writes the space (POSIX.1-2017, diff utility, "Diff -u or -U Output Format") |
| Patch.GivesNewIsExact | plugins/filter/cassandra_apply_config.py:56-86 | and only then, for files without a line of carriage returns alone |
| Patch.ReturnsStandIn | plugins/filter/cassandra_apply_config.py:56-86 | with such a line it can be right all the same: an empty line without its space, then a line of one carriage return, both kept |
| Patch.InsertedTooSoon | plugins/filter/cassandra_apply_config.py:56-86 | on one empty line, a hunk with an empty line and an added line puts the added line first |
| Stream.CheckProgress | plugins/filter/cassandra_stream.py:77-142 | the loops over views and sessions give the next state |
| Stream.BytesNeverExceed | plugins/filter/cassandra_stream.py:105-142 | over any run, no state has more bytes done than there are |
| Stream.LatestProgress | plugins/filter/cassandra_stream.py:112-114 | last progress is the time of the latest check that progressed, or of the first; idle checks are those since |
| Stream.StalledMeans | plugins/filter/cassandra_stream.py:112-142 | with a clock that never goes back: stalled exactly when no check later than the limit ago progressed |
| Stream.NoProgressMeans | plugins/filter/cassandra_stream.py:84-111 | a check without progress: no session started, streamed more, changed its total or left |
| Stream.OneCheck | plugins/filter/cassandra_stream.py:79-111 | a session is gone exactly when it is not shown and was gone or its host answered |
| Stream.LeavesWhenAnswered | plugins/filter/cassandra_stream.py:105-111 | a session leaves only when its host answered without showing it |
| Stream.LeavesOncePerAppearance | plugins/filter/cassandra_stream.py:105-111 | between two times a session leaves it is shown again |
| Stream.RecentIsTail | plugins/filter/cassandra_stream.py:145-147 | the samples kept are the last ones: those of the window, and the last 3 at least |
| StreamBytes.BytesFall | plugins/filter/cassandra_stream.py:77-142 | the bytes done fall from one check to the next exactly when the sessions shown with less than they count for take back more than the others bring |
| StreamBytes.SomeoneTookBack | plugins/filter/cassandra_stream.py:77-142 | they fall only when some session is shown with fewer bytes than it counts for |
| StreamBytes.ShownAgainFalls | plugins/filter/cassandra_stream.py:77-142 | three checks of one session, shown, gone, shown again: no progress, and the bytes done go from 10 to 4 |

## What the proofs found

- The look-ahead of the start order is exact on a ring that has a rack, and only there. The scheduler never asks it
  about an empty ring, and is complete.
- The move plan knows each node by its last token. In a cluster where nodes of another datacenter have several tokens,
  it can put a node on one of those: `SeveralTokens.SeveralTokensCollide`. It never does while every node has one token
  (`SeveralTokens.GuardIsExact`). For the rest `MovePlan.UniqueUnlessHidden` says exactly which plans do, and before a
  plan is made `HiddenTokens.TargetsAreExact` says which targets do and `HiddenTokens.FarIsEnough` when none worked out
  does.
- Moving the targets of a balanced plan past the tokens of other datacenters is harmless in a cluster of no more nodes
  than the tolerance: no two nodes end on one token and the moves never block each other.
- The inventory gives every node everything back only for some names of datacenters and racks, and
  `GroupTexts.AllBackIsExact` says for which. The variables placed go wrong with a datacenter named like another's
  datacenter_rack (two nodes are enough), or two datacenters with a datacenter_rack in common when one of them has
  another rack as well (`GroupNames.RoundTripIsExact`). `cassandra_dc` and `cassandra_rack`, written once per group, go
  wrong more often: whenever two names become one in the group's name, the last one written is every node's. So with
  racks `b-c` and `b_c` of one datacenter, with datacenters `DC1` and `dc1`, and with rack `b-c` of `a` beside rack `c`
  of `a-b`.
- A session that left and is shown again with less streamed than before is no progress, and takes the bytes done back
  down (`StreamBytes.ShownAgainFalls`); they stay within the total all the same.
- An empty line of a hunk written without its space, as the format allows, is skipped: what follows it in the hunk goes
  before the line instead of after it (`Patch.InsertedTooSoon`).

## Left out

- Parsing and rendering: command output, the ring and lsblk texts, tables, reports, messages and warnings. The model
  starts from parsed data; a line of a diff comes as hunk start, marked line or empty line.
- Names of nodes and, but for the inventory, racks are their ranks in alphabetical order; a share is a numerator over
  `size`; the token of the random partitioner that folds onto position 0 is not modelled (positions only).
- Which of several equal optima is returned, where the source depends on the order of a tuple comparison and no
  property needs it.
- `taken`, `where` and the streams are values that methods return changed, not shared dictionaries; aliasing is not
  captured. The inventory's two dictionaries are the fields of a class.
- Rebalance.PlanBalanced: the circle has at least twice as many positions as the datacenter will have nodes, as every
  partitioner's range has for at most 256 nodes.
- FreeSpots.Nudge: the circle has room for the taken positions and the spots, else the source's loop would not end.
- MovePlan.PlanCluster: the cluster starts with pairwise distinct tokens on the circle, and the circle has at least
  twice as many positions as a datacenter has tokens. A plan refused as a whole has no steps.
- The shares a step streams over several replication factors, the cleanup list and the estimates in bytes: one ring
  change is `Transfer.TransferPlan`.
- The plans for a new cluster and for adding nodes over several datacenters (cassandra_token_assign,
  cassandra_token_add_plan): made of plans, offsets and nudges that are modelled, with the inventory's own tokens.
- PlaceChoice.Place, BisectPlan.PlanBisect: no global optimum beyond 7 new nodes or beyond the greedy plans' positions;
  the source calls them greedy.
- StartOrder.StartInOrder: the racks of the running nodes come as a set per datacenter; two nodes are told apart by
  their place in the list.
- GroupNames.SlugIsName: only letters of ASCII are lower-cased; the few others whose lower case has one (the Kelvin
  sign, the capital I with a dot) count as other characters.
- Inventory: the order of groups and hosts within a file; templates that follow a node's name, Medusa's domain, the
  variables kept for nodes not read, and the nesting of a dictionary's values; a dictionary is its list of items.
- DiskPlan.Plan: the kind of a device is given; the devices an explicit name resolves to are given; every known device
  has a number of its own and the links of the graph lead to known devices. What is said about each device is left out.
- Patch: reading `@@` lines with a pattern.
- Patch.GivesNewIsExact: with a line of carriage returns alone in the file, the condition is sufficient only, because
  the comparison takes such a line for an empty one and the two can then stand for each other (`Patch.ReturnsStandIn`).
- Stream: the rate is a pair, bytes and seconds; the wait before the next check and the end shown for each session are
  left out.
