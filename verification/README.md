# Topograph in Dafny

Topograph turns raw fabric and accelerator data into a hierarchy a scheduler can use. This project models the parts
of it that carry the logic, in Dafny 4.11, and proves what they promise. `dafny verify dfyconfig.toml` checks
everything.

The modules, by subject:

- **Block-tree allocator.** `Arithmetic`, `BlockSizes`, `Domains`, `BlockTree`, `RootPadding`, `BlockTheorems`,
  `Complement`. Hosts of accelerator domains are packed into base blocks, slots are rounded to power-of-two multiples,
  and the root is padded by GCD and LCM. Main results: `HostsConserved`, `NoMixedSlot`, `RootCapacity`,
  `DomainStartsAligned`, `PositionsStable`, and `PipelineConserves` for the whole complement pipeline.
- **Nautobot fabric reduction.** `Fabric`, `FabricTiers`, `UnionFind`, `FabricGroups`, `Hierarchy`,
  `HierarchyTheorems`, `NautobotTopology`. Breadth-first tiers and a union-find per tier turn a CLOS fabric into a
  tree. Iteration over Go maps is a nondeterministic choice. Main results: `TierIsDistance`, `ClassesAreComponents`,
  `ReductionIsDeterministic`, `SharedAncestors`, and `GenerateTopology` from devices to flattened instances.
- **CLOS merger and InfiniBand layering.** `Merger`, `MergerTheorems`, `IbTree`, `IbTopology`. Vertices are identified
  by ID. Main results: `ReachabilityPreserved`, `MergeIdempotent`, `LevelIsDistance`, and `GenerateTopology` end to end.
- **Request queue.** `Recency`, `Lru`, `DelayQueue`, `DelayQueueTheorems`, `RequestQueue`. The cache is a map into a
  list of heap elements; the queue is a step machine over submissions, timers, callbacks and polls, and the class refines
  it one critical section per step. Main results: `CacheIsRecencyPrefix`, `LatestWins`, `NotFoundIff`,
  `EveryBurstRunsOnce`.
- **Node observer.** `Observer`: the generation counter over a work queue with one key. Main results: `NoLostEvent`,
  `NoEarlyRetry`, `RestMeansDone`.
- **Token cache.** `TokenCache`, `CredentialCache`: any number of callers, one refresh lock. Main results:
  `ServedUnexpired`, `SingleFlight`, `PublishedIsReused`, `RefreshBeforeExpiry`.
- **Node-set syntax.** `Numerals`, `NodeSyntax`, `NodeList`, `NodeCompact`, `NodeRanges`, `NodeGroups`,
  `NodeRoundTrip`, `NodeTermination`. Main results: `RoundTrip`, `CompactIsCanonical`, `ExpandWithLimit`, `ExpandEnds`,
  and `CompactThenExpand` over the loops.
- **Canonical graph.** `GraphTree`, `CanonicalGraph`, `GraphWalk`, `GraphRoundTrip`. Main results: `InitTree` accepts
  exactly the trees, and `BuildAndFlatten` gives every instance its own layers back.

`Lex` is the byte order of Go strings and `sort.Strings`; `Wrappers` holds what several modules share.

## Assumptions

- Time is a non-decreasing integer; jitter is any real in [0, 1).
- The work queue is an explicit specification: a dirty mark, a queued mark, delayed entries that cannot be cancelled
  (the library may drop a later one in favour of an earlier), and a second queueing on Done.
- `sort.Slice` on node numbers may order equal values in any way; the model's sort promises no more.
- The regular expressions of the node-set syntax are written out: the longest trailing run of digits after a prefix on
  one line, and the first `[` to the final `]` of an entry on one line.
- Machine integers are explicit where they matter (`Numerals.int64`; `Atoi` clamps, and stops at the first
  overflow); elsewhere integers are unbounded.
- In the merger and in the InfiniBand layering no compute node is named like a switch.

## What turned out false

The plain node-set expansion counts up to the upper bound of a range on machine integers. After the largest integer the
counter wraps around, so it never passes a bound that is the largest integer itself: `NodeSyntax.LeftIff` says the loop
is left exactly for the other bounds, and `NodeTermination.TopRangeNeverEnds` gives an entry. `NodeTermination.ExpandEnds`
says exactly when expanding a compacted list ends: unless two names with one prefix are numbered with the two largest
integers. `NodeSyntax.ExpandWithLimit` has no such restriction.

## Model

| member | source | states |
|---|---|---|
| `BlockSizes.BitTrick` | pkg/engines/slurm/slurm.go:309-344 | `n & (n-1) == 0` holds exactly for powers of two |
| `BlockSizes.Validate` | pkg/engines/slurm/slurm.go:309-344 | accepts exactly the bounded, positive lists in which every entry is the previous one doubled at least once; otherwise names the first offending entry and a fault it has |
| `BlockSizes.ChainDivides` | pkg/engines/slurm/slurm.go:309-344 | in an accepted list every size divides every later one |
| `Domains.DomainMap.AddHostInfo` | pkg/topology/domain.go:75-89 | adds the host under its domain and host name and changes nothing else; a missing record or one without a domain is ignored |
| `Domains.DomainMap.GetDomainTree` | pkg/topology/domain.go:148-216 | the tree is the one specified by `DomainTree`: hosts at the leaves or grouped by sub-domain, actual counts, largest child |
| `Domains.DomainMap.BuildDomain` | pkg/topology/domain.go:148-216 | one domain: flat without sub-domains, otherwise one child per sub-domain name |
| `Arithmetic.CapacityLeast` | pkg/translate/block_tree.go:427-433 | the rounded capacity is the least power-of-two multiple of the base that reaches the count |
| `Arithmetic.CapacityExponent` | pkg/translate/block_tree.go:427-433 | it is the base times a power of two, and half of it would not do |
| `Arithmetic.GcdDivides` | pkg/translate/block_tree.go:505-513 | the result of the remainder loop divides both numbers |
| `Arithmetic.GcdGreatest` | pkg/translate/block_tree.go:505-513 | and every common divisor divides it |
| `Arithmetic.LcmIsLeast` | pkg/translate/block_tree.go:408-421 | the common multiple the padding aims at divides every common multiple |
| `BlockTree.NewBaseBlock` | pkg/translate/block_tree.go:207-223 | the first `base` hosts in order, filled up with free leaves to exactly `base`; hosts beyond `base` are cut off |
| `BlockTree.SplitIntoBaseBlocks` | pkg/translate/block_tree.go:73-87 | the in-order split into blocks of `base` hosts with numbered IDs |
| `BlockTree.AggregateSlotCapacity` | pkg/translate/block_tree.go:427-433 | the least power-of-two multiple of the base size that reaches the count |
| `BlockTree.BlockTreeGCD` | pkg/translate/block_tree.go:505-513 | the loop computes the greatest common divisor |
| `BlockTree.PackHostsIntoAggregate` | pkg/translate/block_tree.go:438-449 | split hosts, padded with placeholders to the slot width |
| `BlockTree.ToDomainAggregate` | pkg/translate/block_tree.go:336-366 | the recursive builder collects to the specified slots of a vertex |
| `BlockTree.RecurseChildrenIntoAggregate` | pkg/translate/block_tree.go:462-500 | children in name order, rounded up as a whole to the slot width |
| `BlockTree.CollectBases` | pkg/translate/block_tree.go:101-116 | collecting the slots of an aggregate gives back the base blocks it was built from |
| `RootPadding.NewEmptyChildAggregate` | pkg/translate/block_tree.go:254-261 | for every capacity: as many whole empty base blocks as fit it, without a name; all of it where the base size divides it |
| `RootPadding.PadTargetIsLeast` | pkg/translate/block_tree.go:387-422 | the LCM target is the least total reachable from the current one in whole padding steps that ends on a boundary of the last block size |
| `RootPadding.PadRoot` | pkg/translate/block_tree.go:387-422 | the padding loop lands exactly on its target and appends only empty slots |
| `RootPadding.PadStepFits` | pkg/translate/block_tree.go:377-405 | the running GCD is positive, keeps whole base blocks and divides the node count so far |
| `RootPadding.RootCapacity` | pkg/translate/block_tree.go:377-422 | base size times the number of collected slots is positive, a multiple of the last block size, and the least such total reachable by whole steps |
| `RootPadding.ToRootAggregate` | pkg/translate/block_tree.go:377-422 | absent exactly for missing or non-positive sizes; otherwise collects to the specified slots and counts base size times their number |
| `BlockTheorems.SlotsConserve` | pkg/translate/block_tree.go:336-500 | the slots of any vertex hold its hosts in order, once each |
| `BlockTheorems.HostsConserved` | pkg/translate/block_tree.go:73-151 | every (domain, host) pair of a well-formed map sits in exactly one slot, no other host appears, every slot has exactly the base number of leaves, and a slot without hosts is the anonymous placeholder |
| `BlockTheorems.NoMixedSlot` | pkg/translate/block_tree.go:336-500 | no slot holds hosts of two domains, nor of two sub-domains of one domain |
| `BlockTheorems.FilledWidthAligned` | pkg/translate/block_tree.go:462-500 | also after sub-domain overflow the width is a multiple of the unit width, and a power of two with two or more block sizes |
| `BlockTheorems.InteriorAligned` | pkg/translate/block_tree.go:336-366 | the capacity of a domain with sub-domains is a multiple of N0, and base times a power of two with two or more block sizes |
| `BlockTheorems.DomainsAligned` | pkg/translate/block_tree.go:377-405 | when every domain has sub-domains, every prefix of domains fills a multiple of the unit width N0 |
| `BlockTheorems.DomainStartsAligned` | pkg/translate/block_tree.go:286-301 | when every domain has sub-domains, each domain of the map occupies a run of root slots that starts on, and fills, a multiple of N0, and that run holds exactly its hosts |
| `BlockTheorems.DomainPosition` | pkg/translate/block_tree.go:286-301 | single-level trees with two or more sizes: the i-th domain in sorted order occupies the slots from i times the common width on |
| `BlockTheorems.PositionsStable` | pkg/translate/block_tree.go:286-301 | changing other domains without changing the common width moves no host of this domain |
| `Complement.InferTwoLevelBlockSizes` | pkg/topology/domain.go:98-132 | empty exactly without sub-domains; otherwise the largest sub-domain and, if larger, the doubled size that holds the largest domain |
| `Complement.SlotEmits` | pkg/translate/block_tree.go:131-203 | a slot is emitted with exactly its live host names; an empty one without any name |
| `Complement.DomainsForBlocks` | pkg/translate/block_complement.go:84-112 | exactly the hosts of the cluster map that the given blocks own |
| `Complement.BlocksByName` | pkg/translate/block_complement.go:117-126 | indexes every named block under its own name; of several with one name the last wins |
| `Complement.BuildBlockTree` | pkg/translate/block_tree.go:236-250 | the domain map's tree, collected to its specified slots |
| `Complement.EmittedInOrder` | pkg/translate/block_tree.go:131-151 | the emitted node names are the hosts of the slots, in order |
| `Complement.PipelineConserves` | pkg/translate/block_complement.go:42-73 | each owned host of the cluster map is named in exactly one position, nothing else is named, no block exceeds the base size, blocks are numbered from 1 and have no name without nodes, and the list fills whole groups of the last size |
| `Complement.ComplementBlocks` | pkg/translate/block_complement.go:42-73 | the blocks are rebuilt exactly when some host of the cluster map is owned and the sizes are given with a positive first one, or none is given and an owned host has a sub-domain; then the above holds; given sizes are kept, missing ones are those inferred from the owned part |
| `Fabric.Classify` | pkg/providers/nautobot/topology.go:36-87 | hosts, switches and known devices when every device is fine; otherwise the first device without ID or name, with a repeated ID or with a repeated switch name, and its fault |
| `Fabric.BuildInventory` | pkg/providers/nautobot/topology.go:36-87 | two devices are linked exactly when both are kept, may be linked, and one of them reports the other; or the first faulty device |
| `FabricTiers.SwitchDepths` | pkg/providers/nautobot/topology.go:91-124 | the breadth-first search files every reachable switch at its level, in any iteration order |
| `FabricTiers.TierIsDistance` | pkg/providers/nautobot/topology.go:91-124 | a switch is on level d exactly when d is its shortest hop distance above the switches that serve compute hosts |
| `UnionFind.Compress` | pkg/providers/nautobot/topology.go:141-147 | path compression changes no representative |
| `UnionFind.Link` | pkg/providers/nautobot/topology.go:159-163 | linking the larger root to the smaller keeps the forest sound and merges exactly two classes |
| `UnionFind.Partition.Find` | pkg/providers/nautobot/topology.go:141-147 | returns the root of the element and leaves every root unchanged |
| `UnionFind.Partition.Union` | pkg/providers/nautobot/topology.go:159-163 | merges the two classes under the smaller root |
| `FabricGroups.ClassesAreComponents` | pkg/providers/nautobot/topology.go:130-177 | two switches end in one class exactly when a chain of shared children connects them |
| `FabricGroups.RootIsLeast` | pkg/providers/nautobot/topology.go:130-177 | the representative is the smallest ID of the connected component |
| `FabricGroups.TierMerge.Visit` | pkg/providers/nautobot/topology.go:150-163 | seeing one child of one switch keeps classes justified by, and complete for, what was seen |
| `Hierarchy.VisitSwitch` | pkg/providers/nautobot/topology.go:150-163 | all lower neighbours of a switch are visited, in any order |
| `Hierarchy.MergeTier` | pkg/providers/nautobot/topology.go:130-177 | one tier: groups are the components of shared child groups, parents sit on this tier |
| `Hierarchy.BuildHierarchy` | pkg/providers/nautobot/topology.go:130-177 | all tiers are reduced, for every iteration order of the link maps |
| `HierarchyTheorems.ReductionIsDeterministic` | pkg/providers/nautobot/topology.go:130-177 | groups and parents are a function of the inventory alone |
| `HierarchyTheorems.ParentsClimbOneTier` | pkg/providers/nautobot/topology.go:130-177 | every host or group has at most one parent, exactly one tier higher |
| `HierarchyTheorems.LineageTiers` | pkg/providers/nautobot/topology.go:211-214 | the i-th ancestor of a vertex sits i tiers above it |
| `HierarchyTheorems.SharedAncestors` | pkg/providers/nautobot/topology.go:211-214 | two hosts that share an ancestor share every ancestor above it, at the same heights |
| `HierarchyTheorems.WalkUp` | pkg/providers/nautobot/topology.go:211-214 | the parent walk ends within the number of tiers and returns the whole lineage |
| `HierarchyTheorems.BuildAliases` | pkg/providers/nautobot/topology.go:186-198 | an alias resolves to a host exactly when that host alone claims it |
| `NautobotTopology.BuildTopology` | pkg/providers/nautobot/topology.go:179-225 | end to end: the first faulty device, or one record for exactly those requested instances that one host alone goes by and that has a parent; its tiers are that host's whole lineage, with the switch names |
| `NautobotTopology.RecordsAligned` | pkg/providers/nautobot/topology.go:200-225 | two records that name the same switch do so at the same tier and agree on every tier above |
| `NautobotTopology.RecordsConsistent` | pkg/providers/nautobot/provider.go:228-238 | the records meet what building the graph needs, however many tiers are trimmed |
| `NautobotTopology.GenerateTopology` | pkg/providers/nautobot/provider.go:228-238 | devices to flattened instances: the graph is accepted, exactly the instances asked for come back, each with the display names of the switches above its host, closest first and trimmed, and none if no single host with a parent goes by its name |
| `Merger.FabricMerger.constructor` | pkg/topology/merger.go:33-50 | tiers from the leaves up, each listing exactly the children of the one above; the top sorted by ID |
| `Merger.FabricMerger.Traverse` | pkg/topology/merger.go:52-82 | rank by rank down to the leaves, which are recorded unchanged |
| `Merger.FabricMerger.MergeLayer` | pkg/topology/merger.go:98-146 | keeps the first vertex per merged child set, in order; every other vertex is represented by the survivor with its child set; lower tiers stay |
| `Merger.FabricMerger.Merge` | pkg/topology/merger.go:92-96 | every tier above the leaves is merged |
| `MergerTheorems.ReachabilityPreserved` | pkg/topology/merger.go:92-146 | the compute nodes below a vertex are exactly those below its representative in the merged graph |
| `MergerTheorems.ChildrenSurvive` | pkg/topology/merger.go:98-146 | all children of survivors are survivors of the tier below |
| `MergerTheorems.DistinctChildSets` | pkg/topology/merger.go:98-146 | no two survivors of a tier have the same child set |
| `MergerTheorems.MergedGraphLayered` | pkg/topology/merger.go:92-146 | the merged graph is layered by the same ranks, so it can be merged again |
| `MergerTheorems.MergeIdempotent` | pkg/topology/merger.go:92-146 | a second run merges nothing, keeps every survivor unchanged and returns the same top tier in the same order |
| `IbTree.SplitPorts` | pkg/ib/ib.go:130-141 | HCA ports leave the connections; those of cluster nodes are recorded |
| `IbTree.BuildTree` | pkg/ib/ib.go:124-190 | terminates; every reachable switch is placed with its nodes or with the adjacent switches one level down; returns exactly the switches on the last level, none only without cluster nodes |
| `IbTree.LevelIsDistance` | pkg/ib/ib.go:158-189 | the level of a switch is its shortest distance from a switch that holds cluster nodes |
| `IbTopology.TreeIsLayered` | pkg/ib/ib.go:53-70 | what the layering builds satisfies the precondition of the merger: uniformly layered, roots on one rank |
| `IbTopology.EqualPaths` | pkg/ib/ib.go:124-190 | all paths from a root to a node have the same length |
| `IbTopology.NodesBelow` | pkg/ib/ib.go:124-190 | the nodes below a switch are those of the leaf switches from which a shortest walk leads up to it |
| `IbTopology.GenerateTopology` | pkg/ib/ib.go:53-70 | layering and merging together: every switch at the greatest distance is represented in the result with exactly its own nodes, and nothing else is returned |
| `Lru.Cache.Add` | pkg/server/lru.go:43-62 | refines `AfterAdd`: the entry moves to the front, the last one goes when the capacity is exceeded, and the result says whether it did |
| `Lru.Cache.Get` | pkg/server/lru.go:64-73 | refines `AfterGet`: returns the stored value and moves the entry to the front, or changes nothing |
| `Lru.Cache.RemoveOldest` | pkg/server/lru.go:75-83 | drops the last element from list and map together; no effect when empty |
| `Recency.CacheIsRecencyPrefix` | pkg/server/lru.go:43-83 | after every run the keys are the most recently touched distinct keys, latest first, cut at the capacity |
| `Recency.CacheOrder` | pkg/server/lru.go:43-83 | keys are distinct, never more than the capacity, and ordered by last touch |
| `Recency.RetainedValue` | pkg/server/lru.go:64-73 | a retained key has the value last added for it |
| `Recency.RetainedIff` | pkg/server/lru.go:43-83 | a key is retained exactly when it was touched and fewer distinct keys than the capacity were touched since |
| `Recency.EvictsLeastRecent` | pkg/server/lru.go:75-83 | an evicted key was touched longer ago than every key that is kept |
| `DelayQueue.StepKeeps` | pkg/server/trailing_delay_queue.go:76-142 | submit, firing, return of a callback, poll and shutdown keep the queue invariant |
| `DelayQueueTheorems.LatestWins` | pkg/server/trailing_delay_queue.go:92-142 | in every run a poll shows the latest submission of its hash: 202 until its own callback returns, then that outcome, or 404 once evicted |
| `DelayQueueTheorems.StoreIsCache` | pkg/server/trailing_delay_queue.go:84-142 | the store after any run is the cache after the adds and lookups of its steps |
| `DelayQueueTheorems.NotFoundIff` | pkg/server/trailing_delay_queue.go:129-142 | in every run a poll shows 404 exactly when its hash was never touched or at least 100 other hashes were touched since; otherwise the state of its latest submission |
| `DelayQueueTheorems.SubmitShowsAccepted` | pkg/server/trailing_delay_queue.go:84-126 | a submission makes its hash show 202 |
| `DelayQueueTheorems.ViewChanges` | pkg/server/trailing_delay_queue.go:98-142 | what a hash shows changes only by its own submission, the return of its latest submission's callback, or an eviction; never by an older callback |
| `DelayQueueTheorems.OneArmedTimer` | pkg/server/trailing_delay_queue.go:92-126 | per hash at most one timer is armed, it belongs to the latest submission and is the one in the timers map |
| `DelayQueueTheorems.HandlerRunsOnce` | pkg/server/trailing_delay_queue.go:98-122 | the handler runs at most once per submission |
| `DelayQueueTheorems.BurstRunsOnce` | pkg/server/trailing_delay_queue.go:92-126 | from every state that keeps the queue invariant, a burst whose timers are always stopped in time runs the handler at most once |
| `DelayQueueTheorems.EveryBurstRunsOnce` | pkg/server/trailing_delay_queue.go:92-126 | the same for a burst at any point of any run, also when the hash was handled before |
| `RequestQueue.TrailingDelayQueue.Submit` | pkg/server/trailing_delay_queue.go:76-127 | one submit step of the queue machine, over the cache |
| `RequestQueue.TrailingDelayQueue.Fire` | pkg/server/trailing_delay_queue.go:97-98 | one firing step: the armed timer starts the callback, which may then return any outcome |
| `RequestQueue.TrailingDelayQueue.Return` | pkg/server/trailing_delay_queue.go:98-122 | one callback step: publishes only if the store still holds this submission, drops the timer only if it is its own |
| `RequestQueue.TrailingDelayQueue.Get` | pkg/server/trailing_delay_queue.go:129-142 | one poll step; returns what the hash shows |
| `RequestQueue.TrailingDelayQueue.StopTimers` | pkg/server/trailing_delay_queue.go:66-74 | the shutdown loop stops exactly the timers in the map that have not fired |
| `Observer.QueueStep` | pkg/node_observer/status_informer.go:379-440 | every step of senders, work queue and worker keeps outstanding work recorded |
| `Observer.NoLostEvent` | pkg/node_observer/status_informer.go:379-440 | while running, an event not yet reconciled leaves the key queued, in process or delayed, or its sender about to add it |
| `Observer.CompletedWasReconciled` | pkg/node_observer/status_informer.go:389-440 | a completed generation was reached by a successful reconciliation begun after its event was counted |
| `Observer.NoEarlyRetry` | pkg/node_observer/status_informer.go:408-434 | a generation is never reconciled again before the retry deadline of any earlier attempt, nor after it succeeded |
| `Observer.RestMeansDone` | pkg/node_observer/status_informer.go:379-440 | at rest, everything counted has been reconciled by a successful attempt begun after it |
| `TokenCache.RefreshBeforeExpiry` | pkg/providers/lambdai/token.go:236-248 | a live token is refreshed after minting and no later than its expiry; one dead on arrival is due at once |
| `TokenCache.StepKeeps` | pkg/providers/lambdai/token.go:143-216 | every step of any number of callers keeps the cache invariant |
| `TokenCache.ServedUnexpired` | pkg/providers/lambdai/token.go:143-175 | every key served from the cache was unexpired when checked, in every interleaving |
| `TokenCache.SingleFlight` | pkg/providers/lambdai/token.go:152-175 | at most one caller refreshes at a time |
| `TokenCache.DeferBounded` | pkg/providers/lambdai/token.go:185-203 | deferring never passes the hard expiry, keeps key and expiry, and leaves any other token alone |
| `TokenCache.DeferBuysTime` | pkg/providers/lambdai/token.go:185-203 | after a failed refresh of a live key later callers are served from the cache |
| `TokenCache.KeyChanges` | pkg/providers/lambdai/token.go:143-216 | the current key changes only by publishing a fresh one or by invalidating that very key |
| `TokenCache.PublishedIsReused` | pkg/providers/lambdai/token.go:152-175 | in every run, after a token not yet due is published, no exchange starts and it stays current until it is due or invalidated; whoever takes the refresh lock is served it |
| `TokenCache.DeferredIsReused` | pkg/providers/lambdai/token.go:178-203 | after a failed refresh of a live key callers are served the deferred token and start no exchange, until it is due or invalidated |
| `CredentialCache.SharedCredentials.Shared` | pkg/providers/lambdai/token.go:96-118 | the cached credential as long as it is cached; at most 32, the oldest inserted dropped first, others untouched |
| `Numerals.PadValue` | internal/cluset/cluset.go:70-94 | reading back a zero-padded number gives the number |
| `Numerals.PadOfValue` | internal/cluset/cluset.go:78-84 | printing a numeral's value at its own length gives the numeral |
| `Numerals.AtoiOverflow` | internal/cluset/cluset.go:190-195 | digits beyond 64 unsigned bits are read as the largest integer, whatever follows them |
| `NodeSyntax.Expand` | internal/cluset/cluset.go:70-94 | the loops compute the mathematical expansion, wherever they end |
| `NodeSyntax.LeftIff` | internal/cluset/cluset.go:78-84 | the range loop, counted on wrapping 64-bit integers, is left exactly when its upper bound is not the largest integer |
| `NodeSyntax.ExpandWithLimit` | internal/cluset/cluset.go:109-150 | on 64-bit integers, for every input: the mathematical expansion, padded to the byte length of the lower bound, if it has at most `limit` names (or none), an error otherwise |
| `NodeList.SplitList` | internal/cluset/cluset.go:197-238 | splits at commas outside brackets, trims, drops empty parts |
| `NodeList.SplitJoined` | internal/cluset/cluset.go:197-238 | splitting undoes joining, for every list of clean entries |
| `NodeCompact.CompressRange` | internal/cluset/cluset.go:158-180 | the loop prints the maximal runs in order |
| `NodeCompact.Compact` | internal/cluset/cluset.go:34-67 | one entry per prefix in sorted order, its numbers sorted by value and compressed |
| `NodeRanges.GroupExpands` | internal/cluset/cluset.go:158-188 | expanding the entry of a prefix gives exactly its names, in order |
| `NodeRoundTrip.RoundTrip` | internal/cluset/cluset.go:34-94 | for well-named input, expanding the split of the comma-joined compact form is a permutation of the names |
| `NodeRoundTrip.CompactIsCanonical` | internal/cluset/cluset.go:34-67 | the compact form depends only on the set of names |
| `NodeTermination.ExpandEnds` | internal/cluset/cluset.go:78-84 | on compacted names every range loop is left exactly when no prefix carries both of the two largest integers |
| `NodeTermination.TopRangeNeverEnds` | internal/cluset/cluset.go:78-84 | a concrete entry with a range loop that is never left |
| `NodeTermination.ExpandList` | internal/cluset/cluset.go:153-155 | split, then expand |
| `NodeTermination.CompactThenExpand` | internal/cluset/cluset.go:34-94 | the loops run one after the other: compact, join with commas, split, expand; a permutation of the names comes back whenever the expansion ends |
| `CanonicalGraph.PlaceRecord` | pkg/topology/graph.go:148-171 | hangs an instance below its closest named tier and each tier below the next, creating switches once per level and ID |
| `CanonicalGraph.PlaceRecords` | pkg/topology/graph.go:122-172 | places exactly the first record of every requested instance; the rest has no record |
| `CanonicalGraph.Assemble` | pkg/topology/graph.go:174-195 | root over the forest, instances without a record below the no-topology marker |
| `GraphRoundTrip.ToGraph` | pkg/topology/graph.go:103-205 | from consistent tier lists: a tree in which each requested instance is exactly one leaf, below exactly its own layers |
| `GraphTree.InitTree` | pkg/translate/topology.go:260-304 | for every graph and root ID: accepted exactly when what is reachable is a tree; then children are listed sorted and every compute node has its switches, outermost first |
| `GraphTree.ShapeIsTree` | pkg/translate/topology.go:260-304 | a graph with one higher-ranked parent per vertex is a tree and wholly reachable |
| `GraphWalk.Walk` | pkg/engines/graph/engine.go:152-194 | adds exactly the requested leaves below a vertex, each with the layers above it, closest first |
| `GraphWalk.DeriveInstances` | pkg/engines/graph/engine.go:146-194 | exactly the requested compute nodes of the tree |
| `GraphRoundTrip.BuildAndFlatten` | pkg/topology/graph.go:310-323 | build, accept and flatten under any request filter: the graph is accepted, and exactly the instances asked for get back their own network layers, none without a record |

## Left out

- Provider clients, HTTP, Kubernetes objects, configuration decoding, metrics and logging: input and output around the
  logic above.
- Text emission of the schedulers' formats, block-name formatting and hashing: formatting of structures covered above.
- ClusterTopology.Normalize: it renames switches before the graph is built; names are taken as given here.
- mergeVertices on two different vertices: with consistent tier lists a root is only ever merged with itself.
- Accelerator labels and enriched instance metadata in the graph engine: only tiers and layers are flattened.
- Parsing of ibnetdiscover output and short-name resolution: the parsed switches and names are the input.
- Observer: readiness predicates of pods and daemon sets, and overflow of the 64-bit generation counter after 2^64 events.
- TokenCache: reading and exchanging the service-account token; an exchange either fails or yields a key with an expiry.
- CredentialCache.SharedCredentials.Shared: the cache key is one string; how it is put together is not modelled.
- NodeSyntax.Expand: does not model field widths above one million, which Go's formatter refuses, nor strings that are
  not valid UTF-8.
- RootPadding.ToRootAggregate: does not model a positive first with a non-positive last block size, which the size
  validation of the Slurm engine refuses.
- Complement.BuildBlockTree: the same.
- Complement.ComplementBlocks: the same.
- NautobotTopology.GenerateTopology: does not model requested instances that go by the ID of a switch, by no name or by
  the name of the no-topology marker, nor a switch with that ID; `BuildTopology` does.
- IbTopology.GenerateTopology: does not model fabrics in which a cluster node is named like a switch ID.
- IbTopology.TreeIsLayered: the same.
- IbTopology.EqualPaths: the same.
- IbTopology.NodesBelow: the same.
- GraphTree.InitTree: vertices are identified by ID; absent children and map keys that differ from the ID of the child
  are not modelled.
- IbTree.BuildTree: switches are values in a map that is reassigned; the source updates switch objects in place, and
  nothing else holds them.
- GraphRoundTrip.ToGraph: vertices are identified by level and ID instead of by address, and the requested instances
  are one map, as `NautobotTopology.Requested` merges it from several regions.
- RequestQueue.TrailingDelayQueue.Submit: the hash is given; a request that cannot be hashed is rejected before the
  queue is touched.
- Liveness that depends on the Go scheduler or on real time.
