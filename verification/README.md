# Verified model of hermit-rs classification and realisation

This project models the parts of hermit-rs that sit on top of the tableau: the
quasi-order classifier, the hierarchy builder and its insertion search, the
instance managers, the conjunctive-query join, and the interned graph, calendar,
base64 and reuse structures they rely on. The tableau itself appears only as an
oracle with a contract. Every statement holds for all inputs, all oracles meeting
the contract and all completion orders.

Main results:

- `classify` returns exactly the hierarchy of the true subsumption relation, so
  serial, batched and streaming runs, with results arriving in any order and
  resolve tasks working on outdated snapshots, cannot differ
  (`Classification`, `ClassificationTheorems`).
- The Tarjan variant and the reduction produce the unique transitive reduction
  (`Components`, `Visiting`, `Reduction`, `HierarchyLinks`, `HierarchyBuilding`,
  `Hierarchies`), and `find_position` finds exactly the equivalent node or the
  minimal and maximal neighbours, each of its two searches testing a node at most
  once (`HierarchySearch`, `Placement`).
- `realize` and the queries after it agree with asking the oracle about every pair
  (`Instances`, `InstanceManager`, `InstanceQueries`), and so does the whole pipeline
  from classification and model read-off to the answers (`Realisation`); the on-demand
  `get_types` finds exactly the true types with a mark at or below them (`LazyTypes`);
  the same-as classes are the equivalence closure and the lazily confirmed class is
  the true one (`SameAs`).
- The reordered, backtracking join equals naive query semantics (`Queries`,
  `AtomOrdering`, `Join`).
- In-place closure, exact calendar arithmetic, base64 in both directions, and
  the exact condition under which backtracking restores the reuse table
  (`InternedGraph`, `Calendar`, `Base64`, `BinaryParsing`, `Reuse`).

The oracle contract (`Subsumption.OracleOk`) follows src/quasi_order.rs:156-181 and
422-505: `build_model` fails iff the concept is unsatisfiable; read-off knowns are
true; labels hold satisfiable elements, each with all its true subsumers; a
satisfiable concept occurs in a label of its own model; `does_subsume` is exact; a
negative union test refutes every candidate. The relation itself
(`Subsumption.TruthOk`) is reflexive and transitive with top above and bottom below
everything, and top is satisfiable. Answers may depend on a call number, so stateful
engines are covered. Completeness is stated over the known graph extended with an
edge from every element to top, because the traversal never records members of the
small hierarchy's top node and the final build adds those edges.

Verify with `dafny verify dfyconfig.toml`.

## Model

| member | source | states |
|---|---|---|
| `ClassificationTheorems.ClassificationExact` | src/quasi_order.rs:800-868 | in the returned hierarchy, b's node is an ancestor-or-self of a's node iff a is truly subsumed by b, they share a node iff equivalent, the bottom node holds exactly the unsatisfiable elements and the top node exactly those equivalent to top |
| `ClassificationTheorems.ClassifyFrom` | src/quasi_order.rs:758-868 | seeding true told pairs and classifying yields the transitive reduction of the true relation, for every oracle meeting its contract |
| `ClassificationTheorems.ClassifyTwice` | src/quasi_order.rs:642-713 | schedule independence: two runs with different oracles, pools, told pairs and completion orders agree on which elements share a node and on every direct parent link |
| `ClassificationTheorems.RelationOracleOk` | src/quasi_order.rs:422-505 | the oracle contract can be met for every true relation |
| `Classification.QuasiOrderClassification.Classify` | src/quasi_order.rs:800-868 | the whole run, serial or streaming in either phase, ends in the hierarchy of the true relation with top and bottom at their own nodes, and hands out the complete runs of both coordinators |
| `Classification.QuasiOrderClassification.InitialiseKnownUsingTold` | src/quasi_order.rs:758-764 | told pairs between elements become known edges, all others are ignored, and soundness of the known graph is kept |
| `Classification.QuasiOrderClassification.UpdateUsingLeafNodeStrategy` | src/quasi_order.rs:874-977 | after the leaf phase each element either known-reaches bottom and is unsatisfiable, or holds a possible set containing all its true subsumers; with a pool the coordinator's complete run is handed out |
| `Classification.QuasiOrderClassification.LeafRounds` | src/quasi_order.rs:928-976 | the batched rounds keep the leaf invariant, empty the worklist and terminate; every round builds between one and 256 nodes, exactly one when builds are serial |
| `Classification.QuasiOrderClassification.LeafStreaming` | src/quasi_order.rs:1112-1183 | returns the whole run of the coordinator: in every state the in-flight concepts are distinct, at their own nodes and no more than the workers (one if there are none); a dispatch takes only undecided nodes from the end of the worklist, asks the governor once, stops at one build when throttled, and otherwise leaves fewer than workers in flight only if the worklist is empty; a receipt folds in or drops one arriving result; the run is finite and ends with empty worklist and nothing in flight |
| `Classification.QuasiOrderClassification.FillPipeline` | src/quasi_order.rs:1124-1145 | one dispatching step: the governor is asked once, only undecided concepts not in flight take off, and the pipeline holds the number of workers (one when throttled) or the worklist is empty |
| `Classification.QuasiOrderClassification.ReceiveOne` | src/quasi_order.rs:1154-1182 | one receiving step: any in-flight result may arrive; a stale one changes nothing else and any other decides its concept |
| `Classification.QuasiOrderClassification.HarvestUnlessStale` | src/quasi_order.rs:1170-1182 | a result whose concept was decided meanwhile is dropped with graphs and worklist unchanged; otherwise its node becomes decided |
| `Classification.QuasiOrderClassification.HarvestRound` | src/quasi_order.rs:950-975 | harvesting a round in any order decides every node of the round and keeps the leaf invariant |
| `Classification.QuasiOrderClassification.HarvestLeafNodeResult` | src/quasi_order.rs:992-1056 | folding one model keeps soundness, decides the node, undoes no decision, and every parent of an unsatisfiable node is decided or waiting |
| `Classification.QuasiOrderClassification.HarvestUnsat` | src/quasi_order.rs:1002-1031 | an unsatisfiable node and all nodes below it are sent to bottom, the known graph only grows, and the freed parents wait or are decided |
| `Classification.QuasiOrderClassification.HarvestSat` | src/quasi_order.rs:1032-1054 | the new graphs are the old ones with the deterministic subsumers added and the labels harvested; the leaf invariant is kept and the node decided |
| `Classification.QuasiOrderClassification.PropagateUnsat` | src/quasi_order.rs:1008-1030 | afterwards the node and everything below it are marked unsatisfiable, freed parents are decided or waiting, nothing decided is undone, and the loop terminates |
| `Classification.QuasiOrderClassification.StreamingResolution` | src/quasi_order.rs:642-713 | tasks snapshotted from older graphs and completed in any order leave every listed element resolved; returns the whole run: in every state no more tasks than workers (one if there are none) are in flight for distinct positions and everything scanned is settled or in flight, after a dispatch fewer than workers are in flight only if the list is exhausted, a receipt folds in any arriving result, and the run ends with the list scanned and nothing in flight |
| `Classification.QuasiOrderClassification.ReceiveDelta` | src/quasi_order.rs:694-704 | one receiving step: any in-flight task may arrive, and its element is settled |
| `Classification.DispatchedOnce` | src/quasi_order.rs:665-690 | no position of the list is dispatched twice in a run |
| `Classification.QuasiOrderClassification.DispatchTasks` | src/quasi_order.rs:668-690 | dispatch fills the window or exhausts the list, prunes by what is known, and every skipped or dispatched element is accounted for |
| `Classification.QuasiOrderClassification.HarvestResolveDelta` | src/quasi_order.rs:586-595 | the new graphs are the old ones with the delta's knowns added, its labels pruned by and its element cleared; the resolution invariant is kept although the task was stale |
| `Classification.QuasiOrderClassification.BuildResolveTask` | src/quasi_order.rs:618-627 | the snapshot under-approximates the known graph and covers the element's whole possible set |
| `Classification.SnapshotKnown` | src/quasi_order.rs:618-627 | the snapshot maps each candidate to exactly its known-reachable subsumers |
| `Classification.QuasiOrderClassification.SerialResolution` | src/quasi_order.rs:833-861 | the serial loop leaves every unclassified element resolved and terminates |
| `Classification.QuasiOrderClassification.PickUnclassified` | src/quasi_order.rs:840-849 | everything listed before the picked element is classified, the picked one has possibles left, and without one everything is classified |
| `Classification.QuasiOrderClassification.CollectUnclassified` | src/quasi_order.rs:809-820 | the listed elements are satisfiable and listed once, every satisfiable element not listed has no possibles left, and the invariant is kept |
| `Classification.QuasiOrderClassification.ResolveOnePicked` | src/quasi_order.rs:600-613 | afterwards every true subsumer of the element is known-reachable (counting the edge to top) and its possibles are empty |
| `Classification.QuasiOrderClassification.IsEveryPossibleNonSubsumer` | src/quasi_order.rs:1341-1366 | one union test for three to six candidates and none otherwise; a negative answer refutes every candidate, a positive one only adds true edges and removes what became known |
| `Classification.QuasiOrderClassification.TraverseInPlace` | src/quasi_order.rs:1268-1329 | the enhanced traversal against live graphs confirms every true subsumer among the unknowns except members of the small top node |
| `Classification.QuasiOrderClassification.TestInPlace` | src/quasi_order.rs:1286-1317 | answers subsumption exactly, asks the oracle once iff the candidate is possible and not yet known, and harvests the witnessing model soundly |
| `Classification.QuasiOrderClassification.PruneByKnown` | src/quasi_order.rs:813-814 | removes exactly the known-reachable elements from the possibles and keeps the invariant |
| `Classification.SunkDescendants` | src/quasi_order.rs:1008-1030 | every descendant of a node found unsatisfiable is marked unsatisfiable |
| `Classification.Dispatch` | src/quasi_order.rs:1124-1145 | dispatches only undecided concepts not in flight, within the budget, and leaves the pipeline full or the worklist empty; no node is lost |
| `Classification.DrainRound` | src/quasi_order.rs:929-947 | a round is a set of distinct undecided nodes of bounded size; nothing undecided is lost, and a short round means the worklist is empty |
| `LeafStrategy.AllNodesProcessed` | src/quasi_order.rs:874-977 | with an empty worklist every node of the told hierarchy is decided, though models were built only for leaves and freed parents |
| `LeafStrategy.LeafCoverage` | src/quasi_order.rs:874-977 | every element is then unsatisfiable and known-reaches bottom or has all its true subsumers as possibles |
| `LeafStrategy.MarkKeeps` | src/quasi_order.rs:744-748 | sending an unsatisfiable concept to bottom keeps the leaf invariant once its parents wait |
| `LeafStrategy.LearnKeeps` | src/quasi_order.rs:1036-1040 | recording true deterministic subsumers keeps the leaf invariant |
| `Harvesting.HarvestMeaning` | src/quasi_order.rs:1204-1221 | after any labels a possible set is unchanged if the concept occurred in none, else the intersection of the element-restricted labels containing it (and of the earlier set) |
| `Harvesting.HarvestFromNothing` | src/quasi_order.rs:1204-1221 | from no possibles: empty iff the concept occurred in no label, otherwise exactly the intersection of the labels containing it |
| `Harvesting.HarvestPermutation` | src/quasi_order.rs:1204-1221 | permuting models and labels changes no possible set |
| `Harvesting.UpdatePossibleSubsumers` | src/quasi_order.rs:1204-1221 | the in-place double loop computes that harvest |
| `Harvesting.HarvestAllKeeps` | src/quasi_order.rs:1204-1221 | harvesting good labels keeps all true subsumers possible, undoes no decision and decides every concept that occurs |
| `Harvesting.PruneMeaning` | src/quasi_order.rs:1229-1243 | pruning removes exactly the candidates some label of the concept lacks |
| `Harvesting.PruneKeepsTrue` | src/quasi_order.rs:1229-1243 | pruning never removes a true subsumer |
| `Harvesting.PrunePossibleSubsumers` | src/quasi_order.rs:1229-1243 | the in-place loop computes that pruning |
| `Resolution.BuildSmallHierarchy` | src/quasi_order.rs:341-372 | the small hierarchy represents the candidates ordered by the (possibly outdated) known map, between top and bottom |
| `Resolution.TraversalComplete` | src/quasi_order.rs:1268-1329 | a finished traversal confirmed every true subsumer among the candidates or it lies in the top node of the small hierarchy |
| `Resolution.SmallTopExtended` | src/quasi_order.rs:1274-1284 | members of the small top node, never recorded by the traversal, are above top in the known graph extended with the edges to top |
| `IsolatedResolution.ResolvePickedIsolated` | src/quasi_order.rs:221-335 | against any under-approximating snapshot the delta holds only true subsumptions and makes every true subsumer of the snapshotted possible set reachable |
| `IsolatedResolution.Traverse` | src/quasi_order.rs:280-333 | the worker's traversal confirms every true candidate except those reached from top in the small graph |
| `IsolatedResolution.TestCandidate` | src/quasi_order.rs:293-320 | a candidate is decided exactly, with one test iff it is possible and not yet known |
| `IsolatedResolution.UnionTest` | src/quasi_order.rs:259-275 | one union test for three to six candidates and none otherwise: it refutes all of them or adds only true knowns |
| `IsolatedResolution.ResolvedAll` | src/quasi_order.rs:221-335 | resolving the pruned candidates resolves the whole snapshotted set |
| `Settling.DeltaSettles` | src/quasi_order.rs:586-595 | adding a delta, pruning by its labels and clearing its element keeps every other element settled and settles its own |
| `Settling.ResolutionExact` | src/quasi_order.rs:1371-1413 | with no possibles left, reachability in the extended known graph is the true relation |
| `Settling.RepresentsTransfer` | src/quasi_order.rs:1371-1413 | a hierarchy of one relation is a hierarchy of any graph with the same reachability |
| `Settling.PruneSettles` | src/quasi_order.rs:1229-1243 | pruning by any good labels keeps every element settled |
| `Settling.RemoveKnownSettles` | src/quasi_order.rs:813-814 | removing known subsumers from the possibles keeps every element settled |
| `Subsumption.BuildTransitivelyReduced` | src/quasi_order.rs:1389-1413 | the built hierarchy represents known edges plus top and self for each element and everything for bottom |
| `Subsumption.SoundExtended` | src/quasi_order.rs:1398-1407 | every path of the extended known graph is a true subsumption |
| `Components.EnterInv` | src/hierarchy.rs:761-765 | pushing an unvisited vertex reached by the whole call stack keeps the search invariant |
| `Components.LowerInv` | src/hierarchy.rs:773-781 | lowering the scc head to that of an open successor keeps the search invariant |
| `Components.LeaveInv` | src/hierarchy.rs:768-785 | a finished vertex whose head lies strictly below it may stay on the stack |
| `Components.SegmentClosed` | src/hierarchy.rs:785-796 | the popped component together with the earlier ones is closed under edges |
| `Components.SegmentConnected` | src/hierarchy.rs:785-796 | every member of the popped segment reaches, and is reached from, its head |
| `Components.CloseInv` | src/hierarchy.rs:785-813 | popping the segment of a vertex that is its own head completes a component and keeps the invariant |
| `Visiting.LoopStep` | src/hierarchy.rs:768-783 | one successor of a vertex keeps the loop invariant of the recursive visit |
| `Visiting.LoopEndOpen` | src/hierarchy.rs:768-785 | a visit that leaves its vertex open re-establishes the caller's invariant |
| `Visiting.LoopEndClosed` | src/hierarchy.rs:785-813 | a visit that completes its component re-establishes the caller's invariant |
| `HierarchyBuilding.HierarchyBuilder.Visit` | src/hierarchy.rs:761-814 | the recursive visit keeps the search invariant, extends the search, and keeps nodes in step with components |
| `HierarchyBuilding.HierarchyBuilder.CloseComponent` | src/hierarchy.rs:785-813 | the popped component gets the next topological index and its own node, or the top or bottom slot |
| `HierarchyBuilding.HierarchyBuilder.VisitAll` | src/hierarchy.rs:693-705 | after covering the graph, every element is assigned to a component |
| `HierarchyBuilding.CondensesInside` | src/hierarchy.rs:693-705 | two elements share a node iff in the same component, components are strongly connected, and edges between different components go to a strictly smaller index |
| `HierarchyBuilding.PopUntil` | src/hierarchy.rs:788-796 | pops exactly the stack segment from the component's root |
| `HierarchyBuilding.GrowNodes` | src/hierarchy.rs:797-811 | recording a component keeps one node per component; a component with both extremes is folded into node 0 |
| `Reduction.ReduceNode` | src/hierarchy.rs:710-748 | walking a node's successors from the highest index attaches exactly its covers and computes everything above it |
| `Reduction.NextIsCover` | src/hierarchy.rs:730-746 | the highest pending successor not reachable yet is an immediate strict ancestor |
| `HierarchyLinks.FinishedOrder` | src/hierarchy.rs:707-758 | in the finished arena ancestor reachability is reachability of the subsumer graph |
| `HierarchyLinks.LinkedAfter` | src/hierarchy.rs:736-737 | adding parent and child links together keeps them mutual inverses |
| `HierarchyBuilding.ReduceAll` | src/hierarchy.rs:707-758 | the rounds in topological order give every node exactly its covers as parents |
| `HierarchyBuilding.HierarchyBuilder.Run` | src/hierarchy.rs:693-758 | the result is the transitive reduction of reachability; bottom's element sits at the bottom node iff top and bottom do not reach each other |
| `Hierarchies.HierarchyUnique` | src/hierarchy.rs:596-602 | hierarchies of the same relation agree on shared nodes and on every direct link |
| `BottomUp.RepresentsAcyclic` | src/hierarchy.rs:707-758 | a built hierarchy has no cycles of parent links |
| `BottomUp.NodesBottomUp` | src/hierarchy.rs:167-182 | Kahn's ordering lists every node once, after all of its children |
| `Reachability.ReachableFrom` | src/hierarchy.rs:183-198 | the breadth-first search returns exactly the reachable vertices |
| `HierarchySearch.CacheTrueOf` | src/hierarchy.rs:979-1012 | decides whether the predicate holds at a node and at everything reachable through predecessors; over the life of the memo the predicate is evaluated once at exactly the decided nodes whose predecessors all hold, and nowhere else |
| `HierarchySearch.Search` | src/hierarchy.rs:940-973 | returns exactly the reached nodes that satisfy the predicate and have no satisfying successor; no node is evaluated twice, none without need, and every successor of a reached node that needs it is evaluated |
| `Placement.FindParents` | src/hierarchy.rs:850-861 | exactly the minimal nodes above the element; below top exactly the nodes whose parents all subsume it are tested, once each |
| `Placement.MeetCone` | src/hierarchy.rs:886-907 | the two traversals intersect the cone with the nodes below one more parent |
| `Placement.CommonLowerCone` | src/hierarchy.rs:880-908 | exactly the nodes below every parent |
| `Placement.FindChildren` | src/hierarchy.rs:863-933 | exactly the maximal nodes below the element; above inner nodes the search tests exactly those in the cone whose children are all subsumed, once each |
| `Placement.FindPosition` | src/hierarchy.rs:835-848 | an existing node iff it is equivalent to the element; otherwise exactly the minimal nodes above and the maximal nodes below; both searches test each node at most once, as stated for them |
| `Placement.EquivalentOnly` | src/hierarchy.rs:841-844 | an equivalent node is the only minimal ancestor and the only maximal descendant |
| `Placement.BuiltHierarchyPlaces` | src/hierarchy.rs:828-838 | every built hierarchy may be searched with an oracle that extends its order to the element |
| `InstanceManager.SeededClassInstanceManager.ReadOffTypes` | src/instance_manager.rs:468-487 | exactly the read-off known and possible memberships are added, and the flag stays down only if nothing is possible |
| `InstanceManager.SeededClassInstanceManager.SeedTopKnown` | src/instance_manager.rs:546-552 | the individual becomes a known instance of top and nothing else changes |
| `InstanceManager.SeededClassInstanceManager.NormalizeConceptInstances` | src/instance_manager.rs:498-538 | nothing is added and no true instance is lost; every node the upward walk from bottom meets, stopping at nodes without an element, is not repeated at any strict ancestor |
| `InstanceManager.SeededClassInstanceManager.RealizeNode` | src/instance_manager.rs:578-623 | testing a node's possibles and pushing the refuted ones up keeps every surely confirmed instance recorded at or below its node, and nothing known is lost |
| `InstanceManager.SeededClassInstanceManager.Realize` | src/instance_manager.rs:568-625 | no possibles are left, only true instances are known, and whatever the oracle surely confirms or was known before is known at or below its node; so with an oracle that confirms everything true a node's instances are exactly those known at or below it |
| `InstanceQueries.GetTypesOf` | src/instance_manager.rs:715-740 | exactly the true types, and in direct form exactly the most specific ones |
| `InstanceQueries.CollectInstances` | src/instance_manager.rs:652-683 | exactly the individuals known at the node or below it |
| `InstanceQueries.IsKnownOfDescendant` | src/instance_manager.rs:686-710 | true iff the individual is known at the node or below it |
| `InstanceQueries.GetInstances` | src/instance_manager.rs:631-650 | exactly the true instances of the node, or those for which it is a most specific type |
| `InstanceQueries.MinimalByChildren` | src/instance_manager.rs:142-154 | among types closed under ancestors a node is minimal iff none of its children is a type |
| `Realisation.ClassifyAndRealize` | src/reasoner.rs:4136-4163 | classifying, seeding from any faithful read-off of the model and realising with a truthful test, whose failures count as negative, gives a cache that answers exactly for a set of true types: all of them if no test fails, and in general at least those supported at every call and at most those supported at some call |
| `Realisation.ExactWhen` | src/reasoner.rs:4157-4163 | with tests that fail for good, all types are found if and only if each subsumes a class known from its label or confirmed |
| `Realisation.SeedFromModel` | src/reasoner.rs:4136-4155 | the cache holds exactly the labelled memberships at the concepts' nodes and every individual at top |
| `Realisation.SeedsComplete` | src/reasoner.rs:4136-4155 | labels that are true where deterministic, satisfiable and complete seed only findable knowns, every surely confirmed instance, and nothing at bottom |
| `Realisation.TypesOf` | src/instance_manager.rs:715-740 | after the pipeline a class's node is among the types iff the individual was found to belong to the class, and among the direct ones iff no strictly more specific class was |
| `Realisation.InstancesOf` | src/instance_manager.rs:631-650 | after the pipeline the instances of a class are exactly the individuals found to belong to it, or those for which it is most specific |
| `Instances.ClassifiedProper` | src/hierarchy.rs:707-758 | a classified hierarchy is acyclic with nothing below bottom, as the instance queries need |
| `LazyTypes.InstanceManager.GetTypes` | src/instance_manager.rs:89-135 | exactly the true types with a known or possible mark at or below them, or the minimal ones of these, for an oracle whose answers may depend on the call; marks are added only for this individual and only above existing ones |
| `LazyTypes.VisitNode` | src/instance_manager.rs:101-129 | one node decided after its children, by inheritance, by the cache, or by the oracle with a push to the parents |
| `LazyTypes.SeedsSuffice` | src/instance_manager.rs:107-121 | the seeds find all types of an individual whatever is consistently true of it, if and only if every node but bottom has a mark of it at or below |
| `LazyTypes.LeavesDecide` | src/instance_manager.rs:107-121 | that holds if and only if the individual is marked at every leaf, or at bottom |
| `SameAs.SameAsIndex.SeedSameAs` | src/instance_manager.rs:340-358 | the classes are a partition equal to the equivalence closure of the earlier classes and the pairs flagged definite; a pair is listed iff it was, or is flagged possible and still undecided |
| `SameAs.SeedSuffices` | src/instance_manager.rs:340-358 | from an empty index, if pairs flagged definite are truly equal and truly equal individuals are linked by seeded pairs, the classes are sound and the listed pairs complete |
| `SameAs.UnionKeeps` | src/instance_manager.rs:360-386 | uniting two classes adds exactly one pair to the equivalence closure |
| `SameAs.SameAsIndex.GetSameAsIndividuals` | src/instance_manager.rs:407-455 | terminates and keeps the partition for every oracle, whose answers may depend on the call; with truthful answers and linked candidates returns exactly the true class; on error the classes are unchanged |
| `SameAs.SameAsFromModel` | src/instance_manager.rs:340-455 | end to end from an empty index: seeding such a read-off and asking with truthful answers returns exactly the true class |
| `SameAs.Expanded` | src/instance_manager.rs:418-455 | when no possible pair touches the class any more it is the true class |
| `SameAs.Refute` | src/instance_manager.rs:436-443 | dropping all pairs between the class and a refuted candidate loses nothing true |
| `SameAs.ListedComplete` | src/instance_manager.rs:291-296 | it suffices that each truly equal pair is in one class or listed as possible |
| `Queries.SolutionsExact` | src/datalog.rs:258-336 | the nested loops enumerate exactly the assignments of the body variables that satisfy every atom |
| `Queries.AtomMeaning` | src/datalog.rs:900-937 | an atom is satisfied iff its ends denote x and y with (x, y) stored for the role, (y, x) for its inverse, the pair in the equality or inequality table, or the node in the concept's table |
| `Queries.SolutionsDistinct` | src/datalog.rs:258-336 | over duplicate-free extensions each assignment is found once |
| `Queries.OrderIrrelevant` | src/datalog.rs:706-747 | any two orders of the atoms find the same multiset of solutions |
| `Queries.BindLeast` | src/datalog.rs:589-620 | matching a row binds the least extension under which the terms denote it |
| `Join.ConjunctiveQuery.Join` | src/datalog.rs:258-336 | appends the projected solutions of the remaining atoms in order and restores the three binding maps |
| `Join.ConjunctiveQuery.MatchConceptAtom` | src/datalog.rs:450-516 | same, for a concept atom: a membership test when bound, a scan of the extension otherwise |
| `Join.ConjunctiveQuery.MatchPairAtom` | src/datalog.rs:520-633 | same, for a role or comparison atom with any combination of bound ends |
| `Join.ConjunctiveQuery.MatchTuple` | src/datalog.rs:572-632 | one tuple is skipped, or bound, joined and unbound, also when one variable is both ends |
| `Join.ConjunctiveQuery.BindVariable` | src/datalog.rs:640-658 | binds a variable in all three maps consistently, also on a node without a term |
| `Join.ConjunctiveQuery.EmitAnswers` | src/datalog.rs:674-694 | emits one row, column by column: the term of the node a variable is bound to, none for an unbound variable or a node without a term, and a constant as it is |
| `Join.ProjectMeans` | src/datalog.rs:674-694 | the projected row holds, for each answer term, what the naming table gives for its node |
| `Join.Evaluate` | src/datalog.rs:183-249 | an error iff the model is inconsistent, a class is not named or a body constant is unknown; otherwise one answer row, given column by column, per assignment of the body variables under which every atom holds in the stored tables |
| `Join.AnswersBodyIff` | src/datalog.rs:258-336 | the solutions of the join are the assignments of exactly the mentioned variables under which every atom holds in the stored tables |
| `Join.Validate` | src/datalog.rs:208-224 | succeeds iff all atoms are good and otherwise reports the first bad atom |
| `Join.EnumeratesReordered` | src/datalog.rs:225-248 | the reordered body has the same satisfying assignments, each once |
| `AtomOrdering.SwapBodyAtoms` | src/datalog.rs:713-747 | a permutation starting with the first atom in which every later choice has the most bound variables among the rest, then the fewest unbound ones, then the larger index |
| `AtomOrdering.BestUnused` | src/datalog.rs:726-741 | the reverse scan always finds an unused atom and it is the best one |
| `AtomOrdering.Goodness` | src/datalog.rs:752-765 | goodness stays far above the initial bound, so a candidate is always taken |
| `AtomOrdering.GoodnessOrders` | src/datalog.rs:752-765 | more bound variables win, at equal bound counts fewer unbound ones win, and goodness is equal iff both counts are |
| `InternedGraph.Store.Intern` | src/graph.rs:66-75 | an element already interned keeps its id, a new one gets the next id, and no edge changes |
| `InternedGraph.Store.AddEdge` | src/graph.rs:83-89 | adds exactly one edge and its two elements |
| `InternedGraph.Store.TransitivelyClose` | src/graph.rs:148-164 | exactly the transitive closure of the original edges, for every key order |
| `InternedGraph.PlusBetween` | src/graph.rs:148-164 | reading successor sets that earlier iterations already overwrote does not change the closure |
| `InternedGraph.Store.GetReachableSuccessors` | src/graph.rs:247-271 | exactly the elements reachable from the start, also for one never interned |
| `InternedGraph.Store.IsReachableSuccessor` | src/graph.rs:186-212 | agrees with membership in the reachable successors |
| `InternedGraph.Store.Clone` | src/graph.rs:35-47 | the re-interned copy has the same edges |
| `InternedGraph.ViewReach` | src/graph.rs:22-31 | reachability over ids is reachability over elements |
| `Calendar.NextDatePlusOne` | src/datatype_value.rs:989-997 | the day number grows by exactly one from every valid date to the next, in every year |
| `Calendar.PrevThenNext` | src/datatype_value.rs:989-997 | the day before a valid date is valid, one less in number, and the date follows it |
| `Calendar.Epoch` | src/datatype_value.rs:989-997 | 1970-01-01 is day 0 |
| `Calendar.DayNumberClosed` | src/datatype_value.rs:1099-1151 | splitting off whole 400-year cycles gives the plain proleptic count |
| `Calendar.CycleLeap` | src/datatype_value.rs:971-985 | the leap rule on the year within its cycle is the Gregorian rule on the year |
| `Calendar.MonthLengths` | src/datatype_value.rs:971-985 | the month lengths are 31, 28 or 29, 31, 30, 31, 30, 31, 31, 30, 31, 30, 31 in every year |
| `Calendar.DateOrder` | src/datatype_value.rs:989-997 | day numbers order valid dates as the calendar does and separate them |
| `Calendar.EndOfDay` | src/datatype_value.rs:1103-1153 | 24:00:00 is the same value as 00:00:00 of the next day (XSD 1.1 Part 2 section 3.3.7.2) |
| `Calendar.InstantOrder` | src/datatype_value.rs:85-95 | the derived order on stripped fraction digits is the order of the timeline, and each point has one representation |
| `Calendar.FieldOrder` | src/datatype_value.rs:1103-1153 | in one timezone all parsed values, 24:00:00 included, compare as their date, time and fraction fields do once 24:00:00 is read as the next midnight |
| `Calendar.ParsesIff` | src/datatype_value.rs:1099-1145 | fields are accepted iff the date is on the calendar, the time is before 24:00:00 or exactly that, and the offset has minutes below 60 and at most fourteen hours |
| `Calendar.ZoneShift` | src/datatype_value.rs:1116-1153 | +hh:mm lies that much before the same fields in UTC and -hh:mm that much after, with the signed offset kept; no timezone and Z give one instant and differ in the flag |
| `Calendar.UtcSame` | src/datatype_value.rs:1116-1153 | moving the fields to UTC by the offset gives acceptable fields of the same instant before 24:00 |
| `Calendar.UtcOrder` | src/datatype_value.rs:1103-1153 | values of any two timezones compare, and coincide, as their fields do once moved to UTC with carry into the day before or after |
| `Calendar.StripKeepsValue` | src/datatype_value.rs:1087-1095 | removing trailing zeros keeps the fraction's value |
| `Base64.EncodeBase64` | src/datatype_value.rs:862-876 | the output is the base64 form of the octets: character p is the standard alphabet's at bits 6p to 6p+5, the octets read most significant bit first, and padding past their end |
| `Base64.StandardAlphabet` | src/datatype_value.rs:863-931 | value v is spelled by the v-th of the 64 standard characters, and a character is read as v iff it is that one |
| `Base64.FormIff` | src/datatype_value.rs:862-876 | the encoding function gives exactly the strings of that form |
| `Base64.EncodedAccepted` | src/datatype_value.rs:906-949 | the encoding of any octets is accepted and decodes to them |
| `Base64.AcceptedEncodes` | src/datatype_value.rs:906-949 | every accepted form is the encoding of the octets it decodes to |
| `Base64.ShiftLow` | src/datatype_value.rs:933-942 | the bits that wrap out of the 32-bit accumulator are never looked at again |
| `BinaryParsing.DecodeBody` | src/datatype_value.rs:933-942 | the accumulator loop accepts exactly alphabet characters and produces the straddling octets |
| `BinaryParsing.ParseBase64Binary` | src/datatype_value.rs:906-949 | accepts exactly the base64 forms of octet sequences once whitespace is removed (XSD 1.1 Part 2 section 3.3.16.2) and returns the hex form and count of the octets |
| `BinaryParsing.CleanedMeans` | src/datatype_value.rs:881-910 | what is parsed: characters up to U+0020 are dropped from both ends, and between them exactly the characters of the listed whitespace code points, in order |
| `BinaryParsing.ParseEncoded` | src/datatype_value.rs:906-949 | parsing the encoding of any octets returns their hex form and length |
| `BinaryParsing.SameValueSameForm` | src/datatype_value.rs:906-949 | two accepted forms are the same value iff equal once whitespace is removed |
| `BinaryParsing.EncodeHexUpper` | src/datatype_value.rs:954-962 | octet i is spelled by characters 2i and 2i+1, the upper-case digits of its high and low half |
| `BinaryParsing.HexParsesIff` | src/datatype_value.rs:853-859 | a form is accepted iff it spells octets with digits of either case, and gives their hex form and count, the canonical form of the other datatype |
| `BinaryParsing.HexReadsBack` | src/datatype_value.rs:954-962 | a hex form spells its own octets and no others |
| `BinaryParsing.HexInjective` | src/datatype_value.rs:954-962 | hex forms separate octet sequences |
| `Reuse.IndividualReuseStrategy.RecordReuse` | src/existentials.rs:206-209 | records or overwrites one representative and keeps every level restorable; recording only absent concepts keeps the discipline under which backtracking is exact |
| `Reuse.IndividualReuseStrategy.BranchingPointPushed` | src/existentials.rs:230-235 | the level, whichever it is, remembers the current table, and no open level has a later watermark |
| `Reuse.IndividualReuseStrategy.Backtrack` | src/existentials.rs:238-243 | the table is what it was when the level was last pushed, less what was recorded since; it is exactly that iff nothing recorded since was in it then, as when only absent concepts are recorded |
| `Reuse.IndividualReuseStrategy.Clear` | src/existentials.rs:173-177 | empties the table and leaves no level to backtrack to, though the watermarks stay |
| `Reuse.RecordedAgainIsLost` | src/existentials.rs:206-243 | recording a concept again after a push loses its earlier record on backtracking |
| `Reuse.SearchSubset` | src/existentials.rs:312-340 | true iff the selection can be completed with increasing pairwise unequal indices; on failure the stack is as before |
| `Reuse.ContainsSubsetOfNUnequalNodes` | src/existentials.rs:304-343 | true iff some increasing choice of that many indices is pairwise unequal in at least one direction |

## Left out

- The tableau, clausification and reasoner: only the oracle contract and finite extension tables stand for them.
- Role mode of the classifier: mirroring to inverse roles is one-sided (src/quasi_order.rs:719-738), so only class mode is modelled; oracles without node labels are excluded because the cross-concept harvest that completeness needs is then skipped.
- Threads and channels: a pool is a nondeterministic choice of which in-flight result arrives next, and pools are assumed to deliver every dispatched result (the loops' early exits on a drained pool are not modelled).
- MemoryGovernor: an arbitrary answer per call, one build or full width.
- Batch order: the source sorts a round before harvesting; the model harvests it in arbitrary order, which is more general. Likewise hash-set iteration is an arbitrary order, and the sorted walk over successors picks any pending successor with the highest index.
- Arena indices of the builder's graph nodes: search state is kept in maps keyed by element instead of by index; hierarchy nodes keep their indices.
- Classification.QuasiOrderClassification.Classify: the known and possible graphs are successor maps over elements, with the interned representation modelled separately in InternedGraph; progress callbacks are not modelled.
- InternedGraph.Store.Intern: ids are unbounded; overflow of 32-bit ids is not modelled.
- InternedGraph.Store.Clone: element removal, inversion and display of graphs are not modelled.
- HierarchyBuilding.HierarchyBuilder.Run: aliases, transform, trivial and empty hierarchies, relatives and printing are easy members and not modelled.
- InstanceManager.SeededClassInstanceManager.Realize: individuals are abstract values instead of IRIs, and the inconsistent flag is not modelled.
- Realisation.ClassifyAndRealize: the saturated model appears only through its labels.
- Object-role realisation (src/instance_manager.rs:885-950): it pushes the subject in place of the refuted successor, so completeness is not claimed and it is not modelled.
- SameAs.SameAsIndex.SeedSameAs: classes are sets; the sorted duplicate-free vectors of the source carry the same information.
- Join.Evaluate: materialisation and canonical nodes are given; extension tables are sequences whose membership is the containment test. Role and comparison atoms share one method because the source's two methods differ only in the table they read.
- Calendar.EndOfDay: splitting a lexical form into fields is not modelled; the statements start from the parsed fields.
- Base64.EncodeBase64: shifts, masks and ors are written as arithmetic on disjoint bits.
- BinaryParsing.ParseBase64Binary: lengths count characters instead of UTF-8 bytes; forms with characters outside ASCII are rejected either way.
- XML literals, floats, URIs, language tags and facet tables: library behaviour or flat character tables.
- Reuse.IndividualReuseStrategy.Clear: the never-reuse lists it also resets are not modelled.
- Prefixes, configuration, monitors, the debugger, the command line and text rendering: easy members, I/O or observation only.
