# A model of an inclusion-based pointer analysis

The repository computes, for every pointer variable of a program, the set of objects it may point
to. It turns the program into inclusion constraints between numbered nodes, shrinks the constraint
list offline, and then closes it with a worklist solver. This project models the constraint
optimiser, the solver and the data structures underneath in Dafny, and proves that every rewrite,
merge, cache and worklist trick leaves the points-to sets as they are.

The reference is in `Constraints.dfy`: a constraint is `D = &S`, `D = S`, `D = *S + k`, `*D + k = S`
or `D = S + k`; a solution maps nodes to sets of object nodes, and the answer is the least solution.
BDDs and bitmaps that the optimiser and the solver use are mathematical sets here; the bitmap and
the BDD expansion are modelled separately, as the data structures they are.

## Structure

| files | what they model |
|---|---|
| Constraints, Entailment, Graphs | constraints and their meaning, reachability |
| SetFacts, UnionFind, Heap, Worklist, Bitmap, BitIterator, SatVector, BddCache | data structures: packed union-find, indexed heap, two-level priority worklist, sparse bitmap, BDD expansion and its LRU cache |
| StructLayout, OffsetMasks | flattened structs, GEP offsets, the offset masks of the solver |
| ConstraintGraph, Propagation, Merging, SolverSteps, Cycles, Building, Solver, Waking | the online solver with lazy cycle detection, and which nodes have a worklist entry |
| Scc | one model of the depth-first search for strongly connected components that three parts of the program use |
| Offline, OfflineGraph, OfflineEdges, Labels, Naming, Collapse, HvnSearch, Rewriting, PtrEq, Optimizer | offline value numbering (HVN and HU) |
| HybridCycles, HcdSearch | the offline part of hybrid cycle detection |
| Factoring, Clumping | load/store factoring, renumbering of nodes |
| Passes, Analysis, Program | what a pass leaves to the next one and to the solver; the analysis of a list as it is, after one pass, and after the whole sequence of steps |
| Limits | inputs for which a condition of a main theorem fails |

Classes follow the program's objects: `Solver.Solver`, `Optimizer.Optimizer`, `HvnSearch.Search`,
`HcdSearch.Search`, `UnionFind.Classes`, `Heap.Heap`, `Worklist.Worklist`, `Bitmap.Bitmap`,
`BitIterator.Iterator`, `BddCache.Cache` and `StructLayout.Layouts`. Their methods update fields in
place and are proved against functions and predicates on the abstract state, about which the lemmas
are proved.

## Main results

* **The solver is exact and terminates.** `Solver.Solve` ends with the least solution, for every
  system the program accepts (`Building.Accepts`): difference propagation, copy edges found while
  solving, stale worklist entries and merging in the middle of a run neither lose nor add a member.
  It terminates by the lexicographic measure (representatives, members not yet propagated, worklist
  entries), which covers the push of node 0 that every visit makes and the reset of propagated
  members by a merge.
* **Lazy cycle detection merges exactly the cycles** of the copy graph that it can reach from its
  starts (`Solver.RunLcd`), and the edges left lead exactly to the representatives of where they led.
  The starts are exactly the nodes that propagation found to have a neighbour with an equal nonempty
  set for the first time (`Solver.SolveProp`), and a search is made exactly when there are enough of
  them or enough visits (`Solver.Step`, which describes a whole turn of the main loop).
* **A visit wakes exactly the nodes whose sets have grown**, with their visit times, besides node 0
  (`SolverSteps.Woke`, kept from single copy edges up to `Solver.SolveNode`).
* **It is known exactly which nodes have a worklist entry.** In every state, a representative with
  members that it was not visited with has a live entry if and only if it is not asleep, that is,
  unless it had members and no outgoing constraint when solving began and has neither grown nor been
  merged since (`Waking.QueuedUnlessAsleep`, `Waking.QueuedExactly`).
* **Value numbering preserves meaning.** A pass (`Optimizer.Hvn`, in both modes) loses no member of
  any set, unconditionally; the least solution is the same if and only if merged nodes have equal
  sets in it, which they have if every pointer that is stored through has a member other than the
  unknown integer pointer. After the first pass the list is again an input for a pass
  (`Passes.InputAfter`).
* **Labels are known exactly.** The HU labels of a node are the labels that it reaches in the offline
  graph (`Naming.HuExactly`); when two direct nodes share one is known exactly in both modes
  (`Naming.HvnShared`, `Naming.HuShared`); exactly the nodes that reach nothing labelled or indirect
  are non-pointers (`Naming.ZeroExactly`).
* **The steps work together.** `Program.AnalyzeProgram` renumbers the nodes, makes a pass of HVN and
  one of HU, factors loads and stores and solves what is left: it loses nothing of the original least
  solution, and its result is that solution under the new numbers if all stores reach a node.
* **Hybrid cycle detection is justified** (`HybridCycles.Justification`, `HcdSearch.EntryHolds`),
  **factoring is a conservative extension** (`Factoring.FactoringConservative`), and **renumbering
  yields the renamed least solution** (`Clumping.ClumpingPreserves`).

## Where the code differs from what it says or assumes

* A pointer that is stored through but points to nothing, or only to the unknown integer pointer,
  breaks the equality that value numbering assumes: `Limits.StoresMustReach` gives a constraint list
  for which two nodes with different sets are merged. The result is then an over-approximation.
* Value numbering assumes that a class with an object node is represented by one. This holds before
  the first pass and after it (`Passes.InputAfter`), because a node is then merged into an earlier
  one and objects come first. A later pass merges by rank and has no such reason;
  `Limits.ObjectsMustRepresent` shows that a pass labels a node that points to something as a
  non-pointer if the assumption fails. Whether the passes can produce that input is not shown.
* It is not true that a node with members it has not propagated and with outgoing edges always has a
  live worklist entry: `Limits.SleepingNode` gives a reachable state without one. The property holds
  in a state if and only if no node that is asleep has got a copy edge (`Waking.QueuedExactly`), and in
  all states if every node with members has an outgoing constraint when solving begins
  (`Waking.NoneAsleep`), which is what anders/solve.cpp:225-231 looks at. No work is lost in either
  case (`ConstraintGraph.Settled`, kept by every step).
* The "changed" flag of the bitmap's `&=` (include/bitmap.h:715-753) misses elements that are deleted
  because the other bitmap has none of their index (`Bitmap.LostUnseen`). It is exact if and only if
  there is no such element or another one is changed (`Bitmap.AndFlagExact`). The flags of `|=` and of
  `intersectWithComplement` are exact.
* The solver takes the representative of the source of an address-of constraint
  (anders/solve.cpp:183), although merged nodes are still pointed to. If the source has been merged
  into another node the result is another one (`Limits.SourceMoved`); only parameters of functions
  can have been (`Passes.SourcesKept`), and no program takes the address of one.

## Model

| member | source | states |
|---|---|---|
| `Constraints.MeetSolves` | include/anders.h:37-53 | The intersection of two solutions of a constraint system is a solution, for all five constraint types with offsets; so there is at most one least one. |
| `Constraints.LeastUnique` | include/anders.h:37-53 | Two least solutions give every node the same set. |
| `Constraints.LeastExists` | include/anders.h:37-53 | Every constraint system has a least solution. |
| `Constraints.LeastWithin` | include/anders.h:37-53 | Members of the least solution come from any universe that holds the address-taken nodes and is closed under the offsets that fit. |
| `Analysis.Analyze` | anders/solve.cpp:60-331 | For every accepted constraint list over n unmerged nodes, preparing the masks, building the graph, solving and reading sets through representatives returns the least solution of the list. |
| `Analysis.SolveConstraints` | anders/solve.cpp:60-331 | For the given classes, preparing the masks, building the graph, solving and reading out yields the least solution of the list in which sources of address-of constraints are their representatives. |
| `Analysis.AnalyzeOptimized` | anders/cons_opt.cpp:358-383 | One pass in the given mode and then solving: the pass is one that Optimizer.PassMade describes, the result is the least solution of the rewritten list, with sources of address-of constraints replaced by their representatives; if no address of a parameter is taken it has everything of the original least solution, and nothing else if all stores reach. |
| `Program.TwoPasses` | anders/cons_opt.cpp:15-23 | A pass by HVN labels and then one by HU labels on what the first leaves; the list left is fit for factoring and solving, and its least solution contains the original one and equals it if all stores reach. |
| `Program.AnalyzeClumped` | anders/cons_opt.cpp:15-56 | For a clumped program: these two passes, factoring, and the least solution of the factored list; its sets contain those of the original least solution, and equal them if all stores reach. |
| `Program.AnalyzeProgram` | anders/cons_opt.cpp:15-56 | For any program: renumbering with objects in front, then all those steps; the result has, under the new numbers, everything of the least solution of the original list, and nothing else if all stores reach. |
| `Program.HeadsMoved` | anders/cons_opt.cpp:74-82 | The objects of the renumbered program start exactly at the new numbers of the old starts. |
| `Program.ParamMoved` | anders/cons_opt.cpp:424-442 | A node is a parameter of a function after renumbering if and only if it was one before. |
| `Program.FactoredAccepted` | anders/cons_opt.cpp:1038-1060 | The factored list with its new nodes is fit for the solver, and its offsets are still in range. |
| `Passes.InputAfter` | anders/cons_opt.cpp:734-782 | After a pass that left every class to its first node, as the first one does, the rewritten list fulfils all conditions for another pass: objects represent their classes and no parameter is merged with P_I2P. |
| `Passes.SourcesKept` | anders/cons_opt.cpp:772-776 | If no address of a parameter is taken, all sources of address-of constraints are still representatives after a pass. |
| `Passes.StoresStillReach` | anders/cons_opt.cpp:763-782 | If merged nodes have equal sets, a list whose stores all reach is rewritten to one whose stores all reach. |
| `Optimizer.ParamLabels` | anders/cons_opt.cpp:652-663 | A parameter gets a label that is no node number, so it is not merged with P_I2P, which has only the label of I2P. |
| `Passes.AcceptedAfter` | anders/cons_opt.cpp:763-782 | The rewritten list is fit for the solver: special nodes stay alone in their classes, representatives of address-of sources are objects, no copy stays within one class. |
| `ConstraintGraph.ResultBelow` | anders/solve.cpp:311-318 | While members and merges are those of every solution, the sets read through representatives are contained in every solution. |
| `ConstraintGraph.ResultSolves` | anders/solve.cpp:311-318 | If every constraint is represented by an edge or a complex constraint modulo merges, and every representative has been worked off, the sets read through representatives solve the original constraints. |
| `ConstraintGraph.LaterCovered` | anders/solve.cpp:457-583 | No step that only grows sets, adds or redirects edges, merges classes or drops duplicates loses the representation of a constraint. |
| `ConstraintGraph.LaterDone` | anders/solve.cpp:368-378 | Work done for some members of a node stays done in every later graph, except across edges that are new. |
| `SolverSteps.Converged` | anders/solve.cpp:253-260 | When nothing is queued in either list, the sets read through representatives are the least solution. |
| `SolverSteps.VisitDone` | anders/solve.cpp:359-450 | Handling only the members added since the last visit makes the node worked off for all of its members. |
| `Waking.QueuedUnlessAsleep` | anders/solve.cpp:220-237 | In every state, a representative with members that it was not visited with has an entry with key at least its visit time if and only if it is not asleep; a node that is asleep has no complex constraint. |
| `Waking.QueuedExactly` | anders/solve.cpp:254-278 | All such representatives with outgoing constraints have a live entry if and only if no node that is asleep has a copy edge. |
| `Waking.NoneAsleep` | anders/solve.cpp:225-231 | If every representative with members has an outgoing constraint when solving begins, every node with members that it was not visited with has a live entry in every state, across pushes, swaps and merges. |
| `Waking.NewEdge` | anders/solve.cpp:703-722 | Adding a copy edge leaves its source with unpropagated members, an outgoing edge and no live entry if and only if it had unpropagated members and no live entry before. |
| `SolverSteps.GepImageIsShift` | anders/solve.cpp:684-688 | The GEP function restricted by the offset mask maps the new members to exactly those moved by the offset, dropping objects that are too small. |
| `Propagation.GrowRunning` | anders/solve.cpp:744-752 | Adding members to a set keeps the solver invariant; unless they were there already, the node itself is the only one that may need a new entry. |
| `Propagation.LinkRunning` | anders/solve.cpp:703-722 | A copy edge along which all members have been copied keeps the invariant without any new entry. |
| `Propagation.RewriteRunning` | anders/solve.cpp:474-484 | Rewriting a complex constraint to representatives keeps the invariant. |
| `Propagation.DropRunning` | anders/solve.cpp:506-524 | Deleting a complex constraint that another one of the same node repeats modulo merges keeps the invariant. |
| `Propagation.PushRunning` | anders/solve.cpp:747-751 | A push with the node's visit time settles the node. |
| `Propagation.PopRunning` | anders/solve.cpp:262-275 | Taking an entry off the current list unsettles only its node, and not even that if the node is no representative or the key is below its visit time: skipped entries lose no work. |
| `Propagation.SwapRunning` | anders/solve.cpp:255-260 | Exchanging the empty current list for the next one keeps the invariant. |
| `Propagation.BeginRunning` | anders/solve.cpp:365-378 | Starting a visit (new visit time, all members marked as propagated) keeps the invariant with the visited node as the one in progress. |
| `Propagation.FinishRunning` | anders/solve.cpp:365-449 | A visit may end once the node is worked off for the members it had at the start. |
| `Merging.JoinRunning` | anders/cons_opt.cpp:150-187 | Merging two nodes with equal sets in all solutions (data united, self-edges removed, propagated set reset, earlier visit time kept) keeps the invariant except that the survivor has to be pushed. |
| `Merging.RedirectRunning` | anders/solve.cpp:880-925 | Replacing edges by edges to representatives, dropping duplicates and self-copies, keeps the invariant and loses no edge modulo merges. |
| `Building.EnterAddress` | anders/solve.cpp:185-188 | Entering an address-of constraint adds its source to the class of its destination, and nothing a solution could lack. |
| `Building.EnterCopy` | anders/solve.cpp:189-193 | Entering a copy constraint adds an edge between the two classes that represents it. |
| `Building.EnterComplex` | anders/solve.cpp:194-205 | Entering a load, store or GEP lists it at the class of the node it dereferences. |
| `Building.StartRunning` | anders/solve.cpp:213-238 | If every representative with members and outgoing constraints is queued, the invariant of the solver holds at the start. |
| `Solver.Solver.constructor` | anders/solve.cpp:174-183 | The solver starts with an empty graph over the given classes and an empty worklist; the sources of address-of constraints are taken to be their representatives. |
| `Solver.Solver.SolveInit` | anders/solve.cpp:174-241 | Builds a graph that represents all constraints and establishes the solver invariant. |
| `Solver.Solver.QueueAll` | anders/solve.cpp:215-237 | Exactly the representatives with members and outgoing constraints are queued, with key 0. |
| `Solver.Solver.EnterCons` | anders/solve.cpp:181-209 | Enters one constraint of any type; those before it stay represented. |
| `Solver.Solver.StartNode` | anders/solve.cpp:220-236 | After node i, all representatives up to it with members and outgoing constraints are queued. |
| `Solver.Solver.GetRep` | include/anders.h:483-492 | Finds the representative without any change to the graph or the worklist. |
| `Solver.Solver.Push` | anders/solve.cpp:747-751 | Puts the node on the next list with its visit time; changes no other entry. |
| `Solver.Solver.AddCopyEdge` | anders/solve.cpp:703-722 | Afterwards the edge is there and carries all members of its source; no other set has grown, and the answer says exactly whether that of the destination has; edges of I2P and self-edges are skipped. |
| `Solver.Solver.SolveMember` | anders/solve.cpp:566-576 | Handles one member of the dereferenced set, with or without an offset, skipping function objects at an offset: the constraint is done for this member too. A store pushes what has grown; a load reports exactly whether its destination has. |
| `Solver.Solver.SolveTargets` | anders/solve.cpp:586-663 | A load or store, with or without an offset, is done for all new members, and exactly the nodes whose sets have grown have been pushed, with their visit times. |
| `Solver.Solver.Canonize` | anders/solve.cpp:474-484 | The constraint is rewritten in place to representatives, still holds in every solution, and still hangs on the visited node. |
| `Solver.Solver.SolveGep` | anders/solve.cpp:667-696 | The GEP function of the offset, applied to the new members, gives the destination exactly what the offset means; the destination is pushed if and only if it has grown. |
| `Solver.Solver.SolveCons` | anders/solve.cpp:457-583 | A constraint equal to one seen before in this visit is reported as redundant and left alone; any other is done for the new members; exactly the nodes that have grown are pushed. |
| `Solver.Solver.SolveList` | anders/solve.cpp:416-447 | All constraints that remain in one of the node's three lists are done for the new members, no two of them are equal, nothing is added to any list, and exactly the nodes that have grown are pushed. |
| `Solver.Solver.SolveProp` | anders/solve.cpp:726-760 | Exactly the representatives other than the node that its copy edges lead to have got the new members, and no other set has grown; those that grew are pushed with their visit times; the pairs of the node and those that had its nonempty set before are added to lcd_edges, and the node to lcd_starts if and only if such a pair is new. |
| `Solver.Solver.SolvePropEdge` | anders/solve.cpp:731-759 | The same for one more copy edge: skipped if it leads back or to a representative reached already. |
| `SolverSteps.OneReached` | anders/solve.cpp:743-757 | Reaching one more representative: its set, its entry in the worklist and its pair, against what the whole loop is to leave. |
| `SolverSteps.WokeTrans` | anders/solve.cpp:747-751 | Steps that each push exactly what grows do so together. |
| `SolverSteps.ReachedWoke` | anders/solve.cpp:726-760 | Propagation pushes exactly what grows. |
| `SolverSteps.ListingDrop` | anders/solve.cpp:416-447 | A constraint that has become equal to a kept one may be deleted; those kept stay done and pairwise different. |
| `Solver.Solver.SolveNode` | anders/solve.cpp:359-450 | A visit keeps the invariant; it takes the next visit time, marks all members as propagated, first does the complex constraints without touching the candidates for cycles, then propagates as SolveProp says; exactly node 0 and the nodes that have grown are pushed, and nothing is if there were no new members. It shrinks the number of unpropagated members or leaves the worklist alone. |
| `Solver.Solver.MergeNodes` | anders/cons_opt.cpp:135-187 | Merges two representatives into the one of higher rank, with the state that Merging.Join describes; there are fewer representatives afterwards. |
| `Solver.Solver.LcdDfs` | anders/solve.cpp:874-955 | One call of the search returns with the node's component closed or shelved, keeps the solver invariant, and changes the worklist only if it merged. |
| `Solver.Solver.LcdEdges` | anders/solve.cpp:883-922 | After the loop all successors have been handled, and the new edge set is exactly the representatives, other than the node, of where the old edges led, although recursion merges nodes underneath. |
| `Solver.Solver.LcdPopAll` | anders/solve.cpp:929-943 | Exactly the component's nodes are taken off the stack and merged; the survivor is to be pushed if and only if something was merged. |
| `Solver.Solver.LcdClose` | anders/solve.cpp:927-950 | Closing at a root merges the component, marks its representative as finished and pushes it if it was merged. |
| `Solver.Solver.RunLcd` | anders/solve.cpp:336-354 | Two representatives are merged if and only if they are mutually reachable in the copy graph and reachable from a start; the stack is empty afterwards, the invariant holds, and without a merge nothing changed. |
| `Solver.Solver.NextPass` | anders/solve.cpp:255-261 | The lists are exchanged when the current one is empty; nothing left means that both are empty. |
| `Solver.Solver.PopEntry` | anders/solve.cpp:262-277 | Takes an entry of least key off the current list; it is live exactly when its node is a representative and the key is not below its visit time, and a dead one loses no work. |
| `Solver.Solver.Step` | anders/solve.cpp:254-298 | One turn of the main loop, exactly: it ends if both lists are empty, else takes an entry of least key of the pass, skips it without further change if it is not live, and visits its node otherwise; then cycles are searched for if and only if there are enough candidates or enough visits since the last search. It keeps the invariant and decreases (representatives, unpropagated members, entries) lexicographically. |
| `Solver.Solver.VisitEntry` | anders/solve.cpp:278-298 | After the visit the search runs if and only if the number of starts has reached its limit or the period has passed; then exactly the components found from the starts are merged, and the starts are cleared; otherwise nothing more changes. |
| `Solver.Solver.Solve` | anders/solve.cpp:244-318 | Terminates, and the sets read through representatives are then the least solution of the constraints and merges given; every visit has had a time of its own. |
| `Solver.Solver.ReadOut` | anders/solve.cpp:311-318 | The points-to set of every node is that of its representative. |
| `Cycles.QuotientSound` | anders/solve.cpp:883-887 | Every edge of the copy graph between representatives is an inclusion that holds in all solutions, so components may be merged. |
| `Cycles.SearchEnds` | anders/solve.cpp:345-352 | When the search is over, its stack is empty and exactly the components reachable from the starts have been merged. |
| `Cycles.RedirectingEdges` | anders/solve.cpp:890-925 | The edges left after the loop stand for the old ones modulo merges, and are exactly the representatives of where those led. |
| `Cycles.FinalStays` | anders/solve.cpp:911-921 | A representative that the search has handled stays one during all calls that follow for the same node. |
| `Graphs.ReachClosed` | anders/cons_opt.cpp:629-648 | A set closed under edges holds everything that can be reached from it. |
| `Scc.EnterWorking` | anders/cons_opt.cpp:579-584 | Numbering a new node keeps the invariant of the search. |
| `Scc.SeenWorking` | anders/cons_opt.cpp:636-646 | Looking at an edge to a node visited before, and lowering the number, accounts for that successor. |
| `Scc.ReturnedWorking` | anders/cons_opt.cpp:639-646 | So does an edge whose target was visited by a recursive call. |
| `Scc.ShelveReturned` | anders/cons_opt.cpp:621-623 | A node that reaches one visited earlier and still open is kept on the stack, and the call may return. |
| `Scc.CloseMembers` | anders/cons_opt.cpp:597-607 | At a root, the nodes on the stack with numbers from its own up are exactly the open ones visited since it was entered. |
| `Scc.CloseComponent` | anders/cons_opt.cpp:597-607 | Any two nodes taken off the stack at a root reach each other. |
| `Scc.CloseReturned` | anders/cons_opt.cpp:597-607 | Closing a component keeps the invariant: components are mutual reachability, and all edges out of closed ones lead to closed ones. |
| `Scc.ClosedApart` | anders/cons_opt.cpp:634-638 | No closed node reaches an open or unvisited one, so skipping closed targets misses no cycle. |
| `Scc.ClosedReach` | anders/cons_opt.cpp:671-672 | Whatever a closed node reaches is closed: a component is labelled only after all components it has edges to. |
| `Scc.SearchComplete` | anders/cons_opt.cpp:368-376 | Outside all calls the stack is empty and every visited node is closed. |
| `OffsetMasks.ValidOffsets` | anders/solve.cpp:63-72 | Collects exactly the positive offsets of the constraints. |
| `OffsetMasks.LargestOffset` | anders/solve.cpp:86-88 | The downward search finds the greatest valid offset below the size, or 0. |
| `OffsetMasks.SortBySize` | anders/solve.cpp:76-95 | Every object node is recorded under the largest valid offset that fits it, and nowhere else. |
| `OffsetMasks.AllowedBy` | anders/solve.cpp:139-147 | Going through the valid offsets downwards and adding the nodes recorded for each yields exactly the nodes of size above the offset. |
| `OffsetMasks.PtsInit` | anders/solve.cpp:60-157 | For every offset that occurs, the mask is the set of nodes with more fields than it, and the image of any node set under the GEP function is that set moved by the offset without the objects that are too small. |
| `Offline.EdgeLe` | anders/cons_opt.cpp:476-569 | In a solution where all stores reach something, every constraint and implicit edge of the offline graph is an inclusion between what its ends stand for (dereferences included). |
| `Offline.ReachLe` | anders/cons_opt.cpp:586-594 | Inclusions follow paths, so members of a component stand for equal sets. |
| `Offline.MembersAreObjects` | anders/cons_opt.cpp:424-442 | Members of the least solution are object nodes or I2P. |
| `Offline.CutSat` | anders/cons_opt.cpp:657-677 | Shrinking the sets of direct value nodes to what their constraints give them still solves every constraint. |
| `Offline.DirectOnly` | anders/cons_opt.cpp:657-677 | In the least solution, a set of value nodes without indirect ones points to nothing but what its address-of, GEP, copy and load constraints give it from outside. |
| `OfflineGraph.MakeOffNodes` | anders/cons_opt.cpp:413-470 | Numbers exactly the representatives that are parameters of function objects, P_I2P or values, parameters before values, one offline node each. |
| `OfflineGraph.AddParams` | anders/cons_opt.cpp:436-442 | The return value and parameters of one function object are numbered if they are representatives. |
| `OfflineGraph.NumberedIndexOk` | anders/cons_opt.cpp:413-470 | The numbering is a bijection between offline nodes and those main nodes, with objects below and values above the boundary. |
| `OfflineEdges.AddOffEdge` | anders/cons_opt.cpp:483-568 | One constraint adds exactly its edges, implicit edges, labels and flags; a pair of GEP source and offset gets one label of its own. |
| `OfflineEdges.AddOffEdges` | anders/cons_opt.cpp:476-573 | The graph has exactly the edges, implicit edges, labels and flags that some constraint calls for; in HCD mode, exactly the edges. |
| `OfflineEdges.GraphPreLabelled` | anders/cons_opt.cpp:361-366 | Pre-assigned labels have a meaning: a source stands for itself, the number of a pair (S, k) for the set of S moved by k, and the counter is above all of them. |
| `OfflineEdges.DerefsFollow` | anders/cons_opt.cpp:508-520 | Along a chain of copies, each node reaches the last one and its dereference that of the last one. |
| `OfflineEdges.LoadReaches` | anders/cons_opt.cpp:489-539 | A load through a pointer reaches every numbered object whose address has been copied to the pointer, over implicit edges. |
| `OfflineEdges.StoreReached` | anders/cons_opt.cpp:541-548 | What is stored through a pointer is reached by the dereferences of all its copies. |
| `OfflineEdges.LoadedAndStored` | anders/cons_opt.cpp:526-548 | In the graph for hybrid cycle detection, a variable that is loaded and stored through one pointer is on a cycle with its dereference. |
| `OfflineEdges.StaysDirect` | anders/cons_opt.cpp:516-533 | A value set only by addresses, GEPs, copies of numbered nodes and loads without offset stays direct. |
| `Labels.NewSetLabel` | anders/cons_opt.cpp:682-692 | The number given to a set of labels can stand for the union of their meanings without touching other labels. |
| `Labels.NonPointers` | anders/cons_opt.cpp:678-681 | A node with label 0 points to nothing in the least solution; this needs no assumption about stores. |
| `Collapse.RootComponent` | anders/cons_opt.cpp:597-607 | What is popped at a root is a component all of whose outgoing edges lead to finished nodes. |
| `Collapse.MergeOne` | anders/cons_opt.cpp:338-347 | Each merge pools edges, labels and flags of the two offline nodes, so that the survivor has those of the whole component so far. |
| `Collapse.ValuesEqual` | anders/cons_opt.cpp:597-607 | Members of one component stand for equal sets if all stores reach something. |
| `Collapse.CollectedHeld` | anders/cons_opt.cpp:664-677 | The labels collected from the neighbours stand for nothing that the component does not point to. |
| `Collapse.CollectedAll` | anders/cons_opt.cpp:664-677 | For a direct component they stand for everything that it points to. |
| `Collapse.FreshFits` | anders/cons_opt.cpp:656-663 | A new label can stand for the set of an indirect component. |
| `Collapse.ZeroFits` | anders/cons_opt.cpp:678-681 | A direct component without incoming labels may be labelled 0. |
| `Collapse.KeptFits` | anders/cons_opt.cpp:721-724 | A direct component may keep the union of incoming labels (HU). |
| `Collapse.NumberedFits` | anders/cons_opt.cpp:681-694 | A direct component with several labels may be labelled with the number of their set, whether new or known (HVN). |
| `Collapse.FreshAndKeptFits` | anders/cons_opt.cpp:703-720 | An indirect component may be labelled with a new label next to all incoming ones (HU). |
| `Collapse.CloseLabelled` | anders/cons_opt.cpp:612-620 | With such a label on its root, the component joins the correctly labelled ones and disturbs none of them. |
| `HvnSearch.Search.GetOffRep` | anders/cons_opt.cpp:300-311 | Finds the representative of an offline node; compression changes no class. |
| `HvnSearch.Search.MergeOffNodes` | anders/cons_opt.cpp:315-349 | Merges two visited representatives into the one of higher rank and pools their data there. |
| `HvnSearch.Search.CollectLabels` | anders/cons_opt.cpp:664-677 | Collects exactly the labels of neighbours outside the component, leaving out non-pointers; every neighbour has a label, so the check for unlabelled ones never fails. |
| `HvnSearch.Search.HvnLabel` | anders/cons_opt.cpp:652-695 | The root gets exactly one label: a new one if the component is indirect, else that of non-pointers, the single label collected, or the number of the set collected, which is made if there is none; it fits its meaning. |
| `HvnSearch.Search.HuLabel` | anders/cons_opt.cpp:699-725 | The root gets the labels that the component collects and a new one if it is indirect, or that of non-pointers if there are none; they fit their meaning. |
| `HvnSearch.Search.HvnDfs` | anders/cons_opt.cpp:579-624 | One call returns with the node's component finished and labelled, or with the node on the stack. |
| `HvnSearch.Search.HvnCheckEdge` | anders/cons_opt.cpp:629-648 | Accounts for one successor, whose number may be out of date because it was merged. |
| `HvnSearch.Search.HvnPopAll` | anders/cons_opt.cpp:599-607 | Exactly the nodes of the component are merged, whichever of them has the highest rank. |
| `HvnSearch.Search.HvnClose` | anders/cons_opt.cpp:597-620 | At a root the component is merged and labelled, and the call may return. |
| `HvnSearch.Search.HvnLabelRoot` | anders/cons_opt.cpp:609-620 | The merged root is marked and labelled as the mode asks for, which keeps all labels right, and the call may return. |
| `HvnSearch.Search.Run` | anders/cons_opt.cpp:368-376 | At the end the stack is empty, all nodes are finished, and two offline nodes have one representative if and only if each reaches the other. |
| `HvnSearch.Search.FinalLabel` | anders/cons_opt.cpp:740-741 | The label of a node is that of its component's representative. |
| `Naming.CloseNamed` | anders/cons_opt.cpp:652-725 | Labelling one more component as its mode asks for keeps all labels right: those given later change nothing in what a component has collected, and new labels stay different. |
| `Naming.CloseApart` | anders/cons_opt.cpp:652-695 | The labels of indirect components and the numbers of sets of labels stay different from each other and from those given when the graph was built. |
| `Naming.HvnShared` | anders/cons_opt.cpp:681-692 | Two direct components have one HVN label if and only if they collect the same labels, or one of them collects just the number of the set that the other collects. |
| `Naming.HuShared` | anders/cons_opt.cpp:699-725 | Two direct components have the same HU labels if and only if they collect the same set. |
| `Naming.ZeroExactly` | anders/cons_opt.cpp:678-680 | In both modes exactly those nodes are labelled as non-pointers from which no indirect node and no node with a given label can be reached. |
| `Naming.HuExactly` | anders/cons_opt.cpp:699-725 | The HU labels of a node are exactly those given to the nodes it reaches over plain edges and within components, and the new ones of indirect components among them. |
| `Naming.IndirectApart` | anders/cons_opt.cpp:699-706 | Two indirect nodes have the same HU labels only if each reaches the other. |
| `HvnSearch.CollectedGathered` | anders/cons_opt.cpp:664-677 | What the merged root collects through representatives is what the members of its component were given and what their neighbours outside it are labelled with. |
| `HvnSearch.ClosingPart` | anders/cons_opt.cpp:597-607 | What is popped at a root is exactly the strongly connected component, and its edges lead to labelled nodes. |
| `Rewriting.RewriteCovers` | anders/cons_opt.cpp:763-782 | Whatever the merges were, every solution of the rewritten list contains the old least solution, if dropped nodes point to nothing. |
| `Rewriting.RewritePreserves` | anders/cons_opt.cpp:763-782 | The old least solution is the least solution of the rewritten list if and only if merged nodes have equal sets in it. |
| `PtrEq.MergeByLabel` | anders/cons_opt.cpp:755-760 | Merging node i into the class of its label keeps the table correct: one class per label seen so far, whichever node becomes the representative. |
| `PtrEq.MergeRespects` | anders/cons_opt.cpp:734-761 | If labels mean the sets of their nodes, merging by label merges only nodes with equal sets. |
| `PtrEq.ZeroStays` | anders/cons_opt.cpp:742-747 | Nodes labelled 0 are not merged. |
| `PtrEq.RewriteConstraints` | anders/cons_opt.cpp:763-782 | The new list has exactly the kept constraints, redirected to representatives, once each, in the order of their first occurrences. |
| `Optimizer.UnmentionedBare` | anders/cons_opt.cpp:748-749 | A node marked as a non-pointer by an earlier pass gets no edge or label, so it is labelled 0 again and the check for a second label never fails. |
| `Optimizer.SearchLabels` | anders/cons_opt.cpp:734-743 | After the search every numbered node has a label that means its set; earlier non-pointers have label 0. |
| `Optimizer.LabelsMerged` | anders/cons_opt.cpp:733-761 | At the end of the merge loop, two nodes of the numbered graph are merged by it if and only if they have one label other than 0. |
| `Optimizer.ComponentLabels` | anders/cons_opt.cpp:597-620 | All members of a component of the offline graph have one label. |
| `Optimizer.ExactMerge` | anders/cons_opt.cpp:734-761 | If all stores reach something, the least solution gives all merged nodes equal sets. |
| `Optimizer.NonptrAfter` | anders/cons_opt.cpp:769-770 | After the rewriting no constraint mentions a non-pointer, and non-pointers are representatives. |
| `Optimizer.HvnResult` | anders/cons_opt.cpp:358-383 | From correct labels: non-pointers point to nothing, every new solution contains the old least one, and the least solution is the same if and only if merged nodes have equal sets in it. |
| `Optimizer.Optimizer.MergeByLabels` | anders/cons_opt.cpp:734-761 | Merges exactly the nodes with one label, and marks exactly those labelled 0. |
| `Optimizer.Optimizer.Hvn` | anders/cons_opt.cpp:358-383 | One pass, by HVN or HU labels: on the final labels, a direct component has, in HU mode, exactly the labels it was given and those of its successors outside it that are pointers; in HVN mode it has the single one of these or the number of their set; an indirect one has a label that no other component started with; exactly the nodes that reach nothing labelled or indirect have label 0. Exactly nodes with one label are merged, the list is rewritten; no member of any set is lost, and the least solution is the same if and only if merged nodes have equal sets in it, as when all stores reach. |
| `Optimizer.Optimizer.Hcd` | anders/cons_opt.cpp:806-848 | The offline part of HCD: variables on a cycle are merged, dereferences on a cycle are mapped, and the list is rewritten with the same guarantees. |
| `HybridCycles.ValueEdge` | anders/cons_opt.cpp:877-893 | In any solution, along an edge of the HCD graph every value of the target is contained in every value of the source (a dereference has one value for each member of its pointer). |
| `HybridCycles.ComponentValues` | anders/cons_opt.cpp:865-867 | In a solution where every pointer dereferenced in the component has a member besides I2P, all values of all nodes of the component are equal. |
| `HybridCycles.Justification` | anders/cons_opt.cpp:803-805 | If *n and m are in one component, every member of n besides I2P has the same points-to set as m, in any such solution. |
| `HybridCycles.ComponentHasVar` | anders/cons_opt.cpp:927 | Every component with more than one node contains a variable, so the check for one never fails. |
| `HybridCycles.StoresReachDerefs` | anders/cons_opt.cpp:803-805 | It is enough that the pointers that are stored through have a member besides I2P. |
| `HcdSearch.Search.HcdDfs` | anders/cons_opt.cpp:868-952 | One call returns with the node's component finished, merged and mapped, or with the node on the stack. |
| `HcdSearch.Search.HcdEdge` | anders/cons_opt.cpp:877-893 | Accounts for one successor. |
| `HcdSearch.Search.PopComponent` | anders/cons_opt.cpp:898-920 | Takes exactly the component off the stack, each node once with the root first, and picks out its variables in order. |
| `HcdSearch.Search.MergeVars` | anders/cons_opt.cpp:931-935 | Merges all variables of the component into one class and keeps what the map promises. |
| `HcdSearch.Search.Record` | anders/cons_opt.cpp:922-948 | Finishes a component of several nodes: its variables are merged, and all its dereferences are mapped to them. |
| `HcdSearch.Search.MergeNodes` | anders/cons_opt.cpp:202-231 | The entry of the node merged away is taken over by the survivor unless that has one, and deleted. |
| `HcdSearch.Search.Run` | anders/cons_opt.cpp:820-827 | At the end every offline node is finished and the stack is empty. |
| `HcdSearch.SearchFinds` | anders/cons_opt.cpp:803-827 | A finished search has merged main nodes if and only if they were merged before or are variables of one component; every dereference that shares its component is mapped, and every entry goes back to such a dereference, of its own node or of one it took the entry over from. |
| `HcdSearch.MergedEqual` | anders/cons_opt.cpp:931-935 | Merged nodes have equal sets in every solution in which the pointers dereferenced in their component have a member besides I2P. |
| `HcdSearch.EntryHolds` | anders/cons_opt.cpp:803-805 | If n is mapped to v, each member of n besides I2P has the same points-to set as v in every solution in which the pointers dereferenced in the component of the entry, and in that in which it was taken over, have a member besides I2P. |
| `HcdSearch.GoodEntries` | anders/cons_opt.cpp:803-805 | If all stores reach, this holds of every entry. |
| `HcdSearch.GoodMerges` | anders/cons_opt.cpp:931-935 | If all stores reach, all merged nodes have equal sets. |
| `Optimizer.HcdResult` | anders/cons_opt.cpp:833-849 | The list rewritten after HCD loses nothing, and has the same least solution if all stores reach something. |
| `Factoring.SortConstraints` | anders/cons_opt.cpp:966-978 | Sorts loads by source and offset, stores by destination and offset, and keeps everything else in order. |
| `Factoring.FactorGroup` | anders/cons_opt.cpp:1022-1065 | A group of n constraints becomes one complex constraint of a new node and n copies, or stays as it is if it is smaller than two. |
| `Factoring.FactorLs` | anders/cons_opt.cpp:962-993 | Every group of at least two gets a node of its own, nodes are added one for each, the new list is exactly the factored one, and its least solution is the original one on the old nodes. |
| `Factoring.FactoredSolves` | anders/cons_opt.cpp:954-961 | Every solution of the factored list solves the original one. |
| `Factoring.OncePerPointer` | anders/cons_opt.cpp:962-1060 | In the factored list every pointer is loaded from at most once at each offset, and stored to at most once. |
| `Factoring.ExtendSolves` | anders/cons_opt.cpp:954-961 | Every solution of the original list extends to the new nodes. |
| `Factoring.FactoringConservative` | anders/cons_opt.cpp:962-993 | The least solution of the factored list is the original least solution on the old nodes, for any loads, stores and offsets. |
| `Factoring.LeastIsWithin` | anders/cons_opt.cpp:1038-1041 | A least solution does not mention nodes numbered from the end of the graph up, so that they are free for new nodes. |
| `Clumping.PlaceObjects` | anders/cons_opt.cpp:74-82 | Objects are placed after the special nodes in their old order, and the sizes with them. |
| `Clumping.PlaceValues` | anders/cons_opt.cpp:83-88 | All other nodes follow in their old order. |
| `Clumping.MovedInjective` | anders/cons_opt.cpp:59-88 | No two nodes are moved to one place. |
| `Clumping.OrderKept` | anders/cons_opt.cpp:73-90 | One node is moved in front of another if and only if it is an object and the other is not, or both are of one kind and it was in front before. |
| `Clumping.SpecialStays` | anders/cons_opt.cpp:68-72 | The special nodes stay where they are. |
| `Clumping.BlockContiguous` | anders/cons_opt.cpp:76-81 | The nodes of an object stay next to each other, so that offsets keep their meaning. |
| `Clumping.BlocksClumped` | anders/cons_opt.cpp:74-82 | Afterwards the object nodes are exactly those from the first variable node up to the last object node. |
| `Clumping.RenumberConstraints` | anders/cons_opt.cpp:90-98 | The constraints are the renumbered ones, and the sources of address-of constraints are objects. |
| `Clumping.RenameSat` | anders/cons_opt.cpp:91-94 | A solution renamed satisfies the renumbered constraint, for all types and offsets. |
| `Clumping.UnnameSat` | anders/cons_opt.cpp:91-94 | A solution of a renumbered constraint, named back, satisfies the original one. |
| `Clumping.ClumpingPreserves` | anders/cons_opt.cpp:59-98 | The least solution of the renumbered system is the renamed least solution. |
| `Clumping.ClumpAddrTaken` | anders/cons_opt.cpp:59-98 | Moves every node as described, puts exactly the objects in front, and renumbers the constraints; the least solution is the renamed one. |
| `UnionFind.Classes.constructor` | include/anders.h:149-155 | Every node starts as a class of its own. |
| `UnionFind.RankSmall` | include/anders.h:31 | A class of rank r has at least 2 to the r nodes, so ranks are below 32 and a rank never leaves the 32-bit word. |
| `UnionFind.Classes.WordsFit` | include/anders.h:127-131 | Every word fits 32 bits, and holds a node number exactly if the node is not a representative. |
| `UnionFind.JoinedForest` | anders/cons_opt.cpp:141-150 | Linking a representative below one of no lower rank, with the rank raised on a tie, keeps the forest acyclic (ranks grow towards the root) and the classes large enough for their ranks. |
| `UnionFind.Classes.Find` | include/anders.h:483-492 | Terminates, returns the representative, makes the node its direct child, and changes no class, no rank and no other link than to compress it. |
| `UnionFind.Classes.Peek` | include/anders.h:494-499 | The lookup without compression returns the same representative. |
| `UnionFind.Classes.Union` | anders/cons_opt.cpp:135-150 | The node of higher rank, the first on a tie, represents the union of the two classes; its rank grows by one exactly on a tie, and no other word changes. |
| `UnionFind.Classes.Add` | anders/cons_opt.cpp:1040-1041 | New nodes are classes of their own; the others keep theirs. |
| `Heap.Heap.constructor` | include/heap.h:71-78 | An empty heap. |
| `Heap.TopIsLeast` | include/heap.h:123-125 | In an ordered heap the first key is the least. |
| `Heap.SwapItems` | include/heap.h:42-45 | Exchanging two positions in all three arrays keeps the index the inverse of the values and changes no item. |
| `Heap.RemoveTop` | include/heap.h:126-139 | Moving the last item to the top removes exactly the top item, and the order is broken there at most. |
| `Heap.Heap.PercUp` | include/heap.h:31-47 | Restores the order when one item may be smaller than its parent; changes no item. |
| `Heap.Heap.PercDn` | include/heap.h:48-68 | Restores the order when one item may be larger than a child; changes no item. |
| `Heap.Heap.Push` | include/heap.h:97-120 | Inserts the value or gives it a new key, larger or smaller, and says whether it was there. |
| `Heap.Heap.Pop` | include/heap.h:122-141 | Removes and returns a value of least key. |
| `Heap.Heap.Swap` | include/heap.h:82-89 | Two heaps exchange their contents. |
| `Worklist.Worklist.SwapIfEmpty` | include/worklist.h:136-147 | Exchanges the lists exactly when the current one is empty. |
| `Worklist.Worklist.Push` | include/worklist.h:148-154 | Pushes go to the next list only. |
| `Worklist.Worklist.Pop` | include/worklist.h:157-160 | Pops an entry of least key from the current list only. |
| `Bitmap.CombineWith` | include/bitmap.h:216-310 | The word loops of or-assignment, &= and and-not on one element compute the word-wise operation, and their flags say exactly whether the element changed and whether it became zero. |
| `Bitmap.CanonicalUnique` | include/bitmap.h:663-673 | Two lists of sorted non-zero elements with the same members are equal, so comparing lists compares sets. |
| `Bitmap.MergeCorrect` | include/bitmap.h:688-792 | The merge of two lists is sorted and without zero elements and has exactly the members of the set operation. |
| `Bitmap.FlagExact` | include/bitmap.h:688-712 | The changed flag of or-assignment and of intersectWithComplement is set if and only if the list changed. |
| `Bitmap.FlagTouched` | include/bitmap.h:715-753 | The flag of &= is set if and only if some element loses a bit to its partner of the same index. |
| `Bitmap.AndFlagExact` | include/bitmap.h:715-753 | The flag of &= says whether the bitmap has changed if and only if every element has a partner in the other bitmap or some element loses a bit to its partner. |
| `Bitmap.LostUnseen` | include/bitmap.h:715-753 | Two bitmaps of one element each for which the only member is lost and the flag is not set. |
| `Bitmap.UnionLoop` | include/bitmap.h:688-712 | The loop over both lists computes their merge and its flag. |
| `Bitmap.IntersectLoop` | include/bitmap.h:715-753 | The same for &=, which also deletes the elements left over. |
| `Bitmap.ComplementLoop` | include/bitmap.h:757-792 | The same for intersectWithComplement. |
| `Bitmap.Bitmap.FindLowerBound` | include/bitmap.h:409-436 | From any position of the cursor, finds the element of the index, or one next to where it would be. |
| `Bitmap.Bitmap.Test` | include/bitmap.h:584-597 | Membership, wherever the cursor was left. |
| `Bitmap.Bitmap.Reset` | include/bitmap.h:599-618 | Removes exactly one number; an element that becomes zero is deleted. |
| `Bitmap.Bitmap.Set` | include/bitmap.h:620-648 | Adds exactly one number. |
| `Bitmap.Bitmap.UnionWith` | include/bitmap.h:688-712 | Set union; changed if and only if there is a new member. |
| `Bitmap.Bitmap.IntersectWith` | include/bitmap.h:715-753 | Set intersection; the flag tells whether an element was changed by its partner, and is exact under the condition above. |
| `Bitmap.Bitmap.IntersectWithComplement` | include/bitmap.h:757-792 | Set difference; changed if and only if a member was lost. |
| `Bitmap.Bitmap.Equals` | include/bitmap.h:663-673 | Equality of sets. |
| `BitIterator.FindFirst` | include/bitmap.h:165-176 | The first bit of a non-zero element. |
| `BitIterator.FindNext` | include/bitmap.h:180-213 | The first bit from a given one up, or none, across word boundaries. |
| `BitIterator.Iterator.constructor` | include/bitmap.h:549-560 | Starts at the least member, or at the end if there is none. |
| `BitIterator.Iterator.Next` | include/bitmap.h:476-521 | Moves to the next larger member, or to the end if there is none. |
| `BitIterator.Members` | include/bitmap.h:516-533 | Iteration yields each member once, in increasing order. |
| `SatVector.NthMatches` | anders/util.cpp:79-92 | Filling in the don't-cares of a pattern by the bits of any index gives an integer that matches it. |
| `SatVector.MatchIndex` | anders/util.cpp:79-92 | Every match is found at an index below 2 to the number of don't-cares. |
| `SatVector.NthInjective` | anders/util.cpp:79-92 | Different indices give different integers. |
| `SatVector.NthSum` | anders/util.cpp:57-68 | The integer at an index is the base plus the masks that the bits of the index select. |
| `SatVector.ReadBits` | anders/util.cpp:57-68 | The even positions give the base and the masks of the don't-cares, lowest first. |
| `SatVector.AllSubsets` | anders/util.cpp:81-92 | The general loop visits every index once. |
| `SatVector.Sat2Vec` | anders/util.cpp:44-94 | Appends exactly the integers that match the even positions, each once and 2 to the number of don't-cares of them, also on the fast path for up to two. |
| `BddCache.ExpansionUnique` | anders/util.cpp:175-177 | There is only one increasing vector of the members of a BDD. |
| `BddCache.Expand` | anders/util.cpp:173-177 | Without the cache: the increasing vector of all members. |
| `BddCache.HitQueued` | anders/util.cpp:138-141 | A hit keeps the queue in order: every queued ID is cached with a time no older, and every cached time is queued. |
| `BddCache.MissQueued` | anders/util.cpp:179-181 | So does storing a new vector. |
| `BddCache.PopQueued` | anders/util.cpp:153-160 | So does an eviction step, and the ID popped is cached, so the check for it never fails. |
| `BddCache.NotEmpty` | anders/util.cpp:151-153 | While the cache holds anything, the queue is not empty. |
| `BddCache.EvictedExactly` | anders/util.cpp:148-168 | Evicting by time of use until the rest is below the limit keeps a vector if and only if it and the vectors used no earlier are below the limit together. |
| `BddCache.OneMoreRequest` | anders/util.cpp:136-183 | Over any sequence of requests the times of use order the cached vectors as their last requests do. |
| `BddCache.Cache.Bdd2Vec` | anders/util.cpp:127-183 | Returns the increasing vector of the members whether cached or not; the request is then the newest in the cache, all others keep their times, and any vector evicted was last requested before every one that remains; the cache stays within its limit by at most one vector. |
| `BddCache.Cache.Fill` | anders/util.cpp:144-182 | A miss expands the BDD and stores it with the newest time; before that, a full cache is cut down to exactly the most recently used vectors below the lower limit. |
| `BddCache.Cache.Touch` | anders/util.cpp:138-141 | A hit makes the vector the newest and changes nothing else. |
| `BddCache.Cache.Evict` | anders/util.cpp:148-168 | Terminates below the lower limit with the size exact; exactly those vectors stay whose own size and that of all used since are together below the limit. |
| `BddCache.Cache.EvictOne` | anders/util.cpp:152-167 | Pops one queue entry, evicting its vector only if that was its last use. |
| `StructLayout.SizeTable` | include/anders.h:298-304 | Entry i of the size table is the number of fields of the largest struct that begins at field i, or 1. |
| `StructLayout.OffsetsAdd` | anders/obj_cons_id.cpp:1600-1631 | Offsets add up along concatenated field paths. |
| `StructLayout.FieldAfterField` | anders/obj_cons_id.cpp:1600-1631 | Below any path to a struct, the first field has the offset of the struct, every other one follows the field before it by the flattened size of that, and the offset table has exactly these distances. |
| `StructLayout.ElementOfArray` | anders/obj_cons_id.cpp:1619-1626 | An index into an array does not move the offset. |
| `StructLayout.Apart` | anders/obj_cons_id.cpp:1600-1631 | Paths that part at a struct have different offsets, in the order of its fields, however they go on. |
| `StructLayout.PathTo` | anders/obj_cons_id.cpp:1564-1589 | Every flattened field is a scalar that some path leads to. |
| `StructLayout.SizeAttained` | anders/obj_cons_id.cpp:1580-1596 | Every entry of the size table is the flattened size of something at that offset. |
| `StructLayout.StepFits` | anders/obj_cons_id.cpp:1557-1597 | At the offset of a path, the size entry is at least the flattened size of the type there and stays inside the object. |
| `StructLayout.ChainKept` | anders/solve.cpp:137-157 | No step of a chain of field accesses that follows the type of an object is dropped by the offset masks, and the chain ends at the offset of the whole path. |
| `StructLayout.Layouts.PlaceFields` | anders/obj_cons_id.cpp:1564-1589 | Flattens the fields one after the other, arrays as one element, embedded structs with their tables. |
| `StructLayout.Layouts.AnalyzeStruct` | anders/obj_cons_id.cpp:1557-1597 | Enters the struct and all structs inside it with their tables, once each; the largest struct is replaced by a larger one only. |
| `StructLayout.Layouts.GetStructSz` | include/anders.h:458-474 | Returns the size table, analysing the struct first if it is not known. |
| `StructLayout.Layouts.ComputeGepOff` | anders/obj_cons_id.cpp:1600-1631 | Adds up the offsets of the struct steps and skips array steps: the offset of the path. |
| `Limits.NowhereLeast` | anders/cons_opt.cpp:541-547 | A list with a store through a pointer to I2P only, and its least solution. |
| `Limits.StoresMustReach` | anders/cons_opt.cpp:541-547 | For this list value numbering merges two nodes with different sets, so its least solution changes. |
| `Limits.SwallowedLeast` | anders/cons_opt.cpp:436-442 | A list with a parameter whose class is represented by a value, and its least solution. |
| `Limits.ObjectsMustRepresent` | anders/cons_opt.cpp:436-442 | For this list nothing is built for the value, so that HVN and HU both give it the label of a non-pointer, although it points to something. |
| `Limits.SourceMoved` | anders/solve.cpp:183-187 | A list that takes the address of a merged parameter: the solver takes that of its representative instead, and the least solution is another one. |
| `Limits.UnqueuedYetSettled` | anders/solve.cpp:703-722 | When a node that was never queued gets its first copy edge, it has unpropagated members, an edge and no entry, and yet nothing is left to do for it. |
| `Limits.SleepingQueued` | anders/solve.cpp:220-238 | A constraint list for which only one node is queued at the start, although another one has members. |
| `Limits.SleepingNode` | anders/solve.cpp:359-450 | After the visit of that node, the other one has an unpropagated member, an outgoing edge and no entry, while the invariant of the solver holds and only the load destination and node 0 are queued. |

## Left out

* BuDDy and its BDDs: points-to sets are sets; a BDD that is expanded has an ID that names one set, and its satisfying assignments are inputs.
* Walking LLVM instructions, call handling, tracing of integers, global initialisers and constant expressions: the constraint list and the object layout are inputs, as is the set of function objects.
* Indirect calls and external functions (`icall_cons`, `ind_calls`, `handle_ext`, the table of external functions): loads and stores at an offset are those of ordinary constraints, which skip function objects.
* Hybrid cycle detection in the solver: `hcd_var` is empty there, so a visit pushes node 0 and merges nothing; what the offline map promises is proved separately.
- HcdSearch.Search.MergeNodes: does not model the merge inside `merge_nodes` when both nodes are mapped to different variables (anders/cons_opt.cpp:213-228), because it can reach any component found before; the survivor keeps its entry and nothing else is merged.
- Optimizer.Optimizer.Hcd: leaves out that nested merge, too; what its entries promise is stated by HcdSearch.EntryHolds for each of them.
* Further HU passes and the pass of HCD in between: each is proved for one run, under the condition that every class with an object is represented by an object, which is proved to hold before and after the first pass only.
* The other direction of the condition on stores: a store through an empty pointer need not change the result; `Rewriting.RewritePreserves` gives the exact condition after the merge.
* Node records are values in a sequence, so the model has no pointers to nodes that a resize could leave dangling; copies of an offline node's representative and its data are kept apart.
* The order in which sets, bitmaps and hash maps are iterated is arbitrary in the model, except where the code sorts or a worklist decides.
* Clocks, visit times, labels and counters are unbounded; only the union-find word is modelled in 32 bits, and the index table of the heap by its marker value.
* Time and memory limits of the solver, statistics, printing, profiling, the check of BDD variable order, and cleaning up after a run.
* `main_node` of offline nodes is read from the numbering, and dropping an index removes it from all three lists of a node, only one of which can have it.
* The test that stops a second analysis of a recursive type: types are finite trees of scalars, arrays and structs with at least one scalar field in each.
* Out-of-range struct indices and non-constant ones, which the program refuses.
* Heaps of more than the given number of values, and popping from an empty heap, which the program asserts not to happen.
* A word of the bitmap is the set of its bit positions, the list of elements a sequence, and the cursor an index; the free list, `>>=`, ranges and the three-argument `intersectWithComplement` are left out.
* Sorting and the priority queue of the BDD cache are an insertion sort and the least key of a map from times to IDs.
* FIFO, LIFO and ID worklists, which the configuration does not select.
