/** Inputs that show why the conditions of the main theorems cannot be dropped. */
module Limits {
  import opened Constraints
  import opened Entailment
  import opened ConstraintGraph
  import opened Propagation
  import opened SolverSteps
  import opened Graphs
  import opened Building
  import opened Offline
  import opened OfflineGraph
  import opened OfflineEdges
  import opened Labels
  import opened Collapse
  import opened HvnSearch
  import opened Naming
  import opened Rewriting
  import opened Optimizer
  import PtrEq
  import Sets = UnionFind

  // ---------- A store through a pointer that leads nowhere ----------

  // Node 3 is an object; p = 4, a = 5, b = 6.  p = &I2P, a = &3, *p = a, b = *p, a = b.
  const Nowhere := System(
    Layout([0, 1, 0, 1], {}),
    [Constraint(AddrOf, 4, I2P, 0), Constraint(AddrOf, 5, 3, 0), Constraint(Store, 4, 5, 0),
     Constraint(Load, 6, 4, 0), Constraint(Copy, 5, 6, 0)],
    [0, 1, 2, 3, 4, 5, 6])

  const NowhereSol: Sol := map[4 := {I2P}, 5 := {3}]

  lemma NowhereInput()
    ensures OptInput(Nowhere, {})
  {
    hide IsParam;
    var y := Nowhere;
    forall c | c in y.cs ensures OptCons(y, {}, c) {
    }
  }

  lemma NowhereLeast()
    ensures IsLeast(Nowhere, NowhereSol) && !StoresReach(Nowhere.cs, NowhereSol)
  {
    var y, s := Nowhere, NowhereSol;
    assert Targets(y.l, {I2P}, 0) == {};
    hide Targets;
    forall c | c in y.cs ensures Sat(y.l, s, c) {
    }
    forall t | Solves(y, t) ensures Below(s, t) {
      assert y.cs[0] in y.cs && y.cs[1] in y.cs;
      assert Sat(y.l, t, y.cs[0]) && Sat(y.l, t, y.cs[1]);
    }
    assert y.cs[2] in y.cs;
  }

  // All other conditions hold, yet value numbering puts a and b into one component and merges
  // them, although a points to 3 and b to nothing; so the new least solution is another one.
  lemma StoresMustReach(ix: Index, gep2pe: map<(nat, nat), nat>, graph: seq<OffNode>, labs: seq<set<nat>>, root: seq<nat>,
                        nonptr: set<nat>, cs': seq<Constraint>)
    requires Numbered(Nowhere.l, {}, Nowhere.rep, ix) && Graphed(ix, Nowhere.cs, gep2pe, graph)
    requires SameComponentSameLabel(ix, graph, labs) && MergedByLabel(Nowhere.rep, ix, labs, root) && Coarser(Nowhere.rep, root)
    requires 0 in PtrEq.LabelOfMain(ix, labs, 5) ==> Pts(NowhereSol, 5) == {}
    requires NoPointers(Nowhere.cs, nonptr, NowhereSol) && Rewritten(Nowhere.cs, root, nonptr, cs')
    ensures Rt(root, 5) == Rt(root, 6) && Pts(NowhereSol, 5) != Pts(NowhereSol, 6)
    ensures !IsLeast(System(Nowhere.l, cs', root), NowhereSol)
  {
    var y := Nowhere;
    NowhereLeast();
    NowhereCycle(ix, gep2pe, graph);
    hide Rewritten, NoPointers, Graphed, OptInput, IsLeast, Mutual;
    assert PtrEq.SameLabel(ix, labs, 5, 6);
    RewritePreserves(y, NowhereSol, root, nonptr, cs');
    RespectsBoth(root, NowhereSol, 5, 6);
  }

  lemma RespectsBoth(root: seq<nat>, s: Sol, a: nat, b: nat)
    requires Rt(root, a) == Rt(root, b) && Pts(s, a) != Pts(s, b)
    ensures !Respects(root, s)
  {
  }

  lemma NowhereCycle(ix: Index, gep2pe: map<(nat, nat), nat>, graph: seq<OffNode>)
    requires Numbered(Nowhere.l, {}, Nowhere.rep, ix) && Graphed(ix, Nowhere.cs, gep2pe, graph)
    ensures Off(ix, 5) > 0 && Off(ix, 6) > 0 && Mutual(Arcs(graph), Off(ix, 5), Off(ix, 6))
  {
    hide IsParam, Starts, Indexed, Clumped, IndexOk, PassInput, OptInput, Graphed, IsLeast, Solves, StoresReach;
    var y := Nowhere;
    NowhereInput();
    PassStart(y, {}, ix);
    assert Off(ix, 4) > 0 && Off(ix, 5) > 0 && Off(ix, 6) > 0;
    hide Numbered;
    InGraph(y, ix, 4);
    InGraph(y, ix, 5);
    InGraph(y, ix, 6);
    var r := Ref(ix, Off(ix, 4));
    assert y.cs[2] in y.cs && y.cs[3] in y.cs && y.cs[4] in y.cs;
    assert EdgeOf(ix, y.cs[2], r, Off(ix, 5)) && EdgeOf(ix, y.cs[3], Off(ix, 6), r) && EdgeOf(ix, y.cs[4], Off(ix, 5), Off(ix, 6));
    hide EdgeOf, ImplOf, LabelOf, IndirectOf, Reach;
    NowhereArcs(ix, gep2pe, graph, r);
    ReachEdge(Arcs(graph), r, Off(ix, 5));
    ReachEdge(Arcs(graph), Off(ix, 6), r);
    ReachEdge(Arcs(graph), Off(ix, 5), Off(ix, 6));
    ReachTrans(Arcs(graph), Off(ix, 6), r, Off(ix, 5));
  }

  lemma NowhereArcs(ix: Index, gep2pe: map<(nat, nat), nat>, graph: seq<OffNode>, r: nat)
    requires Graphed(ix, Nowhere.cs, gep2pe, graph) && r < Count(ix) && Off(ix, 5) < Count(ix) && Off(ix, 6) < Count(ix)
    requires EdgeOf(ix, Nowhere.cs[2], r, Off(ix, 5)) && EdgeOf(ix, Nowhere.cs[3], Off(ix, 6), r)
    requires EdgeOf(ix, Nowhere.cs[4], Off(ix, 5), Off(ix, 6))
    ensures var E := Arcs(graph);
      |E| == Count(ix) && Off(ix, 5) in Succ(E, r) && r in Succ(E, Off(ix, 6)) && Off(ix, 6) in Succ(E, Off(ix, 5))
  {
    hide EdgeOf, ImplOf, LabelOf, IndirectOf;
    var cs := Nowhere.cs;
    assert cs[2] in cs && cs[3] in cs && cs[4] in cs;
  }

  // ---------- An object whose class is represented by a value ----------

  // The function object 3 has nodes 3, 4 and 5; node 6 is an object.  v = 7, p = 8, g = 9, q = 10.
  // p = &3, g = p + 2, *g = q, q = &6.  Node 5 has been merged with the value v, which represents it.
  const Swallowed := System(
    Layout([0, 1, 0, 3, 1, 1, 1], {3}),
    [Constraint(AddrOf, 8, 3, 0), Constraint(Gep, 9, 8, 2), Constraint(Store, 9, 10, 0), Constraint(AddrOf, 10, 6, 0)],
    [0, 1, 2, 3, 4, 7, 6, 7, 8, 9, 10])

  const SwallowedSol: Sol := map[8 := {3}, 9 := {5}, 10 := {6}, 5 := {6}, 7 := {6}]

  lemma SwallowedInput()
    ensures Clumped(Swallowed.l) && Sets.IsRootMap(Swallowed.rep) && IsRep(Swallowed.rep, P_I2P)
    ensures forall c :: c in Swallowed.cs ==> OptCons(Swallowed, {3}, c)
  {
    hide IsParam;
  }

  lemma SwallowedLeast()
    ensures IsLeast(Swallowed, SwallowedSol) && StoresReach(Swallowed.cs, SwallowedSol)
  {
    var y, s := Swallowed, SwallowedSol;
    SwallowedSolves();
    forall t | Solves(y, t) ensures Below(s, t) {
      SwallowedBelow(t);
    }
    hide Solves, Below;
    assert 5 in Pts(s, 9);
  }

  lemma SwallowedSolves()
    ensures Solves(Swallowed, SwallowedSol)
  {
    var y, s := Swallowed, SwallowedSol;
    assert Shift(y.l, {3}, 2) == {5} by { assert 3 + 2 == 5; }
    assert Targets(y.l, {5}, 0) == {5};
    hide Shift, Targets;
    assert Sat(y.l, s, y.cs[0]) && Sat(y.l, s, y.cs[1]) && Sat(y.l, s, y.cs[2]) && Sat(y.l, s, y.cs[3]);
    hide Sat;
    forall c | c in y.cs ensures Sat(y.l, s, c) {
      assert c == y.cs[0] || c == y.cs[1] || c == y.cs[2] || c == y.cs[3];
    }
    assert Respects(y.rep, s);
  }

  lemma SwallowedBelow(t: Sol)
    requires Solves(Swallowed, t)
    ensures Below(SwallowedSol, t)
  {
    var y := Swallowed;
    assert y.cs[0] in y.cs && y.cs[1] in y.cs && y.cs[2] in y.cs && y.cs[3] in y.cs;
    assert Sat(y.l, t, y.cs[0]) && Sat(y.l, t, y.cs[1]) && Sat(y.l, t, y.cs[2]) && Sat(y.l, t, y.cs[3]);
    assert 3 + 2 in Shift(y.l, Pts(t, 8), 2);
    assert 5 in Targets(y.l, Pts(t, 9), 0);
    assert Pts(t, 5) == Pts(t, y.rep[5]);
  }

  // All other conditions hold, yet nothing was built for v, so that both labellings take it for a
  // non-pointer, although it points to 6.
  lemma ObjectsMustRepresent(ix: Index, gep2pe: map<(nat, nat), nat>, graph: seq<OffNode>, root: seq<nat>, next: nat, lbl2pe: map<set<nat>, nat>)
    requires Numbered(Swallowed.l, {3}, Swallowed.rep, ix) && Graphed(ix, Swallowed.cs, gep2pe, graph)
    ensures !IsObject(Swallowed.l, Rt(Swallowed.rep, 5)) && IsObject(Swallowed.l, 5)
    ensures var x := Off(ix, 7);
      && 0 < x < |graph| && Bare(graph[x]) && Pts(SwallowedSol, 7) != {}
      && HvnPick(graph[x].indirect, Collected(root, graph, x), next, lbl2pe).labels == {0}
      && HuPick(graph[x].indirect, Collected(root, graph, x), next, lbl2pe).labels == {0}
  {
    var y := Swallowed;
    SwallowedInput();
    var x := Off(ix, 7);
    hide Graphed, Clumped, Sets.IsRootMap, IsParam, Starts, OptCons, IndexOk, Indexed;
    NumberedIndexOk(y, {3}, ix);
    assert IsRep(y.rep, 7);
    assert x >= ix.firstVal && x < ix.firstRef by { OffBelow(y, {3}, ix, 7); }
    SwallowedDests();
    MainsDiffer(y, ix, 8, 7);
    MainsDiffer(y, ix, 9, 7);
    MainsDiffer(y, ix, 10, 7);
    hide Numbered;
    NothingBuilt(y, ix, gep2pe, graph, x);
    BareCollects(root, graph, x);
  }

  lemma BareCollects(root: seq<nat>, graph: seq<OffNode>, x: nat)
    requires x < |graph| && Bare(graph[x])
    ensures Collected(root, graph, x) == {}
  {
    assert At(graph, x) == graph[x];
    assert IncomingFrom(root, graph, x, {}) == {};
  }

  lemma SwallowedDests()
    ensures forall c :: c in Swallowed.cs ==> c.dest == 8 || c.dest == 9 || c.dest == 10
  {
  }

  lemma MainsDiffer(y: System, ix: Index, m: nat, n: nat)
    requires IndexOk(y, ix) && m < |y.rep| && n < |y.rep| && m != n && Off(ix, n) > 0
    ensures Off(ix, m) != Off(ix, n)
  {
  }

  lemma NothingBuilt(y: System, ix: Index, gep2pe: map<(nat, nat), nat>, graph: seq<OffNode>, x: nat)
    requires Graphed(ix, y.cs, gep2pe, graph) && IsVal(ix, x) && forall c :: c in y.cs ==> Off(ix, c.dest) != x
    ensures x < |graph| && Bare(graph[x])
  {
  }

  // ---------- The address of a parameter ----------

  // The function object 3 has nodes 3, 4 and 5; node 5 has been merged into node 4.
  const MovedLayout := Layout([0, 1, 0, 3, 1, 1], {3})

  const MovedRoots: seq<nat> := [0, 1, 2, 3, 4, 4, 6]

  // p = &o for node 6.
  function AddressOf(o: nat): seq<Constraint> { [Constraint(AddrOf, 6, o, 0)] }

  lemma AddressLeast(o: nat)
    ensures IsLeast(System(MovedLayout, AddressOf(o), MovedRoots), map[6 := {o}])
  {
    assert AddressOf(o)[0] in AddressOf(o);
  }

  lemma AddressAccepted()
    ensures Accepts(System(MovedLayout, AddressOf(4), MovedRoots), 7)
  {
  }

  // The solver accepts p = &5 and takes the address of node 4 instead, so that its result is
  // another one.
  lemma SourceMoved()
    ensures Taken(MovedRoots, AddressOf(5)) == AddressOf(4) && Accepts(System(MovedLayout, AddressOf(4), MovedRoots), 7)
    ensures IsLeast(System(MovedLayout, AddressOf(5), MovedRoots), map[6 := {5}])
    ensures IsLeast(System(MovedLayout, AddressOf(4), MovedRoots), map[6 := {4}])
  {
    AddressLeast(4);
    AddressLeast(5);
    AddressAccepted();
  }

  // ---------- A node with new members and an edge that is on no worklist ----------

  // When an edge-less node that was never visited gets its first copy edge, it has members that
  // it has not propagated since a visit, and an outgoing edge, but no entry.  No work is lost,
  // because the edge starts out propagated.
  lemma UnqueuedYetSettled(y: System, g: Graph, q: Queue, a: nat, b: nat)
    requires Running(y, g, q, Idle, {}) && IsRep(g.root, a) && IsRep(g.root, b) && Proper(g.root, a) && Proper(g.root, b)
    requires a != b && Le(y, a, b) && a < |g.nodes| && b < |g.nodes|
    requires Points(g, a) != Prev(g, a) && CopyTo(g, a) == {} && !Queued(g, q, a)
    ensures var h := g.(nodes := LinkAt(GrowAt(g.nodes, b, g.nodes[a].pointsTo), a, b));
      && Running(y, h, q, Idle, if g.nodes[a].pointsTo <= g.nodes[b].pointsTo then {} else {b})
      && Points(h, a) != Prev(h, a) && CopyTo(h, a) == {b} && !Queued(h, q, a) && Settled(y, h, q, Idle, a)
  {
    AddEdge(y, g, q, Idle, {}, a, b);
    hide Inv, WorkedOff, Done, Stepped;
    assert {} + {b} == {b};
    var h := g.(nodes := LinkAt(GrowAt(g.nodes, b, g.nodes[a].pointsTo), a, b));
    assert Points(h, a) == Points(g, a) && Prev(h, a) == Prev(g, a) && Vtime(h, a) == Vtime(g, a) && CopyTo(h, a) == {b};
  }

  // Nodes 3 and 4 are objects; p = 5, x = 6.  3 = &4, p = &3, x = *p.
  const Sleeping := System(
    Layout([0, 1, 0, 1, 1], {}),
    [Constraint(AddrOf, 3, 4, 0), Constraint(AddrOf, 5, 3, 0), Constraint(Load, 6, 5, 0)],
    [0, 1, 2, 3, 4, 5, 6])

  const SleepingLoad := Constraint(Load, 6, 5, 0)

  const SleepingNodes := [Blank, Blank, Blank, Blank.(pointsTo := {4}), Blank, Blank.(pointsTo := {3}, loadTo := {0}), Blank]

  const SleepingBegun := Begun(Sleeping.rep, SleepingNodes)

  const SleepingBlank := Graph(Sleeping.rep, [Blank, Blank, Blank, Blank, Blank, Blank, Blank], [], SleepingBegun)

  // What is built for these constraints, ...
  const SleepingStart := Graph(Sleeping.rep, SleepingNodes, [SleepingLoad], SleepingBegun)

  // ... when the visit of p begins, the only node that is queued at first, ...
  const SleepingVisit := Graph(Sleeping.rep,
    [Blank, Blank, Blank, Blank.(pointsTo := {4}), Blank, Blank.(pointsTo := {3}, prev := {3}, loadTo := {0}, vtime := 1), Blank],
    [SleepingLoad], SleepingBegun)

  // ... and when it ends.
  const SleepingEnd := Graph(Sleeping.rep,
    [Blank, Blank, Blank, Blank.(pointsTo := {4}, copyTo := {6}), Blank,
     Blank.(pointsTo := {3}, prev := {3}, loadTo := {0}, vtime := 1), Blank.(pointsTo := {4})],
    [SleepingLoad], SleepingBegun)

  lemma SleepingAccepted()
    ensures Accepts(Sleeping, 7)
  {
  }

  lemma SleepingEmpty()
    ensures Built(Sleeping, SleepingBlank, 0)
  {
    SleepingAccepted();
    hide Built, Accepts;
    EmptyBuilt(Sleeping, SleepingBlank);
  }

  lemma SleepingBuilt()
    ensures Built(Sleeping, SleepingStart, 3)
  {
    var y, g := Sleeping, SleepingBlank;
    SleepingEmpty();
    SleepingAccepted();
    forall i: nat | i < 3 ensures Accepted(y, y.cs[i]) {
      assert y.cs[i] in y.cs;
    }
    hide Built, Accepts, Accepted;
    EnterAddress(y, g, 0);
    EnterAddress(y, Grow(g, 3, {4}), 1);
    EnterComplex(y, Grow(Grow(g, 3, {4}), 5, {3}), 2);
    SleepingSteps();
  }

  lemma SleepingSteps()
    ensures Attach(Grow(Grow(SleepingBlank, 3, {4}), 5, {3}), 5, Sleeping.cs[2]) == SleepingStart
  {
    assert {} + {4} == {4} && {} + {3} == {3} && {} + {0} == {0};
    var a := GrowAt(SleepingBlank.nodes, 3, {4});
    assert a[3] == Blank.(pointsTo := {4});
    var b := GrowAt(a, 5, {3});
    assert b[5] == Blank.(pointsTo := {3});
    var c := AttachAt(b, 5, Load, 0);
    assert c == SleepingStart.nodes;
  }

  lemma SleepingQueued()
    ensures forall n: nat :: IsRep(Sleeping.rep, n) && Points(SleepingStart, n) != {} && Outgoing(SleepingStart, n) ==> n == 5
    ensures Running(Sleeping, SleepingStart, Queue(map[5 := 0], map[]), Idle, {})
  {
    SleepingBuilt();
    hide Built, Running;
    forall n: nat | IsRep(Sleeping.rep, n) && Points(SleepingStart, n) != {} && Outgoing(SleepingStart, n) ensures n == 5 {
    }
    StartRunning(Sleeping, SleepingStart, Queue(map[], map[5 := 0]));
  }

  lemma SleepingVisited()
    ensures Running(Sleeping, SleepingVisit, Queue(map[], map[0 := 0]), Visit(5, {3}, {}), {})
  {
    SleepingQueued();
    hide Running, Later;
    var g := SleepingStart;
    PopRunning(Sleeping, g, Queue(map[5 := 0], map[]), 5);
    assert map[5 := 0] - {5} == map[];
    BeginRunning(Sleeping, g, Queue(map[], map[]), 5, 1);
    assert Begin(g, 5, 1) == SleepingVisit;
    PushRunning(Sleeping, SleepingVisit, Queue(map[], map[]), Visit(5, {3}, {}), {}, 0);
    assert {} - {0} == {} && map[][0 := 0] == map[0 := 0];
  }

  lemma SleepingEdge()
    ensures Running(Sleeping, SleepingEnd, Queue(map[], map[0 := 0]), Visit(5, {3}, {}), {6})
    ensures Edge(SleepingEnd, 3, 6)
  {
    SleepingVisited();
    var y, g := Sleeping, SleepingVisit;
    SleepingLe();
    hide Running, Stepped, Le, Edge;
    AddEdge(y, g, Queue(map[], map[0 := 0]), Visit(5, {3}, {}), {}, 3, 6);
    assert {} + {6} == {6} && {} + {4} == {4};
    assert GrowAt(g.nodes, 6, {4})[3] == g.nodes[3];
    assert LinkAt(GrowAt(g.nodes, 6, {4}), 3, 6) == SleepingEnd.nodes;
  }

  lemma SleepingLe()
    ensures Le(Sleeping, 3, 6)
  {
    var y := Sleeping;
    forall s | Solves(y, s) ensures Pts(s, 3) <= Pts(s, 6) {
      assert y.cs[1] in y.cs && y.cs[2] in y.cs;
      assert Sat(y.l, s, y.cs[1]) && Sat(y.l, s, y.cs[2]);
      assert 3 in Targets(y.l, Pts(s, 5), 0);
    }
  }

  // Node 3 then has a member it was never visited with and an outgoing edge, but no entry, and
  // the solver's invariant holds: only x and node 0, which every visit pushes, have one.
  lemma SleepingNode()
    ensures var g, q := SleepingEnd, Queue(map[], map[0 := 0, 6 := 0]);
      && Running(Sleeping, g, q, Idle, {}) && g.begun == Begun(Sleeping.rep, SleepingStart.nodes)
      && Points(g, 3) == {4} && Prev(g, 3) == {} && CopyTo(g, 3) == {6} && !Queued(g, q, 3)
  {
    var g, v := SleepingEnd, Visit(5, {3}, {});
    SleepingEdge();
    assert Done(Sleeping.l, g, 5, {3}) by {
      hide Running, Edge;
      assert CplxOf(g, 5) == {0} && Targets(Sleeping.l, {3}, 0) == {3};
    }
    hide Running, Done;
    PushRunning(Sleeping, g, Queue(map[], map[0 := 0]), v, {6}, 6);
    assert {6} - {6} == {} && map[0 := 0][6 := 0] == map[0 := 0, 6 := 0];
    FinishRunning(Sleeping, g, Queue(map[], map[0 := 0, 6 := 0]), v);
  }
}
