/** The constraint solver: visits nodes from the worklist, handles their complex constraints,
    propagates the members added since the last visit, and merges copy cycles. */
module Solver {
  import opened Constraints
  import opened Entailment
  import opened ConstraintGraph
  import opened Propagation
  import opened SolverSteps
  import opened Building
  import opened Graphs
  import opened Merging
  import opened Cycles
  import Scc
  import Sets = UnionFind
  import Lists = Worklist

  // Run cycle detection when it has this many candidates, or after this many visits.
  const LCD_SZ: nat := 20
  const LCD_PERIOD: nat := 50000

  class Solver {
    const l: Layout
    const offMask: seq<set<nat>>
    const geps: seq<map<nat, nat>>
    // The system to be solved.
    ghost const y: System

    const classes: Sets.Classes
    const wl: Lists.Worklist
    var nodes: seq<Node>
    var cplx: seq<Constraint>
    // The constraints not yet entered into the graph.
    var constraints: seq<Constraint>
    // The number of visits made, now and at the last cycle detection, and the sequence
    // number of the next visit.
    var nNodeRuns: nat
    var lastLcd: nat
    var vtime: nat
    // Copy edges across which equal points-to sets were found, and where the next search
    // for cycles starts.
    var lcdEdges: set<(nat, nat)>
    var lcdStarts: set<nat>
    // The depth-first search for cycles: its clock, the DFS ids, the stack of nodes whose
    // component is open, and the representatives of closed components.
    var currLcdDfs: nat
    var lcdDfsId: map<nat, nat>
    var lcdStk: seq<nat>
    var lcdRoots: set<nat>
    ghost var dfs: Scc.Dfs
    // The graph when solving began.
    ghost var begun: Begun

    ghost function G(): Graph
      reads this, classes
    {
      Graph(classes.root, nodes, cplx, begun)
    }

    ghost function K(): Lcd
      reads this
    {
      Lcd(lcdEdges, lcdStarts)
    }

    ghost function Now(): Moment
      reads this, classes, wl, wl.repr
      requires wl.Valid()
    {
      Moment(G(), Q(), K())
    }

    ghost function Q(): Queue
      reads this, wl, wl.repr
      requires wl.Valid()
    {
      Queue(wl.Curr(), wl.Next())
    }

    ghost predicate Valid()
      reads this, classes, wl, wl.repr
    {
      && classes.Valid() && wl.Valid()
      && this !in wl.repr && classes !in wl.repr
      && |classes.rep| == |classes.root| == |nodes| <= wl.limit
      && y.l == l && LayoutOk(l)
      && (forall i: nat :: i < |cplx| ==> ConsOk(cplx[i]))
      && (forall n: nat :: n in lcdStarts ==> Proper(classes.root, n))
      && KeysIn(wl.Curr(), |nodes|) && KeysIn(wl.Next(), |nodes|)
    }

    ghost predicate ConsOk(c: Constraint) {
      c.typ in {Load, Store, Gep} && MaskFor(l, offMask, c.off) && GepFor(l, geps, c.off) && (c.typ == Gep ==> c.off > 0)
    }

    // Either classes, worklist and the number of unpropagated members are as they were, or
    // nodes have been merged.
    twostate predicate OnlyMerged()
      requires old(wl.Valid()) && wl.Valid()
      reads this, classes, wl, wl.repr
    {
      || (classes.root == old(classes.root) && Q() == old(Q()) && Slack(nodes, Objects(l)) == old(Slack(nodes, Objects(l))))
      || |Sets.Reps(classes.root)| < |Sets.Reps(old(classes.root))|
    }

    // The solver's invariant, during visit v and up to the nodes in except.
    ghost predicate Run(v: Visit, except: set<nat>)
      reads this, classes, wl, wl.repr
    {
      Valid() && Running(y, G(), Q(), v, except)
    }

    // Ready to build the graph for the given constraints.
    constructor (c: Sets.Classes, l': Layout, mask: seq<set<nat>>, geps': seq<map<nat, nat>>, cs: seq<Constraint>)
      requires c.Valid() && Accepts(System(l', Taken(c.root, cs), c.root), |c.rep|)
      requires forall k :: k in cs && k.typ in {Load, Store, Gep} ==> MaskFor(l', mask, k.off) && GepFor(l', geps', k.off)
      ensures Initial() && y == System(l', Taken(c.root, cs), c.root) && l == l' && classes == c
      ensures fresh(wl.repr) && wl.Valid() && G() == Graph(c.root, seq(|c.rep|, _ => Blank), [], begun)
    {
      classes, l, offMask, geps, constraints := c, l', mask, geps', cs;
      y := System(l', Taken(c.root, cs), c.root);
      begun := Begun([], []);
      wl := new Lists.Worklist(|c.rep|);
      nodes := seq(|c.rep|, _ => Blank);
      cplx := [];
      nNodeRuns, lastLcd, vtime, lcdEdges, lcdStarts := 0, 0, 1, {}, {};
      currLcdDfs, lcdDfsId, lcdStk, lcdRoots, dfs := 1, map[], [], {}, Scc.Start;
      new;
      hide Sets.Classes.Valid, Lists.Worklist.Valid, Sets.Linked, Sets.RankBounded, MaskFor, GepFor, Built, Taken, Accepts, LayoutOk;
      assert G() == Graph(c.root, seq(|c.rep|, _ => Blank), [], begun);
      AcceptedFacts(l', cs, c.root, |nodes|);
      EmptyBuilt(y, G());
      hide KeysIn, Proper, Sets.IsRootMap;
      forall k | k in constraints && k.typ in {Load, Store, Gep} ensures ConsOk(k) {
      }
      assert KeysIn(wl.Curr(), |nodes|) && KeysIn(wl.Next(), |nodes|) by { NoKeys(|nodes|); }
      hide ConsOk;
    }

    // ---------- The initial graph and worklist ----------

    // Only the first k constraints have been looked at, and no node has been pushed.
    ghost predicate Building(k: nat)
      reads this, classes, wl, wl.repr
    {
      && Valid() && Accepts(y, |nodes|) && Built(y, G(), k) && lcdStk == [] && lcdStarts == {}
      && y.cs == Taken(y.rep, constraints) && Q() == Queue(map[], map[])
      && forall c :: c in constraints && c.typ in {Load, Store, Gep} ==> ConsOk(c)
    }

    ghost predicate Initial()
      reads this, classes, wl, wl.repr
    {
      Building(0)
    }

    // Build the graph, and queue all nodes that have members and outgoing constraints.
    method SolveInit()
      requires Initial()
      modifies this`nodes, this`cplx, this`constraints, this`begun, classes, wl.repr
      ensures Run(Idle, {}) && lcdStk == [] && begun == Begun(classes.root, nodes) && constraints == []
    {
      hide Sets.Classes.Valid, Lists.Worklist.Valid, Sets.Linked, Sets.RankBounded, KeysIn, Running, LayoutOk, MaskFor, GepFor, ConsOk,
        Accepts, Built, Started, Taken, Proper;
      var i := 0;
      while i < |constraints|
        invariant i <= |constraints| && Building(i)
      {
        EnterCons(i);
        i := i + 1;
      }
      constraints := [];
      BuiltBegun(y, G(), |y.cs|, Begun(classes.root, nodes));
      begun := Begun(classes.root, nodes);
      StartEmpty(G(), Q());
      QueueAll();
      StartRunning(y, G(), Q());
      StartedEmpty(G(), Q(), |nodes|);
      var swapped := wl.SwapIfEmpty();
    }

    // Queue all nodes that have members and outgoing constraints.
    method QueueAll()
      requires Valid() && Built(y, G(), |y.cs|) && Started(G(), Q(), 0) && lcdStk == []
      modifies this`nodes, wl.repr
      ensures Valid() && nodes == old(nodes) && Started(G(), Q(), |nodes|)
    {
      hide Sets.Classes.Valid, Lists.Worklist.Valid, Sets.Linked, Sets.RankBounded, KeysIn, LayoutOk, MaskFor, GepFor, ConsOk, Built, Started;
      var i := 0;
      while i < |nodes|
        invariant i <= |nodes| && Valid() && nodes == old(nodes) && Started(G(), Q(), i)
      {
        StartNode(i);
        i := i + 1;
      }
    }

    method EnterCons(i: nat)
      requires Building(i) && i < |constraints|
      modifies this`nodes, this`cplx, classes
      ensures Building(i + 1)
    {
      hide Sets.Classes.Valid, Lists.Worklist.Valid, Sets.Linked, Sets.RankBounded, KeysIn, LayoutOk, MaskFor, GepFor, Built, GrowAt,
        LinkAt, AttachAt, IsRep, Sets.IsRootMap, ConsOk;
      var c := constraints[i];
      assert y.cs[i] == TakenOne(y.rep, c) && Accepted(y, y.cs[i]);
      hide Accepts, Taken;
      BuiltSame(y, G(), i);
      var dest := GetRep(c.dest);
      var src := GetRep(c.src);
      if c.typ == AddrOf {
        EnterAddress(y, G(), i);
        nodes := GrowAt(nodes, dest, {src});
      } else if c.typ == Copy {
        assert src != dest;
        EnterCopy(y, G(), i);
        nodes := LinkAt(nodes, src, dest);
      } else {
        EnterComplex(y, G(), i);
        nodes := AttachAt(nodes, if c.typ == Store then dest else src, c.typ, |cplx|);
        cplx := cplx + [c];
      }
    }

    method StartNode(i: nat)
      requires Valid() && i < |nodes| && Built(y, G(), |y.cs|) && Started(G(), Q(), i)
      modifies this`nodes, wl.repr
      ensures Valid() && nodes == old(nodes) && Built(y, G(), |y.cs|) && Started(G(), Q(), i + 1)
    {
      hide Sets.Classes.Valid, Lists.Worklist.Valid, Sets.Linked, Sets.RankBounded, LayoutOk, MaskFor, GepFor, ConsOk, Built, Started;
      ghost var g, q := G(), Q();
      StartedMore(g, q, i) by { BuiltSame(y, g, |y.cs|); }
      classes.WordsFit();
      if classes.rep[i] >= Sets.NODE_RANK_MIN {
        BuiltFresh(y, g, i);
        nodes := nodes[i := nodes[i].(vtime := 0)];
        assert G() == g;
        var N := nodes[i];
        if N.pointsTo != {} && (N.copyTo != {} || N.loadTo != {} || N.storeFrom != {} || N.gepTo != {}) {
          wl.Push(i, 0);
        }
      }
    }

    // ---------- Representatives and the worklist ----------

    method GetRep(n: nat) returns (r: nat)
      requires Valid() && n < |nodes|
      modifies classes
      ensures Valid() && G() == old(G()) && Q() == old(Q()) && r == Rt(classes.root, n)
    {
      hide Sets.Classes.Valid, Lists.Worklist.Valid, Sets.Linked, Sets.RankBounded, KeysIn, LayoutOk, MaskFor, GepFor;
      r := classes.Find(n);
    }

    method Push(n: nat, ghost v: Visit, ghost except: set<nat>)
      requires Run(v, except) && n < |nodes| && (n in except || n == 0)
      modifies wl.repr
      ensures Run(v, except - {n}) && G() == old(G())
      ensures Q() == old(Q()).(next := old(Q()).next[n := Vtime(G(), n)])
    {
      hide Sets.Classes.Valid, Lists.Worklist.Valid, Sets.Linked, Sets.RankBounded, LayoutOk, MaskFor, GepFor, ConsOk, Running;
      PushRunning(y, G(), Q(), v, except, n);
      wl.Push(n, nodes[n].vtime);
    }

    // ---------- Copy edges ----------

    // Insert a copy edge and let it carry all members of src; returns whether dest has grown.
    method AddCopyEdge(src: nat, dest: nat, ghost v: Visit, ghost except: set<nat>) returns (chg: bool)
      requires Run(v, except) && IsRep(classes.root, src) && IsRep(classes.root, dest) && src != 0 && dest != 0
      requires src != I2P && dest != I2P ==> Le(y, src, dest)
      modifies this`nodes
      ensures Run(v, if chg then except + {dest} else except) && Stepped(old(G()), G())
      ensures src != I2P && dest != I2P ==> Edge(G(), src, dest)
      ensures GrownBy(old(G()), G(), dest, chg)
    {
      if src == I2P || dest == I2P || src == dest || dest in nodes[src].copyTo {
        NoEdge(y, G(), src, dest);
        chg := false;
      } else {
        hide Sets.Classes.Valid, Lists.Worklist.Valid, Sets.Linked, Sets.RankBounded, KeysIn, Running, Stepped, Edge, Le, GrowAt,
          LinkAt, LayoutOk, MaskFor, GepFor;
        chg := InsertEdge(src, dest, v, except);
      }
    }

    method InsertEdge(src: nat, dest: nat, ghost v: Visit, ghost except: set<nat>) returns (chg: bool)
      requires Run(v, except) && IsRep(classes.root, src) && IsRep(classes.root, dest)
      requires Proper(classes.root, src) && Proper(classes.root, dest) && src != dest && Le(y, src, dest)
      modifies this`nodes
      ensures Run(v, if chg then except + {dest} else except) && Stepped(old(G()), G()) && Edge(G(), src, dest)
      ensures GrownBy(old(G()), G(), dest, chg)
    {
      hide Sets.Classes.Valid, Lists.Worklist.Valid, Sets.Linked, Sets.RankBounded, KeysIn, Running, Stepped, Edge, Le, GrowAt,
        LinkAt, LayoutOk, MaskFor, GepFor;
      AddEdge(y, G(), Q(), v, except, src, dest);
      chg := !(nodes[src].pointsTo <= nodes[dest].pointsTo);
      nodes := LinkAt(GrowAt(nodes, dest, nodes[src].pointsTo), src, dest);
    }

    // ---------- Load and store constraints ----------

    // A load leaves it to the caller to push its destination, which has grown if chg; a store has
    // pushed what has grown.
    twostate predicate Woken1(c: Constraint, chg: bool)
      requires old(wl.Valid()) && wl.Valid()
      reads this, classes, wl, wl.repr
    {
      if c.typ == Load then GrownBy(old(G()), G(), c.dest, chg) && Q() == old(Q()) else Woke(old(G()), old(Q()), G(), Q())
    }

    // Handle one node t = o + c.off that constraint c dereferences; dest and src are
    // representatives.  A changed destination of a load is left for the caller to push.
    method CopyTarget(c: Constraint, t: nat, ghost v: Visit, ghost except: set<nat>) returns (chg: bool)
      requires Run(v, except) && (c.typ == Load || (c.typ == Store && except == {}))
      requires 0 < t < |nodes| && IsRep(classes.root, c.src) && IsRep(classes.root, c.dest)
      requires Proper(classes.root, c.src) && Proper(classes.root, c.dest)
      requires 0 < Rt(classes.root, t) && IsRep(classes.root, Rt(classes.root, t)) && (Rt(classes.root, t) == I2P <==> t == I2P)
      requires t != I2P ==> if c.typ == Load then Le(y, Rt(classes.root, t), c.dest) else Le(y, c.src, Rt(classes.root, t))
      modifies this`nodes, classes, wl.repr
      ensures Run(v, if chg then except + {c.dest} else except) && Stepped(old(G()), G()) && (chg ==> c.typ == Load)
      ensures t != I2P ==>
        if c.typ == Load then Edge(G(), Rt(classes.root, t), c.dest) else Edge(G(), c.src, Rt(classes.root, t))
      ensures Woken1(c, chg)
    {
      hide GrownBy, Woke, Sets.Classes.Valid, Lists.Worklist.Valid, Sets.Linked, Sets.RankBounded, KeysIn, Running, Stepped, Edge, Le, LayoutOk, MaskFor, GepFor;
      ghost var g, q := G(), Q();
      var rn := GetRep(t);
      if c.typ == Load {
        chg := AddCopyEdge(rn, c.dest, v, except);
      } else {
        var grown := AddCopyEdge(c.src, rn, v, except);
        if grown {
          assert {} + {rn} == {rn} && {rn} - {rn} == {};
          Push(rn, v, {rn});
        }
        WokeGrown(g, q, G(), rn, grown);
        chg := false;
      }
    }

    // Add the copy edges of load or store c for the new members d of the visited node.
    method SolveTargets(c: Constraint, d: set<nat>, ghost v: Visit)
      requires Run(v, {}) && Solvable(y, G(), c, Base(c)) && c.typ != Gep && MaskFor(l, offMask, c.off) && d <= Points(G(), Base(c))
      modifies this`nodes, classes, wl.repr
      ensures Run(v, {}) && Stepped(old(G()), G()) && CplxDone(y.l, G(), c, d) && Woke(old(G()), old(Q()), G(), Q())
    {
      hide Sets.Classes.Valid, Lists.Worklist.Valid, Sets.Linked, Sets.RankBounded, KeysIn, Running, Stepped, Edge, Le, LayoutOk,
        CplxDone, EdgesOk, RootsOk, Inv, Holds, GrownBy, Woke;
      RunningInv(y, G(), Q(), v, {});
      SteppedRefl(y, G());
      WokenNone(G(), Q(), c.dest);
      var todo := d;
      if c.off > 0 {
        // Remove members too small for the offset.
        MaskedOut(y, G(), c, d, offMask);
        todo := d * offMask[c.off];
        assert d - offMask[c.off] == d - todo;
      } else {
        CplxDoneEmpty(l, G(), c);
        assert d - d == {};
      }
      var chg := false;
      ghost var worked := d - todo;
      ghost var g, q := G(), Q();
      assert {} + {c.dest} == {c.dest} + {c.dest} == {c.dest} && {c.dest} - {c.dest} == {};
      while todo != {}
        invariant Run(v, if chg then {c.dest} else {}) && Stepped(g, G()) && (chg ==> c.typ == Load)
        invariant todo + worked == d && CplxDone(y.l, G(), c, worked)
        invariant if c.typ == Load then GrownBy(g, G(), c.dest, chg) && Q() == q else Woke(g, q, G(), Q())
        invariant c.off > 0 ==> forall o: nat :: o in todo ==> Size(l, o) > c.off
        decreases todo
      {
        var o :| o in todo;
        ghost var h := Now();
        var grown := SolveMember(c, o, v, if chg then {c.dest} else {}, g, worked);
        WokenMore(c, g, q, h, Now(), chg, grown);
        chg := chg || grown;
        todo, worked := todo - {o}, worked + {o};
      }
      SteppedPoints(g, G(), 0);
      if c.typ == Load {
        WokeGrown(g, q, G(), c.dest, chg);
      }
      if chg {
        Push(c.dest, v, {c.dest});
      }
      assert worked == d;
    }

    // One iteration of the above: handle member o.
    method SolveMember(c: Constraint, o: nat, ghost v: Visit, ghost except: set<nat>, ghost g: Graph, ghost worked: set<nat>)
      returns (chg: bool)
      requires Run(v, except) && Solvable(y, g, c, Base(c)) && c.typ != Gep && (c.typ == Store ==> except == {}) && o in Points(g, Base(c))
      requires c.off > 0 ==> Size(l, o) > c.off
      requires Stepped(g, G()) && CplxDone(y.l, G(), c, worked)
      modifies this`nodes, classes, wl.repr
      ensures Run(v, if chg then except + {c.dest} else except) && (chg ==> c.typ == Load)
      ensures Stepped(g, G()) && CplxDone(y.l, G(), c, worked + {o}) && Stepped(old(G()), G()) && Woken1(c, chg)
    {
      hide GrownBy, Woke, Sets.Classes.Valid, Lists.Worklist.Valid, Sets.Linked, Sets.RankBounded, KeysIn, Running, Stepped, Edge, Le, LayoutOk,
        MaskFor, GepFor, CplxDone, EdgesOk, RootsOk, Inv, Holds;
      ghost var h := G();
      RunningInv(y, h, Q(), v, except);
      SteppedPoints(g, h, Base(c));
      if c.off == 0 || o !in l.funcs {
        ReachTarget(y, h, c, o);
        chg := CopyTarget(c, o + c.off, v, except);
        RunningInv(y, G(), Q(), v, if chg then except + {c.dest} else except);
        SteppedPoints(h, G(), Base(c));
        TargetDone(y, G(), c, o);
      } else {
        SkippedFunction(l, h, c, o);
        SteppedRefl(y, h);
        WokenNone(h, Q(), c.dest);
        chg := false;
      }
      OneMore(l, h, G(), c, worked, o);
      SteppedTrans(g, h, G());
    }

    // ---------- One complex constraint ----------

    // Update constraint cid in place to refer to representatives.
    method Canonize(n: nat, kind: ConsType, cid: nat, ghost v: Visit) returns (c: Constraint)
      requires Run(v, {}) && kind in {Load, Store, Gep} && cid in ListOf(G(), n, kind)
      modifies this`cplx, classes
      ensures cid < |old(cplx)| && Run(v, {}) && Later(old(G()), G()) && Steady(old(G()), G()) && SameLists(old(G()), G())
      ensures cplx == old(cplx)[cid := c] && Solvable(y, G(), c, n) && c.typ == kind && MaskFor(l, offMask, c.off) && GepFor(l, geps, c.off) && (kind == Gep ==> c.off > 0)
    {
      hide Sets.Classes.Valid, Lists.Worklist.Valid, Sets.Linked, Sets.RankBounded, KeysIn, Running, Later, Le, LayoutOk, MaskFor, GepFor,
        EdgesOk, RootsOk, Inv, Holds, Canon;
      ghost var g := G();
      CanonizeFacts(y, g, Q(), v, n, kind, cid);
      c := cplx[cid];
      var dest := GetRep(c.dest);
      var src := GetRep(c.src);
      c := c.(dest := dest, src := src);
      cplx := cplx[cid := c];
    }

    // Apply the GEP function of c to the new members d of its source.
    method SolveGep(c: Constraint, d: set<nat>, ghost v: Visit)
      requires Run(v, {}) && Solvable(y, G(), c, c.src) && c.typ == Gep && GepFor(l, geps, c.off) && c.off > 0
      requires d <= Points(G(), c.src)
      modifies this`nodes, wl.repr
      ensures Run(v, {}) && Stepped(old(G()), G()) && CplxDone(y.l, G(), c, d) && Woke(old(G()), old(Q()), G(), Q())
    {
      hide GrownBy, Woke, Sets.Classes.Valid, Lists.Worklist.Valid, Sets.Linked, Sets.RankBounded, KeysIn, Running, Stepped, Le, LayoutOk,
        CplxDone, EdgesOk, RootsOk, Inv, Holds, GrowAt, GepImage, Shift;
      RunningInv(y, G(), Q(), v, {});
      GepGrowth(y, G(), Q(), v, c, d);
      GepImageIsShift(l, geps, c.off, d);
      var image := GepImage(d, geps[c.off]);
      var grown := !(image <= nodes[c.dest].pointsTo);
      ghost var g, q := G(), Q();
      nodes := GrowAt(nodes, c.dest, image);
      WokeGrown(g, q, G(), c.dest, grown);
      if grown {
        Push(c.dest, v, {c.dest});
        assert {c.dest} - {c.dest} == {};
      }
    }

    // Handle constraint cid of the visited node for the new members d; returns whether
    // it repeats a constraint in seen.
    method SolveCons(n: nat, kind: ConsType, cid: nat, d: set<nat>, seen: set<Constraint>, ghost v: Visit)
      returns (redundant: bool, c: Constraint)
      requires Run(v, {}) && kind in {Load, Store, Gep} && cid in ListOf(G(), n, kind) && d <= Points(G(), n)
      modifies this`nodes, this`cplx, classes, wl.repr
      ensures Run(v, {}) && Later(old(G()), G()) && Steady(old(G()), G()) && SameLists(old(G()), G())
      ensures cid < |old(cplx)| && cplx == old(cplx)[cid := c] && redundant == (c in seen)
      ensures if redundant then nodes == old(nodes) && Q() == old(Q()) else CplxDone(y.l, G(), c, d)
      ensures Woke(old(G()), old(Q()), G(), Q())
    {
      hide Woke, Sets.Classes.Valid, Lists.Worklist.Valid, Sets.Linked, Sets.RankBounded, KeysIn, Running, Later, Le, LayoutOk, MaskFor, GepFor,
        CplxDone, EdgesOk, RootsOk, Inv, Holds;
      ghost var g := G();
      ghost var q := Q();
      c := Canonize(n, kind, cid, v);
      redundant := c in seen;
      ghost var h := G();
      WokeSame(g, q, h);
      if !redundant {
        if kind == Gep {
          SolveGep(c, d, v);
        } else {
          SolveTargets(c, d, v);
        }
        LaterTrans(g, h, G());
        SteppedSteady(h, G());
        WokeTrans(g, q, h, q, G(), Q());
      }
    }

    // Handle the constraints of one kind at node n for the new members d, and delete from
    // the node's list those that have become equal to another one: no two that remain are equal.
    method SolveList(n: nat, kind: ConsType, d: set<nat>, ghost v: Visit)
      requires Run(v, {}) && kind in {Load, Store, Gep} && n < |nodes| && d <= Points(G(), n)
      modifies this`nodes, this`cplx, classes, wl.repr
      ensures Run(v, {}) && Later(old(G()), G()) && Steady(old(G()), G())
      ensures forall k :: ListOf(G(), n, k) <= ListOf(old(G()), n, k)
      ensures AllDone(y.l, G(), ListOf(G(), n, kind), d) && NoRepeats(G(), ListOf(G(), n, kind))
      ensures Woke(old(G()), old(Q()), G(), Q())
    {
      hide Woke, Sets.Classes.Valid, Lists.Worklist.Valid, Sets.Linked, Sets.RankBounded, KeysIn, Running, Later, Le, LayoutOk,
        CplxDone, EdgesOk, RootsOk, Inv, AllDone, SeenKept, NoRepeats, MaskFor, GepFor, DropAt;
      ghost var g, q := G(), Q();
      RunningInv(y, g, Q(), v, {});
      WokeSame(g, q, g);
      ListingStart(y, g, n, kind, d);
      var todo := if kind == Load then nodes[n].loadTo else if kind == Store then nodes[n].storeFrom else nodes[n].gepTo;
      var seen: set<Constraint> := {};
      ghost var kept := {};
      hide ListOf;
      while todo != {}
        invariant Run(v, {}) && n < |nodes| && Listing(y.l, g, G(), n, kind, d, todo, kept, seen) && Woke(g, q, G(), Q())
        decreases todo
      {
        var cid :| cid in todo;
        ghost var h := G();
        SteadyPoints(g, h, n);
        ghost var q1 := Q();
        var redundant, c := SolveCons(n, kind, cid, d, seen, v);
        WokeTrans(g, q, h, q1, G(), Q());
        if redundant {
          ListingDrop(y, g, h, G(), Q(), v, n, kind, d, todo, kept, seen, cid, c);
          WokeDrop(g, q, G(), Q(), n, cid);
          nodes := DropAt(nodes, n, cid);
        } else {
          ListingKeep(y, g, h, G(), n, kind, d, todo, kept, seen, cid, c);
          seen := seen + {c};
          kept := kept + {cid};
        }
        todo := todo - {cid};
      }
      ListingEnd(y.l, g, G(), n, kind, d, kept, seen);
    }

    // ---------- Visiting a node ----------

    // Propagate the new members d along all copy edges from node n: every other representative
    // that they lead to is reached once.
    method SolveProp(n: nat, d: set<nat>, ghost v: Visit) returns (ghost seen: set<nat>)
      requires Run(v, {}) && n < |nodes| && d <= Points(G(), n)
      modifies this`nodes, this`lcdEdges, this`lcdStarts, classes, wl.repr
      ensures Run(v, {}) && Stepped(old(G()), G()) && Spread(G(), n, d, {}, seen)
      ensures Propagated(old(Now()), Now(), n, d)
    {
      hide Sets.Classes.Valid, Lists.Worklist.Valid, Sets.Linked, Sets.RankBounded, KeysIn, Running, Later, Le, LayoutOk,
        CplxDone, EdgesOk, RootsOk, Inv, MaskFor, GepFor, GrowAt, ConsOk, SameLists, Stepped, Reached, Reps, Spread, Rt;
      ghost var g, m := G(), Now();
      PropStart(y, m, v, n, d);
      var todo := nodes[n].copyTo;
      var copySeen: set<nat> := {};
      ghost var done: set<nat> := {};
      while todo != {}
        invariant Run(v, {}) && Stepped(g, G()) && CopyTo(G(), n) == CopyTo(g, n) && todo <= CopyTo(g, n)
        invariant n < |nodes| && d <= Points(G(), n) && Spread(G(), n, d, todo, copySeen)
        invariant done + todo == CopyTo(g, n) && copySeen == Reps(g, n, done) && Reached(m, Now(), n, d, copySeen)
        decreases todo
      {
        var dest0 :| dest0 in todo;
        OneMoreRep(g, n, done, dest0);
        PropFacts(y, G(), Q(), v, n, dest0, d);
        assert dest0 != n;  // copy self-loops have been removed
        copySeen := SolvePropEdge(n, dest0, d, copySeen, todo, m, v);
        todo, done := todo - {dest0}, done + {dest0};
      }
      assert done == CopyTo(g, n);
      seen := copySeen;
    }

    // The first time that two neighbours have equal sets, look for a cycle there.
    method NoteCandidate(n: nat, dest: nat)
      requires n < |nodes| && dest < |nodes|
      modifies this`lcdEdges, this`lcdStarts
      ensures var found := (n, dest) !in old(lcdEdges) && nodes[n].pointsTo != {} && nodes[n].pointsTo == nodes[dest].pointsTo;
        && lcdEdges == old(lcdEdges) + (if found then {(n, dest)} else {})
        && lcdStarts == old(lcdStarts) + if found then {n} else {}
    {
      if (n, dest) !in lcdEdges && nodes[n].pointsTo != {} && nodes[n].pointsTo == nodes[dest].pointsTo {
        lcdEdges := lcdEdges + {(n, dest)};
        lcdStarts := lcdStarts + {n};
      }
    }

    method SolvePropEdge(n: nat, dest0: nat, d: set<nat>, copySeen: set<nat>, ghost todo: set<nat>,
                         ghost m: Moment, ghost v: Visit)
      returns (seen: set<nat>)
      requires Run(v, {}) && n < |nodes| && dest0 in CopyTo(G(), n) && d <= Points(G(), n)
      requires Stepped(m.g, G()) && Spread(G(), n, d, todo, copySeen)
      requires Reached(m, Now(), n, d, copySeen) && n !in copySeen
      modifies this`nodes, this`lcdEdges, this`lcdStarts, classes, wl.repr
      ensures Run(v, {}) && Stepped(m.g, G()) && CopyTo(G(), n) == CopyTo(old(G()), n) && n < |nodes|
      ensures d <= Points(G(), n) && Spread(G(), n, d, todo - {dest0}, seen)
      ensures seen == copySeen + (if Rt(m.g.root, dest0) == n then {} else {Rt(m.g.root, dest0)})
      ensures Reached(m, Now(), n, d, seen)
    {
      hide Sets.Classes.Valid, Lists.Worklist.Valid, Sets.Linked, Sets.RankBounded, KeysIn, Running, Le, LayoutOk, EdgesOk,
        RootsOk, Inv, MaskFor, GepFor, GrowAt, ConsOk, Stepped, Reached;
      ghost var h := G();
      PropFacts(y, h, Q(), v, n, dest0, d);
      SteppedSame(m.g, h);
      var dest := GetRep(dest0);
      // Skip n itself and what has been reached already.
      if dest == n || dest in copySeen {
        assert dest in copySeen ==> copySeen + {dest} == copySeen;
        return copySeen;
      }
      OneReached(m, Now(), n, d, copySeen, dest);
      ghost var q2, k2, found := Q(), K(), (n, dest) !in lcdEdges && Points(h, n) != {} && Points(h, n) == Points(h, dest);
      NoteCandidate(n, dest);
      var grown := !(d <= nodes[dest].pointsTo);
      nodes := GrowAt(nodes, dest, d);
      SteppedPoints(h, G(), n);
      SteppedSame(h, G());
      SpreadStep(h, G(), n, d, todo, copySeen, dest0) by { SteppedSteady(h, G()); }
      SteppedTrans(m.g, h, G());
      if grown {
        Push(dest, v, {dest});
        assert {dest} - {dest} == {};
      }
      seen := copySeen + {dest};
      assert Q() == if d <= Points(h, dest) then q2 else q2.(next := q2.next[dest := Vtime(h, dest)]);
      assert K() == Lcd(k2.edges + (if found then {(n, dest)} else {}), k2.starts + if found then {n} else {});
    }

    // Handle the complex constraints of n for the members added since the last visit, and
    // propagate those along its copy edges; mid is when propagation begins.
    method SolveNode(n: nat) returns (ghost mid: Moment)
      requires Run(Idle, {n}) && IsRep(classes.root, n) && n < |nodes|
      modifies this`nodes, this`cplx, this`nNodeRuns, this`vtime, this`lcdEdges, this`lcdStarts, classes, wl.repr
      ensures Run(Idle, {}) && classes.root == old(classes.root) && Later(old(G()), G())
      ensures Slack(nodes, Objects(l)) < old(Slack(nodes, Objects(l)))
        || (Slack(nodes, Objects(l)) == old(Slack(nodes, Objects(l))) && Q() == old(Q()))
      ensures nNodeRuns == old(nNodeRuns) + 1 && vtime == old(vtime) + 1 && VisitMade(old(Now()), mid, Now(), n, old(vtime))
    {
      hide Sets.Classes.Valid, Lists.Worklist.Valid, Sets.Linked, Sets.RankBounded, KeysIn, Running, Later, Le, LayoutOk, EdgesOk,
        RootsOk, Inv, MaskFor, GepFor, ConsOk, BeginAt, Slack, Done, CplxDone, AllDone, Spread, Steady;
      ghost var g := G();
      nNodeRuns := nNodeRuns + 1;
      // Members added since the last visit.
      var d := nodes[n].pointsTo - nodes[n].prev;
      ghost var v := Visit(n, nodes[n].pointsTo, nodes[n].prev);
      VisitBegins(y, g, Q(), n, vtime, d);
      nodes := BeginAt(nodes, n, vtime);
      vtime := vtime + 1;
      VisitedBegin(g, G(), n, old(vtime));
      mid := Now();
      if d != {} {
        ghost var h := G();
        // There is no offline cycle for n, so its representative is node 0.
        Push(0, v, {});
        assert {} - {0} == {};
        mid := WorkOff(n, d, v);
        VisitedSteady(g, h, mid.g, n, old(vtime));
        VisitedSteady(g, h, G(), n, old(vtime));
        WokeVisit(g, h, old(Q()), G(), Q(), n, old(vtime));
        LaterTrans(g, h, mid.g);
        LaterTrans(g, h, G());
        SteadySlack(y, h, G());
      }
    }

    // The body of a visit.
    method WorkOff(n: nat, d: set<nat>, ghost v: Visit) returns (ghost mid: Moment)
      requires Run(v, {}) && v.Visit? && v.n == n < |nodes| && IsRep(classes.root, n)
      requires v.pts == v.before + d && Prev(G(), n) == v.pts == Points(G(), n) && d <= Points(G(), n)
      modifies this`nodes, this`cplx, this`lcdEdges, this`lcdStarts, classes, wl.repr
      ensures Run(Idle, {}) && Later(old(G()), G()) && Steady(old(G()), G())
      ensures classes.root == old(classes.root) && |nodes| == old(|nodes|)
      ensures Later(old(G()), mid.g) && Steady(old(G()), mid.g) && mid.k == old(K()) && Propagated(mid, Now(), n, d)
      ensures Woke(old(G()), old(Q()), G(), Q())
    {
      hide Woke, Reached, Sets.Classes.Valid, Lists.Worklist.Valid, Sets.Linked, Sets.RankBounded, KeysIn, Running, Later, Le, LayoutOk, EdgesOk,
        RootsOk, Inv, MaskFor, GepFor, ConsOk, Done, CplxDone, AllDone, Spread, ListOf, Steady, SameLists;
      ghost var g0, q0 := G(), Q();
      SolveList(n, Load, d, v);
      ghost var g1, q1 := G(), Q();
      SteadyPoints(g0, g1, n);
      SolveList(n, Store, d, v);
      WokeTrans(g0, q0, g1, q1, G(), Q());
      ghost var g2, q2 := G(), Q();
      SteadyPoints(g1, g2, n);
      SolveList(n, Gep, d, v);
      WokeTrans(g0, q0, g2, q2, G(), Q());
      ghost var g3, q3 := G(), Q();
      SteadyPoints(g2, g3, n);
      mid := Now();
      ghost var seen := SolveProp(n, d, v);
      SteppedSteady(g3, G());
      ReachedWoke(mid, Now(), n, d, Reps(mid.g, n, CopyTo(mid.g, n)));
      WokeTrans(g0, q0, g3, q3, G(), Q());
      SteadyPoints(g3, G(), n);
      ListsDone(y, g0, g1, g2, g3, G(), n, d);
      VisitDone(y, G(), Q(), v, d, seen);
      SteadyPrev(g0, G(), n);
      SteadyPoints(g0, G(), n);
      FinishRunning(y, G(), Q(), v);
    }

    // ---------- Merging ----------

    // Unify two representatives; returns the one that remains.
    method MergeNodes(n1: nat, n2: nat, ghost except: set<nat>) returns (p: nat)
      requires Run(Idle, except) && Joinable(y, G(), n1, n2) && Joinable(y, G(), n2, n1)
      modifies this`nodes, classes
      ensures (p == n1 || p == n2) && G() == Join(old(G()), p, n1 + n2 - p) && Run(Idle, except + {p}) && Later(old(G()), G())
      ensures |Sets.Reps(classes.root)| < |Sets.Reps(old(classes.root))|
    {
      hide Sets.Classes.Valid, Lists.Worklist.Valid, Sets.Linked, Sets.RankBounded, KeysIn, Running, Later, Eq, LayoutOk, MaskFor, GepFor,
        ConsOk, JoinAt, Sets.Joined, Sets.Reps, Sets.Merged;
      MergeFacts(y, G(), Q(), except, n1, n2);
      MergeFacts(y, G(), Q(), except, n2, n1);
      p := classes.Union(n1, n2);
      nodes := JoinAt(nodes, p, n1 + n2 - p);
    }

    // ---------- Lazy cycle detection ----------

    // The state of a search that began on graph g0.
    ghost predicate Searching(g0: Graph, E: Digraph, starts: set<nat>)
      reads this, classes, wl, wl.repr
    {
      && Run(Idle, {}) && Cycling(y, g0, G(), E, dfs, lcdRoots, starts)
      && lcdDfsId == dfs.low && lcdStk == dfs.stk && currLcdDfs == dfs.clock
    }

    // Pop and merge the component of root n.
    method LcdClose(n: nat, ourDfs: nat, ghost g0: Graph, ghost E: Digraph, ghost t0: Scc.Dfs, ghost starts: set<nat>)
      requires Run(Idle, {}) && Closing(y, g0, E, t0, dfs, n, starts) && ourDfs == Scc.Num(dfs, n)
      requires Popping(g0, G(), dfs, lcdRoots, Scc.Part(dfs, t0, n), {n}, n)
      requires lcdDfsId == dfs.low && lcdStk == dfs.stk && currLcdDfs == dfs.clock
      modifies this`nodes, this`lcdStk, this`lcdRoots, this`dfs, classes, wl.repr
      ensures Searching(g0, E, starts) && Scc.Returned(E, t0, dfs, n)
      ensures RootsLater(old(G()), G()) && (classes.root == old(classes.root) ==> nodes == old(nodes))
      ensures OnlyMerged() && old(lcdRoots) <= lcdRoots
    {
      hide Sets.Classes.Valid, Lists.Worklist.Valid, Sets.Linked, Sets.RankBounded, KeysIn, Running, LayoutOk, MaskFor, GepFor, ConsOk,
        Closing, Popping, Scc.Part, Sets.Reps, Slack, Objects, RootsOk, EdgesOk, Inv, Scc.StackOf, Scc.Popped, RootsLater,
        Cycling, Scc.Returned, Scc.Close, Scc.Num, Rt, IsRep, Proper;
      RunningInv(y, G(), Q(), Idle, {});
      PoppedAll(y, g0, G(), E, t0, dfs, lcdRoots, starts, n);
      Scc.StackBase(t0, dfs, n);
      var p, chg := LcdPopAll(n, ourDfs, g0, E, t0, starts);
      PoppingEnd(y, g0, G(), E, t0, dfs, lcdRoots, starts, n, p);
      lcdRoots := lcdRoots + {p};
      dfs := Scc.Close(dfs, t0.path, |t0.stk|, n);
      if chg {
        Push(p, Idle, {p});
        assert {p} - {p} == {};
      }
    }

    method LcdPopAll(n: nat, ourDfs: nat, ghost g0: Graph, ghost E: Digraph, ghost t0: Scc.Dfs, ghost starts: set<nat>) returns (p: nat, chg: bool)
      requires Run(Idle, {}) && Closing(y, g0, E, t0, dfs, n, starts) && ourDfs == Scc.Num(dfs, n) && n < |nodes|
      requires Scc.StackOf(t0, dfs, n) && |t0.stk| <= |dfs.stk|
      requires Popping(g0, G(), dfs, lcdRoots, Scc.Part(dfs, t0, n), Scc.Popped(dfs, n, |dfs.stk|), n) && RootsLater(G(), G())
      requires lcdDfsId == dfs.low && lcdStk == dfs.stk && currLcdDfs == dfs.clock
      modifies this`nodes, this`lcdStk, classes
      ensures |t0.stk| <= |dfs.stk| && lcdStk == dfs.stk[..|t0.stk|] && p < |nodes|
      ensures Run(Idle, if chg then {p} else {}) && RootsLater(old(G()), G())
      ensures Popping(g0, G(), dfs, lcdRoots, Scc.Part(dfs, t0, n), Scc.Popped(dfs, n, |t0.stk|), p)
      ensures if chg then |Sets.Reps(classes.root)| < |Sets.Reps(old(classes.root))| else classes.root == old(classes.root) && nodes == old(nodes)
    {
      hide Sets.Classes.Valid, Lists.Worklist.Valid, Sets.Linked, Sets.RankBounded, KeysIn, Running, LayoutOk, MaskFor, GepFor, ConsOk,
        Closing, Popping, Scc.Part, Sets.Reps, Slack, Objects, RootsOk, EdgesOk, Inv, Scc.StackOf, Scc.Popped, RootsLater;
      p, chg := n, false;
      ghost var g := G();
      Scc.TopOfStack(t0, dfs, n, |lcdStk|);
      while |lcdStk| > 0 && lcdDfsId[lcdStk[|lcdStk| - 1]] >= ourDfs
        invariant |t0.stk| <= |lcdStk| <= |dfs.stk| && lcdStk == dfs.stk[..|lcdStk|]
        invariant |lcdStk| > 0 ==> dfs.stk[|lcdStk| - 1] in dfs.low && (dfs.low[dfs.stk[|lcdStk| - 1]] >= ourDfs <==> |t0.stk| < |lcdStk|)
        invariant Run(Idle, if chg then {p} else {}) && RootsLater(g, G()) && p < |nodes|
        invariant Popping(g0, G(), dfs, lcdRoots, Scc.Part(dfs, t0, n), Scc.Popped(dfs, n, |lcdStk|), p)
        invariant if chg then |Sets.Reps(classes.root)| < |Sets.Reps(old(classes.root))| else classes.root == old(classes.root) && nodes == old(nodes)
        decreases |lcdStk|
      {
        p := LcdPop(n, p, if chg then {p} else {}, g, g0, E, t0, starts);
        chg := true;
        Scc.TopOfStack(t0, dfs, n, |lcdStk|);
      }
    }

    method LcdPop(n: nat, p0: nat, ghost except: set<nat>, ghost g: Graph, ghost g0: Graph, ghost E: Digraph, ghost t0: Scc.Dfs, ghost starts: set<nat>)
      returns (p: nat)
      requires Closing(y, g0, E, t0, dfs, n, starts) && Scc.StackOf(t0, dfs, n)
      requires |t0.stk| < |lcdStk| <= |dfs.stk| && lcdStk == dfs.stk[..|lcdStk|]
      requires Run(Idle, except) && except <= {p0} && RootsLater(g, G())
      requires Popping(g0, G(), dfs, lcdRoots, Scc.Part(dfs, t0, n), Scc.Popped(dfs, n, |lcdStk|), p0)
      modifies this`nodes, this`lcdStk, classes
      ensures |lcdStk| == |old(lcdStk)| - 1 && lcdStk == dfs.stk[..|lcdStk|] && p < |nodes|
      ensures Run(Idle, {p}) && RootsLater(g, G())
      ensures Popping(g0, G(), dfs, lcdRoots, Scc.Part(dfs, t0, n), Scc.Popped(dfs, n, |lcdStk|), p)
      ensures |Sets.Reps(classes.root)| < |Sets.Reps(old(classes.root))|
    {
      hide Sets.Classes.Valid, Lists.Worklist.Valid, Sets.Linked, Sets.RankBounded, KeysIn, Running, LayoutOk, MaskFor, GepFor, ConsOk,
        Closing, Popping, Scc.Part, Sets.Reps, Slack, Objects, RootsOk, EdgesOk, Inv, Scc.Popped, JoinAt, Scc.StackOf, Joinable,
        PointsLater, EdgesLater, CplxLater, ListsLater, RootsLater;
      var n2 := lcdStk[|lcdStk| - 1];
      lcdStk := lcdStk[..|lcdStk| - 1];
      ghost var h := G();
      RunningInv(y, h, Q(), Idle, except);
      PopFacts(y, g0, h, E, t0, dfs, lcdRoots, starts, n, |lcdStk| + 1, p0);
      JoinableReps(y, h, p0, n2);
      var rn2 := GetRep(n2);
      p := MergeNodes(p0, rn2, except);
      RootsLaterTrans(g, h, G());
      JoinedRep(h, p, p0 + n2 - p, y);
      ExceptJoined(y, G(), Q(), except + {p}, p, p0 + n2 - p);
    }

    // Follow the copy edge from the active node n to dest0; returns which edges of n to
    // delete and which to add so that they lead to representatives.
    method LcdEdge(n: nat, dest0: nat, del: set<nat>, add: set<nat>, ghost done: set<nat>, ghost handled: set<nat>,
                   ghost g0: Graph, ghost E: Digraph, ghost t0: Scc.Dfs, ghost starts: set<nat>)
      returns (del': set<nat>, add': set<nat>)
      requires Searching(g0, E, starts) && dest0 in CopyTo(G(), n)
      requires Active(y, g0, G(), E, t0, dfs, lcdRoots, starts, n, done, handled, del, add)
      modifies this`nodes, this`currLcdDfs, this`lcdDfsId, this`lcdStk, this`lcdRoots, this`dfs, classes, wl.repr
      ensures Searching(g0, E, starts) && CopyTo(G(), n) == old(CopyTo(G(), n)) && RootsLater(old(G()), G())
      ensures Active(y, g0, G(), E, t0, dfs, lcdRoots, starts, n, done + {dest0}, handled + {Rt(g0.root, dest0)}, del', add')
      ensures OnlyMerged() && old(lcdRoots) <= lcdRoots
      decreases Scc.Unvisited(E, t0), 2
    {
      hide Sets.Classes.Valid, Lists.Worklist.Valid, Sets.Linked, Sets.RankBounded, KeysIn, Running, LayoutOk, MaskFor, GepFor, ConsOk,
        Sets.Reps, Slack, Objects, RootsOk, EdgesOk, Inv, RootsLater, Cycling, Scc.Inv, Active, Edged, Scc.Working, Scc.Returned,
        Scc.Seen, Scc.Enter, Scc.Unvisited;
      ghost var t, g, roots := dfs, G(), lcdRoots;
      SearchFacts(y, g0, g, Q(), E, t, roots, starts);
      ActiveEdge(y, g0, g, E, t0, t, roots, starts, n, done, handled, del, add, dest0);
      assert dest0 != n;  // copy self-loops have been removed
      var dest := GetRep(dest0);
      // Delete an edge whose replacement is there already or that would lead to n itself.
      if dest in add || dest == n {
        ActiveSkip(y, g0, g, E, t0, t, roots, starts, n, done, handled, del, add, dest0);
        return del + {dest0}, add;
      }
      if dest in lcdRoots || dest in lcdDfsId {
        LcdSeen(n, dest0, dest, del, add, done, handled, g0, E, t0, starts);
      } else {
        dest := LcdVisit(n, dest0, del, add, done, handled, g0, E, t0, starts);
      }
      HandledFacts(y, g0, g, E, t0, t, roots, starts, n, done, handled, del, add);
      EdgedActive(y, g0, G(), E, t0, dfs, lcdRoots, starts, n, done, handled, del, add, dest0, dest);
      del', add' := del, add;
      if dest != dest0 {
        del', add' := del + {dest0}, add + {dest};
      }
    }

    // The edge leads to a node that the search has seen.
    method LcdSeen(n: nat, ghost dest0: nat, dest: nat, ghost del: set<nat>, ghost add: set<nat>, ghost done: set<nat>, ghost handled: set<nat>,
                   ghost g0: Graph, ghost E: Digraph, ghost t0: Scc.Dfs, ghost starts: set<nat>)
      requires Searching(g0, E, starts) && dest0 in CopyTo(G(), n) && dest == Rt(classes.root, dest0)
      requires Active(y, g0, G(), E, t0, dfs, lcdRoots, starts, n, done, handled, del, add)
      requires dest != n && (dest in lcdRoots || dest in lcdDfsId)
      modifies this`lcdDfsId, this`dfs
      ensures Searching(g0, E, starts)
      ensures Edged(y, g0, G(), E, t0, dfs, lcdRoots, starts, n, done, handled, del, add, dest0, dest)
    {
      hide Sets.Classes.Valid, Lists.Worklist.Valid, Sets.Linked, Sets.RankBounded, KeysIn, Running, LayoutOk, MaskFor, GepFor, ConsOk,
        Sets.Reps, Slack, Objects, RootsOk, EdgesOk, Inv, RootsLater, Cycling, Scc.Inv, Active, Edged, Scc.Working, Scc.Returned,
        Scc.Seen, Scc.Enter, Scc.Unvisited;
      SearchFacts(y, g0, G(), Q(), E, dfs, lcdRoots, starts);
      EdgedSeen(y, g0, G(), E, t0, dfs, lcdRoots, starts, n, done, handled, del, add, dest0);
      EdgedCycling(y, g0, G(), E, t0, Scc.Seen(dfs, n, Rt(g0.root, dest0)), lcdRoots, starts, n, done, handled, del, add, dest0, dest);
      if dest !in lcdRoots {
        LcdLower(n, dest, Rt(g0.root, dest0));
      }
    }

    // A node with a smaller DFS id, not yet merged, leads back beyond n.
    method LcdLower(n: nat, dest: nat, ghost b: nat)
      requires lcdDfsId == dfs.low && n in lcdDfsId && dest in lcdDfsId && Scc.Seen(dfs, n, b) == Lowered(dfs, n, dest)
      modifies this`lcdDfsId, this`dfs
      ensures dfs == old(Scc.Seen(dfs, n, b)) && lcdDfsId == dfs.low && dfs.clock == old(dfs.clock) && dfs.stk == old(dfs.stk)
    {
      hide Scc.Seen;
      if lcdDfsId[dest] < lcdDfsId[n] {
        lcdDfsId := lcdDfsId[n := lcdDfsId[dest]];
      }
      dfs := Lowered(dfs, n, dest);
    }

    // The edge leads to a new node: search from there.
    method LcdVisit(n: nat, dest0: nat, ghost del: set<nat>, ghost add: set<nat>, ghost done: set<nat>, ghost handled: set<nat>,
                   ghost g0: Graph, ghost E: Digraph, ghost t0: Scc.Dfs, ghost starts: set<nat>)
      returns (dest: nat)
      requires Searching(g0, E, starts) && dest0 in CopyTo(G(), n)
      requires Active(y, g0, G(), E, t0, dfs, lcdRoots, starts, n, done, handled, del, add)
      requires Rt(classes.root, dest0) !in lcdRoots && Rt(classes.root, dest0) !in lcdDfsId && Rt(classes.root, dest0) != n
      modifies this`nodes, this`currLcdDfs, this`lcdDfsId, this`lcdStk, this`lcdRoots, this`dfs, classes, wl.repr
      ensures Searching(g0, E, starts) && CopyTo(G(), n) == old(CopyTo(G(), n)) && RootsLater(old(G()), G())
      ensures Edged(y, g0, G(), E, t0, dfs, lcdRoots, starts, n, done, handled, del, add, dest0, dest)
      ensures OnlyMerged() && old(lcdRoots) <= lcdRoots
      decreases Scc.Unvisited(E, t0), 1
    {
      hide Sets.Classes.Valid, Lists.Worklist.Valid, Sets.Linked, Sets.RankBounded, KeysIn, Running, LayoutOk, MaskFor, GepFor, ConsOk,
        Sets.Reps, Slack, Objects, RootsOk, EdgesOk, Inv, RootsLater, Cycling, Scc.Inv, Active, Edged, Scc.Working, Scc.Returned,
        Scc.Seen, Scc.Enter, Scc.Unvisited, Callable, Lowered, Rt, IsRep, Proper, CopyTo;
      ghost var t, g, roots := dfs, G(), lcdRoots;
      SearchFacts(y, g0, g, Q(), E, t, roots, starts);
      ActiveEdge(y, g0, g, E, t0, t, roots, starts, n, done, handled, del, add, dest0);
      CallableTarget(y, g0, g, E, t0, t, roots, starts, n, done, handled, del, add, dest0);
      dest := GetRep(dest0);
      ActiveShrinks(y, g0, g, E, t0, t, roots, starts, n, done, handled, del, add);
      LcdDfs(dest, g0, E, starts);
      SearchFacts(y, g0, G(), Q(), E, dfs, lcdRoots, starts);
      EdgedReturn(y, g0, g, G(), E, t0, t, dfs, roots, lcdRoots, starts, n, done, handled, del, add, dest0);
      EdgedCycling(y, g0, G(), E, t0, Scc.Seen(dfs, n, Rt(g0.root, dest0)), lcdRoots, starts, n, done, handled, del, add, dest0, Rt(classes.root, dest0));
      dest := GetRep(dest0);
      LcdLower(n, dest, Rt(g0.root, dest0));
    }

    // Detect cycles starting from n; every component that is closed is unified.
    method LcdDfs(n: nat, ghost g0: Graph, ghost E: Digraph, ghost starts: set<nat>)
      requires Searching(g0, E, starts) && Callable(g0, E, dfs, starts, n)
      modifies this`nodes, this`currLcdDfs, this`lcdDfsId, this`lcdStk, this`lcdRoots, this`dfs, classes, wl.repr
      ensures Searching(g0, E, starts) && Scc.Returned(E, old(dfs), dfs, n) && RootsLater(old(G()), G())
      ensures OnlyMerged() && old(lcdRoots) <= lcdRoots
      decreases Scc.Unvisited(E, dfs), 4
    {
      hide Sets.Classes.Valid, Lists.Worklist.Valid, Sets.Linked, Sets.RankBounded, KeysIn, Running, LayoutOk, MaskFor, GepFor, ConsOk,
        Sets.Reps, Slack, Objects, RootsOk, EdgesOk, Inv, RootsLater, Cycling, Scc.Inv, Active, Edged, Scc.Working, Scc.Returned,
        Scc.Seen, Scc.Enter, Scc.Unvisited;
      ghost var t0, g := dfs, G();
      SearchFacts(y, g0, g, Q(), E, dfs, lcdRoots, starts);
      CyclingEnter(y, g0, g, E, dfs, lcdRoots, starts, n);
      EnterFields(dfs, n);
      var ourDfs := currLcdDfs;
      currLcdDfs := currLcdDfs + 1;
      lcdDfsId := lcdDfsId[n := ourDfs];
      dfs := Scc.Enter(dfs, n);
      var edges := LcdEdges(n, g0, E, t0, starts);
      ghost var h := G();
      LcdLeave(n, ourDfs, edges, g0, E, t0, starts);
      RootsLaterTrans(g, h, G());
    }

    // Search along all copy edges of the active node n; returns the edges between
    // representatives to put in their place.
    method LcdEdges(n: nat, ghost g0: Graph, ghost E: Digraph, ghost t0: Scc.Dfs, ghost starts: set<nat>) returns (edges: set<nat>)
      requires Searching(g0, E, starts) && Scc.Working(E, t0, dfs, n, {}) && n < |nodes|
      modifies this`nodes, this`currLcdDfs, this`lcdDfsId, this`lcdStk, this`lcdRoots, this`dfs, classes, wl.repr
      ensures Searching(g0, E, starts) && Scc.Working(E, t0, dfs, n, Graphs.Succ(E, n)) && RootsLater(old(G()), G())
      ensures SameEdges(G(), n, edges) && (edges != {} ==> Proper(classes.root, n)) && n < |nodes| && n in lcdDfsId && dfs.path == t0.path + [n]
      ensures IsRep(classes.root, n) && edges == Reps(G(), n, old(CopyTo(G(), n))) && CopyTo(G(), n) == old(CopyTo(G(), n))
      ensures OnlyMerged() && old(lcdRoots) <= lcdRoots
      decreases Scc.Unvisited(E, t0), 3
    {
      hide Sets.Classes.Valid, Lists.Worklist.Valid, Sets.Linked, Sets.RankBounded, KeysIn, Running, LayoutOk, MaskFor, GepFor, ConsOk,
        Sets.Reps, Slack, Objects, RootsOk, EdgesOk, Inv, RootsLater, Cycling, Scc.Inv, Active, Edged, Scc.Working, Scc.Returned,
        Scc.Seen, Scc.Enter, Scc.Unvisited, SameEdges;
      ghost var g := G();
      SearchFacts(y, g0, g, Q(), E, dfs, lcdRoots, starts);
      ActiveStart(y, g0, g, E, t0, dfs, lcdRoots, starts, n);
      var todo, del, add := nodes[n].copyTo, {}, {};
      var full := todo;
      ghost var handled: set<nat> := {};
      assert full - todo == {};
      while todo != {}
        invariant Searching(g0, E, starts) && n < |nodes| && CopyTo(G(), n) == full && todo <= full && RootsLater(g, G())
        invariant Active(y, g0, G(), E, t0, dfs, lcdRoots, starts, n, full - todo, handled, del, add)
        invariant OnlyMerged() && old(lcdRoots) <= lcdRoots
        decreases todo
      {
        var dest0 :| dest0 in todo;
        ghost var h := G();
        del, add := LcdEdge(n, dest0, del, add, full - todo, handled, g0, E, t0, starts);
        RootsLaterTrans(g, h, G());
        assert full - todo + {dest0} == full - (todo - {dest0});
        todo, handled := todo - {dest0}, handled + {Rt(g0.root, dest0)};
      }
      assert full - todo == full;
      SearchFacts(y, g0, G(), Q(), E, dfs, lcdRoots, starts);
      AllHandled(y, g0, G(), E, t0, dfs, lcdRoots, starts, n, full, handled, del, add);
      edges := full - del + add;
    }

    // n is finished: close its component if it is a root, else keep it on the stack.
    method LcdLeave(n: nat, ourDfs: nat, edges: set<nat>, ghost g0: Graph, ghost E: Digraph, ghost t0: Scc.Dfs, ghost starts: set<nat>)
      requires Searching(g0, E, starts) && Scc.Working(E, t0, dfs, n, Graphs.Succ(E, n)) && ourDfs == t0.clock && n < |nodes|
      requires SameEdges(G(), n, edges) && (edges != {} ==> Proper(classes.root, n)) && IsRep(classes.root, n) && n in lcdDfsId
      requires Scc.Inv(E, t0)
      modifies this`nodes, this`lcdStk, this`lcdRoots, this`dfs, classes, wl.repr
      ensures Searching(g0, E, starts) && Scc.Returned(E, t0, dfs, n) && RootsLater(old(G()), G())
      ensures classes.root == old(classes.root) ==> CopyTo(G(), n) == edges
      ensures OnlyMerged() && old(lcdRoots) <= lcdRoots
    {
      hide Sets.Classes.Valid, Lists.Worklist.Valid, Sets.Linked, Sets.RankBounded, KeysIn, Running, LayoutOk, MaskFor, GepFor, ConsOk,
        Sets.Reps, Slack, Objects, RootsOk, EdgesOk, Inv, RootsLater, Cycling, Scc.Inv, Active, Edged, Scc.Working, Scc.Returned,
        Scc.Seen, Scc.Enter, Scc.Unvisited, SameEdges, RedirectAt, Closing, Popping, Scc.Shelve, Scc.Part;
      ghost var g := G();
      SearchFacts(y, g0, g, Q(), E, dfs, lcdRoots, starts);
      LeaveFacts(y, g0, g, Q(), E, t0, dfs, lcdRoots, starts, n, edges);
      RedirectSlack(l, nodes, n, edges);
      nodes := RedirectAt(nodes, n, edges);
      // Nothing reached was visited before n: it is the root of a component.
      if lcdDfsId[n] == ourDfs {
        ghost var h := G();
        LcdClose(n, ourDfs, g0, E, t0, starts);
        RootsLaterTrans(g, h, G());
      } else {
        // Keep n until the search gets back to the root.
        lcdStk := lcdStk + [n];
        dfs := Scc.Shelve(dfs, t0.path, n);
      }
    }

    // Search for cycles from all nodes that have had a neighbour with an equal set.
    method RunLcd()
      requires Run(Idle, {}) && lcdStk == []
      modifies this`nodes, this`currLcdDfs, this`lcdDfsId, this`lcdStk, this`lcdRoots, this`lcdStarts, this`dfs, classes, wl.repr
      ensures Run(Idle, {}) && lcdStk == [] && lcdStarts == {} && RootsLater(old(G()), G())
      // Exactly the strongly connected components found from the starts have been merged.
      ensures Collapsed(old(G()), G(), old(lcdStarts))
      ensures OnlyMerged()
    {
      hide Sets.Classes.Valid, Lists.Worklist.Valid, Sets.Linked, Sets.RankBounded, KeysIn, Running, LayoutOk, MaskFor, GepFor, ConsOk,
        Sets.Reps, Slack, Objects, RootsOk, EdgesOk, Inv, RootsLater, Cycling, Scc.Inv, Scc.Returned, Scc.Unvisited, Quotient,
        Collapsed;
      ghost var g0, E, starts := G(), Quotient(G()), RepsIn(G(), lcdStarts);
      RunCycling(y, g0, Q(), starts);
      currLcdDfs, lcdDfsId, lcdRoots, dfs := 1, map[], {}, Scc.Start;
      var todo := lcdStarts;
      while todo != {}
        invariant Searching(g0, E, starts) && dfs.path == [] && RootsLater(g0, G()) && todo <= lcdStarts == old(lcdStarts)
        invariant forall s: nat :: s in starts && s !in todo ==> Scc.Visited(dfs, s)
        invariant OnlyMerged()
        decreases todo
      {
        var n :| n in todo;
        todo := todo - {n};
        LcdFrom(n, g0, E, starts);
      }
      SearchEnds(y, g0, G(), E, dfs, lcdRoots, lcdStarts);
      lcdStarts := {};
    }

    // Search from n, unless it has been merged or was already seen.
    method LcdFrom(n: nat, ghost g0: Graph, ghost E: Digraph, ghost starts: set<nat>)
      requires Searching(g0, E, starts) && dfs.path == [] && n in lcdStarts && starts == RepsIn(g0, lcdStarts) && RootsLater(g0, G())
      modifies this`nodes, this`currLcdDfs, this`lcdDfsId, this`lcdStk, this`lcdRoots, this`dfs, classes, wl.repr
      ensures Searching(g0, E, starts) && dfs.path == [] && RootsLater(g0, G())
      ensures forall s: nat :: Scc.Visited(old(dfs), s) ==> Scc.Visited(dfs, s)
      ensures n in starts ==> Scc.Visited(dfs, n)
      ensures OnlyMerged()
    {
      hide Sets.Classes.Valid, Lists.Worklist.Valid, Sets.Linked, Sets.RankBounded, KeysIn, Running, LayoutOk, MaskFor, GepFor, ConsOk,
        Sets.Reps, Slack, Objects, RootsOk, EdgesOk, Inv, RootsLater, Cycling, Scc.Inv, Scc.Returned, Scc.Unvisited, Quotient;
      SearchFacts(y, g0, G(), Q(), E, dfs, lcdRoots, starts);
      StartFacts(y, g0, G(), E, dfs, lcdRoots, starts, n);
      classes.WordsFit();
      if classes.rep[n] >= Sets.NODE_RANK_MIN && n !in lcdDfsId {
        ghost var g, t := G(), dfs;
        LcdDfs(n, g0, E, starts);
        ReturnedPath(E, t, dfs, n);
        RootsLaterTrans(g0, g, G());
      }
    }

    // ---------- The main loop ----------

    // Begin the next pass if nothing remains of this one; returns whether none is left at all.
    method NextPass() returns (done: bool)
      requires Run(Idle, {})
      modifies wl.repr
      ensures Run(Idle, {}) && Entries(Q()) == Entries(old(Q()))
      ensures if done then Q() == Queue(map[], map[]) else Q().curr != map[]
      ensures Q() == if old(Q()).curr == map[] then Queue(old(Q()).next, map[]) else old(Q())
    {
      hide Sets.Classes.Valid, Lists.Worklist.Valid, Sets.Linked, Sets.RankBounded, LayoutOk, MaskFor, GepFor, ConsOk, Running;
      if Q().curr == map[] {
        SwapRunning(y, G(), Q());
      }
      var swapped := wl.SwapIfEmpty();
      // An empty list after the exchange means that no work is left.
      done := wl.Empty();
    }

    // Take one entry off the worklist; a stale entry, or one of a merged node, is not live.
    method PopEntry() returns (n: nat, live: bool)
      requires Run(Idle, {}) && Q().curr != map[]
      modifies classes, wl.repr
      ensures n < |nodes| && Run(Idle, if live then {n} else {})
      ensures n in old(Q()).curr && Q() == old(Q()).(curr := old(Q()).curr - {n})
      ensures forall m :: m in old(Q()).curr ==> old(Q()).curr[n] <= old(Q()).curr[m]
      ensures live <==> IsRep(classes.root, n) && old(Q()).curr[n] >= Vtime(G(), n)
      ensures G() == old(G()) && Entries(Q()) < Entries(old(Q()))
    {
      hide Sets.Classes.Valid, Lists.Worklist.Valid, Sets.Linked, Sets.RankBounded, LayoutOk, MaskFor, GepFor, ConsOk, Running, Entries;
      ghost var q := Q();
      var p;
      n, p := wl.Pop();
      PopRunning(y, G(), q, n);
      PoppedEntries(q, n);
      var r := GetRep(n);
      live := r == n && p >= nodes[n].vtime;
    }

    // Handle one entry of the worklist; returns whether there was none left.  The entry is for node
    // n; if it is live, n is visited (mid is when propagation begins, end when it ends).
    method Step() returns (done: bool, ghost n: nat, ghost live: bool, ghost mid: Moment, ghost end: Moment)
      requires Run(Idle, {}) && lcdStk == []
      modifies this, classes, wl.repr
      ensures Run(Idle, {}) && lcdStk == [] && begun == old(begun)
      ensures done ==> Q() == Queue(map[], map[])
      ensures !done ==> Progress(
        |Sets.Reps(old(classes.root))|, Slack(old(nodes), Objects(l)), Entries(old(Q())),
        |Sets.Reps(classes.root)|, Slack(nodes, Objects(l)), Entries(Q()))
      ensures done <==> old(Q()) == Queue(map[], map[])
      ensures done ==> G() == old(G()) && Unsearched()
      ensures !done ==> NextEntry(old(Q()), n)
      ensures !done ==> (live <==> IsRep(old(classes.root), n) && InPass(old(Q())).curr[n] >= Vtime(old(G()), n))
      ensures var a := old(Now()).(q := Without(old(Q()), n));
        !done ==> if live then VisitMade(a, mid, end, n, old(vtime)) && Searched(end) else Now() == a && Unsearched()
    {
      hide Sets.Classes.Valid, Lists.Worklist.Valid, Sets.Linked, Sets.RankBounded, KeysIn, LayoutOk, MaskFor, GepFor, ConsOk, Running,
        Later, Sets.Reps, Slack, Objects, Collapsed, RootsLater, Entries, VisitMade, IsRep;
      done := NextPass();
      n, live, mid, end := 0, false, Now(), Now();
      if done {
        return;
      }
      var i, current := PopEntry();
      n, live := i, current;
      if current {
        mid, end := VisitEntry(i);
      }
    }

    // No search for cycles has been made since.
    twostate predicate Unsearched()
      reads this
    {
      lcdStarts == old(lcdStarts) && lcdEdges == old(lcdEdges) && lastLcd == old(lastLcd) && nNodeRuns == old(nNodeRuns) && vtime == old(vtime)
    }

    // After a visit that ended at the given moment, cycles have been searched for if there were
    // enough candidates, or enough visits since the last search, and only then.
    twostate predicate Searched(end: Moment)
      requires wl.Valid()
      reads this, classes, wl, wl.repr
    {
      && nNodeRuns == old(nNodeRuns) + 1 && vtime == old(vtime) + 1
      && if |end.k.starts| >= LCD_SZ || nNodeRuns - old(lastLcd) >= LCD_PERIOD then
           Collapsed(end.g, G(), end.k.starts) && K() == Lcd(end.k.edges, {}) && lastLcd == nNodeRuns
         else
           Now() == end && lastLcd == old(lastLcd)
    }

    method VisitEntry(n: nat) returns (ghost mid: Moment, ghost end: Moment)
      requires Run(Idle, {n}) && lcdStk == [] && n < |nodes| && IsRep(classes.root, n)
      modifies this, classes, wl.repr
      ensures Run(Idle, {}) && lcdStk == [] && begun == old(begun)
      ensures OnlyMerged() || (classes.root == old(classes.root) && Slack(nodes, Objects(l)) < old(Slack(nodes, Objects(l))))
      ensures VisitMade(old(Now()), mid, end, n, old(vtime)) && Searched(end)
    {
      hide Sets.Classes.Valid, Lists.Worklist.Valid, Sets.Linked, Sets.RankBounded, KeysIn, LayoutOk, MaskFor, GepFor, ConsOk, Running,
        Later, Sets.Reps, Slack, Objects, Collapsed, RootsLater, VisitMade;
      mid := SolveNode(n);
      end := Now();
      // Enough candidates, or enough visits since the last search.
      if |lcdStarts| >= LCD_SZ || nNodeRuns - lastLcd >= LCD_PERIOD {
        lastLcd := nNodeRuns;
        RunLcd();
      }
    }

    // Run until no work is left: the result is the least solution.
    method Solve()
      requires Run(Idle, {}) && lcdStk == []
      modifies this, classes, wl.repr
      ensures Valid() && IsLeast(y, Result(G())) && begun == old(begun)
      // Every visit has had its own time.
      ensures vtime == nNodeRuns + 1 && lastLcd <= nNodeRuns
    {
      hide Sets.Classes.Valid, Lists.Worklist.Valid, Sets.Linked, Sets.RankBounded, KeysIn, LayoutOk, MaskFor, GepFor, ConsOk, Running,
        Sets.Reps, Slack, Objects, Entries, IsLeast;
      nNodeRuns, lastLcd, vtime := 0, 0, 1;
      var done := false;
      while !done
        invariant Run(Idle, {}) && lcdStk == [] && begun == old(begun) && vtime == nNodeRuns + 1 && lastLcd <= nNodeRuns
        invariant done ==> Q() == Queue(map[], map[])
        decreases !done, |Sets.Reps(classes.root)|, Slack(nodes, Objects(l)), Entries(Q())
      {
        ghost var n, live, mid, end;
        done, n, live, mid, end := Step();
      }
      Converged(y, G(), Q());
    }

    // The points-to set of every node is that of its representative.
    method ReadOut() returns (s: Sol)
      requires Valid()
      ensures s == Result(G())
    {
      hide Lists.Worklist.Valid, Sets.Linked, Sets.RankBounded, KeysIn, LayoutOk, MaskFor, GepFor, ConsOk;
      s := map[];
      for n := 0 to |nodes|
        invariant forall m: nat :: m in s <==> m < n
        invariant forall m: nat :: m < n ==> s[m] == Points(G(), Rt(classes.root, m))
      {
        var r := classes.Peek(n);
        RootInRange(classes.rep, classes.root, classes.rank, n);
        s := s[n := nodes[r].pointsTo];
      }
    }
  }

  lemma RootInRange(rep: seq<nat>, root: seq<nat>, rank: seq<nat>, n: nat)
    requires Sets.Linked(rep, root, rank) && n < |rep|
    ensures n < |root| && root[n] < |root|
  {
  }

  lemma RewriteSteady(g: Graph, i: nat)
    requires i < |g.cplx|
    ensures Steady(g, Rewrite(g, i)) && SameLists(g, Rewrite(g, i))
  {
  }

  lemma CanonizeFacts(y: System, g: Graph, q: Queue, v: Visit, n: nat, kind: ConsType, i: nat)
    requires Running(y, g, q, v, {}) && kind in {Load, Store, Gep} && i in ListOf(g, n, kind)
    ensures i < |g.cplx| && g.cplx[i].dest < |g.root| && g.cplx[i].src < |g.root|
    ensures var c := g.cplx[i].(dest := Rt(g.root, g.cplx[i].dest), src := Rt(g.root, g.cplx[i].src));
      var h := g.(cplx := g.cplx[i := c]);
      && Running(y, h, q, v, {}) && Later(g, h) && Steady(g, h) && SameLists(g, h) && Solvable(y, h, c, n) && c.typ == kind
  {
    assert CplxOk(g) by {
      hide Sound, WorkedOff, AllSettled, AllCovered, Watched, EdgesOk, RootsOk;
    }
    hide Running, Later, Inv, Solvable, CplxOk, RootsOk, EdgesOk, ListOf;
    RunningInv(y, g, q, v, {});
    ListFacts(y, g, n, kind, i);
    RewriteRunning(y, g, q, v, {}, i);
    RunningInv(y, Rewrite(g, i), q, v, {});
    RewrittenSolvable(y, g, n, kind, i);
    RewriteSteady(g, i);
    hide Steady, SameLists;
  }
}
