/** The analysis of a constraint list: solving it as it is, and after a pass of value numbering. */
module Analysis {
  import opened Constraints
  import opened Building
  import OffsetMasks
  import opened ConstraintGraph
  import opened Offline
  import opened OfflineGraph
  import opened Rewriting
  import opened PtrEq
  import opened Optimizing = Optimizer
  import opened Passes
  import Sets = UnionFind
  import SolverSteps
  import Solving = Solver

  // The system of n nodes of which none are merged.
  function Unmerged(l: Layout, cs: seq<Constraint>, n: nat): System {
    System(l, cs, seq(n, i => i))
  }

  lemma UnmergedLeast(l: Layout, cs: seq<Constraint>, n: nat, s: Sol)
    ensures IsLeast(Unmerged(l, cs, n), s) <==> IsLeast(System(l, cs, []), s)
  {
    forall t ensures Solves(Unmerged(l, cs, n), t) <==> Solves(System(l, cs, []), t) {
    }
  }

  ghost predicate OffsetsOk(l: Layout, cs: seq<Constraint>) {
    forall c :: c in cs ==> c.off == 0 || OffsetMasks.InRange(l, c.off)
  }

  // Solve the constraints for the given classes of nodes: prepare the offset masks, build the
  // graph, close it, and read the sets through the representatives.
  method SolveConstraints(l: Layout, cs: seq<Constraint>, classes: Sets.Classes) returns (s: Sol)
    requires classes.Valid() && Accepts(System(l, Taken(classes.root, cs), classes.root), |classes.rep|) && OffsetsOk(l, cs)
    modifies classes
    ensures IsLeast(System(l, Taken(old(classes.root), cs), old(classes.root)), s)
  {
    hide Accepts, OffsetMasks.InRange, IsLeast, Sets.RankBounded, Sets.Linked, Taken;
    var offMask, geps := OffsetMasks.PtsInit(l, cs);
    var solver := new Solving.Solver(classes, l, offMask, geps, cs);
    solver.SolveInit();
    solver.Solve();
    s := solver.ReadOut();
  }

  // The points-to sets of all nodes below n.
  method Analyze(l: Layout, cs: seq<Constraint>, n: nat) returns (s: Sol)
    requires n <= Sets.NODE_RANK_MIN && Accepts(Unmerged(l, cs, n), n) && OffsetsOk(l, cs)
    ensures IsLeast(System(l, cs, []), s)
  {
    hide Accepts, OffsetMasks.InRange, IsLeast, Sets.RankBounded;
    var classes := new Sets.Classes(n);
    assert Taken(classes.root, cs) == cs;
    s := SolveConstraints(l, cs, classes);
    UnmergedLeast(l, cs, n, s);
  }

  // ---------- With value numbering ----------

  // r has everything that the least solution has, and nothing else if all stores reach.
  ghost predicate Preserves(y: System, r: Sol) {
    forall s :: IsLeast(y, s) ==> Below(s, r) && (StoresReach(y.cs, s) ==> forall m :: Pts(r, m) == Pts(s, m))
  }

  lemma NoNonptr(y: System)
    ensures NonptrOk(y, {})
  {
  }

  lemma OffsetsAfter(l: Layout, cs: seq<Constraint>, root: seq<nat>, nonptr: set<nat>, cs': seq<Constraint>)
    requires Rewritten(cs, root, nonptr, cs') && OffsetsOk(l, cs)
    ensures OffsetsOk(l, cs')
  {
    forall c' | c' in cs' ensures c'.off == 0 || OffsetMasks.InRange(l, c'.off) {
      var c := Origin(cs, root, nonptr, cs', c');
    }
  }

  lemma FirstPass(l: Layout, cs: seq<Constraint>, n: nat)
    requires Accepts(Unmerged(l, cs, n), n)
    ensures Lowest(seq(n, i => i)) && SpecialApart(seq(n, i => i)) && SolverSteps.LayoutOk(l)
    ensures forall c :: c in cs && c.typ == Gep ==> c.off > 0
  {
    forall c | c in cs && c.typ == Gep ensures c.off > 0 {
      assert Accepted(Unmerged(l, cs, n), c);
    }
  }

  // The points-to sets of all nodes, found by one pass of value numbering (HVN or HU) and then
  // solving what is left.  The solver takes sources of address-of constraints to be their
  // representatives; only parameters can have been merged into other nodes.
  method AnalyzeOptimized(l: Layout, functions: set<nat>, cs: seq<Constraint>, n: nat, doUnion: bool)
    returns (r: Sol, ghost m: Made, ghost y': System, ghost nonptr: set<nat>)
    requires Accepts(Unmerged(l, cs, n), n) && OptInput(Unmerged(l, cs, n), functions) && OffsetsOk(l, cs)
    ensures PassMade(Unmerged(l, cs, n), functions, {}, doUnion, m, y', nonptr) && IsLeast(System(l, Taken(y'.rep, y'.cs), y'.rep), r)
    ensures NoParamTaken(l, functions, cs) ==> Preserves(Unmerged(l, cs, n), r)
  {
    hide Accepts, OptInput, OffsetsOk, IsLeast, Sets.RankBounded, Below, StoresReach, Numbered, MergedByLabel, SameComponentSameLabel,
      Justified, Coarser, Rewritten, NonptrOk, Solves, Taken, NoParamTaken, SourcesStay, Lowest, SpecialApart, Respects, SetOnce, ParamsApart;
    ghost var y := Unmerged(l, cs, n);
    OptFacts(y, functions);
    FirstPass(l, cs, n);
    LeastExists(y);
    ghost var s :| IsLeast(y, s);
    var classes := new Sets.Classes(n);
    NoNonptr(y);
    var optimizer := new Optimizing.Optimizer(l, functions, classes, cs);
    m := optimizer.Hvn(doUnion, s);
    y', nonptr := optimizer.Y(), optimizer.nonptr;
    ghost var root := classes.root;
    var cs' := optimizer.constraints;
    ghost var d := Done(y, functions, m.ix, m.labs, root);
    SourcesKept(d, optimizer.nonptr, cs');
    AcceptedAfter(d, optimizer.nonptr, cs');
    OffsetsAfter(l, cs, root, optimizer.nonptr, cs');
    r := SolveConstraints(l, cs', classes);
    if SourcesStay(cs, root) {
      SourcesTaken(cs', root);
      LeastSolves(System(l, cs', root), r);
      PassPreserves(y, System(l, cs', root), s, r);
    }
  }

  lemma SourcesTaken(cs: seq<Constraint>, root: seq<nat>)
    requires SourcesStay(cs, root)
    ensures Taken(root, cs) == cs
  {
  }

  lemma PassPreserves(y: System, y': System, s: Sol, r: Sol)
    requires IsLeast(y, s) && IsLeast(y', r) && Below(s, r) && (StoresReach(y.cs, s) ==> IsLeast(y', s))
    ensures Preserves(y, r)
  {
    hide IsLeast, StoresReach, Below;
    forall t | IsLeast(y, t) ensures Below(t, r) && (StoresReach(y.cs, t) ==> forall m :: Pts(r, m) == Pts(t, m)) {
      LeastUnique(y, s, t);
      assert Below(t, r) by { SameBelow(s, t, r); }
      if StoresReach(y.cs, t) {
        ReachesSame(y.cs, t, s);
        LeastUnique(y', r, s);
      }
    }
  }

  lemma SameBelow(s: Sol, t: Sol, r: Sol)
    requires Below(s, r) && forall m :: Pts(t, m) == Pts(s, m)
    ensures Below(t, r)
  {
  }
}
