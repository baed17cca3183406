/** The offline optimiser: value numbering over the offline graph, merging of
    pointer-equivalent nodes, and rewriting of the constraint list. */
module Optimizer {
  import opened Constraints
  import opened ConstraintGraph
  import opened Graphs
  import opened Offline
  import opened OfflineGraph
  import opened OfflineEdges
  import opened Labels
  import opened Collapse
  import opened Naming
  import opened HvnSearch
  import opened Rewriting
  import opened PtrEq
  import opened SetFacts
  import Hybrid = HcdSearch
  import Scc
  import Sets = UnionFind

  // Room for all offline nodes below the ranks in a union-find word.
  const MAX_NODES: nat := Sets.NODE_RANK_MIN / 2 - 1

  // What a pass demands: constraints refer to representatives; every class that contains an
  // object is represented by an object; a node that is loaded from or stored without offset
  // is a value or a parameter.
  ghost predicate OptInput(y: System, functions: set<nat>) {
    && Clumped(y.l) && |y.l.objSz| <= |y.rep| <= MAX_NODES && Sets.IsRootMap(y.rep) && IsRep(y.rep, P_I2P)
    && (forall o: nat :: IsObject(y.l, o) ==> IsObject(y.l, Rt(y.rep, o)))
    && (forall c :: c in y.cs ==> OptCons(y, functions, c))
  }

  ghost predicate OptCons(y: System, functions: set<nat>, c: Constraint) {
    && IsRep(y.rep, c.dest) && IsRep(y.rep, c.src) && Proper(y.rep, c.dest) && 0 < c.src
    && (if c.typ == AddrOf then IsObject(y.l, c.src) else c.src != I2P)
    && ((c.typ == Load || c.typ == Store) && c.off == 0 ==> c.src == P_I2P || |y.l.objSz| <= c.src || IsParam(y.l, functions, c.src))
  }

  lemma PassStart(y: System, functions: set<nat>, ix: Index)
    requires OptInput(y, functions) && Numbered(y.l, functions, y.rep, ix)
    ensures PassInput(y, ix)
  {
    NumberedIndexOk(y, functions, ix);
    hide Clumped, IndexOk, Indexed, IsParam;
    forall c | c in y.cs ensures PassCons(y, ix, c) {
      assert OptCons(y, functions, c);
    }
    forall o: nat | IsObject(y.l, o) ensures o < |y.rep| && IsObject(y.l, Rt(y.rep, o)) {
      ClumpedFacts(y.l, o);
    }
    hide OptCons, PassCons;
    forall n: nat | n < |y.rep| ensures IsRep(y.rep, Rt(y.rep, n)) {
      assert y.rep[y.rep[n]] == y.rep[n];
    }
  }

  // Nodes marked as non-pointers are values, and no constraint mentions one.
  ghost predicate NonptrOk(y: System, nonptr: set<nat>) {
    && (forall n :: n in nonptr ==> n > 0 && IsRep(y.rep, n) && !IsObject(y.l, n))
    && (forall c :: c in y.cs ==> c.dest !in nonptr && c.src !in nonptr)
  }

  // Nothing was built for a node that no constraint mentions.
  lemma UnmentionedBare(y: System, functions: set<nat>, ix: Index, gep2pe: map<(nat, nat), nat>, off: seq<OffNode>, nonptr: set<nat>, n: nat)
    requires PassInput(y, ix) && Numbered(y.l, functions, y.rep, ix) && Graphed(ix, y.cs, gep2pe, off)
    requires NonptrOk(y, nonptr) && n in nonptr && Off(ix, n) > 0
    ensures Off(ix, n) < |off| && Bare(off[Off(ix, n)])
  {
    var x := Off(ix, n);
    InGraph(y, ix, n);
    assert IsVal(ix, x) by { ValueNumber(y, functions, ix, n); }
    OffMain(y, ix, n);
    forall c | c in y.cs ensures Off(ix, c.dest) != x {
      if Off(ix, c.dest) == x {
        OffMain(y, ix, c.dest);
      }
    }
    hide PassInput, Numbered, NonptrOk, EdgeOf, ImplOf, LabelOf, IndirectOf;
    forall c | c in y.cs ensures forall z: nat :: !EdgeOf(ix, c, x, z) && !ImplOf(ix, c, x, z) && !LabelOf(ix, gep2pe, c, x, z) {
      NothingOf(ix, gep2pe, c, x);
    }
    forall c | c in y.cs ensures !IndirectOf(ix, c, x) {
      NothingOf(ix, gep2pe, c, x);
    }
    assert forall z: nat :: z !in off[x].edges && z !in off[x].implEdges && z !in off[x].ptrEq;
  }

  // A constraint contributes nothing to a VAL node that is not its destination.
  lemma NothingOf(ix: Index, gep2pe: map<(nat, nat), nat>, c: Constraint, x: nat)
    requires IsVal(ix, x) && Off(ix, c.dest) != x
    ensures forall z: nat :: !EdgeOf(ix, c, x, z) && !ImplOf(ix, c, x, z) && !LabelOf(ix, gep2pe, c, x, z)
    ensures !IndirectOf(ix, c, x)
  {
  }

  lemma OffMain(y: System, ix: Index, n: nat)
    requires PassInput(y, ix) && Off(ix, n) > 0
    ensures Main(ix, Off(ix, n)) == n && n < |y.rep|
  {
  }

  lemma ValueNumber(y: System, functions: set<nat>, ix: Index, n: nat)
    requires Numbered(y.l, functions, y.rep, ix) && Clumped(y.l) && Off(ix, n) > 0 && !IsObject(y.l, n) && n < |y.rep|
    ensures IsVal(ix, Off(ix, n))
  {
  }

  lemma OffBelow(y: System, functions: set<nat>, ix: Index, n: nat)
    requires Numbered(y.l, functions, y.rep, ix) && n < |y.rep| && Off(ix, n) > 0
    ensures Off(ix, n) < ix.firstRef
  {
  }

  // The numbers of all offline nodes.
  function Numbers(graph: seq<OffNode>): set<nat> {
    set x: nat | x < |graph| && IsNumber(x)
  }

  predicate IsNumber(x: nat) { x > 0 }

  lemma FinalNames(graph: seq<OffNode>, union: bool, labs: seq<set<nat>>, w: Names, root: seq<nat>, off: seq<OffNode>, t: Scc.Dfs)
    requires Named(graph, union, labs, w, t.comp.Keys) && Recorded(root, off, labs, t) && !Scc.Closed(t, 0)
    requires forall x: nat :: 0 < x < |graph| ==> Scc.Closed(t, x)
    ensures Named(graph, union, labs, w, Numbers(graph)) && |labs| == |graph|
    ensures forall x: nat :: 0 < x < |labs| ==> labs[x] == LabelsAt(root, off, x)
  {
    hide Named, Numbers, LabelsAt;
    NamedRange(graph, union, labs, w, t.comp.Keys);
    AllNumbers(graph, t);
  }

  lemma AllNumbers(graph: seq<OffNode>, t: Scc.Dfs)
    requires !Scc.Closed(t, 0) && forall x: nat :: x in t.comp.Keys ==> x < |graph|
    requires forall x: nat :: 0 < x < |graph| ==> Scc.Closed(t, x)
    ensures t.comp.Keys == Numbers(graph)
  {
    forall x: nat ensures x in t.comp.Keys <==> x in Numbers(graph) {
      assert Scc.Closed(t, x) <==> x in t.comp.Keys;
      assert IsNumber(x) <==> x != 0;
    }
  }

  lemma NamedRange(graph: seq<OffNode>, union: bool, labs: seq<set<nat>>, w: Names, done: set<nat>)
    requires Named(graph, union, labs, w, done)
    ensures |labs| == |graph| && forall x: nat :: x in done ==> x < |graph|
  {
    hide NewApart, NamedAs, Mates, Outside;
  }

  // Exactly the nodes that reach no indirect and no labelled node are labelled as non-pointers.
  ghost predicate ZerosBarren(graph: seq<OffNode>, labs: seq<set<nat>>) {
    |labs| == |graph| && forall x: nat :: 0 < x < |graph| ==> (0 in labs[x] <==> Barren(graph, x))
  }

  lemma FinalZeros(k: Pass, gep2pe: map<(nat, nat), nat>, union: bool, labs: seq<set<nat>>, w: Names)
    requires PassOk(k) && Graphed(k.ix, k.y.cs, gep2pe, k.e0) && Named(k.e0, union, labs, w, Numbers(k.e0))
    ensures ZerosBarren(k.e0, labs)
  {
    NamedRange(k.e0, union, labs, w, Numbers(k.e0));
    ImplIndirect(k, gep2pe);
    assert WellFormed(Arc(k)) && forall x: nat, z: nat :: z in Succ(Arc(k), x) ==> z > 0 by {
      hide PassInput, IsLeast, Represented, EdgesInclude, Graphed, Named;
    }
    hide PassOk, Graphed, Named, Barren;
    forall x: nat, z: nat | x in Numbers(k.e0) && z in Succ(Arc(k), x) ensures z in Numbers(k.e0) {
      assert IsNumber(z);
    }
    forall x: nat | 0 < x < |k.e0| ensures 0 in labs[x] <==> Barren(k.e0, x) {
      assert IsNumber(x);
      ZeroExactly(k.e0, union, labs, w, Numbers(k.e0), x);
    }
  }

  lemma ImplIndirect(k: Pass, gep2pe: map<(nat, nat), nat>)
    requires PassOk(k) && Graphed(k.ix, k.y.cs, gep2pe, k.e0)
    ensures forall x: nat :: x < |k.e0| && k.e0[x].implEdges != {} ==> k.e0[x].indirect
  {
    PassInputOf(k);
    hide PassOk, PassInput;
    forall x: nat | x < |k.e0| && k.e0[x].implEdges != {} ensures k.e0[x].indirect {
      var z: nat :| z in k.e0[x].implEdges;
      hide EdgeOf, LabelOf, IndirectOf;
      var c :| c in k.y.cs && ImplOf(k.ix, c, x, z);
      InGraph(k.y, k.ix, c.dest);
    }
  }

  // What a pass is based on: the offline graph, its labels, and the numbers used as labels.
  datatype Made = Made(ix: Index, graph: seq<OffNode>, labs: seq<set<nat>>, names: Names)

  // A pass of HVN (HU if union) takes y to y': the offline graph is that of y, labels are those
  // that the mode asks for, exactly the nodes with one label, not that of non-pointers, are
  // merged, and the constraints are redirected.
  ghost predicate PassMade(y: System, functions: set<nat>, nonptr: set<nat>, union: bool, m: Made, y': System, nonptr': set<nat>) {
    && Numbered(y.l, functions, y.rep, m.ix) && (exists gep2pe :: Graphed(m.ix, y.cs, gep2pe, m.graph))
    && Named(m.graph, union, m.labs, m.names, Numbers(m.graph)) && SameComponentSameLabel(m.ix, m.graph, m.labs)
    && Coarser(y.rep, y'.rep) && MergedByLabel(y.rep, m.ix, m.labs, y'.rep) && Justified(y.rep, m.ix, m.labs, y'.rep)
    && nonptr' == nonptr + Zeros(m.ix, m.labs, |y.rep|) && y'.l == y.l && Rewritten(y.cs, y'.rep, nonptr', y'.cs)
  }

  // The labels of all offline nodes.
  ghost predicate AllLabels(ix: Index, labs: seq<set<nat>>, root: seq<nat>, off: seq<OffNode>) {
    |labs| == |off| == Count(ix) && forall x: nat :: 0 < x < |labs| ==> labs[x] == LabelsAt(root, off, x)
  }

  ghost predicate MergedByLabel(rep: seq<nat>, ix: Index, labs: seq<set<nat>>, root: seq<nat>) {
    forall m: nat, n: nat :: m < |rep| && n < |rep| && Off(ix, m) > 0 && Off(ix, n) > 0 ==>
      (Rt(root, m) == Rt(root, n) <==> m == n || SameLabel(ix, labs, m, n))
  }

  ghost predicate SameComponentSameLabel(ix: Index, graph: seq<OffNode>, labs: seq<set<nat>>) {
    forall m: nat, n: nat :: Off(ix, m) > 0 && Off(ix, n) > 0 && Mutual(Arcs(graph), Off(ix, m), Off(ix, n)) ==>
      LabelOfMain(ix, labs, m) == LabelOfMain(ix, labs, n)
  }

  lemma LabelsMerged(y: System, ix: Index, labs: seq<set<nat>>, root: seq<nat>, pe2node: map<set<nat>, nat>)
    requires IndexReps(y.rep, ix) && MergedBelow(y.rep, ix, labs, root, pe2node, |y.rep|)
    ensures MergedByLabel(y.rep, ix, labs, root) && Justified(y.rep, ix, labs, root)
  {
  }

  lemma ComponentLabels(k: Pass, root: seq<nat>, off: seq<OffNode>, labs: seq<set<nat>>)
    requires PassInput(k.y, k.ix) && |labs| == |off| == |k.e0| == Count(k.ix)
    requires forall x: nat :: 0 < x < |labs| ==> labs[x] == LabelsAt(root, off, x)
    requires forall x: nat, z: nat :: 0 < x < |k.e0| && 0 < z < |k.e0| ==> (Rt(root, x) == Rt(root, z) <==> Mutual(Arc(k), x, z))
    ensures SameComponentSameLabel(k.ix, k.e0, labs)
  {
    hide PassInput, Mutual, Arcs;
    forall m: nat, n: nat | Off(k.ix, m) > 0 && Off(k.ix, n) > 0 && Mutual(Arcs(k.e0), Off(k.ix, m), Off(k.ix, n))
      ensures LabelOfMain(k.ix, labs, m) == LabelOfMain(k.ix, labs, n) {
      InGraph(k.y, k.ix, m);
      InGraph(k.y, k.ix, n);
    }
  }

  // Every class is represented by its first node.
  ghost predicate Lowest(root: seq<nat>) {
    forall n: nat :: n < |root| ==> root[n] <= n
  }

  // Nodes from i on have not been merged, and classes are represented by their first nodes.
  ghost predicate LowestUpTo(rep: seq<nat>, root: seq<nat>, i: nat) {
    Lowest(root) && forall n: nat :: i <= n < |rep| ==> rep[n] == Sets.NODE_RANK_MIN
  }

  lemma LowestMerged(root: seq<nat>, en: nat, i: nat)
    requires en < i < |root|
    ensures Lowest(root) ==> Lowest(Sets.Merged(root, en, i))
  {
  }

  lemma RootRank(rep: seq<nat>, root: seq<nat>, rank: seq<nat>, n: nat)
    requires Sets.Linked(rep, root, rank) && n < |rep| && Rt(root, n) == n
    ensures rep[n] >= Sets.NODE_RANK_MIN
  {
  }

  // P_I2P is set by nothing but the address of I2P.
  ghost predicate SetOnce(cs: seq<Constraint>) {
    forall c :: c in cs && c.dest == P_I2P ==> c.typ == AddrOf && c.src == I2P
  }

  // No parameter has the label of P_I2P.
  ghost predicate ParamsApart(l: Layout, functions: set<nat>, ix: Index, labs: seq<set<nat>>) {
    forall o: nat :: IsParam(l, functions, o) && Off(ix, o) > 0 && Off(ix, P_I2P) > 0 ==>
      LabelOfMain(ix, labs, o) != LabelOfMain(ix, labs, P_I2P)
  }

  // A node that is set once is given one label, and has no edges.
  lemma PointerPlain(y: System, functions: set<nat>, ix: Index, gep2pe: map<(nat, nat), nat>, off: seq<OffNode>)
    requires PassInput(y, ix) && Numbered(y.l, functions, y.rep, ix) && Graphed(ix, y.cs, gep2pe, off) && SetOnce(y.cs) && Off(ix, P_I2P) > 0
    ensures Off(ix, P_I2P) < |off| && Plain(off[Off(ix, P_I2P)]) && off[Off(ix, P_I2P)].ptrEq <= {I2P}
  {
    var x := Off(ix, P_I2P);
    InGraph(y, ix, P_I2P);
    OffMain(y, ix, P_I2P);
    hide PassCons, IsParam, Starts, Clumped, Indexed;
    assert IsVal(ix, x);
    forall c | c in y.cs ensures forall z: nat :: !EdgeOf(ix, c, x, z) && !ImplOf(ix, c, x, z) && (LabelOf(ix, gep2pe, c, x, z) ==> z == I2P) {
      OnlySet(y, ix, gep2pe, c);
    }
    forall c | c in y.cs ensures !IndirectOf(ix, c, x) {
      OnlySet(y, ix, gep2pe, c);
    }
    hide EdgeOf, ImplOf, LabelOf, IndirectOf, PassInput, Numbered, SetOnce;
    assert forall z: nat :: z !in off[x].edges && z !in off[x].implEdges && (z in off[x].ptrEq ==> z == I2P);
    AtMostOne(off[x].ptrEq);
  }

  lemma AtMostOne(s: set<nat>)
    requires s <= {I2P}
    ensures |s| <= 1
  {
    CountBelow(s - {I2P}, 0);
    assert s - {I2P} == {};
    if I2P in s {
      assert s == {I2P};
    }
  }

  lemma OnlySet(y: System, ix: Index, gep2pe: map<(nat, nat), nat>, c: Constraint)
    requires IndexOk(y, ix) && P_I2P < |y.rep| && SetOnce(y.cs) && c in y.cs && IsVal(ix, Off(ix, P_I2P)) && Off(ix, P_I2P) > 0 && c.dest < |y.rep|
    ensures var x := Off(ix, P_I2P);
      !IndirectOf(ix, c, x) && forall z: nat :: !EdgeOf(ix, c, x, z) && !ImplOf(ix, c, x, z) && (LabelOf(ix, gep2pe, c, x, z) ==> z == I2P)
  {
    var x := Off(ix, P_I2P);
    if Off(ix, c.dest) == x {
      assert c.dest == Main(ix, x) == P_I2P;
    }
  }

  // A parameter has a label of its own, besides those it collects.
  lemma ParamLabels(k: Pass, functions: set<nat>, gep2pe: map<(nat, nat), nat>, root: seq<nat>, off: seq<OffNode>, t: Scc.Dfs,
                    mean: map<nat, set<nat>>, labs: seq<set<nat>>)
    requires PassOk(k) && Labelled(k, root, off, t, mean) && |labs| == |off| == |k.e0|
    requires forall x: nat :: 0 < x < |k.e0| ==> Scc.Closed(t, x)
    requires forall x: nat :: 0 < x < |labs| ==> labs[x] == LabelsAt(root, off, x)
    requires Graphed(k.ix, k.y.cs, gep2pe, k.e0) && Numbered(k.y.l, functions, k.y.rep, k.ix) && SetOnce(k.y.cs)
    ensures ParamsApart(k.y.l, functions, k.ix, labs)
  {
    PassInputOf(k);
    var x := Off(k.ix, P_I2P);
    if x > 0 {
      PointerPlain(k.y, functions, k.ix, gep2pe, k.e0);
      assert P_I2P < |k.y.rep|;
      assert LabelOk(k, root, off, t, mean, x);
      forall o: nat | IsParam(k.y.l, functions, o) && Off(k.ix, o) > 0 ensures labs[Off(k.ix, o)] != labs[x] {
        var z := Off(k.ix, o);
        InGraph(k.y, k.ix, o);
        assert k.e0[z].indirect by { ParamIndirect(k.y, functions, k.ix, gep2pe, k.e0, o); }
        assert LabelOk(k, root, off, t, mean, z);
        hide PassOk, Labelled, Graphed, Numbered, NothingGiven, Value, Means, LabelsAt, IsParam, SetOnce;
        assert HasFresh(k, labs[z]) && labs[x] <= {I2P, 0};
      }
    }
  }

  lemma ParamIndirect(y: System, functions: set<nat>, ix: Index, gep2pe: map<(nat, nat), nat>, off: seq<OffNode>, o: nat)
    requires PassInput(y, ix) && Numbered(y.l, functions, y.rep, ix) && Graphed(ix, y.cs, gep2pe, off) && IsParam(y.l, functions, o) && Off(ix, o) > 0
    ensures Off(ix, o) < |off| && off[Off(ix, o)].indirect
  {
    InGraph(y, ix, o);
    OffMain(y, ix, o);
    hide PassCons, IsParam, Starts, Clumped, Indexed;
  }

  // Main nodes below i that are labelled as non-pointers.
  function Zeros(ix: Index, labs: seq<set<nat>>, i: nat): set<nat> {
    set n: nat | n < i && Off(ix, n) > 0 && 0 in LabelOfMain(ix, labs, n)
  }

  class Optimizer {
    const l: Layout
    // The first nodes of function objects.
    const functions: set<nat>
    const classes: Sets.Classes
    var constraints: seq<Constraint>
    // Nodes known to point to nothing.
    var nonptr: set<nat>

    ghost function Y(): System
      reads this, classes
    {
      System(l, constraints, classes.root)
    }

    ghost predicate Valid()
      reads this, classes
    {
      classes.Valid() && |classes.rep| == |classes.root| && NonptrOk(Y(), nonptr)
    }

    constructor (layout: Layout, functions': set<nat>, c: Sets.Classes, cs: seq<Constraint>)
      requires c.Valid()
      ensures Valid() && l == layout && functions == functions' && classes == c && constraints == cs && nonptr == {}
    {
      l, functions, classes, constraints, nonptr := layout, functions', c, cs, {};
    }

    // Merge all nodes with one label, and mark those labelled 0 as non-pointers.
    method MergeByLabels(ix: Index, search: Search, ghost labs: seq<set<nat>>)
      requires Valid() && search.Valid() && search.classes != classes
      requires OptInput(Y(), functions) && IndexReps(classes.root, ix) && AllLabels(ix, labs, search.classes.root, search.offNodes)
      requires forall n: nat :: n < |classes.rep| && Off(ix, n) > 0 ==> Off(ix, n) < |labs| && labs[Off(ix, n)] != {}
      requires forall n: nat :: n in nonptr && Off(ix, n) > 0 ==> LabelOfMain(ix, labs, n) == {0}
      modifies this`nonptr, classes, search.classes
      ensures classes.Valid() && |classes.rep| == old(|classes.rep|) == |classes.root| && constraints == old(constraints)
      ensures nonptr == old(nonptr) + Zeros(ix, labs, |classes.rep|)
      ensures exists pe2node :: MergedBelow(old(classes.root), ix, labs, classes.root, pe2node, |classes.rep|)
      ensures old(classes.Untouched() && Lowest(classes.root)) ==> Lowest(classes.root)
    {
      hide Sets.Linked, Sets.RankBounded, OptInput, NonptrOk, Collapsing, Labelled, PassOk, PreLabelled, Numbering, MergedBelow, IndexReps;
      var pe2node: map<set<nat>, nat> := map[];
      ghost var rep, nonptr0, first := classes.root, nonptr, classes.Untouched() && Lowest(classes.root);
      NoneMerged(rep, ix, labs);
      IndexCount(rep, ix);
      var i := 0;
      while i < |ix.main2off|
        invariant i <= |ix.main2off| == |rep| == |classes.rep| == |classes.root| && classes.Valid() && search.Valid()
        invariant AllLabels(ix, labs, search.classes.root, search.offNodes)
        invariant MergedBelow(rep, ix, labs, classes.root, pe2node, i) && nonptr == nonptr0 + Zeros(ix, labs, i)
        invariant forall n: nat :: i <= n && n in nonptr && Off(ix, n) > 0 ==> LabelOfMain(ix, labs, n) == {0}
        invariant first ==> LowestUpTo(classes.rep, classes.root, i)
      {
        var on := ix.main2off[i];
        assert on == Off(ix, i);
        // A node without an offline version is not pointer-equivalent to another.
        if on == 0 {
          PassOver(rep, ix, labs, classes.root, pe2node, i);
        } else {
          pe2node := MergeByLabelOf(ix, search, labs, pe2node, i, rep, nonptr0);
        }
        i := i + 1;
      }
    }

    method MergeByLabelOf(ix: Index, search: Search, ghost labs: seq<set<nat>>, pe2node: map<set<nat>, nat>, i: nat,
                          ghost rep: seq<nat>, ghost nonptr0: set<nat>) returns (pe2node': map<set<nat>, nat>)
      requires i < |ix.main2off| == |rep| == |classes.rep| == |classes.root| && classes.Valid() && search.Valid() && search.classes != classes
      requires AllLabels(ix, labs, search.classes.root, search.offNodes) && IndexReps(rep, ix)
      requires MergedBelow(rep, ix, labs, classes.root, pe2node, i) && nonptr == nonptr0 + Zeros(ix, labs, i)
      requires 0 < Off(ix, i) < |labs| && labs[Off(ix, i)] != {}
      requires forall n: nat :: i <= n && n in nonptr && Off(ix, n) > 0 ==> LabelOfMain(ix, labs, n) == {0}
      modifies this`nonptr, classes, search.classes
      ensures classes.Valid() && |classes.rep| == |rep| == |classes.root| && search.Valid()
      ensures AllLabels(ix, labs, search.classes.root, search.offNodes)
      ensures MergedBelow(rep, ix, labs, classes.root, pe2node', i + 1) && nonptr == nonptr0 + Zeros(ix, labs, i + 1)
      ensures forall n: nat :: i + 1 <= n && n in nonptr && Off(ix, n) > 0 ==> LabelOfMain(ix, labs, n) == {0}
      ensures old(LowestUpTo(classes.rep, classes.root, i)) ==> LowestUpTo(classes.rep, classes.root, i + 1)
    {
      hide Sets.Linked, Sets.RankBounded, Collapsing, Labelled, PassOk, PreLabelled, Numbering, MergedBelow, IndexReps, Sets.Merged, LabelsAt;
      var pe := search.FinalLabel(ix.main2off[i]);
      pe2node' := pe2node;
      assert pe == LabelOfMain(ix, labs, i) && pe != {};
      if 0 in pe {
        PassOver(rep, ix, labs, classes.root, pe2node, i);
        nonptr := nonptr + {i};
      } else {
        // Anything marked as a non-pointer before cannot have another label.
        assert i !in nonptr;
        if pe !in pe2node {
          FirstOfLabel(rep, ix, labs, classes.root, pe2node, i);
          pe2node' := pe2node[pe := i];
        } else {
          var en := pe2node[pe];
          MergeByLabel(rep, ix, labs, classes.root, pe2node, i, en);
          MergeByLabel(rep, ix, labs, classes.root, pe2node, i, i);
          LowestMerged(classes.root, en, i);
          RootRank(classes.rep, classes.root, classes.rank, en);
          var p := classes.Union(en, i);
          pe2node' := pe2node[pe := p];
        }
      }
    }

    // One pass of value numbering (HU if doUnion); s stands for the least solution before the pass.
    method Hvn(doUnion: bool, ghost s: Sol) returns (ghost m: Made)
      requires Valid() && OptInput(Y(), functions) && IsLeast(Y(), s)
      modifies this, classes
      ensures Valid() && |classes.rep| == old(|classes.rep|)
      ensures PassMade(old(Y()), functions, old(nonptr), doUnion, m, Y(), nonptr) && |constraints| <= old(|constraints|)
      // The first pass leaves every class to its first node; parameters stay apart from P_I2P.
      ensures old(classes.Untouched() && Lowest(classes.root)) ==> Lowest(classes.root)
      ensures SetOnce(old(constraints)) ==> ParamsApart(l, functions, m.ix, m.labs)
      ensures ZerosBarren(m.graph, m.labs)
      // Soundness: non-pointers point to nothing, and no member of any set is lost.
      ensures forall n :: n in nonptr ==> Pts(s, n) == {}
      ensures forall t :: Solves(Y(), t) ==> Below(s, t)
      // Exactness: the least solution is the same if and only if merged nodes have equal sets
      // in it; it is if all stores go through pointers that have a member besides I2P.
      ensures IsLeast(Y(), s) <==> Respects(classes.root, s)
      ensures StoresReach(old(constraints), s) ==> IsLeast(Y(), s)
    {
      hide Sets.Classes.Valid, Sets.Classes.Untouched, Sets.Linked, Sets.RankBounded, OptInput, NonptrOk, Collapsing, Labelled,
        PassOk, PreLabelled, Numbering, IsLeast, StoresReach, Coarser, Rewritten, PassInput, Graphed, Paired, FirstMeaning,
        Numbered, AllLabels, IndexReps, MergedBelow, Scc.Inv, EdgesInclude, MergedByLabel, SameComponentSameLabel, Zeros, Mutual,
        Justified, SetOnce, ParamsApart, Lowest, Respects, Named, Recorded, ZerosBarren;
      ghost var y, nonptr0 := Y(), nonptr;
      OptFacts(y, functions);
      var index := MakeOffNodes(l, functions, classes);
      ghost var ix := index;
      PassStart(y, functions, ix);
      var off, gep2pe, next := AddOffEdges(y, constraints, |classes.rep|, index, false);
      ghost var ne := StoresReach(y.cs, s);
      ghost var k := Pass(y, ix, s, off, ne);
      GraphPass(y, ix, s, gep2pe, off, ne);
      LeastSolves(y, s);
      GraphPreLabelled(y, ix, s, gep2pe, next, off, ne);
      GraphSize(y, functions, ix, gep2pe, off);
      var search := new Search(k, doUnion, off, next, FirstMeaning(y, s, gep2pe, next));
      search.Run();
      ghost var offRoot, offEnd := search.classes.root, search.offNodes;
      ghost var labs, names := search.lab, search.W();
      m := Made(ix, off, labs, names);
      FinalNames(off, doUnion, labs, names, offRoot, offEnd, search.t);
      FinalZeros(k, gep2pe, doUnion, labs, names);
      SearchLabels(k, functions, gep2pe, search.classes.root, search.offNodes, search.t, search.mean, labs, nonptr);
      ComponentLabels(k, offRoot, offEnd, labs);
      if SetOnce(y.cs) {
        ParamLabels(k, functions, gep2pe, offRoot, offEnd, search.t, search.mean, labs);
      }
      MergeByLabels(index, search, labs);
      ghost var pe2node :| MergedBelow(y.rep, ix, labs, classes.root, pe2node, |classes.rep|);
      LabelsMerged(y, ix, labs, classes.root, pe2node);
      InRange(y, functions);
      ghost var origin;
      constraints, origin := RewriteConstraints(constraints, classes, nonptr);
      HvnResult(k, functions, labs, search.mean, classes.root, pe2node, nonptr0, nonptr, constraints);
    }

    // Hybrid cycle detection, offline part: maps nodes whose dereferences are in a cycle to a
    // variable of the cycle.  s stands for the least solution.
    method Hcd(ghost s: Sol) returns (hcdVar: map<nat, nat>, ghost ix: Index, ghost graph: seq<OffNode>)
      requires Valid() && OptInput(Y(), functions) && IsLeast(Y(), s)
      modifies this, classes
      ensures classes.Valid() && |classes.rep| == |classes.root|
      ensures Numbered(l, functions, old(classes.root), ix) && HcdGraphed(ix, old(constraints), graph)
      ensures Hybrid.CyclesFound(old(Y()), ix, Arcs(graph), classes.root, hcdVar)
      ensures Rewritten(old(constraints), classes.root, {}, constraints) && nonptr == old(nonptr)
      // No member of any set is lost, and none is gained if and only if merged nodes have equal
      // sets; they have if all stores reach a node.
      ensures forall t :: Solves(Y(), t) ==> Below(s, t)
      ensures IsLeast(Y(), s) <==> Respects(classes.root, s)
      ensures StoresReach(old(constraints), s) ==> IsLeast(Y(), s)
    {
      hide Sets.Linked, Sets.RankBounded, OptInput, NonptrOk, IsLeast, StoresReach, Coarser, Rewritten, PassInput, HcdGraphed,
        Paired, Numbered, Hybrid.Marked, Hybrid.Mapping, Hybrid.CyclesFound, Solves;
      ghost var y := Y();
      OptFacts(y, functions);
      OptRoots(y, functions);
      var index := MakeOffNodes(l, functions, classes);
      ix := index;
      PassStart(y, functions, ix);
      var off, gep2pe, next := AddOffEdges(y, constraints, |classes.rep|, index, true);
      graph := off;
      var search := new Hybrid.Search(y, index, classes, off);
      search.Run();
      hcdVar := search.hcdVar;
      GraphCount(ix, y.cs, graph);
      Hybrid.SearchFinds(y, ix, graph, classes.root, hcdVar, search.t);
      InRange(y, functions);
      CoarseLength(y, ix, graph, classes.root, hcdVar);
      ghost var origin;
      constraints, origin := RewriteConstraints(constraints, classes, {});
      HcdResult(y, s, ix, graph, classes.root, hcdVar, constraints);
    }
  }

  lemma OptRoots(y: System, functions: set<nat>)
    requires OptInput(y, functions)
    ensures Sets.IsRootMap(y.rep)
  {
  }

  lemma GraphCount(ix: Index, cs: seq<Constraint>, off: seq<OffNode>)
    requires HcdGraphed(ix, cs, off)
    ensures |off| == Count(ix)
  {
  }

  lemma CoarseLength(y: System, ix: Index, graph: seq<OffNode>, root: seq<nat>, hcdVar: map<nat, nat>)
    requires Hybrid.CyclesFound(y, ix, Arcs(graph), root, hcdVar)
    ensures |root| == |y.rep|
  {
  }

  lemma HcdResult(y: System, s: Sol, ix: Index, graph: seq<OffNode>, root: seq<nat>, hcdVar: map<nat, nat>, cs': seq<Constraint>)
    requires PassInput(y, ix) && HcdGraphed(ix, y.cs, graph)
    requires IsLeast(y, s) && Hybrid.CyclesFound(y, ix, Arcs(graph), root, hcdVar) && Rewritten(y.cs, root, {}, cs')
    ensures var y' := System(y.l, cs', root);
      && (forall t :: Solves(y', t) ==> Below(s, t)) && (StoresReach(y.cs, s) ==> IsLeast(y', s))
      && (IsLeast(y', s) <==> Respects(root, s))
  {
    var y' := System(y.l, cs', root);
    assert Coarser(y.rep, root) && NoPointers(y.cs, {}, s);
    assert Hybrid.MergedWithin(y, ix, Arcs(graph), root);
    hide Rewritten, Coarser, PassInput, HcdGraphed, Arcs, Hybrid.MergedWithin, Hybrid.CyclesFound, StoresReach;
    forall t | Solves(y', t) ensures Below(s, t) {
      RewriteCovers(y, s, root, {}, cs', t);
    }
    RewritePreserves(y, s, root, {}, cs');
    if StoresReach(y.cs, s) {
      Hybrid.GoodMerges(y, ix, graph, root, s);
    }
  }

  lemma OptFacts(y: System, functions: set<nat>)
    requires OptInput(y, functions)
    ensures Clumped(y.l) && |y.l.objSz| <= |y.rep| <= MAX_NODES && IsRep(y.rep, P_I2P)
  {
  }

  lemma LeastSolves(y: System, s: Sol)
    requires IsLeast(y, s)
    ensures Solves(y, s)
  {
  }

  lemma GraphSize(y: System, functions: set<nat>, ix: Index, gep2pe: map<(nat, nat), nat>, off: seq<OffNode>)
    requires OptInput(y, functions) && Numbered(y.l, functions, y.rep, ix) && Graphed(ix, y.cs, gep2pe, off)
    ensures |off| <= Sets.NODE_RANK_MIN && |off| == Count(ix) && IndexReps(y.rep, ix)
  {
    hide Clumped, OptCons, IsParam;
    assert ix.firstRef <= |y.rep| + 1 by { IndexInjective(y.rep, ix); }
  }

  // Offline numbers are distinct, so there are no more of them than nodes.
  lemma IndexInjective(root: seq<nat>, ix: Index)
    requires Indexed(root, ix)
    ensures |ix.mainOf| <= |root| + 1
  {
    MainsDistinct(root, ix, |ix.mainOf|);
    var mains := set x: nat | 0 < x < |ix.mainOf| :: Main(ix, x);
    CountBelow(mains, |root|);
  }

  lemma {:induction false} MainsDistinct(root: seq<nat>, ix: Index, i: nat)
    requires Indexed(root, ix) && 1 <= i <= |ix.mainOf|
    ensures |set x: nat | 0 < x < i :: Main(ix, x)| == i - 1
    decreases i
  {
    if i == 1 {
      assert (set x: nat | 0 < x < i :: Main(ix, x)) == {};
    } else {
      MainsDistinct(root, ix, i - 1);
      var a := set x: nat | 0 < x < i - 1 :: Main(ix, x);
      assert (set x: nat | 0 < x < i :: Main(ix, x)) == a + {Main(ix, i - 1)};
      assert Main(ix, i - 1) !in a;
    }
  }

  lemma InRange(y: System, functions: set<nat>)
    requires OptInput(y, functions)
    ensures forall c :: c in y.cs ==> c.dest < |y.rep| && c.src < |y.rep|
  {
  }

  // ---------- What the labels of a finished search say of main nodes ----------

  ghost predicate LabelsMean(k: Pass, labs: seq<set<nat>>, mean: map<nat, set<nat>>, n: nat) {
    var pe := LabelOfMain(k.ix, labs, n);
    && Off(k.ix, n) < |labs| && pe != {}
    && (k.ne ==> Pts(k.s, n) == Means(mean, pe))
    && (0 in pe ==> Pts(k.s, n) == {} && !IsObject(k.y.l, n))
  }

  lemma SearchLabels(k: Pass, functions: set<nat>, gep2pe: map<(nat, nat), nat>, root: seq<nat>, off: seq<OffNode>, t: Scc.Dfs,
                     mean: map<nat, set<nat>>, labs: seq<set<nat>>, nonptr: set<nat>)
    requires PassOk(k) && PreLabelled(k, mean) && Labelled(k, root, off, t, mean) && |off| == |k.e0|
    requires forall x: nat :: 0 < x < |k.e0| ==> Scc.Closed(t, x)
    requires |labs| == |off| && forall x: nat :: 0 < x < |labs| ==> labs[x] == LabelsAt(root, off, x)
    requires Graphed(k.ix, k.y.cs, gep2pe, k.e0) && Numbered(k.y.l, functions, k.y.rep, k.ix) && NonptrOk(k.y, nonptr)
    ensures AllLabels(k.ix, labs, root, off)
    ensures forall n: nat :: Off(k.ix, n) > 0 ==> LabelsMean(k, labs, mean, n) && labs[Off(k.ix, n)] != {}
    ensures forall n: nat :: n in nonptr && Off(k.ix, n) > 0 ==> LabelOfMain(k.ix, labs, n) == {0}
  {
    PassInputOf(k);
    NonPointers(k, root, off, t, mean);
    hide PreLabelled, Numbered, NonptrOk, PassInput, IsLeast, Labelled, LabelsAt, Val, NothingGiven, Graphed, EdgesInclude, Represented;
    forall n: nat | Off(k.ix, n) > 0 ensures LabelsMean(k, labs, mean, n) && labs[Off(k.ix, n)] != {} {
      LabelOfNode(k, root, off, t, mean, labs, n);
    }
    forall n: nat | n in nonptr && Off(k.ix, n) > 0 ensures LabelOfMain(k.ix, labs, n) == {0} {
      UnmentionedBare(k.y, functions, k.ix, gep2pe, k.e0, nonptr, n);
      BareLabel(k, root, off, t, mean, Off(k.ix, n));
    }
  }

  lemma PassInputOf(k: Pass)
    requires PassOk(k)
    ensures PassInput(k.y, k.ix) && |k.e0| == Count(k.ix)
  {
  }

  lemma BareLabel(k: Pass, root: seq<nat>, off: seq<OffNode>, t: Scc.Dfs, mean: map<nat, set<nat>>, x: nat)
    requires Labelled(k, root, off, t, mean) && Scc.Closed(t, x) && x < |k.e0| && Bare(k.e0[x])
    ensures LabelsAt(root, off, x) == {0}
  {
    assert LabelOk(k, root, off, t, mean, x) && |k.e0[x].ptrEq| == 0;
    hide Labelled, NothingGiven, Value, Means;
  }

  lemma LabelOfNode(k: Pass, root: seq<nat>, off: seq<OffNode>, t: Scc.Dfs, mean: map<nat, set<nat>>, labs: seq<set<nat>>, n: nat)
    requires PassOk(k) && Labelled(k, root, off, t, mean) && |labs| == |off| == |k.e0| && Off(k.ix, n) > 0
    requires forall x: nat :: 0 < x < |k.e0| ==> Scc.Closed(t, x)
    requires forall x: nat :: 0 < x < |labs| ==> labs[x] == LabelsAt(root, off, x)
    requires forall x: nat :: 0 < x < |k.e0| && 0 in LabelsAt(root, off, x) ==> Value(k, x) == {}
    ensures LabelsMean(k, labs, mean, n) && labs[Off(k.ix, n)] != {}
  {
    PassInputOf(k);
    var x := Off(k.ix, n);
    InGraph(k.y, k.ix, n);
    OffVal(k.y, k.ix, k.s, n);
    assert LabelOk(k, root, off, t, mean, x);
    if 0 in labs[x] {
      assert NothingGiven(k, root, off, t, x);
      assert IsVal(k.ix, x) by { hide PassInput, IsLeast, EdgesInclude, Represented; }
      ValueMain(k.y, k.ix, n);
    }
    hide PassOk, LabelsAt, NothingGiven, Labelled, Val;
  }

  lemma ValueMain(y: System, ix: Index, n: nat)
    requires PassInput(y, ix) && IsVal(ix, Off(ix, n))
    ensures !IsObject(y.l, n)
  {
  }

  // ---------- The result of a pass ----------

  lemma HvnResult(k: Pass, functions: set<nat>, labs: seq<set<nat>>, mean: map<nat, set<nat>>, root: seq<nat>, pe2node: map<set<nat>, nat>,
                  nonptr0: set<nat>, nonptr: set<nat>, cs': seq<Constraint>)
    requires OptInput(k.y, functions) && IsLeast(k.y, k.s) && k.ne == StoresReach(k.y.cs, k.s) && NonptrOk(k.y, nonptr0)
    requires Numbered(k.y.l, functions, k.y.rep, k.ix) && IndexReps(k.y.rep, k.ix)
    requires forall n: nat :: Off(k.ix, n) > 0 ==> LabelsMean(k, labs, mean, n)
    requires forall n: nat :: n in nonptr0 && Off(k.ix, n) > 0 ==> LabelOfMain(k.ix, labs, n) == {0}
    requires MergedBelow(k.y.rep, k.ix, labs, root, pe2node, |k.y.rep|) && nonptr == nonptr0 + Zeros(k.ix, labs, |k.y.rep|)
    requires Rewritten(k.y.cs, root, nonptr, cs')
    ensures var y' := System(k.y.l, cs', root);
      && Coarser(k.y.rep, root) && NonptrOk(y', nonptr) && (forall n :: n in nonptr ==> Pts(k.s, n) == {})
      && (forall t :: Solves(y', t) ==> Below(k.s, t)) && (StoresReach(k.y.cs, k.s) ==> IsLeast(y', k.s))
      && (IsLeast(y', k.s) <==> Respects(root, k.s))
  {
    var y' := System(k.y.l, cs', root);
    assert Coarser(k.y.rep, root) && Justified(k.y.rep, k.ix, labs, root) by { hide Coarser, Justified; }
    NonptrLabels(k, functions, labs, mean, nonptr0, nonptr);
    hide MergedBelow, Numbered, IndexReps, LabelsMean, Rewritten, Solves, StoresReach, NonptrOk, OptInput, IsLeast, Coarser,
      Justified, Zeros, LabelOfMain, Respects;
    NonptrAfter(k, functions, labs, root, nonptr, cs');
    NoPointersAfter(k, functions, labs, nonptr);
    forall t | Solves(y', t) ensures Below(k.s, t) {
      RewriteCovers(k.y, k.s, root, nonptr, cs', t);
    }
    RewritePreserves(k.y, k.s, root, nonptr, cs');
    if StoresReach(k.y.cs, k.s) {
      LeastSolves(k.y, k.s);
      ExactMerge(k, labs, mean, root, pe2node);
    }
  }

  lemma ExactMerge(k: Pass, labs: seq<set<nat>>, mean: map<nat, set<nat>>, root: seq<nat>, pe2node: map<set<nat>, nat>)
    requires k.ne && Solves(k.y, k.s) && IndexReps(k.y.rep, k.ix) && forall n: nat :: Off(k.ix, n) > 0 ==> LabelsMean(k, labs, mean, n)
    requires MergedBelow(k.y.rep, k.ix, labs, root, pe2node, |k.y.rep|)
    ensures Respects(root, k.s)
  {
    hide MergedBelow, Means, LabelOfMain, IndexReps;
    forall n: nat | n < |k.y.rep| && Off(k.ix, n) > 0 ensures Pts(k.s, n) == Means(mean, LabelOfMain(k.ix, labs, n)) {
      assert LabelsMean(k, labs, mean, n);
    }
    MergeRespects(k.y, k.s, k.ix, labs, mean, root, pe2node, |k.y.rep|);
  }

  // Every non-pointer is a representative with an offline node labelled 0.
  ghost predicate ZeroLabelled(k: Pass, labs: seq<set<nat>>, n: nat) {
    IsRep(k.y.rep, n) && Off(k.ix, n) > 0 && 0 in LabelOfMain(k.ix, labs, n) && Pts(k.s, n) == {} && !IsObject(k.y.l, n)
  }

  lemma NonptrLabels(k: Pass, functions: set<nat>, labs: seq<set<nat>>, mean: map<nat, set<nat>>, nonptr0: set<nat>, nonptr: set<nat>)
    requires NonptrOk(k.y, nonptr0) && Numbered(k.y.l, functions, k.y.rep, k.ix) && IndexReps(k.y.rep, k.ix) && Clumped(k.y.l)
    requires forall n: nat :: Off(k.ix, n) > 0 ==> LabelsMean(k, labs, mean, n)
    requires forall n: nat :: n in nonptr0 && Off(k.ix, n) > 0 ==> LabelOfMain(k.ix, labs, n) == {0}
    requires nonptr == nonptr0 + Zeros(k.ix, labs, |k.y.rep|)
    ensures forall n :: n in nonptr ==> n > 0 && n in Zeros(k.ix, labs, |k.y.rep|) && ZeroLabelled(k, labs, n)
  {
  }

  lemma NoPointersAfter(k: Pass, functions: set<nat>, labs: seq<set<nat>>, nonptr: set<nat>)
    requires OptInput(k.y, functions) && forall n :: n in nonptr ==> ZeroLabelled(k, labs, n)
    ensures NoPointers(k.y.cs, nonptr, k.s)
  {
  }

  lemma NonptrAfter(k: Pass, functions: set<nat>, labs: seq<set<nat>>, root: seq<nat>, nonptr: set<nat>, cs': seq<Constraint>)
    requires OptInput(k.y, functions) && Coarser(k.y.rep, root) && Justified(k.y.rep, k.ix, labs, root)
    requires (forall n :: n in nonptr ==> ZeroLabelled(k, labs, n)) && (forall n :: n in nonptr ==> n > 0)
    requires Rewritten(k.y.cs, root, nonptr, cs')
    ensures NonptrOk(System(k.y.l, cs', root), nonptr)
  {
    hide Clumped, Coarser, Justified, LabelOfMain, ZeroLabelled;
    forall n | n in nonptr ensures IsRep(root, n) && !IsObject(k.y.l, n) {
      ZeroFacts(k, labs, n);
      ZeroStays(k.y.rep, k.ix, labs, root, n, n);
    }
    forall d | d in cs' ensures d.dest !in nonptr && d.src !in nonptr {
      var c :| c in k.y.cs && Kept(root, nonptr, c) && d == Redirect(root, c);
      assert OptCons(k.y, functions, c);
      KeptApart(k, functions, labs, root, nonptr, c.dest);
      if c.typ != AddrOf {
        KeptApart(k, functions, labs, root, nonptr, c.src);
      }
    }
  }

  lemma ZeroFacts(k: Pass, labs: seq<set<nat>>, n: nat)
    requires ZeroLabelled(k, labs, n)
    ensures IsRep(k.y.rep, n) && 0 in LabelOfMain(k.ix, labs, n) && !IsObject(k.y.l, n)
  {
  }

  lemma KeptApart(k: Pass, functions: set<nat>, labs: seq<set<nat>>, root: seq<nat>, nonptr: set<nat>, m: nat)
    requires Coarser(k.y.rep, root) && Justified(k.y.rep, k.ix, labs, root) && IsRep(k.y.rep, m) && m !in nonptr
    requires forall n :: n in nonptr ==> ZeroLabelled(k, labs, n)
    ensures Rt(root, m) !in nonptr
  {
    var r := Rt(root, m);
    if r in nonptr {
      ZeroFacts(k, labs, r);
      assert Rt(root, r) == r by { hide Justified, ZeroLabelled; }
      ZeroStays(k.y.rep, k.ix, labs, root, r, m);
    }
  }

  lemma IndexCount(rep: seq<nat>, ix: Index)
    requires IndexReps(rep, ix)
    ensures |ix.main2off| == |rep|
  {
  }
}
