/** The edges, labels and flags of the offline graph, from the constraint list. */
module OfflineEdges {
  import opened Constraints
  import opened ConstraintGraph
  import opened Offline
  import opened Graphs
  import opened Labels

  // No edges yet; AFP and REF nodes are indirect.
  function NoEdges(ix: Index): (off: seq<OffNode>)
    ensures |off| == Count(ix)
    ensures forall x: nat :: x < |off| ==> off[x] == OffNode({}, {}, {}, 0, false, 0 < x && !IsVal(ix, x))
  {
    seq(Count(ix), x requires 0 <= x => OffNode({}, {}, {}, 0, false, 0 < x && !IsVal(ix, x)))
  }

  // The graph for hybrid cycle detection has the plain edges only.
  ghost predicate HcdGraphed(ix: Index, cs: seq<Constraint>, off: seq<OffNode>) {
    && |off| == Count(ix)
    && (forall x: nat, z: nat :: x < |off| ==> (z in off[x].edges <==> exists c :: c in cs && EdgeOf(ix, c, x, z)))
    && (forall x: nat :: x < |off| ==> off[x].implEdges == {} && off[x].dfsId == 0 && !off[x].sccRoot)
  }

  // off' is off with what constraint c calls for.
  ghost predicate Entered(ix: Index, c: Constraint, gep2pe: map<(nat, nat), nat>, hcd: bool, off: seq<OffNode>, off': seq<OffNode>) {
    && |off'| == |off|
    && (forall x: nat, z: nat :: x < |off| ==> (z in off'[x].edges <==> z in off[x].edges || EdgeOf(ix, c, x, z)))
    && (forall x: nat, z: nat :: x < |off| ==> (z in off'[x].implEdges <==> z in off[x].implEdges || (!hcd && ImplOf(ix, c, x, z))))
    && (forall x: nat, pe: nat :: x < |off| ==> (pe in off'[x].ptrEq <==> pe in off[x].ptrEq || (!hcd && LabelOf(ix, gep2pe, c, x, pe))))
    && (forall x: nat :: x < |off| ==> (off'[x].indirect <==> off[x].indirect || (!hcd && IndirectOf(ix, c, x))))
    && (forall x: nat :: x < |off| ==> off'[x].dfsId == off[x].dfsId && off'[x].sccRoot == off[x].sccRoot)
  }

  // Every pair of a GEP source and offset has a number of its own, from first up.
  ghost predicate Paired(gep2pe: map<(nat, nat), nat>, first: nat, next: nat) {
    && (forall r :: r in gep2pe ==> first <= gep2pe[r] < next)
    && (forall r, q :: r in gep2pe && q in gep2pe && gep2pe[r] == gep2pe[q] ==> r == q)
  }

  ghost predicate Grown(g: map<(nat, nat), nat>, h: map<(nat, nat), nat>) {
    forall r :: r in g ==> r in h && h[r] == g[r]
  }

  lemma GraphedStart(ix: Index, off: seq<OffNode>)
    requires off == NoEdges(ix)
    ensures Graphed(ix, [], map[], off) && HcdGraphed(ix, [], off)
  {
  }

  lemma GraphedStep(ix: Index, cs: seq<Constraint>, c: Constraint, g: map<(nat, nat), nat>, h: map<(nat, nat), nat>,
                    off: seq<OffNode>, off': seq<OffNode>)
    requires Graphed(ix, cs, g, off) && Entered(ix, c, h, false, off, off') && Grown(g, h)
    requires c.typ == Gep && Off(ix, c.dest) > 0 ==> (c.src, c.off) in h
    ensures Graphed(ix, cs + [c], h, off')
  {
    forall d, x: nat, pe: nat | d in cs ensures LabelOf(ix, h, d, x, pe) <==> LabelOf(ix, g, d, x, pe) {
    }
    hide EdgeOf, ImplOf, LabelOf, IndirectOf;
    var all := cs + [c];
    assert c in all && forall d :: d in all <==> d in cs || d == c;
  }

  lemma HcdStep(ix: Index, cs: seq<Constraint>, c: Constraint, h: map<(nat, nat), nat>, off: seq<OffNode>, off': seq<OffNode>)
    requires HcdGraphed(ix, cs, off) && Entered(ix, c, h, true, off, off')
    ensures HcdGraphed(ix, cs + [c], off')
  {
  }

  // Add the edges for all constraints; for hybrid cycle detection, the plain edges only.
  method AddOffEdges(ghost y: System, constraints: seq<Constraint>, nn: nat, ix: Index, hcd: bool)
    returns (off: seq<OffNode>, gep2pe: map<(nat, nat), nat>, nextPtrEq: nat)
    requires PassInput(y, ix) && constraints == y.cs && nn == |y.rep|
    ensures if hcd then HcdGraphed(ix, y.cs, off) else Graphed(ix, y.cs, gep2pe, off)
    ensures Paired(gep2pe, |y.rep|, nextPtrEq) && |y.rep| <= nextPtrEq
  {
    hide PassCons, IndexOk, Clumped, Graphed, HcdGraphed, Entered, Paired;
    off := NoEdges(ix);
    // Labels must differ from node numbers, which label the address-of constraints.
    gep2pe, nextPtrEq := map[], nn;
    GraphedStart(ix, off);
    NonePaired(nextPtrEq);
    for i := 0 to |constraints|
      invariant if hcd then HcdGraphed(ix, y.cs[..i], off) else Graphed(ix, y.cs[..i], gep2pe, off)
      invariant |off| == Count(ix) && Paired(gep2pe, |y.rep|, nextPtrEq) && |y.rep| <= nextPtrEq
    {
      var c := constraints[i];
      ghost var off0, g := off, gep2pe;
      assert PassCons(y, ix, c);
      off, gep2pe, nextPtrEq := AddOffEdge(y, ix, c, hcd, off, gep2pe, nextPtrEq);
      assert y.cs[..i + 1] == y.cs[..i] + [c];
      if hcd {
        HcdStep(ix, y.cs[..i], c, gep2pe, off0, off);
      } else {
        GraphedStep(ix, y.cs[..i], c, g, gep2pe, off0, off);
      }
    }
    assert y.cs[..|y.cs|] == y.cs;
  }

  lemma NonePaired(n: nat)
    ensures Paired(map[], n, n)
  {
  }

  lemma NextPair(gep2pe: map<(nat, nat), nat>, first: nat, next: nat, r: (nat, nat))
    requires Paired(gep2pe, first, next) && r !in gep2pe && first <= next
    ensures Paired(gep2pe[r := next], first, next + 1) && Grown(gep2pe, gep2pe[r := next])
  {
  }

  // Offline numbers and dereference nodes are within the graph.
  lemma InGraph(y: System, ix: Index, n: nat)
    requires PassInput(y, ix) && Off(ix, n) > 0
    ensures Off(ix, n) < ix.firstRef <= Ref(ix, Off(ix, n)) < Count(ix)
  {
  }

  // ---------- Updates of one offline node ----------

  function WithEdge(off: seq<OffNode>, x: nat, z: nat): (r: seq<OffNode>)
    requires x < |off|
    ensures |r| == |off| && forall w: nat :: w < |off| ==>
      r[w] == if w == x then off[x].(edges := off[x].edges + {z}) else off[w]
  {
    off[x := off[x].(edges := off[x].edges + {z})]
  }

  function WithImplEdge(off: seq<OffNode>, x: nat, z: nat): (r: seq<OffNode>)
    requires x < |off|
    ensures |r| == |off| && forall w: nat :: w < |off| ==>
      r[w] == if w == x then off[x].(implEdges := off[x].implEdges + {z}) else off[w]
  {
    off[x := off[x].(implEdges := off[x].implEdges + {z})]
  }

  function WithLabel(off: seq<OffNode>, x: nat, pe: nat): (r: seq<OffNode>)
    requires x < |off|
    ensures |r| == |off| && forall w: nat :: w < |off| ==>
      r[w] == if w == x then off[x].(ptrEq := off[x].ptrEq + {pe}) else off[w]
  {
    off[x := off[x].(ptrEq := off[x].ptrEq + {pe})]
  }

  function WithFlag(off: seq<OffNode>, x: nat): (r: seq<OffNode>)
    requires x < |off|
    ensures |r| == |off| && forall w: nat :: w < |off| ==>
      r[w] == if w == x then off[x].(indirect := true) else off[w]
  {
    off[x := off[x].(indirect := true)]
  }

  lemma AddressEntered(ix: Index, c: Constraint, g: map<(nat, nat), nat>, off: seq<OffNode>)
    requires c.typ == AddrOf && Off(ix, c.dest) > 0 && Off(ix, c.dest) < |off|
    requires Off(ix, c.src) > 0 ==> Ref(ix, Off(ix, c.dest)) < |off|
    ensures var od, os := Off(ix, c.dest), Off(ix, c.src);
      var m := WithLabel(off, od, c.src);
      Entered(ix, c, g, false, off, if os > 0 then WithImplEdge(m, Ref(ix, od), os) else m)
    ensures Entered(ix, c, g, true, off, off)
  {
    hide WithLabel, WithImplEdge;
  }

  lemma CopyEntered(ix: Index, c: Constraint, g: map<(nat, nat), nat>, off: seq<OffNode>)
    requires c.typ == Copy && 0 < Off(ix, c.dest) < |off| && Ref(ix, Off(ix, c.dest)) < |off|
    ensures var od, os := Off(ix, c.dest), Off(ix, c.src);
      if os > 0 then
        var m := WithEdge(off, od, os);
        Entered(ix, c, g, true, off, m) && Entered(ix, c, g, false, off, WithImplEdge(m, Ref(ix, od), Ref(ix, os)))
      else Entered(ix, c, g, true, off, off) && Entered(ix, c, g, false, off, WithFlag(off, od))
  {
    hide WithEdge, WithImplEdge, WithFlag;
  }

  lemma LoadEntered(ix: Index, c: Constraint, g: map<(nat, nat), nat>, hcd: bool, off: seq<OffNode>)
    requires c.typ == Load && 0 < Off(ix, c.dest) < |off| && (c.off == 0 ==> Off(ix, c.src) > 0)
    ensures var od, os := Off(ix, c.dest), Off(ix, c.src);
      Entered(ix, c, g, hcd, off, if c.off == 0 then WithEdge(off, od, Ref(ix, os)) else if hcd then off else WithFlag(off, od))
  {
  }

  lemma StoreEntered(ix: Index, c: Constraint, g: map<(nat, nat), nat>, hcd: bool, off: seq<OffNode>)
    requires c.typ == Store && 0 < Off(ix, c.dest) && Ref(ix, Off(ix, c.dest)) < |off| && (c.off == 0 ==> Off(ix, c.src) > 0)
    ensures var od, os := Off(ix, c.dest), Off(ix, c.src);
      Entered(ix, c, g, hcd, off, if c.off == 0 then WithEdge(off, Ref(ix, od), os) else off)
  {
  }

  lemma GepEntered(ix: Index, c: Constraint, g: map<(nat, nat), nat>, off: seq<OffNode>)
    requires c.typ == Gep && 0 < Off(ix, c.dest) < |off| && (c.src, c.off) in g
    ensures Entered(ix, c, g, true, off, off)
    ensures Entered(ix, c, g, false, off, WithLabel(off, Off(ix, c.dest), g[(c.src, c.off)]))
  {
  }

  lemma NothingEntered(ix: Index, c: Constraint, g: map<(nat, nat), nat>, hcd: bool, off: seq<OffNode>)
    requires Off(ix, c.dest) == 0 || (c.typ == Gep && hcd)
    ensures Entered(ix, c, g, hcd, off, off)
  {
  }

  method AddOffEdge(ghost y: System, ix: Index, c: Constraint, hcd: bool, off0: seq<OffNode>, g: map<(nat, nat), nat>, next: nat)
    returns (off: seq<OffNode>, gep2pe: map<(nat, nat), nat>, nextPtrEq: nat)
    requires PassInput(y, ix) && PassCons(y, ix, c) && |off0| == Count(ix) && Paired(g, |y.rep|, next) && |y.rep| <= next
    ensures Entered(ix, c, gep2pe, hcd, off0, off) && |off| == |off0| && Grown(g, gep2pe)
    ensures Paired(gep2pe, |y.rep|, nextPtrEq) && |y.rep| <= nextPtrEq
    ensures !hcd && c.typ == Gep && Off(ix, c.dest) > 0 ==> (c.src, c.off) in gep2pe
  {
    hide IndexOk, Clumped, Paired, PassInput, Entered, WithEdge, WithImplEdge, WithLabel, WithFlag;
    off, gep2pe, nextPtrEq := off0, g, next;
    var od, os := Off(ix, c.dest), Off(ix, c.src);
    if od == 0 {
      // An object outside the graph; its constraints are ignored.
      NothingEntered(ix, c, gep2pe, hcd, off);
      return;
    }
    InGraph(y, ix, c.dest);
    match c.typ
    case AddrOf =>
      AddressEntered(ix, c, gep2pe, off);
      if !hcd {
        off := WithLabel(off, od, c.src);
        if os > 0 {
          off := WithImplEdge(off, Ref(ix, od), os);
        }
      }
    case Copy =>
      CopyEntered(ix, c, gep2pe, off);
      if os > 0 {
        off := WithEdge(off, od, os);
        if !hcd {
          off := WithImplEdge(off, Ref(ix, od), Ref(ix, os));
        }
      } else if !hcd {
        off := WithFlag(off, od);
      }
    case Load =>
      LoadEntered(ix, c, gep2pe, hcd, off);
      if c.off > 0 {
        if !hcd {
          off := WithFlag(off, od);
        }
      } else {
        assert os > 0;
        off := WithEdge(off, od, Ref(ix, os));
      }
    case Store =>
      StoreEntered(ix, c, gep2pe, hcd, off);
      if c.off == 0 {
        assert os > 0;
        off := WithEdge(off, Ref(ix, od), os);
      }
    case Gep =>
      if hcd {
        NothingEntered(ix, c, gep2pe, hcd, off);
      } else {
        var r := (c.src, c.off);
        if r !in gep2pe {
          NextPair(gep2pe, |y.rep|, nextPtrEq, r);
          gep2pe := gep2pe[r := nextPtrEq];
          nextPtrEq := nextPtrEq + 1;
        }
        GepEntered(ix, c, gep2pe, off);
        off := WithLabel(off, od, gep2pe[r]);
      }
  }

  // ---------- The graph as a setting for labelling ----------

  // What the labels given when the graph is built mean.
  ghost function FirstMeaning(y: System, s: Sol, gep2pe: map<(nat, nat), nat>, next: nat): map<nat, set<nat>> {
    map a: nat | a < next :: if a == 0 then {} else if a < |y.rep| then {a} else PairMeaning(y, s, gep2pe, a)
  }

  ghost function PairMeaning(y: System, s: Sol, gep2pe: map<(nat, nat), nat>, a: nat): set<nat> {
    set r, z | r in gep2pe && gep2pe[r] == a && z in Shift(y.l, Pts(s, r.0), r.1) :: z
  }

  lemma PairMeans(y: System, s: Sol, gep2pe: map<(nat, nat), nat>, first: nat, next: nat, r: (nat, nat))
    requires Paired(gep2pe, first, next) && r in gep2pe
    ensures PairMeaning(y, s, gep2pe, gep2pe[r]) == Shift(y.l, Pts(s, r.0), r.1)
  {
  }

  lemma GraphPreLabelled(y: System, ix: Index, s: Sol, gep2pe: map<(nat, nat), nat>, next: nat, off: seq<OffNode>, ne: bool)
    requires PassInput(y, ix) && Solves(y, s) && Graphed(ix, y.cs, gep2pe, off) && Paired(gep2pe, |y.rep|, next) && |y.rep| <= next
    ensures PreLabelled(Pass(y, ix, s, off, ne), FirstMeaning(y, s, gep2pe, next))
    ensures Numbering(FirstMeaning(y, s, gep2pe, next), next, map[])
  {
    var k := Pass(y, ix, s, off, ne);
    var mean := FirstMeaning(y, s, gep2pe, next);
    assert 0 < |y.rep| by { RepCount(y, ix); }
    forall x: nat, a: nat | x < |off| && a in off[x].ptrEq ensures a != 0 && a in mean && mean[a] <= Value(k, x) {
      var c :| c in y.cs && LabelOf(ix, gep2pe, c, x, a);
      LabelHolds(y, ix, s, gep2pe, next, c, x, a);
    }
    forall c | c in y.cs && Off(ix, c.dest) > 0 ensures Given(k, mean, c) {
      GivenByGraph(y, ix, s, gep2pe, next, off, ne, c);
    }
  }

  lemma RepCount(y: System, ix: Index)
    requires PassInput(y, ix)
    ensures 0 < |y.rep|
  {
  }

  lemma LabelHolds(y: System, ix: Index, s: Sol, gep2pe: map<(nat, nat), nat>, next: nat, c: Constraint, x: nat, a: nat)
    requires PassInput(y, ix) && Solves(y, s) && Paired(gep2pe, |y.rep|, next) && |y.rep| <= next
    requires c in y.cs && LabelOf(ix, gep2pe, c, x, a)
    ensures var mean := FirstMeaning(y, s, gep2pe, next); a != 0 && a in mean && mean[a] <= Val(ix, s, x)
  {
  }

  lemma GivenByGraph(y: System, ix: Index, s: Sol, gep2pe: map<(nat, nat), nat>, next: nat, off: seq<OffNode>, ne: bool, c: Constraint)
    requires PassInput(y, ix) && Graphed(ix, y.cs, gep2pe, off) && Paired(gep2pe, |y.rep|, next) && |y.rep| <= next
    requires c in y.cs && Off(ix, c.dest) > 0
    ensures Given(Pass(y, ix, s, off, ne), FirstMeaning(y, s, gep2pe, next), c)
  {
    assert PassCons(y, ix, c);
    InGraph(y, ix, c.dest);
    RepCount(y, ix);
    hide PassInput, PairMeaning, EdgeOf, ImplOf, IndirectOf;
    var od := Off(ix, c.dest);
    if c.typ == AddrOf {
      assert LabelOf(ix, gep2pe, c, od, c.src);
      assert c.src in off[od].ptrEq;
    } else if c.typ == Gep {
      PairMeans(y, s, gep2pe, |y.rep|, next, (c.src, c.off));
      assert LabelOf(ix, gep2pe, c, od, gep2pe[(c.src, c.off)]);
      assert gep2pe[(c.src, c.off)] in off[od].ptrEq;
    }
  }

  lemma GraphPass(y: System, ix: Index, s: Sol, gep2pe: map<(nat, nat), nat>, off: seq<OffNode>, ne: bool)
    requires PassInput(y, ix) && IsLeast(y, s) && Graphed(ix, y.cs, gep2pe, off) && (ne ==> StoresReach(y.cs, s))
    ensures PassOk(Pass(y, ix, s, off, ne))
  {
    var k := Pass(y, ix, s, off, ne);
    forall x: nat, z: nat | z in Succ(Arc(k), x) ensures 0 < z < |off| {
      GraphTarget(y, ix, gep2pe, off, x, z);
    }
    forall c | c in y.cs && Off(ix, c.dest) > 0 ensures Represented(k, c) {
      GraphRepresents(y, ix, s, gep2pe, off, ne, c);
    }
    if ne {
      AllEdgesLe(y, ix, s, gep2pe, off);
    }
    hide PassInput, IsLeast, EdgeOf, ImplOf, IndirectOf, LabelOf, Represented, EdgesInclude;
  }

  lemma EdgeEnds(ix: Index, c: Constraint, x: nat, z: nat)
    requires EdgeOf(ix, c, x, z) || ImplOf(ix, c, x, z)
    ensures Off(ix, c.dest) > 0 && Off(ix, c.src) > 0
    ensures z == Off(ix, c.src) || z == Ref(ix, Off(ix, c.src))
  {
  }

  lemma GraphTarget(y: System, ix: Index, gep2pe: map<(nat, nat), nat>, off: seq<OffNode>, x: nat, z: nat)
    requires PassInput(y, ix) && Graphed(ix, y.cs, gep2pe, off) && z in Succ(Arcs(off), x)
    ensures 0 < z < |off|
  {
    hide LabelOf, IndirectOf, PassInput;
    var c :| c in y.cs && (EdgeOf(ix, c, x, z) || ImplOf(ix, c, x, z));
    EdgeEnds(ix, c, x, z);
    InGraph(y, ix, c.src);
  }

  lemma GraphRepresents(y: System, ix: Index, s: Sol, gep2pe: map<(nat, nat), nat>, off: seq<OffNode>, ne: bool, c: Constraint)
    requires PassInput(y, ix) && Graphed(ix, y.cs, gep2pe, off) && c in y.cs && Off(ix, c.dest) > 0
    ensures Represented(Pass(y, ix, s, off, ne), c)
  {
  }

  // ---------- What implicit edges add ----------

  // Each node of the chain is copied from the next one.
  ghost predicate CopyChain(ix: Index, cs: seq<Constraint>, chain: seq<nat>) {
    && chain != [] && (forall i :: 0 <= i < |chain| ==> Off(ix, chain[i]) > 0)
    && forall i :: 0 <= i < |chain| - 1 ==> Constraint(Copy, chain[i], chain[i + 1], 0) in cs
  }

  // Along a chain of copies each node reaches the last one, and so do their dereferences.
  lemma {:induction false} DerefsFollow(y: System, ix: Index, gep2pe: map<(nat, nat), nat>, off: seq<OffNode>, chain: seq<nat>)
    requires PassInput(y, ix) && Graphed(ix, y.cs, gep2pe, off) && CopyChain(ix, y.cs, chain)
    ensures var a, b := Off(ix, chain[0]), Off(ix, chain[|chain| - 1]);
      Reach(Arcs(off), a, b) && Reach(Arcs(off), Ref(ix, a), Ref(ix, b))
    decreases |chain|
  {
    var E, a := Arcs(off), Off(ix, chain[0]);
    InGraph(y, ix, chain[0]);
    if |chain| == 1 {
      ReachRefl(E, a);
      ReachRefl(E, Ref(ix, a));
    } else {
      var m, b := Off(ix, chain[1]), Off(ix, chain[|chain| - 1]);
      InGraph(y, ix, chain[1]);
      CopyArcs(ix, y.cs, gep2pe, off, chain[0], chain[1]);
      hide PassInput, Graphed, Reach, Arcs, Ref;
      ReachEdge(E, a, m);
      ReachEdge(E, Ref(ix, a), Ref(ix, m));
      assert CopyChain(ix, y.cs, chain[1..]) by { ChainTail(ix, y.cs, chain); }
      DerefsFollow(y, ix, gep2pe, off, chain[1..]);
      ReachTrans(E, a, m, b);
      ReachTrans(E, Ref(ix, a), Ref(ix, m), Ref(ix, b));
    }
  }

  lemma ChainTail(ix: Index, cs: seq<Constraint>, chain: seq<nat>)
    requires CopyChain(ix, cs, chain) && |chain| > 1
    ensures CopyChain(ix, cs, chain[1..])
  {
    var rest := chain[1..];
    forall i | 0 <= i < |rest| - 1 ensures Constraint(Copy, rest[i], rest[i + 1], 0) in cs {
      assert rest[i] == chain[i + 1] && rest[i + 1] == chain[i + 1 + 1];
    }
  }

  lemma CopyArcs(ix: Index, cs: seq<Constraint>, gep2pe: map<(nat, nat), nat>, off: seq<OffNode>, d: nat, s: nat)
    requires Graphed(ix, cs, gep2pe, off) && Constraint(Copy, d, s, 0) in cs && 0 < Off(ix, d) && 0 < Off(ix, s)
    requires Off(ix, d) < |off| && Ref(ix, Off(ix, d)) < |off|
    ensures Off(ix, s) in Succ(Arcs(off), Off(ix, d)) && Ref(ix, Off(ix, s)) in Succ(Arcs(off), Ref(ix, Off(ix, d)))
  {
    var c := Constraint(Copy, d, s, 0);
    assert EdgeOf(ix, c, Off(ix, d), Off(ix, s)) && ImplOf(ix, c, Ref(ix, Off(ix, d)), Ref(ix, Off(ix, s)));
  }

  // A load through a pointer reaches every numbered object whose address has been copied to it.
  lemma LoadReaches(y: System, ix: Index, gep2pe: map<(nat, nat), nat>, off: seq<OffNode>, d: nat, chain: seq<nat>, o: nat)
    requires PassInput(y, ix) && Graphed(ix, y.cs, gep2pe, off) && CopyChain(ix, y.cs, chain) && Off(ix, d) > 0 && Off(ix, o) > 0
    requires Constraint(Load, d, chain[0], 0) in y.cs && Constraint(AddrOf, chain[|chain| - 1], o, 0) in y.cs
    ensures Reach(Arcs(off), Off(ix, d), Off(ix, o))
  {
    var E, p, q := Arcs(off), Off(ix, chain[0]), Off(ix, chain[|chain| - 1]);
    InGraph(y, ix, d);
    InGraph(y, ix, o);
    InGraph(y, ix, chain[0]);
    InGraph(y, ix, chain[|chain| - 1]);
    assert Ref(ix, p) in Succ(E, Off(ix, d)) by {
      assert EdgeOf(ix, Constraint(Load, d, chain[0], 0), Off(ix, d), Ref(ix, p));
    }
    assert Off(ix, o) in Succ(E, Ref(ix, q)) by {
      assert ImplOf(ix, Constraint(AddrOf, chain[|chain| - 1], o, 0), Ref(ix, q), Off(ix, o));
    }
    DerefsFollow(y, ix, gep2pe, off, chain);
    hide PassInput, Graphed, Reach, Arcs;
    ReachEdge(E, Off(ix, d), Ref(ix, p));
    ReachEdge(E, Ref(ix, q), Off(ix, o));
    ReachTrans(E, Off(ix, d), Ref(ix, p), Ref(ix, q));
    ReachTrans(E, Off(ix, d), Ref(ix, q), Off(ix, o));
  }

  // What is stored through a pointer is reached by dereferences of all its copies.
  lemma StoreReached(y: System, ix: Index, gep2pe: map<(nat, nat), nat>, off: seq<OffNode>, chain: seq<nat>, v: nat)
    requires PassInput(y, ix) && Graphed(ix, y.cs, gep2pe, off) && CopyChain(ix, y.cs, chain) && Off(ix, v) > 0
    requires Constraint(Store, chain[|chain| - 1], v, 0) in y.cs
    ensures Reach(Arcs(off), Ref(ix, Off(ix, chain[0])), Off(ix, v))
  {
    var E, q := Arcs(off), Off(ix, chain[|chain| - 1]);
    InGraph(y, ix, v);
    InGraph(y, ix, chain[|chain| - 1]);
    assert Off(ix, v) in Succ(E, Ref(ix, q)) by {
      assert EdgeOf(ix, Constraint(Store, chain[|chain| - 1], v, 0), Ref(ix, q), Off(ix, v));
    }
    DerefsFollow(y, ix, gep2pe, off, chain);
    hide PassInput, Graphed, Reach, Arcs;
    ReachEdge(E, Ref(ix, q), Off(ix, v));
    ReachTrans(E, Ref(ix, Off(ix, chain[0])), Ref(ix, q), Off(ix, v));
  }

  // A variable that is loaded and stored through one pointer is on a cycle with its dereference,
  // in the graph for hybrid cycle detection.
  lemma LoadedAndStored(y: System, ix: Index, off: seq<OffNode>, p: nat, v: nat)
    requires PassInput(y, ix) && HcdGraphed(ix, y.cs, off) && Off(ix, p) > 0 && Off(ix, v) > 0
    requires Constraint(Load, v, p, 0) in y.cs && Constraint(Store, p, v, 0) in y.cs
    ensures Mutual(Arcs(off), Off(ix, v), Ref(ix, Off(ix, p)))
  {
    var E, r := Arcs(off), Ref(ix, Off(ix, p));
    InGraph(y, ix, v);
    InGraph(y, ix, p);
    assert EdgeOf(ix, Constraint(Load, v, p, 0), Off(ix, v), r);
    assert EdgeOf(ix, Constraint(Store, p, v, 0), r, Off(ix, v));
    hide PassInput, EdgeOf, Reach;
    assert r in off[Off(ix, v)].edges && Off(ix, v) in off[r].edges;
    ReachEdge(E, Off(ix, v), r);
    ReachEdge(E, r, Off(ix, v));
  }

  // A value stays direct when it is only set by addresses, by offsets, by copies of numbered
  // nodes and by loads without offset.
  lemma StaysDirect(y: System, ix: Index, gep2pe: map<(nat, nat), nat>, off: seq<OffNode>, x: nat)
    requires Graphed(ix, y.cs, gep2pe, off) && x < |off| && IsVal(ix, x)
    requires forall c :: c in y.cs && 0 < Off(ix, c.dest) == x ==>
      (c.typ == Copy ==> Off(ix, c.src) > 0) && (c.typ == Load ==> c.off == 0)
    ensures !off[x].indirect
  {
  }
}
