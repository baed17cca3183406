/** The offline constraint graph: value nodes, parameters of address-taken functions, and
    a dereference node for each of them; what its nodes and edges stand for. */
module Offline {
  import opened Constraints
  import opened ConstraintGraph
  import opened Graphs

  // dfsId is 0 for an unvisited node; sccRoot marks the representative of a finished component.
  datatype OffNode = OffNode(edges: set<nat>, implEdges: set<nat>, ptrEq: set<nat>,
                             dfsId: nat, sccRoot: bool, indirect: bool)

  // Offline nodes are numbered | null | AFP | VAL | REF |.  main2off gives the offline node of
  // a node of the main graph (0 = none), mainOf the main node of an AFP or VAL node.
  datatype Index = Index(main2off: seq<nat>, mainOf: seq<nat>, firstVal: nat, firstRef: nat)

  function Off(ix: Index, n: nat): nat { if n < |ix.main2off| then ix.main2off[n] else 0 }

  function Main(ix: Index, x: nat): nat { if x < |ix.mainOf| then ix.mainOf[x] else 0 }

  // The REF node of an AFP or VAL node.
  function Ref(ix: Index, x: nat): nat { if x == 0 then 0 else x - 1 + ix.firstRef }

  function Count(ix: Index): nat { if ix.firstRef == 0 then 0 else 2 * ix.firstRef - 1 }

  predicate IsVar(ix: Index, x: nat) { 0 < x < ix.firstRef }

  predicate IsVal(ix: Index, x: nat) { ix.firstVal <= x < ix.firstRef }

  // Nodes 3 .. |objSz| - 1 are exactly the object nodes, next to the special node I2P.
  ghost predicate Clumped(l: Layout) {
    && |l.objSz| >= FIRST_VAR_NODE && l.objSz[0] == 0 && l.objSz[I2P] == 1 && l.objSz[P_I2P] == 0
    && forall o: nat :: FIRST_VAR_NODE <= o < |l.objSz| ==> 0 < l.objSz[o] && o + l.objSz[o] <= |l.objSz|
  }

  predicate IsObject(l: Layout, o: nat) { o == I2P || FIRST_VAR_NODE <= o < |l.objSz| }

  ghost predicate IndexOk(y: System, ix: Index) {
    && |ix.main2off| == |y.rep| && 1 <= ix.firstVal <= ix.firstRef && |ix.mainOf| == ix.firstRef
    && (forall i: nat :: i < |y.rep| && Off(ix, i) > 0 ==> Off(ix, i) < ix.firstRef && Main(ix, Off(ix, i)) == i && IsRep(y.rep, i))
    && (forall x: nat :: IsVar(ix, x) ==> Main(ix, x) < |y.rep| && Off(ix, Main(ix, x)) == x)
    && (forall i: nat :: i < |y.rep| && 0 < Off(ix, i) < ix.firstVal ==> FIRST_VAR_NODE <= i < |y.l.objSz|)
    && (forall i: nat :: i < |y.rep| && IsVal(ix, Off(ix, i)) ==> i == P_I2P || |y.l.objSz| <= i)
    && (forall i: nat :: IsRep(y.rep, i) && (i == P_I2P || |y.l.objSz| <= i) ==> IsVal(ix, Off(ix, i)))
  }

  // What an optimisation pass demands of the constraint list: it refers to representatives,
  // every class that contains an object is represented by one, and whatever is loaded from or
  // stored without offset is no plain object.
  ghost predicate PassInput(y: System, ix: Index) {
    && Clumped(y.l) && |y.l.objSz| <= |y.rep| && IndexOk(y, ix)
    && (forall n: nat :: n < |y.rep| ==> IsRep(y.rep, Rt(y.rep, n)))
    && (forall o: nat :: IsObject(y.l, o) ==> o < |y.rep| && IsObject(y.l, Rt(y.rep, o)))
    && (forall c :: c in y.cs ==> PassCons(y, ix, c))
  }

  ghost predicate PassCons(y: System, ix: Index, c: Constraint) {
    && IsRep(y.rep, c.dest) && IsRep(y.rep, c.src) && Proper(y.rep, c.dest) && 0 < c.src
    && (if c.typ == AddrOf then IsObject(y.l, c.src) else c.src != I2P)
    && ((c.typ == Load || c.typ == Store) && c.off == 0 ==> Off(ix, c.src) > 0)
  }

  // ---------- The edges, labels and flags that constraints stand for ----------

  // D = S: D -> S.  D = *S: D -> *S.  *D = S: *D -> S.
  predicate EdgeOf(ix: Index, c: Constraint, x: nat, z: nat) {
    var od, os := Off(ix, c.dest), Off(ix, c.src);
    od > 0 && os > 0 && match c.typ
      case Copy => x == od && z == os
      case Load => c.off == 0 && x == od && z == Ref(ix, os)
      case Store => c.off == 0 && x == Ref(ix, od) && z == os
      case _ => false
  }

  // D = &S: *D -> S.  D = S: *D -> *S.
  predicate ImplOf(ix: Index, c: Constraint, x: nat, z: nat) {
    var od, os := Off(ix, c.dest), Off(ix, c.src);
    od > 0 && os > 0 && match c.typ
      case AddrOf => x == Ref(ix, od) && z == os
      case Copy => x == Ref(ix, od) && z == Ref(ix, os)
      case _ => false
  }

  // D is indirect when it is copied from a node outside the graph or loaded with an offset.
  predicate IndirectOf(ix: Index, c: Constraint, x: nat) {
    0 < Off(ix, c.dest) == x && ((c.typ == Copy && Off(ix, c.src) == 0) || (c.typ == Load && c.off > 0))
  }

  // D = &S is labelled S, and D = S + k with the number of the pair (S, k).
  predicate LabelOf(ix: Index, gep2pe: map<(nat, nat), nat>, c: Constraint, x: nat, pe: nat) {
    0 < Off(ix, c.dest) == x && match c.typ
      case AddrOf => pe == c.src
      case Gep => (c.src, c.off) in gep2pe && pe == gep2pe[(c.src, c.off)]
      case _ => false
  }

  ghost predicate Graphed(ix: Index, cs: seq<Constraint>, gep2pe: map<(nat, nat), nat>, off: seq<OffNode>) {
    && |off| == Count(ix)
    && (forall x: nat, z: nat :: x < |off| ==> (z in off[x].edges <==> exists c :: c in cs && EdgeOf(ix, c, x, z)))
    && (forall x: nat, z: nat :: x < |off| ==> (z in off[x].implEdges <==> exists c :: c in cs && ImplOf(ix, c, x, z)))
    && (forall x: nat, pe: nat :: x < |off| ==> (pe in off[x].ptrEq <==> exists c :: c in cs && LabelOf(ix, gep2pe, c, x, pe)))
    && (forall x: nat :: x < |off| ==> (off[x].indirect <==> (x > 0 && !IsVal(ix, x)) || exists c :: c in cs && IndirectOf(ix, c, x)))
    && (forall x: nat :: x < |off| ==> off[x].dfsId == 0 && !off[x].sccRoot)
    && (forall c :: c in cs && c.typ == Gep && Off(ix, c.dest) > 0 ==> (c.src, c.off) in gep2pe)
  }

  function Arcs(off: seq<OffNode>): Digraph {
    seq(|off|, x requires 0 <= x < |off| => off[x].edges + off[x].implEdges)
  }

  // ---------- Meaning ----------

  // Everything that the members of pts point to.
  ghost function Deref(s: Sol, pts: set<nat>): set<nat> {
    set o, z | o in pts && o != I2P && z in Pts(s, o) :: z
  }

  // The points-to set that an offline node stands for.
  ghost function Val(ix: Index, s: Sol, x: nat): set<nat> {
    if x == 0 then {}
    else if x < ix.firstRef then Pts(s, Main(ix, x))
    else Deref(s, Pts(s, Main(ix, x - ix.firstRef + 1)))
  }

  // Every pointer that is stored through has a member other than I2P.
  ghost predicate StoresReach(cs: seq<Constraint>, s: Sol) {
    forall c :: c in cs && c.typ == Store && c.off == 0 ==> exists o: nat :: o in Pts(s, c.dest) && o != I2P
  }

  lemma OffVal(y: System, ix: Index, s: Sol, n: nat)
    requires IndexOk(y, ix) && Off(ix, n) > 0
    ensures n < |y.rep| && IsVar(ix, Off(ix, n)) && Val(ix, s, Off(ix, n)) == Pts(s, n)
    ensures Val(ix, s, Ref(ix, Off(ix, n))) == Deref(s, Pts(s, n)) && ix.firstRef <= Ref(ix, Off(ix, n)) < Count(ix)
  {
  }

  // An edge x -> z stands for an inclusion of z in x.
  lemma EdgeLe(y: System, ix: Index, s: Sol, c: Constraint, x: nat, z: nat)
    requires PassInput(y, ix) && Solves(y, s) && StoresReach(y.cs, s) && c in y.cs
    requires EdgeOf(ix, c, x, z) || ImplOf(ix, c, x, z)
    ensures Val(ix, s, z) <= Val(ix, s, x)
  {
    OffVal(y, ix, s, c.dest);
    OffVal(y, ix, s, c.src);
    assert Sat(y.l, s, c) && PassCons(y, ix, c);
    hide IndexOk, PassCons, Val, Clumped;
    match c.typ
    case AddrOf =>
    case Copy =>
    case Load =>
      forall w: nat | w in Deref(s, Pts(s, c.src)) ensures w in Pts(s, c.dest) {
        var o :| o in Pts(s, c.src) && o != I2P && w in Pts(s, o);
        assert o in Targets(y.l, Pts(s, c.src), 0);
      }
    case Store =>
      var o: nat :| o in Pts(s, c.dest) && o != I2P;
      assert o in Targets(y.l, Pts(s, c.dest), 0);
    case Gep =>
  }

  // Every edge of the graph stands for an inclusion.
  ghost predicate EdgesInclude(ix: Index, s: Sol, E: Digraph) {
    forall x: nat, z: nat :: z in Succ(E, x) ==> Val(ix, s, z) <= Val(ix, s, x)
  }

  lemma AllEdgesLe(y: System, ix: Index, s: Sol, gep2pe: map<(nat, nat), nat>, off: seq<OffNode>)
    requires PassInput(y, ix) && Solves(y, s) && StoresReach(y.cs, s) && Graphed(ix, y.cs, gep2pe, off)
    ensures EdgesInclude(ix, s, Arcs(off))
  {
    hide Solves, StoresReach, PassInput, Val, EdgeOf, ImplOf, LabelOf, IndirectOf;
    forall x: nat, z: nat | z in Succ(Arcs(off), x) ensures Val(ix, s, z) <= Val(ix, s, x) {
      var c :| c in y.cs && (EdgeOf(ix, c, x, z) || ImplOf(ix, c, x, z));
      EdgeLe(y, ix, s, c, x, z);
    }
  }

  lemma ReachLe(ix: Index, s: Sol, E: Digraph, x: nat, z: nat)
    requires EdgesInclude(ix, s, E) && Reach(E, x, z)
    ensures Val(ix, s, z) <= Val(ix, s, x)
  {
    var p :| IsPath(E, p, x, z);
    PathLe(ix, s, E, p, |p| - 1);
  }

  lemma {:induction false} PathLe(ix: Index, s: Sol, E: Digraph, p: seq<nat>, i: nat)
    requires EdgesInclude(ix, s, E) && i < |p| && IsPath(E, p, p[0], p[|p| - 1])
    ensures Val(ix, s, p[i]) <= Val(ix, s, p[0])
  {
    hide Val;
    if i > 0 {
      PathLe(ix, s, E, p, i - 1);
      assert p[i] in Succ(E, p[i - 1]);
    }
  }

  // ---------- Direct nodes hold nothing but what their constraints give them ----------

  // Constraint c gives nothing but members of U, or what another node of C holds, to its
  // destination, which is in C.
  ghost predicate GivesOnly(y: System, ix: Index, s: Sol, C: set<nat>, U: set<nat>, c: Constraint) {
    match c.typ
    case AddrOf => c.src in U
    case Copy => Off(ix, c.src) in C || Pts(s, c.src) <= U
    case Load => c.off == 0 && Deref(s, Pts(s, c.src)) <= U
    case Store => true
    case Gep => Shift(y.l, Pts(s, c.src), c.off) <= U
  }

  // s with the nodes of C cut down to U.
  ghost function Cut(y: System, ix: Index, s: Sol, C: set<nat>, U: set<nat>): (t: Sol)
    ensures forall n: nat :: Pts(t, n) == if Off(ix, Rt(y.rep, n)) in C then Pts(s, n) * U else Pts(s, n)
  {
    map n | n in s.Keys :: if Off(ix, Rt(y.rep, n)) in C then s[n] * U else s[n]
  }

  lemma ObjectsClosed(y: System, ix: Index)
    requires PassInput(y, ix)
    ensures ClosedUniverse(y, set o: nat | o < |y.l.objSz| && IsObject(y.l, o))
  {
    var objs := set o: nat | o < |y.l.objSz| && IsObject(y.l, o);
    forall c | c in y.cs && c.typ == AddrOf ensures c.src in objs {
      assert PassCons(y, ix, c);
    }
    hide IndexOk, PassCons;
    forall k ensures Shift(y.l, objs, k) <= objs {
      forall x | x in Shift(y.l, objs, k) ensures x in objs {
        var o :| o in objs && Size(y.l, o) > k && x == o + k;
      }
    }
  }

  lemma MembersAreObjects(y: System, ix: Index, s: Sol)
    requires PassInput(y, ix) && IsLeast(y, s)
    ensures forall n: nat, o: nat {:trigger o in Pts(s, n)} :: o in Pts(s, n) ==> IsObject(y.l, o)
  {
    ObjectsClosed(y, ix);
    LeastWithin(y, s, set o: nat | o < |y.l.objSz| && IsObject(y.l, o));
  }

  // No VAL node stands for the class of an object.
  lemma ObjectNotVal(y: System, ix: Index, o: nat, C: set<nat>)
    requires PassInput(y, ix) && IsObject(y.l, o) && forall x: nat :: x in C ==> IsVal(ix, x)
    ensures Off(ix, Rt(y.rep, o)) !in C
  {
    var r := Rt(y.rep, o);
    assert r < |y.rep| && IsObject(y.l, r);
  }

  lemma CutSat(y: System, ix: Index, s: Sol, C: set<nat>, U: set<nat>, c: Constraint)
    requires PassInput(y, ix) && Sat(y.l, s, c) && c in y.cs
    requires forall x: nat :: x in C ==> IsVal(ix, x)
    requires forall n: nat, o: nat {:trigger o in Pts(s, n)} :: o in Pts(s, n) ==> IsObject(y.l, o)
    requires Off(ix, c.dest) in C ==> GivesOnly(y, ix, s, C, U, c)
    ensures Sat(y.l, Cut(y, ix, s, C, U), c)
  {
    var t := Cut(y, ix, s, C, U);
    assert PassCons(y, ix, c);
    assert Rt(y.rep, c.dest) == c.dest && Rt(y.rep, c.src) == c.src;
    hide PassInput, IndexOk, PassCons, Cut, IsVal;
    match c.typ
    case AddrOf =>
    case Copy =>
    case Load =>
      forall o: nat | o in Targets(y.l, Pts(t, c.src), c.off) ensures Pts(t, o) <= Pts(t, c.dest) {
        TargetsGrow(y.l, Pts(t, c.src), Pts(s, c.src), c.off);
        if Off(ix, c.dest) in C {
          assert o in Pts(s, c.src) && o != I2P;
          assert Pts(s, o) <= Deref(s, Pts(s, c.src));
        }
      }
    case Store =>
      forall o: nat | o in Targets(y.l, Pts(t, c.dest), c.off) ensures Pts(t, c.src) <= Pts(t, o) {
        TargetsGrow(y.l, Pts(t, c.dest), Pts(s, c.dest), c.off);
        TargetIsObject(y, ix, Pts(s, c.dest), c.off, o);
        ObjectNotVal(y, ix, o, C);
      }
    case Gep =>
      assert Shift(y.l, Pts(t, c.src), c.off) <= Shift(y.l, Pts(s, c.src), c.off);
  }

  lemma TargetIsObject(y: System, ix: Index, pts: set<nat>, off: nat, o: nat)
    requires PassInput(y, ix) && o in Targets(y.l, pts, off) && forall x: nat :: x in pts ==> IsObject(y.l, x)
    ensures IsObject(y.l, o)
  {
    hide IndexOk, PassCons;
  }

  // If the constraints of the VAL nodes in C give nothing but U, these nodes point to nothing
  // but U in the least solution.
  lemma DirectOnly(y: System, ix: Index, s: Sol, C: set<nat>, U: set<nat>)
    requires PassInput(y, ix) && IsLeast(y, s) && forall x: nat :: x in C ==> IsVal(ix, x)
    requires forall c :: c in y.cs && Off(ix, c.dest) in C ==> GivesOnly(y, ix, s, C, U, c)
    ensures forall x: nat :: x in C ==> Val(ix, s, x) <= U
  {
    var t := Cut(y, ix, s, C, U);
    MembersAreObjects(y, ix, s);
    forall c | c in y.cs ensures Sat(y.l, t, c) {
      CutSat(y, ix, s, C, U, c);
    }
    assert Respects(y.rep, t) by { CutRespects(y, ix, s, C, U); }
    assert Below(s, t);
    forall x: nat | x in C ensures Val(ix, s, x) <= U {
      assert IsVar(ix, x);
      assert Off(ix, Main(ix, x)) == x && Rt(y.rep, Main(ix, x)) == Main(ix, x);
      assert Pts(s, Main(ix, x)) <= Pts(t, Main(ix, x));
    }
  }

  lemma CutRespects(y: System, ix: Index, s: Sol, C: set<nat>, U: set<nat>)
    requires PassInput(y, ix) && Respects(y.rep, s)
    ensures Respects(y.rep, Cut(y, ix, s, C, U))
  {
    hide IndexOk, PassCons, Clumped, Cut;
    var t := Cut(y, ix, s, C, U);
    forall n: nat | n < |y.rep| ensures Pts(t, n) == Pts(t, y.rep[n]) {
      assert Rt(y.rep, Rt(y.rep, n)) == Rt(y.rep, n) && Rt(y.rep, n) == y.rep[n];
      assert Pts(s, n) == Pts(s, y.rep[n]);
    }
  }
}
