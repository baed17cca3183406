/** Hybrid cycle detection: what a component of the offline graph that contains a
    dereference says about the members of the dereferenced node. */
module HybridCycles {
  import opened Constraints
  import opened ConstraintGraph
  import opened Graphs
  import opened Offline
  import opened OfflineEdges

  // w is the points-to set of a VAR node, or of one of the nodes that a REF node stands for.
  ghost predicate IsValue(ix: Index, s: Sol, x: nat, w: set<nat>) {
    if x < ix.firstRef then w == Pts(s, Main(ix, x))
    else exists o: nat :: o in Pts(s, Main(ix, x - ix.firstRef + 1)) && o != I2P && w == Pts(s, o)
  }

  // The node has a value: it is a VAR, or it dereferences a pointer with a member besides I2P.
  ghost predicate HasValue(ix: Index, s: Sol, x: nat) {
    exists w: set<nat> :: IsValue(ix, s, x, w)
  }

  // An edge makes every value of its target part of every value of its source.
  lemma ValueEdge(y: System, ix: Index, s: Sol, off: seq<OffNode>, x: nat, z: nat, w: set<nat>, v: set<nat>)
    requires PassInput(y, ix) && Solves(y, s) && HcdGraphed(ix, y.cs, off)
    requires z in Succ(Arcs(off), x) && IsValue(ix, s, x, w) && IsValue(ix, s, z, v)
    ensures v <= w
  {
    assert z in off[x].edges;
    var c :| c in y.cs && EdgeOf(ix, c, x, z);
    EdgeValue(y, ix, s, c, x, z, w, v);
  }

  lemma EdgeValue(y: System, ix: Index, s: Sol, c: Constraint, x: nat, z: nat, w: set<nat>, v: set<nat>)
    requires PassInput(y, ix) && Solves(y, s) && c in y.cs && EdgeOf(ix, c, x, z) && IsValue(ix, s, x, w) && IsValue(ix, s, z, v)
    ensures v <= w
  {
    EdgeEnds(ix, c, x, z);
    VarValue(y, ix, s, c.dest);
    VarValue(y, ix, s, c.src);
    assert Sat(y.l, s, c);
    hide PassInput, IsValue;
    match c.typ
    case Copy =>
    case Load =>
      var o: nat :| o in Pts(s, c.src) && o != I2P && v == Pts(s, o);
      assert o in Targets(y.l, Pts(s, c.src), 0);
    case Store =>
      var o: nat :| o in Pts(s, c.dest) && o != I2P && w == Pts(s, o);
      assert o in Targets(y.l, Pts(s, c.dest), 0);
  }

  lemma VarValue(y: System, ix: Index, s: Sol, n: nat)
    requires PassInput(y, ix) && Off(ix, n) > 0
    ensures Off(ix, n) < ix.firstRef <= Ref(ix, Off(ix, n)) && Main(ix, Off(ix, n)) == n
    ensures forall w: set<nat> :: IsValue(ix, s, Off(ix, n), w) <==> w == Pts(s, n)
    ensures forall w: set<nat> :: IsValue(ix, s, Ref(ix, Off(ix, n)), w) <==> exists o: nat :: o in Pts(s, n) && o != I2P && w == Pts(s, o)
  {
  }

  // Every pointer that is dereferenced in the component of x has a member besides I2P.
  ghost predicate DerefsReach(ix: Index, E: Digraph, s: Sol, x: nat) {
    forall n: nat :: Off(ix, n) > 0 && Mutual(E, x, Ref(ix, Off(ix, n))) ==> exists o: nat :: o in Pts(s, n) && o != I2P
  }

  // If it has, every node of the component has a value.
  lemma MemberHasValue(y: System, ix: Index, s: Sol, off: seq<OffNode>, x: nat, z: nat)
    requires PassInput(y, ix) && HcdGraphed(ix, y.cs, off) && DerefsReach(ix, Arcs(off), s, x) && Mutual(Arcs(off), x, z)
    ensures HasValue(ix, s, z)
  {
    if z < ix.firstRef {
      assert IsValue(ix, s, z, Pts(s, Main(ix, z)));
    } else {
      assert z < |Arcs(off)|;
      var m := z - ix.firstRef + 1;
      var n := Main(ix, m);
      assert IsVar(ix, m) && Off(ix, n) == m && Ref(ix, m) == z;
      hide PassInput, HcdGraphed, Arcs, Mutual;
      var o: nat :| o in Pts(s, n) && o != I2P;
      assert IsValue(ix, s, z, Pts(s, o));
    }
  }

  // Along a path, values only shrink.
  lemma {:induction false} ValuePath(y: System, ix: Index, s: Sol, off: seq<OffNode>, p: seq<nat>, i: nat, w: set<nat>, v: set<nat>)
    requires PassInput(y, ix) && Solves(y, s) && HcdGraphed(ix, y.cs, off) && forall j :: 0 <= j < |p| ==> HasValue(ix, s, p[j])
    requires 0 < i < |p| && IsPath(Arcs(off), p, p[0], p[|p| - 1]) && IsValue(ix, s, p[0], w) && IsValue(ix, s, p[i], v)
    ensures v <= w
  {
    hide PassInput, HcdGraphed, IsValue, Solves, Arcs;
    assert p[i] in Succ(Arcs(off), p[i - 1]);
    if i == 1 {
      ValueEdge(y, ix, s, off, p[0], p[1], w, v);
    } else {
      assert HasValue(ix, s, p[i - 1]);
      var u: set<nat> :| IsValue(ix, s, p[i - 1], u);
      ValuePath(y, ix, s, off, p, i - 1, w, u);
      ValueEdge(y, ix, s, off, p[i - 1], p[i], u, v);
    }
  }

  // All nodes on a path between nodes of one component are in it.
  lemma PathInside(E: Digraph, p: seq<nat>, x: nat, z: nat, j: nat)
    requires IsPath(E, p, x, z) && Mutual(E, x, z) && j < |p|
    ensures Mutual(E, x, p[j])
  {
    assert IsPath(E, p[..j + 1], x, p[j]);
    assert IsPath(E, p[j..], p[j], z);
    ReachTrans(E, p[j], z, x);
  }

  lemma ReachValue(y: System, ix: Index, s: Sol, off: seq<OffNode>, c: nat, x: nat, z: nat, w: set<nat>, v: set<nat>)
    requires PassInput(y, ix) && Solves(y, s) && HcdGraphed(ix, y.cs, off) && DerefsReach(ix, Arcs(off), s, c)
    requires Mutual(Arcs(off), c, x) && Mutual(Arcs(off), x, z) && x != z && IsValue(ix, s, x, w) && IsValue(ix, s, z, v)
    ensures v <= w
  {
    var p :| IsPath(Arcs(off), p, x, z);
    hide PassInput, HcdGraphed, IsValue, Solves, DerefsReach, HasValue, Arcs, Reach;
    assert |p| > 1;
    forall j | 0 <= j < |p| ensures HasValue(ix, s, p[j]) {
      PathInside(Arcs(off), p, x, z, j);
      ReachTrans(Arcs(off), c, x, p[j]);
      ReachTrans(Arcs(off), p[j], x, c);
      MemberHasValue(y, ix, s, off, c, p[j]);
    }
    ValuePath(y, ix, s, off, p, |p| - 1, w, v);
  }

  // In any solution, all values of the nodes of such a component are the same.
  lemma ComponentValues(y: System, ix: Index, s: Sol, off: seq<OffNode>, x: nat, z: nat, w: set<nat>, v: set<nat>)
    requires PassInput(y, ix) && Solves(y, s) && HcdGraphed(ix, y.cs, off) && DerefsReach(ix, Arcs(off), s, x)
    requires Mutual(Arcs(off), x, z) && x != z && IsValue(ix, s, x, w) && IsValue(ix, s, z, v)
    ensures v == w
  {
    hide PassInput, HcdGraphed, IsValue, DerefsReach, Solves, Reach, Arcs;
    ReachTrans(Arcs(off), x, z, x);
    ReachValue(y, ix, s, off, x, x, z, w, v);
    ReachValue(y, ix, s, off, x, z, x, v, w);
  }

  // The justification of the map: if the dereference of n and the variable m are in one
  // component, every member of n (other than I2P) points to the same nodes as m.
  lemma Justification(y: System, ix: Index, s: Sol, off: seq<OffNode>, n: nat, m: nat, o: nat)
    requires PassInput(y, ix) && Solves(y, s) && HcdGraphed(ix, y.cs, off)
    requires Off(ix, n) > 0 && Off(ix, m) > 0 && Mutual(Arcs(off), Ref(ix, Off(ix, n)), Off(ix, m))
    requires DerefsReach(ix, Arcs(off), s, Ref(ix, Off(ix, n))) && o in Pts(s, n) && o != I2P
    ensures Pts(s, o) == Pts(s, m)
  {
    hide PassInput, HcdGraphed, DerefsReach, Solves, Reach, IsValue, Arcs;
    VarValue(y, ix, s, n);
    VarValue(y, ix, s, m);
    ComponentValues(y, ix, s, off, Ref(ix, Off(ix, n)), Off(ix, m), Pts(s, o), Pts(s, m));
  }

  // A dereference in a component with other nodes is stored through.
  lemma StoresReachDerefs(y: System, ix: Index, s: Sol, off: seq<OffNode>, x: nat, z: nat)
    requires PassInput(y, ix) && HcdGraphed(ix, y.cs, off) && StoresReach(y.cs, s) && Mutual(Arcs(off), x, z) && x != z
    ensures DerefsReach(ix, Arcs(off), s, x)
  {
    forall n: nat | Off(ix, n) > 0 && Mutual(Arcs(off), x, Ref(ix, Off(ix, n))) ensures exists o: nat :: o in Pts(s, n) && o != I2P {
      var r := Ref(ix, Off(ix, n));
      var a := if r == x then z else x;
      var p :| IsPath(Arcs(off), p, r, a);
      hide PassInput, HcdGraphed, Mutual;
      assert |p| > 1 && p[1] in Succ(Arcs(off), r);
      StoredThrough(y, ix, s, off, n, p[1]);
    }
  }

  lemma StoredThrough(y: System, ix: Index, s: Sol, off: seq<OffNode>, n: nat, z: nat)
    requires PassInput(y, ix) && HcdGraphed(ix, y.cs, off) && StoresReach(y.cs, s) && Off(ix, n) > 0
    requires z in Succ(Arcs(off), Ref(ix, Off(ix, n)))
    ensures exists o: nat :: o in Pts(s, n) && o != I2P
  {
  }

  // Every component of more than one node contains a VAR node.
  lemma ComponentHasVar(y: System, ix: Index, off: seq<OffNode>, x: nat, z: nat)
    requires PassInput(y, ix) && HcdGraphed(ix, y.cs, off) && Mutual(Arcs(off), x, z) && x != z && x > 0
    ensures exists v: nat :: IsVar(ix, v) && Mutual(Arcs(off), x, v)
  {
    if x < ix.firstRef {
      MutualSelf(Arcs(off), x, z);
      assert IsVar(ix, x);
    } else {
      var p :| IsPath(Arcs(off), p, x, z);
      hide PassInput, HcdGraphed;
      assert |p| > 1 && p[1] in Succ(Arcs(off), x);
      RefEdge(y, ix, off, x, p[1]);
      assert IsPath(Arcs(off), p[1..], p[1], z);
      ReachEdge(Arcs(off), x, p[1]);
      ReachTrans(Arcs(off), p[1], z, x);
    }
  }

  lemma MutualSelf(E: Digraph, x: nat, z: nat)
    requires Mutual(E, x, z)
    ensures Mutual(E, x, x)
  {
    ReachTrans(E, x, z, x);
  }

  // The edges of a REF node lead to VAR nodes.
  lemma RefEdge(y: System, ix: Index, off: seq<OffNode>, x: nat, z: nat)
    requires PassInput(y, ix) && HcdGraphed(ix, y.cs, off) && x >= ix.firstRef && z in Succ(Arcs(off), x)
    ensures IsVar(ix, z) && z < |off|
  {
  }
}
