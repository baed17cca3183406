/** Facts about single actions of the solver, stated on the constraint graph. */
module SolverSteps {
  import opened Constraints
  import opened Entailment
  import opened ConstraintGraph
  import opened Propagation

  // The members of nodes with more than off fields, for every offset that occurs.
  ghost predicate MaskFor(l: Layout, mask: seq<set<nat>>, off: nat) {
    off > 0 ==> off < |mask| && mask[off] == set o: nat | o < |l.objSz| && l.objSz[o] > off
  }

  // The GEP function for every offset that occurs: nodes with more than off fields are moved.
  ghost predicate GepFor(l: Layout, geps: seq<map<nat, nat>>, off: nat) {
    off > 0 ==> off < |geps| && forall x: nat :: (x in geps[off] <==> Size(l, x) > off) && (x in geps[off] ==> geps[off][x] == x + off)
  }

  // Objects are blocks of nodes within the object range; node 0 starts none.
  ghost predicate LayoutOk(l: Layout) {
    forall o: nat :: o < |l.objSz| && l.objSz[o] > 0 ==> 0 < o && o + l.objSz[o] <= |l.objSz|
  }

  // A step that merges nothing and leaves visit times alone.
  ghost predicate Steady(g: Graph, h: Graph) {
    h.root == g.root && (forall n: nat :: Prev(h, n) == Prev(g, n) && Vtime(h, n) == Vtime(g, n) && Points(g, n) <= Points(h, n))
  }

  // What a step in the course of one visit does to the graph.
  ghost predicate Stepped(g: Graph, h: Graph) {
    Later(g, h) && Steady(g, h) && SameLists(g, h) && h.cplx == g.cplx
  }

  lemma SteppedTrans(g: Graph, h: Graph, k: Graph)
    requires Stepped(g, h) && Stepped(h, k)
    ensures Stepped(g, k)
  {
    hide Later;
    LaterTrans(g, h, k);
  }

  lemma SteppedRefl(y: System, g: Graph)
    requires RootsOk(y, g)
    ensures Stepped(g, g)
  {
    LaterRefl(y, g);
  }

  // ---------- Copy edges ----------

  lemma NoEdge(y: System, g: Graph, a: nat, b: nat)
    requires RootsOk(y, g) && IsRep(g.root, b) && (a == I2P || b == I2P || a == b || b in CopyTo(g, a))
    ensures Stepped(g, g)
    ensures a != I2P && b != I2P ==> Edge(g, a, b)
  {
    LaterRefl(y, g);
  }

  lemma MembersAlong(y: System, g: Graph, a: nat, b: nat)
    requires PointsSound(y, g) && EdgesOk(y, g) && Le(y, a, b)
    ensures forall o: nat :: o in Points(g, a) ==> Member(y, o, b) && 0 < o < |y.l.objSz|
  {
    hide Member, Le;
    forall o: nat | o in Points(g, a) ensures Member(y, o, b) && 0 < o < |y.l.objSz| {
      assert Member(y, o, a);
      MemberLe(y, o, a, b);
    }
  }

  lemma GrowStepped(y: System, g: Graph, q: Queue, v: Visit, except: set<nat>, d: nat, m: set<nat>)
    requires Running(y, g, q, v, except) && IsRep(g.root, d) && 0 < d && d < |g.nodes|
    requires forall o: nat :: o in m ==> Member(y, o, d) && 0 < o < |y.l.objSz|
    ensures var h := g.(nodes := GrowAt(g.nodes, d, m));
      && h == Grow(g, d, m) && Stepped(g, h) && GrownBy(g, h, d, !(m <= Points(g, d)))
      && Running(y, h, q, v, if m <= Points(g, d) then except else except + {d})
  {
    GrowRunning(y, g, q, v, except, d, m);
    hide Running, Later, Member, GrowAt, SameLists;
  }

  lemma LinkPoints(g: Graph, a: nat, b: nat)
    requires a < |g.nodes|
    ensures forall m: nat :: Points(g.(nodes := LinkAt(g.nodes, a, b)), m) == Points(g, m)
  {
  }

  lemma LinkStepped(y: System, g: Graph, q: Queue, v: Visit, except: set<nat>, a: nat, b: nat)
    requires Running(y, g, q, v, except) && IsRep(g.root, a) && IsRep(g.root, b) && a < |g.nodes|
    requires Proper(g.root, a) && Proper(g.root, b) && a != b && Le(y, a, b) && Points(g, a) <= Points(g, b)
    ensures var h := g.(nodes := LinkAt(g.nodes, a, b)); Running(y, h, q, v, except) && Stepped(g, h) && Edge(h, a, b)
  {
    LinkRunning(y, g, q, v, except, a, b);
    hide Running, Later, Le, LinkAt, SameLists, Edge;
    assert Link(g, a, b) == g.(nodes := LinkAt(g.nodes, a, b));
  }

  lemma AddEdge(y: System, g: Graph, q: Queue, v: Visit, except: set<nat>, a: nat, b: nat)
    requires Running(y, g, q, v, except) && IsRep(g.root, a) && IsRep(g.root, b)
    requires Proper(g.root, a) && Proper(g.root, b) && a != b && Le(y, a, b) && a < |g.nodes| && b < |g.nodes|
    ensures var h := g.(nodes := LinkAt(GrowAt(g.nodes, b, g.nodes[a].pointsTo), a, b));
      && Running(y, h, q, v, if g.nodes[a].pointsTo <= g.nodes[b].pointsTo then except else except + {b})
      && Stepped(g, h) && Edge(h, a, b) && GrownBy(g, h, b, !(g.nodes[a].pointsTo <= g.nodes[b].pointsTo))
  {
    assert PointsSound(y, g) && EdgesOk(y, g) by { hide WorkedOff, AllSettled, AllCovered, Watched; }
    hide Running, Stepped, Le, Member, GrowAt, LinkAt, Edge, PointsSound, EdgesOk;
    MembersAlong(y, g, a, b);
    GrowStepped(y, g, q, v, except, b, Points(g, a));
    var m := Grow(g, b, Points(g, a));
    var e := if Points(g, a) <= Points(g, b) then except else except + {b};
    LinkStepped(y, m, q, v, e, a, b);
    SteppedTrans(g, m, m.(nodes := LinkAt(m.nodes, a, b)));
    LinkPoints(m, a, b);
  }

  lemma CplxDoneUnion(l: Layout, g: Graph, c: Constraint, p: set<nat>, q: set<nat>)
    requires CplxDone(l, g, c, p) && CplxDone(l, g, c, q)
    ensures CplxDone(l, g, c, p + q)
  {
    hide Edge;
    assert Shift(l, p + q, c.off) == Shift(l, p, c.off) + Shift(l, q, c.off);
  }

  lemma CplxDoneEmpty(l: Layout, g: Graph, c: Constraint)
    ensures CplxDone(l, g, c, {})
  {
  }

  lemma SteppedCplx(l: Layout, g: Graph, h: Graph, c: Constraint, p: set<nat>)
    requires Stepped(g, h) && CplxDone(l, g, c, p)
    ensures CplxDone(l, h, c, p)
  {
    hide CplxDone, CplxLater, ListsLater, PointsLater, EdgesLater, RootsLater, SameLists, Steady;
    LaterCplxDone(l, g, h, c, c, p);
  }

  // Constraint c, rewritten to representatives, dereferences node n.
  ghost predicate Solvable(y: System, g: Graph, c: Constraint, n: nat) {
    && (c.typ == Load || c.typ == Store || c.typ == Gep) && Base(c) == n && Holds(y, c)
    && Proper(g.root, c.dest) && Proper(g.root, c.src) && IsRep(g.root, c.dest) && IsRep(g.root, c.src)
  }

  // Members that the mask removes are too small for the offset.
  lemma MaskedOut(y: System, g: Graph, c: Constraint, d: set<nat>, mask: seq<set<nat>>)
    requires EdgesOk(y, g) && c.off > 0 && MaskFor(y.l, mask, c.off) && d <= Points(g, Base(c)) && (c.typ == Load || c.typ == Store)
    ensures CplxDone(y.l, g, c, d - mask[c.off])
    ensures forall o: nat :: o in d * mask[c.off] ==> Size(y.l, o) > c.off
  {
    hide Edge;
    assert Targets(y.l, d - mask[c.off], c.off) == {};
  }

  // A function object is skipped: the constraint is no indirect call.
  lemma SkippedFunction(l: Layout, g: Graph, c: Constraint, o: nat)
    requires c.off > 0 && o in l.funcs && (c.typ == Load || c.typ == Store)
    ensures CplxDone(l, g, c, {o})
  {
    assert Targets(l, {o}, c.off) == {};
  }

  // Handling one dereferenced member.
  lemma TargetDone(y: System, g: Graph, c: Constraint, o: nat)
    requires EdgesOk(y, g) && (c.typ == Load || c.typ == Store) && o in Points(g, Base(c))
    requires IsRep(g.root, c.dest) && IsRep(g.root, c.src)
    requires o + c.off != I2P ==>
      if c.typ == Load then Edge(g, Rt(g.root, o + c.off), c.dest) else Edge(g, c.src, Rt(g.root, o + c.off))
    ensures CplxDone(y.l, g, c, {o})
  {
    hide Edge;
    assert Targets(y.l, {o}, c.off) <= {o + c.off} - {I2P};
  }

  // The node reached from member o, and the inclusion it stands for.
  lemma ReachTarget(y: System, g: Graph, c: Constraint, o: nat)
    requires Inv(y, g) && LayoutOk(y.l) && Solvable(y, g, c, Base(c)) && c.typ != Gep && o in Points(g, Base(c))
    requires c.off > 0 ==> Size(y.l, o) > c.off && o !in y.l.funcs
    ensures var t := o + c.off;
      && 0 < t < |g.nodes| && 0 < Rt(g.root, t) && IsRep(g.root, Rt(g.root, t)) && (Rt(g.root, t) == I2P <==> t == I2P)
      && (t != I2P ==> if c.typ == Load then Le(y, Rt(g.root, t), c.dest) else Le(y, c.src, Rt(g.root, t)))
  {
    var t := o + c.off;
    var d := Points(g, Base(c));
    assert 0 < o < |y.l.objSz| && o + c.off < |y.l.objSz|;
    forall x | x in d ensures Member(y, x, Base(c)) {
    }
    if t != I2P {
      assert t in Targets(y.l, d, c.off);
      assert Eq(y, t, Rt(g.root, t));
      hide Member, Le, Holds, Inv;
      if c.typ == Load {
        LoadLe(y, c, d, t);
        LeTrans(y, Rt(g.root, t), t, c.dest);
      } else {
        StoreLe(y, c, d, t);
        LeTrans(y, c.src, t, Rt(g.root, t));
      }
    }
  }

  lemma SteppedSame(g: Graph, h: Graph)
    requires Stepped(g, h)
    ensures h.root == g.root && forall m: nat :: Vtime(h, m) == Vtime(g, m)
  {
    hide Later, SameLists;
  }

  lemma SteppedPoints(g: Graph, h: Graph, n: nat)
    requires Stepped(g, h)
    ensures Points(g, n) <= Points(h, n) && h.root == g.root
  {
    hide Later, SameLists;
  }

  lemma RunningInv(y: System, g: Graph, q: Queue, v: Visit, except: set<nat>)
    requires Running(y, g, q, v, except)
    ensures Inv(y, g) && RootsOk(y, g) && EdgesOk(y, g)
  {
    hide Sound, AllCovered, WorkedOff, AllSettled;
  }

  // One more member has been handled in a step from g to h.
  lemma OneMore(l: Layout, g: Graph, h: Graph, c: Constraint, worked: set<nat>, o: nat)
    requires Stepped(g, h) && CplxDone(l, g, c, worked) && CplxDone(l, h, c, {o})
    ensures CplxDone(l, h, c, worked + {o})
  {
    hide Stepped, CplxDone;
    SteppedCplx(l, g, h, c, worked);
    CplxDoneUnion(l, h, c, worked, {o});
  }

  // ---------- The lists of complex constraints at a node ----------

  function ListOf(g: Graph, n: nat, kind: ConsType): set<nat> {
    match kind
    case Load => LoadTo(g, n)
    case Store => StoreFrom(g, n)
    case _ => GepTo(g, n)
  }

  // The constraints in ids have been worked off for the members d.
  ghost predicate AllDone(l: Layout, g: Graph, ids: set<nat>, d: set<nat>) {
    forall i: nat :: i in ids ==> CplxDone(l, g, Cx(g.cplx, i), d)
  }

  lemma LaterAllDone(l: Layout, g: Graph, h: Graph, ids: set<nat>, d: set<nat>)
    requires Later(g, h) && AllDone(l, g, ids, d)
    ensures AllDone(l, h, ids, d)
  {
    hide CplxDone, ListsLater, Same;
    forall i: nat | i in ids ensures CplxDone(l, h, Cx(h.cplx, i), d) {
      assert Same(h.root, Cx(g.cplx, i), Cx(h.cplx, i));
      LaterCplxDone(l, g, h, Cx(g.cplx, i), Cx(h.cplx, i), d);
    }
  }

  lemma ListFacts(y: System, g: Graph, n: nat, kind: ConsType, i: nat)
    requires CplxOk(g) && kind in {Load, Store, Gep} && i in ListOf(g, n, kind)
    ensures i < |g.cplx| && Cx(g.cplx, i).typ == kind && Rt(g.root, Base(Cx(g.cplx, i))) == n
    ensures Proper(g.root, Cx(g.cplx, i).dest) && Proper(g.root, Cx(g.cplx, i).src)
  {
  }

  lemma RewrittenSolvable(y: System, g: Graph, n: nat, kind: ConsType, i: nat)
    requires Inv(y, g) && kind in {Load, Store, Gep} && i in ListOf(g, n, kind) && i < |g.cplx|
    requires Inv(y, Rewrite(g, i))
    ensures Solvable(y, Rewrite(g, i), Canon(g.root, g.cplx[i]), n)
  {
    ListFacts(y, g, n, kind, i);
    var h := Rewrite(g, i);
    assert Cx(h.cplx, i) == Canon(g.root, g.cplx[i]);
    assert i < |h.cplx| && Holds(y, Cx(h.cplx, i));
    hide Holds, Sound, AllCovered, EdgesOk, CplxOk;
  }

  // ---------- GEP constraints ----------

  // The image of d under a GEP function.
  function GepImage(d: set<nat>, f: map<nat, nat>): set<nat> {
    set o | o in d && o in f :: f[o]
  }

  // A prepared function moves exactly those members that have more than off fields.
  lemma GepImageIsShift(l: Layout, geps: seq<map<nat, nat>>, off: nat, d: set<nat>)
    requires GepFor(l, geps, off) && off > 0
    ensures GepImage(d, geps[off]) == Shift(l, d, off)
  {
    forall x: nat | x in Shift(l, d, off) ensures x in GepImage(d, geps[off]) {
      var o: nat :| o in d && Size(l, o) > off && x == o + off;
      assert o in geps[off] && geps[off][o] == x;
    }
  }

  lemma ShiftMembers(y: System, g: Graph, c: Constraint, d: set<nat>)
    requires PointsSound(y, g) && EdgesOk(y, g) && LayoutOk(y.l) && Holds(y, c) && c.typ == Gep && d <= Points(g, c.src)
    ensures forall o: nat :: o in Shift(y.l, d, c.off) ==> Member(y, o, c.dest) && 0 < o < |y.l.objSz|
  {
    hide Member, Holds;
    assert forall x :: x in d ==> Member(y, x, c.src);
    forall o: nat | o in Shift(y.l, d, c.off) ensures Member(y, o, c.dest) && 0 < o < |y.l.objSz| {
      GepMember(y, c, d, o);
    }
  }

  lemma GepGrowth(y: System, g: Graph, q: Queue, v: Visit, c: Constraint, d: set<nat>)
    requires Running(y, g, q, v, {}) && LayoutOk(y.l) && Solvable(y, g, c, c.src) && c.typ == Gep && d <= Points(g, c.src)
    requires c.dest < |g.nodes|
    ensures var m := Shift(y.l, d, c.off);
      var h := g.(nodes := GrowAt(g.nodes, c.dest, m));
      && Running(y, h, q, v, if m <= g.nodes[c.dest].pointsTo then {} else {c.dest}) && Stepped(g, h) && CplxDone(y.l, h, c, d)
      && GrownBy(g, h, c.dest, !(m <= g.nodes[c.dest].pointsTo))
  {
    hide Running, Later, Inv, Le, Member, GrowAt, Shift, LayoutOk, Holds, EdgesOk, RootsOk, PointsSound;
    var m := Shift(y.l, d, c.off);
    assert PointsSound(y, g) && EdgesOk(y, g) by { RunningSound(y, g, q, v); }
    ShiftMembers(y, g, c, d);
    GrowRunning(y, g, q, v, {}, c.dest, m);
    var h := Grow(g, c.dest, m);
    assert {} + {c.dest} == {c.dest};
    assert Steady(g, h);
    assert Rt(h.root, c.dest) == c.dest;
  }

  lemma RunningSound(y: System, g: Graph, q: Queue, v: Visit)
    requires Running(y, g, q, v, {})
    ensures PointsSound(y, g) && EdgesOk(y, g)
  {
    hide WorkedOff, AllSettled, AllCovered;
  }

  // ---------- Going through a list ----------

  // Every constraint in seen is the present form of one that is kept.
  ghost predicate SeenKept(g: Graph, kept: set<nat>, seen: set<Constraint>) {
    && (forall c :: c in seen ==> exists j: nat :: j in kept && Cx(g.cplx, j) == c)
    && (forall j: nat :: j in kept ==> Cx(g.cplx, j) in seen) && NoRepeats(g, kept)
  }

  // No two of the listed constraints are equal.
  ghost predicate NoRepeats(g: Graph, ids: set<nat>) {
    forall i: nat, j: nat :: i in ids && j in ids && Cx(g.cplx, i) == Cx(g.cplx, j) ==> i == j
  }

  // The visit of n has gone from g to h, has worked off the constraints kept for the
  // members d, and has not yet looked at those in todo.
  ghost predicate Listing(l: Layout, g: Graph, h: Graph, n: nat, kind: ConsType, d: set<nat>,
                          todo: set<nat>, kept: set<nat>, seen: set<Constraint>) {
    && Later(g, h) && Steady(g, h)
    && ListOf(h, n, kind) == todo + kept && todo !! kept
    && (forall k :: ListOf(h, n, k) <= ListOf(g, n, k))
    && AllDone(l, h, kept, d) && SeenKept(h, kept, seen)
  }

  lemma ListingStart(y: System, g: Graph, n: nat, kind: ConsType, d: set<nat>)
    requires RootsOk(y, g)
    ensures Listing(y.l, g, g, n, kind, d, ListOf(g, n, kind), {}, {})
  {
    LaterRefl(y, g);
  }

  lemma ListingKeep(y: System, g: Graph, h: Graph, k: Graph, n: nat, kind: ConsType, d: set<nat>,
                    todo: set<nat>, kept: set<nat>, seen: set<Constraint>, i: nat, c: Constraint)
    requires Listing(y.l, g, h, n, kind, d, todo, kept, seen) && i in todo && i < |h.cplx| && c !in seen
    requires Later(h, k) && Steady(h, k) && SameLists(h, k) && k.cplx == h.cplx[i := c] && CplxDone(y.l, k, c, d)
    ensures Listing(y.l, g, k, n, kind, d, todo - {i}, kept + {i}, seen + {c})
  {
    hide Later, CplxDone, SameLists, AllDone, SeenKept, Steady, ListOf, Cx;
    LaterTrans(g, h, k);
    SteadyTrans(g, h, k);
    SameListOf(h, k, n);
    CxUpdated(h.cplx, k.cplx, i, c);
    MoreDone(y.l, h, k, kept, d, i);
    SeenMore(h, k, kept, seen, i, c);
  }

  lemma SteppedSteady(g: Graph, h: Graph)
    requires Stepped(g, h)
    ensures Steady(g, h) && Later(g, h) && SameLists(g, h) && h.cplx == g.cplx
  {
    hide Steady, Later, SameLists;
  }

  lemma SteadyPoints(g: Graph, h: Graph, n: nat)
    requires Steady(g, h)
    ensures Points(g, n) <= Points(h, n) && h.root == g.root
  {
  }

  lemma SteadyTrans(g: Graph, h: Graph, k: Graph)
    requires Steady(g, h) && Steady(h, k)
    ensures Steady(g, k)
  {
  }

  lemma CxUpdated(cs: seq<Constraint>, ds: seq<Constraint>, i: nat, c: Constraint)
    requires i < |cs| && ds == cs[i := c]
    ensures forall j: nat :: Cx(ds, j) == if j == i then c else Cx(cs, j)
  {
  }

  lemma MoreDone(l: Layout, h: Graph, k: Graph, kept: set<nat>, d: set<nat>, i: nat)
    requires Later(h, k) && AllDone(l, h, kept, d) && CplxDone(l, k, Cx(k.cplx, i), d)
    ensures AllDone(l, k, kept + {i}, d)
  {
    hide Later, CplxDone;
    LaterAllDone(l, h, k, kept, d);
  }

  lemma SameListOf(h: Graph, k: Graph, n: nat)
    requires SameLists(h, k)
    ensures forall m :: ListOf(k, n, m) == ListOf(h, n, m)
  {
  }

  lemma SeenMore(h: Graph, k: Graph, kept: set<nat>, seen: set<Constraint>, i: nat, c: Constraint)
    requires SeenKept(h, kept, seen) && i !in kept && c !in seen && Cx(k.cplx, i) == c
    requires forall j: nat :: j in kept ==> Cx(k.cplx, j) == Cx(h.cplx, j)
    ensures SeenKept(k, kept + {i}, seen + {c})
  {
    hide Cx;
    forall e | e in seen + {c} ensures exists j: nat :: j in kept + {i} && Cx(k.cplx, j) == e {
      if e != c {
        var j: nat :| j in kept && Cx(h.cplx, j) == e;
        assert j in kept + {i} && Cx(k.cplx, j) == e;
      } else {
        assert i in kept + {i} && Cx(k.cplx, i) == c;
      }
    }
  }

  lemma ListingEnd(l: Layout, g: Graph, h: Graph, n: nat, kind: ConsType, d: set<nat>, kept: set<nat>, seen: set<Constraint>)
    requires Listing(l, g, h, n, kind, d, {}, kept, seen)
    ensures ListOf(h, n, kind) == kept && NoRepeats(h, ListOf(h, n, kind))
  {
    hide Later, Steady, AllDone, ListOf, Cx, NoRepeats;
    assert {} + kept == kept;
  }

  lemma ListingDrop(y: System, g: Graph, h: Graph, k: Graph, q: Queue, v: Visit, n: nat, kind: ConsType, d: set<nat>,
                    todo: set<nat>, kept: set<nat>, seen: set<Constraint>, i: nat, c: Constraint)
    requires Listing(y.l, g, h, n, kind, d, todo, kept, seen) && i in todo && i < |h.cplx| && c in seen && n < |k.nodes|
    requires Later(h, k) && Steady(h, k) && SameLists(h, k) && k.cplx == h.cplx[i := c] && Running(y, k, q, v, {})
    ensures var m := k.(nodes := DropAt(k.nodes, n, i));
      Running(y, m, q, v, {}) && Listing(y.l, g, m, n, kind, d, todo - {i}, kept, seen)
  {
    hide Later, CplxDone, SameLists, AllDone, SeenKept, Steady, Cx, Running, DropAt, ListOf, CplxOf;
    SeenAt(h, kept, seen, c);
    var j: nat :| j in kept && Cx(h.cplx, j) == c;
    CxUpdated(h.cplx, k.cplx, i, c);
    SameListOf(h, k, n);
    InCplxOf(k, n, kind, j);
    DropFacts(y, k, q, v, n, i, j);
    var m := k.(nodes := DropAt(k.nodes, n, i));
    LaterTrans(g, h, k);
    LaterTrans(g, k, m);
    SteadyTrans(g, h, k);
    SteadyTrans(g, k, m);
    LaterAllDone(y.l, h, k, kept, d);
    LaterAllDone(y.l, k, m, kept, d);
    SeenSame(h, m, kept, seen);
  }

  lemma DropFacts(y: System, g: Graph, q: Queue, v: Visit, n: nat, i: nat, j: nat)
    requires n < |g.nodes| && j in CplxOf(g, n) && i != j && Cx(g.cplx, i) == Cx(g.cplx, j) && Running(y, g, q, v, {})
    ensures var m := g.(nodes := DropAt(g.nodes, n, i));
      && Running(y, m, q, v, {}) && Later(g, m) && Steady(g, m) && forall k :: ListOf(m, n, k) == ListOf(g, n, k) - {i}
  {
    hide Later, Same, Running, DropAt, CplxOf, Cx;
    SameRefl(g.root, Cx(g.cplx, i));
    DropRunning(y, g, q, v, {}, n, i, j);
    assert g.(nodes := DropAt(g.nodes, n, i)) == Drop(g, n, i);
  }

  lemma SeenAt(h: Graph, kept: set<nat>, seen: set<Constraint>, c: Constraint)
    requires SeenKept(h, kept, seen) && c in seen
    ensures exists j: nat :: j in kept && Cx(h.cplx, j) == c
  {
  }

  lemma SeenSame(h: Graph, k: Graph, kept: set<nat>, seen: set<Constraint>)
    requires SeenKept(h, kept, seen)
    requires forall j: nat :: j in kept ==> Cx(k.cplx, j) == Cx(h.cplx, j)
    ensures SeenKept(k, kept, seen)
  {
    hide Cx;
    forall e | e in seen ensures exists j: nat :: j in kept && Cx(k.cplx, j) == e {
      var j: nat :| j in kept && Cx(h.cplx, j) == e;
      assert Cx(k.cplx, j) == e;
    }
  }

  lemma InCplxOf(g: Graph, n: nat, kind: ConsType, i: nat)
    requires i in ListOf(g, n, kind)
    ensures i in CplxOf(g, n)
  {
  }

  // ---------- Propagating along copy edges ----------

  lemma PropMembers(y: System, g: Graph, n: nat, b: nat, d: set<nat>)
    requires RootsOk(y, g) && EdgesOk(y, g) && PointsSound(y, g) && EdgesSound(y, g) && RootsSound(y, g)
    requires b in CopyTo(g, n) && d <= Points(g, n)
    ensures forall o: nat :: o in d ==> Member(y, o, Rt(g.root, b)) && 0 < o < |y.l.objSz|
    ensures IsRep(g.root, Rt(g.root, b)) && 0 < Rt(g.root, b) < |g.nodes| && Proper(g.root, n)
  {
    hide Le, Member;
    assert Le(y, n, b) && Eq(y, b, Rt(g.root, b));
    forall o: nat | o in d ensures Member(y, o, Rt(g.root, b)) && 0 < o < |y.l.objSz| {
      MemberLe(y, o, n, b);
      MemberLe(y, o, b, Rt(g.root, b));
    }
  }

  lemma PropFacts(y: System, g: Graph, q: Queue, v: Visit, n: nat, b: nat, d: set<nat>)
    requires Running(y, g, q, v, {}) && b in CopyTo(g, n) && d <= Points(g, n)
    ensures 0 < Rt(g.root, b) < |g.nodes| && b < |g.nodes| && b != n && Proper(g.root, n)
    ensures var e := Rt(g.root, b);
      var h := g.(nodes := GrowAt(g.nodes, e, d));
      && Running(y, h, q, v, if d <= g.nodes[e].pointsTo then {} else {e}) && Stepped(g, h)
      && CopyTo(h, n) == CopyTo(g, n) && d <= Points(h, e)
  {
    assert b < |g.nodes| && b != n && RootsOk(y, g) && EdgesOk(y, g) && PointsSound(y, g) && EdgesSound(y, g) && RootsSound(y, g) by {
      hide WorkedOff, AllSettled, AllCovered, CplxSound, CplxOk, Watched;
      assert Proper(g.root, b);
    }
    hide Running, Stepped, Le, Member, GrowAt, EdgesOk, RootsOk, PointsSound, EdgesSound, RootsSound;
    PropMembers(y, g, n, b, d);
    var e := Rt(g.root, b);
    GrowStepped(y, g, q, v, {}, e, d);
    assert {} + {e} == {e};
  }

  // The new members d of n have reached the copy neighbours of n that are not in todo.
  ghost predicate Spread(g: Graph, n: nat, d: set<nat>, todo: set<nat>, seen: set<nat>) {
    && (forall b: nat {:trigger b in CopyTo(g, n)} :: b in CopyTo(g, n) && b !in todo ==> Rt(g.root, b) == n || d <= Points(g, Rt(g.root, b)))
    && (forall e: nat :: e in seen ==> d <= Points(g, e))
  }

  lemma SpreadStep(g: Graph, h: Graph, n: nat, d: set<nat>, todo: set<nat>, seen: set<nat>, b: nat)
    requires Spread(g, n, d, todo, seen) && Steady(g, h) && CopyTo(h, n) == CopyTo(g, n) && d <= Points(h, Rt(g.root, b))
    ensures Spread(h, n, d, todo - {b}, seen + {Rt(g.root, b)})
  {
  }

  // ---------- Which nodes are woken ----------

  // The set of dest has grown if chg, and no other has.
  ghost predicate GrownBy(g: Graph, h: Graph, dest: nat, chg: bool) {
    && (forall m: nat :: m != dest ==> Points(h, m) == Points(g, m))
    && Points(g, dest) <= Points(h, dest) && (chg <==> Points(h, dest) != Points(g, dest))
  }

  // Exactly the nodes whose sets have grown have been pushed, with their visit times.
  ghost predicate Woke(g: Graph, q: Queue, h: Graph, q': Queue) {
    && q'.curr == q.curr && (forall m: nat :: Points(g, m) <= Points(h, m))
    && (forall m: nat :: m in q'.next <==> m in q.next || Points(h, m) != Points(g, m))
    && (forall m: nat :: m in q'.next ==> q'.next[m] == if Points(h, m) != Points(g, m) then Vtime(h, m) else q.next[m])
  }

  lemma GrownTrans(g: Graph, h: Graph, k: Graph, dest: nat, b: bool, c: bool)
    requires GrownBy(g, h, dest, b) && GrownBy(h, k, dest, c)
    ensures GrownBy(g, k, dest, b || c)
  {
    hide Points;
  }

  lemma WokeTrans(g: Graph, q: Queue, h: Graph, q': Queue, k: Graph, q'': Queue)
    requires Woke(g, q, h, q') && Woke(h, q', k, q'') && Steady(h, k)
    ensures Woke(g, q, k, q'')
  {
    hide Points, Vtime;
  }

  lemma WokeGrown(g: Graph, q: Queue, h: Graph, dest: nat, chg: bool)
    requires GrownBy(g, h, dest, chg)
    ensures Woke(g, q, h, if chg then q.(next := q.next[dest := Vtime(h, dest)]) else q)
  {
    hide Points, Vtime;
  }

  lemma WokeSame(g: Graph, q: Queue, h: Graph)
    requires forall m: nat :: Points(h, m) == Points(g, m)
    ensures Woke(g, q, h, q)
  {
    hide Points, Vtime;
  }

  lemma WokenNone(g: Graph, q: Queue, dest: nat)
    ensures GrownBy(g, g, dest, false) && Woke(g, q, g, q)
  {
  }

  // One more member has been handled for constraint c.
  lemma WokenMore(c: Constraint, g: Graph, q: Queue, h: Moment, k: Moment, chg: bool, grown: bool)
    requires if c.typ == Load then GrownBy(g, h.g, c.dest, chg) && h.q == q else Woke(g, q, h.g, h.q)
    requires if c.typ == Load then GrownBy(h.g, k.g, c.dest, grown) && k.q == h.q else Woke(h.g, h.q, k.g, k.q)
    requires Stepped(h.g, k.g)
    ensures if c.typ == Load then GrownBy(g, k.g, c.dest, chg || grown) && k.q == q else Woke(g, q, k.g, k.q)
  {
    hide GrownBy, Woke, Stepped;
    SteppedSteady(h.g, k.g);
    if c.typ == Load {
      GrownTrans(g, h.g, k.g, c.dest, chg, grown);
    } else {
      WokeTrans(g, q, h.g, h.q, k.g, k.q);
    }
  }

  // Deleting a constraint wakes nothing.
  lemma WokeDrop(g: Graph, q: Queue, h: Graph, q': Queue, n: nat, i: nat)
    requires Woke(g, q, h, q') && n < |h.nodes|
    ensures Woke(g, q, h.(nodes := DropAt(h.nodes, n, i)), q')
  {
    var k := h.(nodes := DropAt(h.nodes, n, i));
    assert forall m: nat :: Points(k, m) == Points(h, m) && Vtime(k, m) == Vtime(h, m);
    hide Points, Vtime, DropAt;
  }

  lemma ReachedWoke(a: Moment, b: Moment, n: nat, d: set<nat>, s: set<nat>)
    requires Reached(a, b, n, d, s) && Steady(a.g, b.g)
    ensures Woke(a.g, a.q, b.g, b.q)
  {
    hide Points, Vtime, Noted;
  }

  // The representatives other than n that the copy edges in s lead to.
  function Reps(g: Graph, n: nat, s: set<nat>): set<nat> {
    set b | b in s && Rt(g.root, b) != n :: Rt(g.root, b)
  }

  // Those of the nodes in s that have the set of n, which is not empty: with n, where to look
  // for a cycle.
  function Candidates(g: Graph, n: nat, s: set<nat>): set<(nat, nat)> {
    set m | m in s && Points(g, n) != {} && Points(g, m) == Points(g, n) :: (n, m)
  }

  // The candidates for cycles: pairs of neighbours that had equal sets, and where to start.
  datatype Lcd = Lcd(edges: set<(nat, nat)>, starts: set<nat>)

  // What the solver works on: the graph, the worklist and the candidates.
  datatype Moment = Moment(g: Graph, q: Queue, k: Lcd)

  // The nodes in s have got the members d, and nothing else has changed in points-to sets and
  // copy edges.
  ghost predicate Poured(g: Graph, h: Graph, d: set<nat>, s: set<nat>) {
    && (forall m: nat :: Points(h, m) == Points(g, m) + if m in s then d else {})
    && (forall m: nat :: CopyTo(h, m) == CopyTo(g, m))
  }

  // The worklist when those of the nodes in s that grow by d have been pushed with their visit times.
  function Woken(g: Graph, q: Queue, d: set<nat>, s: set<nat>): Queue {
    q.(next := q.next + map m: nat | m in s && !(d <= Points(g, m)) :: Vtime(g, m))
  }

  // The candidates when the nodes in s have been looked at from n.
  function Noted(g: Graph, k: Lcd, n: nat, s: set<nat>): Lcd {
    Lcd(k.edges + Candidates(g, n, s), k.starts + if Candidates(g, n, s) <= k.edges then {} else {n})
  }

  // The worklist with a pass to work on: when the current list is empty the next one takes its place.
  function InPass(q: Queue): Queue {
    if q.curr == map[] then Queue(q.next, map[]) else q
  }

  // n has an entry of least key.
  ghost predicate NextEntry(q: Queue, n: nat) {
    n in InPass(q).curr && forall m :: m in InPass(q).curr ==> InPass(q).curr[n] <= InPass(q).curr[m]
  }

  // The worklist with the entry of n taken off.
  function Without(q: Queue, n: nat): Queue {
    InPass(q).(curr := InPass(q).curr - {n})
  }

  // What propagating the members d of n to the nodes in s does between two moments.
  ghost predicate Reached(a: Moment, b: Moment, n: nat, d: set<nat>, s: set<nat>) {
    Poured(a.g, b.g, d, s) && b.q == Woken(a.g, a.q, d, s) && b.k == Noted(a.g, a.k, n, s)
  }

  // The same for all copy destinations of n.
  ghost predicate Propagated(a: Moment, b: Moment, n: nat, d: set<nat>) {
    Reached(a, b, n, d, Reps(a.g, n, CopyTo(a.g, n)))
  }

  // Node n has been visited at time t for all that it had in graph g; no other node has been.
  ghost predicate Visited(g: Graph, h: Graph, n: nat, t: nat) {
    && h.root == g.root && Vtime(h, n) == t && Prev(h, n) == Points(g, n)
    && forall m: nat :: m != n ==> Vtime(h, m) == Vtime(g, m) && Prev(h, m) == Prev(g, m)
  }

  lemma VisitedBegin(g: Graph, h: Graph, n: nat, t: nat)
    requires n < |g.nodes| && h == g.(nodes := BeginAt(g.nodes, n, t))
    ensures Visited(g, h, n, t)
  {
  }

  lemma VisitedSteady(g: Graph, h: Graph, i: Graph, n: nat, t: nat)
    requires Visited(g, h, n, t) && Steady(h, i)
    ensures Visited(g, i, n, t)
  {
  }

  // A visit of n at time t: at mid its complex constraints have been handled for the new members,
  // at b these have been propagated.  Only propagation finds candidates, and a node without new
  // members wakes no other.
  ghost predicate VisitMade(a: Moment, mid: Moment, b: Moment, n: nat, t: nat) {
    && Later(a.g, mid.g) && mid.k == a.k && Visited(a.g, mid.g, n, t) && Visited(a.g, b.g, n, t)
    && var d := Points(a.g, n) - Prev(a.g, n);
      if d == {} then b == mid && b.q == a.q else Propagated(mid, b, n, d) && Woke(a.g, WithNull(a.q, b.g), b.g, b.q)
  }

  // The worklist with node 0 pushed, which stands for the nodes merged by an offline cycle.
  function WithNull(q: Queue, h: Graph): Queue {
    q.(next := q.next[0 := Vtime(h, 0)])
  }

  // What is woken during a visit of n is so relative to the graph before it.
  lemma WokeVisit(g: Graph, h: Graph, q: Queue, k: Graph, q': Queue, n: nat, t: nat)
    requires n < |g.nodes| && h == g.(nodes := BeginAt(g.nodes, n, t)) && Steady(h, k) && Woke(h, WithNull(q, h), k, q')
    ensures Woke(g, WithNull(q, k), k, q')
  {
    assert forall m: nat :: Points(h, m) == Points(g, m);
    assert Vtime(k, 0) == Vtime(h, 0);
    hide Points, BeginAt, Vtime;
  }

  lemma NoneReached(a: Moment, n: nat, d: set<nat>)
    ensures Reached(a, a, n, d, {}) && Reps(a.g, n, {}) == {}
  {
    assert Candidates(a.g, n, {}) == {};
    assert Woken(a.g, a.q, d, {}).next == a.q.next;
  }

  // Nothing has been propagated yet.
  lemma PropStart(y: System, a: Moment, v: Visit, n: nat, d: set<nat>)
    requires Running(y, a.g, a.q, v, {})
    ensures Stepped(a.g, a.g) && Spread(a.g, n, d, CopyTo(a.g, n), {}) && Reached(a, a, n, d, {}) && Reps(a.g, n, {}) == {}
  {
    RunningInv(y, a.g, a.q, v, {});
    hide Running, Reached, Reps;
    SteppedRefl(y, a.g);
    NoneReached(a, n, d);
  }

  // One more node m is reached.
  lemma OnePoured(g: Graph, h: Graph, d: set<nat>, s: set<nat>, m: nat)
    requires Poured(g, h, d, s) && m < |h.nodes|
    ensures Poured(g, h.(nodes := GrowAt(h.nodes, m, d)), d, s + {m})
  {
  }

  lemma OneWoken(g: Graph, q: Queue, d: set<nat>, s: set<nat>, m: nat)
    ensures Woken(g, q, d, s + {m}) ==
      if d <= Points(g, m) then Woken(g, q, d, s) else Woken(g, q, d, s).(next := Woken(g, q, d, s).next[m := Vtime(g, m)])
  {
    hide Points, Vtime;
    assert Woken(g, q, d, s + {m}).next ==
      if d <= Points(g, m) then Woken(g, q, d, s).next else Woken(g, q, d, s).next[m := Vtime(g, m)];
  }

  lemma OneNoted(g: Graph, k: Lcd, n: nat, s: set<nat>, m: nat)
    requires m !in s
    ensures Noted(g, k, n, s + {m}) ==
      var found := (n, m) !in Noted(g, k, n, s).edges && Points(g, n) != {} && Points(g, n) == Points(g, m);
      Lcd(Noted(g, k, n, s).edges + (if found then {(n, m)} else {}), Noted(g, k, n, s).starts + if found then {n} else {})
  {
    assert (n, m) !in Candidates(g, n, s);
    OneCandidate(g, n, s, m);
    hide Candidates, Points;
  }

  lemma OneReached(a: Moment, b: Moment, n: nat, d: set<nat>, s: set<nat>, m: nat)
    requires Reached(a, b, n, d, s) && m !in s && n !in s && m < |b.g.nodes| && Vtime(b.g, m) == Vtime(a.g, m)
    ensures var found := (n, m) !in b.k.edges && Points(b.g, n) != {} && Points(b.g, n) == Points(b.g, m);
      Reached(a, Moment(b.g.(nodes := GrowAt(b.g.nodes, m, d)),
        if d <= Points(b.g, m) then b.q else b.q.(next := b.q.next[m := Vtime(b.g, m)]),
        Lcd(b.k.edges + (if found then {(n, m)} else {}), b.k.starts + if found then {n} else {})), n, d, s + {m})
  {
    assert Points(b.g, m) == Points(a.g, m) && Points(b.g, n) == Points(a.g, n);
    OnePoured(a.g, b.g, d, s, m);
    OneWoken(a.g, a.q, d, s, m);
    OneNoted(a.g, a.k, n, s, m);
    hide Poured, Woken, Noted, Points, Vtime, GrowAt;
  }

  lemma OneCandidate(g: Graph, n: nat, s: set<nat>, m: nat)
    ensures Candidates(g, n, s + {m}) == Candidates(g, n, s) + if Points(g, n) != {} && Points(g, m) == Points(g, n) then {(n, m)} else {}
  {
  }

  // One more copy edge, to b.
  lemma OneMoreRep(g: Graph, n: nat, s: set<nat>, b: nat)
    ensures Reps(g, n, s + {b}) == Reps(g, n, s) + if Rt(g.root, b) == n then {} else {Rt(g.root, b)}
    ensures n !in Reps(g, n, s)
  {
  }

  // At the end of a visit everything at the node is done.
  lemma VisitDone(y: System, g: Graph, q: Queue, v: Visit, d: set<nat>, seen: set<nat>)
    requires v.Visit? && Running(y, g, q, v, {}) && IsRep(g.root, v.n) && v.pts == v.before + d && v.pts <= Points(g, v.n)
    requires Spread(g, v.n, d, {}, seen)
    requires AllDone(y.l, g, LoadTo(g, v.n), d) && AllDone(y.l, g, StoreFrom(g, v.n), d) && AllDone(y.l, g, GepTo(g, v.n), d)
    ensures Done(y.l, g, v.n, v.pts)
  {
    hide Inv, AllSettled, CplxDone;
    assert Done(y.l, g, v.n, Worked(g, v, v.n));
    forall i: nat | i in CplxOf(g, v.n) ensures CplxDone(y.l, g, Cx(g.cplx, i), v.pts) {
      CplxDoneUnion(y.l, g, Cx(g.cplx, i), v.before, d);
    }
  }

  // ---------- The work that remains ----------

  // How many members are still to be propagated, over all nodes.
  function Slack(nodes: seq<Node>, all: set<nat>): nat {
    if |nodes| == 0 then 0 else Slack(nodes[..|nodes| - 1], all) + |all - nodes[|nodes| - 1].prev|
  }

  lemma {:induction false} SlackSame(a: seq<Node>, b: seq<Node>, all: set<nat>)
    requires |a| == |b| && forall i :: 0 <= i < |a| ==> a[i].prev == b[i].prev
    ensures Slack(a, all) == Slack(b, all)
  {
    if |a| > 0 {
      SlackSame(a[..|a| - 1], b[..|b| - 1], all);
    }
  }

  lemma {:induction false} SlackLess(a: seq<Node>, b: seq<Node>, all: set<nat>, n: nat)
    requires |a| == |b| && n < |a| && a[n].prev < b[n].prev <= all
    requires forall i :: 0 <= i < |a| && i != n ==> a[i].prev == b[i].prev
    ensures Slack(b, all) < Slack(a, all)
  {
    var k := |a| - 1;
    if k == n {
      SlackSame(a[..k], b[..k], all);
      assert all - a[n].prev == (all - b[n].prev) + (b[n].prev - a[n].prev);
      assert b[n].prev - a[n].prev != {};
    } else {
      SlackLess(a[..k], b[..k], all, n);
    }
  }

  // The members that can ever be in a points-to set.
  function Objects(l: Layout): (r: set<nat>)
    ensures forall o: nat :: o in r <==> o < |l.objSz|
  {
    set o: nat | o < |l.objSz| && InObjects(l, o)
  }

  predicate InObjects(l: Layout, o: nat) { o < |l.objSz| }

  // A visit begins at time t: d are the members not propagated yet.
  lemma VisitBegins(y: System, g: Graph, q: Queue, n: nat, t: nat, d: set<nat>)
    requires Running(y, g, q, Idle, {n}) && IsRep(g.root, n) && n < |g.nodes| && d == g.nodes[n].pointsTo - g.nodes[n].prev
    ensures var h := g.(nodes := BeginAt(g.nodes, n, t));
      var v := Visit(n, g.nodes[n].pointsTo, g.nodes[n].prev);
      && Running(y, h, q, v, {}) && Later(g, h) && v.pts == v.before + d && d <= Points(h, n) && Prev(h, n) == v.pts == Points(h, n)
      && (d == {} ==> Running(y, h, q, Idle, {}) && Slack(h.nodes, Objects(y.l)) == Slack(g.nodes, Objects(y.l)))
      && (d != {} ==> n != 0 && Slack(h.nodes, Objects(y.l)) < Slack(g.nodes, Objects(y.l)))
  {
    hide Running, Later, Done, Inv, Slack, BeginAt;
    var h := Begin(g, n, t);
    var v := Visit(n, g.nodes[n].pointsTo, g.nodes[n].prev);
    RunningPrev(y, g, q, n);
    BeginRunning(y, g, q, n, t);
    BeginSlack(y, g, q, n, t, d);
    assert v.pts == v.before + d;
    if d == {} {
      assert v.before == v.before + d == v.pts;
      RunningWorked(y, h, q, v);
      FinishRunning(y, h, q, v);
    }
  }

  lemma RunningPrev(y: System, g: Graph, q: Queue, n: nat)
    requires Running(y, g, q, Idle, {n}) && IsRep(g.root, n)
    ensures Prev(g, n) <= Points(g, n)
  {
    hide Inv, AllSettled, Done;
    assert Worked(g, Idle, n) <= Points(g, n);
  }

  lemma RunningWorked(y: System, g: Graph, q: Queue, v: Visit)
    requires v.Visit? && Running(y, g, q, v, {}) && IsRep(g.root, v.n)
    ensures Done(y.l, g, v.n, v.before)
  {
    hide Inv, AllSettled, Done;
  }

  lemma BeginSlack(y: System, g: Graph, q: Queue, n: nat, t: nat, d: set<nat>)
    requires Running(y, g, q, Idle, {n}) && n < |g.nodes| && Prev(g, n) <= Points(g, n) && d == Points(g, n) - Prev(g, n)
    ensures d == {} ==> Slack(Begin(g, n, t).nodes, Objects(y.l)) == Slack(g.nodes, Objects(y.l))
    ensures d != {} ==> n != 0 && Slack(Begin(g, n, t).nodes, Objects(y.l)) < Slack(g.nodes, Objects(y.l))
  {
    var h := Begin(g, n, t);
    assert EdgesOk(y, g) by { hide Sound, AllCovered, WorkedOff, AllSettled; }
    hide Running;
    if d == {} {
      assert forall o: nat :: o in Points(g, n) ==> o in d || o in Prev(g, n);
      assert Points(g, n) == Prev(g, n);
      forall i: nat | i < |h.nodes| ensures h.nodes[i].prev == g.nodes[i].prev {
        assert Prev(h, i) == Prev(g, i);
      }
      SlackSame(h.nodes, g.nodes, Objects(y.l));
    } else {
      assert Points(g, n) <= Objects(y.l);
      SlackLess(g.nodes, h.nodes, Objects(y.l), n);
    }
  }

  lemma SteadySlack(y: System, g: Graph, h: Graph)
    requires Steady(g, h) && |g.nodes| == |h.nodes|
    ensures Slack(h.nodes, Objects(y.l)) == Slack(g.nodes, Objects(y.l))
  {
    forall i: nat | i < |g.nodes| ensures g.nodes[i].prev == h.nodes[i].prev {
      assert Prev(g, i) == Prev(h, i);
    }
    SlackSame(g.nodes, h.nodes, Objects(y.l));
  }

  lemma SteadyPrev(g: Graph, h: Graph, n: nat)
    requires Steady(g, h)
    ensures Prev(h, n) == Prev(g, n)
  {
  }

  // What the four phases of a visit add up to.
  lemma ListsDone(y: System, g0: Graph, g1: Graph, g2: Graph, g3: Graph, g4: Graph, n: nat, d: set<nat>)
    requires Later(g0, g1) && Later(g1, g2) && Later(g2, g3) && Later(g3, g4)
    requires Steady(g0, g1) && Steady(g1, g2) && Steady(g2, g3) && Steady(g3, g4)
    requires forall k :: ListOf(g2, n, k) <= ListOf(g1, n, k)
    requires forall k :: ListOf(g3, n, k) <= ListOf(g2, n, k)
    requires SameLists(g3, g4)
    requires AllDone(y.l, g1, ListOf(g1, n, Load), d) && AllDone(y.l, g2, ListOf(g2, n, Store), d) && AllDone(y.l, g3, ListOf(g3, n, Gep), d)
    ensures Later(g0, g3) && Steady(g0, g3) && Later(g0, g4) && Steady(g0, g4)
    ensures AllDone(y.l, g4, LoadTo(g4, n), d) && AllDone(y.l, g4, StoreFrom(g4, n), d) && AllDone(y.l, g4, GepTo(g4, n), d)
  {
    hide Later, Steady, AllDone, ListOf, SameLists;
    LaterTrans(g0, g1, g2);
    LaterTrans(g0, g2, g3);
    LaterTrans(g0, g3, g4);
    LaterTrans(g2, g3, g4);
    LaterTrans(g1, g2, g4);
    SteadyTrans(g0, g1, g2);
    SteadyTrans(g0, g2, g3);
    SteadyTrans(g0, g3, g4);
    SameListOf(g3, g4, n);
    LaterAllDone(y.l, g1, g4, ListOf(g1, n, Load), d);
    LaterAllDone(y.l, g2, g4, ListOf(g2, n, Store), d);
    LaterAllDone(y.l, g3, g4, ListOf(g3, n, Gep), d);
    AllDoneFewer(y.l, g4, ListOf(g1, n, Load), ListOf(g4, n, Load), d);
    AllDoneFewer(y.l, g4, ListOf(g2, n, Store), ListOf(g4, n, Store), d);
    AllDoneFewer(y.l, g4, ListOf(g3, n, Gep), ListOf(g4, n, Gep), d);
    ListOfKinds(g4, n);
  }

  lemma AllDoneFewer(l: Layout, g: Graph, ids: set<nat>, few: set<nat>, d: set<nat>)
    requires AllDone(l, g, ids, d) && few <= ids
    ensures AllDone(l, g, few, d)
  {
    hide CplxDone;
  }

  lemma ListOfKinds(g: Graph, n: nat)
    ensures ListOf(g, n, Load) == LoadTo(g, n) && ListOf(g, n, Store) == StoreFrom(g, n) && ListOf(g, n, Gep) == GepTo(g, n)
  {
  }

  // ---------- The end ----------

  // With an empty worklist the graph has converged to the least solution.
  lemma Converged(y: System, g: Graph, q: Queue)
    requires Running(y, g, q, Idle, {}) && q == Queue(map[], map[])
    ensures IsLeast(y, Result(g))
  {
    hide Done, Result, CplxSound, EdgesSound, Covered;
    forall n: nat | IsRep(g.root, n) ensures Done(y.l, g, n, Points(g, n)) {
      assert Settled(y, g, q, Idle, n);
    }
    hide Points;
    ResultSolves(y, g);
    forall t | Solves(y, t) ensures Below(Result(g), t) {
      ResultBelow(y, g, t);
    }
  }

  ghost predicate KeysIn(m: map<nat, nat>, n: nat) {
    forall k: nat :: k in m ==> k < n
  }

  lemma NoKeys(n: nat)
    ensures KeysIn(map[], n)
  {
  }

  // ---------- The measure of the solver's loop ----------

  ghost predicate Progress(reps: nat, slack: nat, entries: nat, reps': nat, slack': nat, entries': nat) {
    reps' < reps || (reps' == reps && (slack' < slack || (slack' == slack && entries' < entries)))
  }

  function Entries(q: Queue): nat {
    |q.curr| + |q.next|
  }

  lemma PoppedEntries(q: Queue, n: nat)
    requires n in q.curr
    ensures Entries(q.(curr := q.curr - {n})) < Entries(q)
  {
    var m := q.curr - {n};
    assert m.Keys == q.curr.Keys - {n};
  }
}
