/** The solver's constraint graph as a value: its invariants, and the single steps the
    solver takes on it. */
module ConstraintGraph {
  import opened Constraints
  import opened Entailment
  import opened UnionFind

  // prev is what pointsTo was when the last visit began; loadTo, storeFrom and gepTo
  // are indices into the list of complex constraints.
  datatype Node = Node(pointsTo: set<nat>, prev: set<nat>, copyTo: set<nat>,
                       loadTo: set<nat>, storeFrom: set<nat>, gepTo: set<nat>, vtime: nat)

  const Blank := Node({}, {}, {}, {}, {}, {}, 0)

  // What the graph was when solving began.
  datatype Begun = Begun(root: seq<nat>, nodes: seq<Node>)

  // root maps every node to its representative; cplx is the list of complex constraints.
  datatype Graph = Graph(root: seq<nat>, nodes: seq<Node>, cplx: seq<Constraint>, begun: Begun)

  function Rt(root: seq<nat>, n: nat): nat { if n < |root| then root[n] else n }

  function Nd(g: Graph, n: nat): Node { if n < |g.nodes| then g.nodes[n] else Blank }

  function Points(g: Graph, n: nat): set<nat> { Nd(g, n).pointsTo }

  function Prev(g: Graph, n: nat): set<nat> { Nd(g, n).prev }

  function CopyTo(g: Graph, n: nat): set<nat> { Nd(g, n).copyTo }

  function LoadTo(g: Graph, n: nat): set<nat> { Nd(g, n).loadTo }

  function StoreFrom(g: Graph, n: nat): set<nat> { Nd(g, n).storeFrom }

  function GepTo(g: Graph, n: nat): set<nat> { Nd(g, n).gepTo }

  function CplxOf(g: Graph, n: nat): set<nat> { LoadTo(g, n) + StoreFrom(g, n) + GepTo(g, n) }

  // The nodes of h keep the lists they have in g.
  ghost predicate SameLists(g: Graph, h: Graph) {
    forall n: nat :: LoadTo(h, n) == LoadTo(g, n) && StoreFrom(h, n) == StoreFrom(g, n) && GepTo(h, n) == GepTo(g, n)
  }

  function Vtime(g: Graph, n: nat): nat { Nd(g, n).vtime }

  function Cx(cplx: seq<Constraint>, i: nat): Constraint { if i < |cplx| then cplx[i] else Constraint(AddrOf, 0, 0, 0) }

  predicate IsRep(root: seq<nat>, n: nat) { n < |root| && root[n] == n }

  // The node that a complex constraint dereferences (or adds an offset to).
  function Base(c: Constraint): nat { if c.typ == Store then c.dest else c.src }

  // ---------- Shape ----------

  predicate Proper(root: seq<nat>, n: nat) { 0 < n < |root| && n != I2P }

  ghost predicate RootsOk(y: System, g: Graph) {
    && |g.root| == |g.nodes| == |y.rep| && |y.l.objSz| <= |y.rep| && IsRootMap(g.root)
    && (forall n: nat :: n < |g.root| ==> (Rt(g.root, n) == 0 <==> n == 0) && (Rt(g.root, n) == I2P <==> n == I2P))
    && (forall n: nat :: n < |g.root| && !IsRep(g.root, n) ==> Points(g, n) == {} && CopyTo(g, n) == {} && CplxOf(g, n) == {})
    && (forall n: nat :: n < |y.rep| ==> y.rep[n] < |y.rep| && Rt(g.root, y.rep[n]) == Rt(g.root, n))
  }

  ghost predicate EdgesOk(y: System, g: Graph) {
    && (forall n: nat, b: nat {:trigger b in CopyTo(g, n)} :: b in CopyTo(g, n) ==> Proper(g.root, n) && Proper(g.root, b) && b != n)
    && (forall n: nat, o: nat {:trigger o in Points(g, n)} :: o in Points(g, n) ==> 0 < n && 0 < o < |y.l.objSz|)
  }

  ghost predicate CplxOk(g: Graph) {
    && (forall n: nat, i: nat {:trigger i in LoadTo(g, n)} :: i in LoadTo(g, n) ==> i < |g.cplx| && Cx(g.cplx, i).typ == Load && Rt(g.root, Cx(g.cplx, i).src) == n)
    && (forall n: nat, i: nat {:trigger i in StoreFrom(g, n)} :: i in StoreFrom(g, n) ==> i < |g.cplx| && Cx(g.cplx, i).typ == Store && Rt(g.root, Cx(g.cplx, i).dest) == n)
    && (forall n: nat, i: nat {:trigger i in GepTo(g, n)} :: i in GepTo(g, n) ==> i < |g.cplx| && Cx(g.cplx, i).typ == Gep && Rt(g.root, Cx(g.cplx, i).src) == n)
    && (forall i: nat :: i < |g.cplx| ==> Proper(g.root, Cx(g.cplx, i).dest) && Proper(g.root, Cx(g.cplx, i).src))
  }

  // ---------- Soundness: nothing but what every solution contains ----------

  ghost predicate PointsSound(y: System, g: Graph) {
    forall n: nat, o: nat {:trigger o in Points(g, n)} :: o in Points(g, n) ==> Member(y, o, n)
  }

  ghost predicate EdgesSound(y: System, g: Graph) {
    forall n: nat, b: nat {:trigger b in CopyTo(g, n)} :: b in CopyTo(g, n) ==> Le(y, n, b)
  }

  ghost predicate RootsSound(y: System, g: Graph) {
    forall n: nat :: Eq(y, n, Rt(g.root, n))
  }

  ghost predicate CplxSound(y: System, g: Graph) {
    forall i: nat :: i < |g.cplx| ==> Holds(y, Cx(g.cplx, i))
  }

  // ---------- Completeness: every constraint is represented, and worked off up to prev ----------

  ghost predicate Edge(g: Graph, a: nat, b: nat) {
    a == b || exists x: nat :: x in CopyTo(g, a) && Rt(g.root, x) == b
  }

  // Constraints that differ only in merged nodes.
  ghost predicate Same(root: seq<nat>, c: Constraint, d: Constraint) {
    c.typ == d.typ && c.off == d.off && Rt(root, c.dest) == Rt(root, d.dest) && Rt(root, c.src) == Rt(root, d.src)
  }

  ghost predicate Listed(g: Graph, c: Constraint) {
    exists i: nat :: i in CplxOf(g, Rt(g.root, Base(c))) && Same(g.root, Cx(g.cplx, i), c)
  }

  ghost predicate Covered(g: Graph, c: Constraint) {
    match c.typ
    case AddrOf => c.src in Points(g, Rt(g.root, c.dest))
    case Copy => Edge(g, Rt(g.root, c.src), Rt(g.root, c.dest))
    case _ => Listed(g, c)
  }

  ghost predicate AllCovered(y: System, g: Graph) {
    forall c :: c in y.cs ==> Covered(g, c)
  }

  // The members pts of n have been propagated along its copy edges.
  ghost predicate CopyDone(g: Graph, n: nat, pts: set<nat>) {
    forall b: nat {:trigger b in CopyTo(g, n)} :: b in CopyTo(g, n) ==> pts <= Points(g, Rt(g.root, b))
  }

  // Constraint c has been worked off for the members pts of its base.
  ghost predicate CplxDone(l: Layout, g: Graph, c: Constraint, pts: set<nat>) {
    match c.typ
    case Load => forall o: nat :: o in Targets(l, pts, c.off) ==> Edge(g, Rt(g.root, o), Rt(g.root, c.dest))
    case Store => forall o: nat :: o in Targets(l, pts, c.off) ==> Edge(g, Rt(g.root, c.src), Rt(g.root, o))
    case _ => Shift(l, pts, c.off) <= Points(g, Rt(g.root, c.dest))
  }

  ghost predicate Done(l: Layout, g: Graph, n: nat, pts: set<nat>) {
    && CopyDone(g, n, pts)
    && forall i: nat {:trigger i in CplxOf(g, n)} :: i in CplxOf(g, n) ==> CplxDone(l, g, Cx(g.cplx, i), pts)
  }

  // ---------- The result ----------

  function Result(g: Graph): (s: Sol)
    ensures forall n: nat :: Pts(s, n) == if n < |g.root| then Points(g, Rt(g.root, n)) else {}
  {
    map n: nat | n < |g.root| :: Points(g, g.root[n])
  }

  ghost predicate Sound(y: System, g: Graph) {
    PointsSound(y, g) && EdgesSound(y, g) && RootsSound(y, g) && CplxSound(y, g)
  }

  ghost predicate Shape(y: System, g: Graph) {
    RootsOk(y, g) && EdgesOk(y, g) && CplxOk(g)
  }

  ghost predicate Inv(y: System, g: Graph) {
    Shape(y, g) && Sound(y, g) && AllCovered(y, g)
  }

  lemma ResultBelow(y: System, g: Graph, t: Sol)
    requires PointsSound(y, g) && RootsSound(y, g) && Solves(y, t)
    ensures Below(Result(g), t)
  {
    forall n: nat ensures Pts(Result(g), n) <= Pts(t, n) {
      assert Eq(y, n, Rt(g.root, n));
    }
  }

  // When every representative is done for its whole set, the sets solve the system.
  lemma ResultSolves(y: System, g: Graph)
    requires Shape(y, g) && AllCovered(y, g)
    requires forall n: nat :: IsRep(g.root, n) ==> Done(y.l, g, n, Points(g, n))
    ensures Solves(y, Result(g))
  {
    var s := Result(g);
    forall c | c in y.cs ensures Sat(y.l, s, c) {
      ResultSat(y, g, c);
    }
  }

  lemma EdgeIncludes(y: System, g: Graph, a: nat, b: nat)
    requires Edge(g, a, b) && RootsOk(y, g) && EdgesOk(y, g) && IsRep(g.root, b)
    requires forall n: nat :: IsRep(g.root, n) ==> Done(y.l, g, n, Points(g, n))
    ensures Points(g, a) <= Points(g, b)
  {
    hide CplxDone;
    if a != b {
      var x: nat :| x in CopyTo(g, a) && Rt(g.root, x) == b;
      assert IsRep(g.root, a);
    }
  }

  lemma ResultSat(y: System, g: Graph, c: Constraint)
    requires RootsOk(y, g) && EdgesOk(y, g) && CplxOk(g) && Covered(g, c)
    requires forall n: nat :: IsRep(g.root, n) ==> Done(y.l, g, n, Points(g, n))
    ensures Sat(y.l, Result(g), c)
  {
    hide Edge;
    match c.typ
    case AddrOf =>
    case Copy =>
      if c.src < |g.root| {
        EdgeInRange(y, g, Rt(g.root, c.src), Rt(g.root, c.dest));
        EdgeIncludes(y, g, Rt(g.root, c.src), Rt(g.root, c.dest));
      }
    case _ =>
      var n := Rt(g.root, Base(c));
      var i: nat :| i in CplxOf(g, n) && Same(g.root, Cx(g.cplx, i), c);
      ListedSat(y, g, c, n, i);
  }

  lemma ListedSat(y: System, g: Graph, c: Constraint, n: nat, i: nat)
    requires RootsOk(y, g) && EdgesOk(y, g) && CplxOk(g) && n == Rt(g.root, Base(c))
    requires c.typ != AddrOf && c.typ != Copy && i in CplxOf(g, n) && Same(g.root, Cx(g.cplx, i), c)
    requires forall n: nat :: IsRep(g.root, n) ==> Done(y.l, g, n, Points(g, n))
    ensures Sat(y.l, Result(g), c)
  {
    hide Edge, Done, EdgesOk;
    var d := Cx(g.cplx, i);
    assert IsRep(g.root, n);
    assert CplxDone(y.l, g, d, Points(g, n)) by { DoneAt(y, g, n, i); }
    forall o: nat | o in Targets(y.l, Points(g, n), c.off) && c.typ == Load
      ensures Pts(Result(g), o) <= Pts(Result(g), c.dest) {
      if o < |g.root| {
        EdgeIncludes(y, g, Rt(g.root, o), Rt(g.root, d.dest));
      }
    }
    forall o: nat | o in Targets(y.l, Points(g, n), c.off) && c.typ == Store
      ensures Pts(Result(g), c.src) <= Pts(Result(g), o) {
      EdgeInRange(y, g, Rt(g.root, d.src), Rt(g.root, o));
      EdgeIncludes(y, g, Rt(g.root, d.src), Rt(g.root, o));
    }
  }

  lemma EdgeInRange(y: System, g: Graph, a: nat, b: nat)
    requires Edge(g, a, b) && RootsOk(y, g) && EdgesOk(y, g) && a < |g.root|
    ensures b < |g.root|
  {
  }

  lemma DoneAt(y: System, g: Graph, n: nat, i: nat)
    requires Done(y.l, g, n, Points(g, n)) && i in CplxOf(g, n)
    ensures CplxDone(y.l, g, Cx(g.cplx, i), Points(g, n))
  {
  }

  // ---------- Growth of the graph ----------

  ghost predicate RootsLater(g: Graph, h: Graph) {
    |h.root| == |g.root| && forall n: nat :: Rt(h.root, Rt(g.root, n)) == Rt(h.root, n)
  }

  ghost predicate PointsLater(g: Graph, h: Graph) {
    forall n: nat :: Points(g, n) <= Points(h, Rt(h.root, n))
  }

  ghost predicate EdgesLater(g: Graph, h: Graph) {
    forall a: nat, b: nat :: Edge(g, a, b) ==> Edge(h, Rt(h.root, a), Rt(h.root, b))
  }

  ghost predicate CplxLater(g: Graph, h: Graph) {
    |h.cplx| == |g.cplx| && forall i: nat :: Same(h.root, Cx(g.cplx, i), Cx(h.cplx, i))
  }

  // No constraint is dropped from its node unless another one says the same.
  ghost predicate ListsLater(g: Graph, h: Graph) {
    forall n: nat, i: nat {:trigger i in CplxOf(g, n)} :: i in CplxOf(g, n) ==> StillListed(h, n, i)
  }

  ghost predicate StillListed(h: Graph, n: nat, i: nat) {
    exists j: nat :: j in CplxOf(h, Rt(h.root, n)) && Same(h.root, Cx(h.cplx, j), Cx(h.cplx, i))
  }

  // h is what g has become: merged further, with no member, edge or constraint lost.
  ghost predicate Later(g: Graph, h: Graph) {
    RootsLater(g, h) && PointsLater(g, h) && EdgesLater(g, h) && CplxLater(g, h) && ListsLater(g, h)
  }

  lemma LaterCplxDone(l: Layout, g: Graph, h: Graph, c: Constraint, d: Constraint, pts: set<nat>)
    requires RootsLater(g, h) && PointsLater(g, h) && EdgesLater(g, h) && Same(h.root, c, d)
    requires CplxDone(l, g, c, pts)
    ensures CplxDone(l, h, d, pts)
  {
    hide Edge;
    match c.typ
    case Load =>
      forall o: nat | o in Targets(l, pts, d.off) ensures Edge(h, Rt(h.root, o), Rt(h.root, d.dest)) {
        assert Edge(g, Rt(g.root, o), Rt(g.root, c.dest));
        assert Rt(h.root, Rt(g.root, o)) == Rt(h.root, o) && Rt(h.root, Rt(g.root, c.dest)) == Rt(h.root, c.dest);
      }
    case Store =>
      forall o: nat | o in Targets(l, pts, d.off) ensures Edge(h, Rt(h.root, d.src), Rt(h.root, o)) {
        assert Edge(g, Rt(g.root, c.src), Rt(g.root, o));
        assert Rt(h.root, Rt(g.root, o)) == Rt(h.root, o) && Rt(h.root, Rt(g.root, c.src)) == Rt(h.root, c.src);
      }
    case _ =>
      assert Points(g, Rt(g.root, c.dest)) <= Points(h, Rt(h.root, Rt(g.root, c.dest)));
  }

  lemma LaterCovered(y: System, g: Graph, h: Graph)
    requires Later(g, h) && AllCovered(y, g)
    ensures AllCovered(y, h)
  {
    forall c | c in y.cs ensures Covered(h, c) {
      LaterCovers(g, h, c);
    }
  }

  lemma LaterCovers(g: Graph, h: Graph, c: Constraint)
    requires RootsLater(g, h) && PointsLater(g, h) && EdgesLater(g, h) && CplxLater(g, h) && ListsLater(g, h)
    requires Covered(g, c)
    ensures Covered(h, c)
  {
    hide Edge;
    match c.typ
    case AddrOf =>
      assert Points(g, Rt(g.root, c.dest)) <= Points(h, Rt(h.root, Rt(g.root, c.dest)));
    case Copy =>
      assert Edge(h, Rt(h.root, Rt(g.root, c.src)), Rt(h.root, Rt(g.root, c.dest)));
    case _ =>
      LaterListed(g, h, c);
  }

  lemma LaterListed(g: Graph, h: Graph, c: Constraint)
    requires RootsLater(g, h) && CplxLater(g, h) && ListsLater(g, h) && Listed(g, c)
    ensures Listed(h, c)
  {
    hide CplxOf, Same;
    var b := Rt(g.root, Base(c));
    var i: nat :| i in CplxOf(g, b) && Same(g.root, Cx(g.cplx, i), c);
    assert StillListed(h, b, i);
    var j: nat :| j in CplxOf(h, Rt(h.root, b)) && Same(h.root, Cx(h.cplx, j), Cx(h.cplx, i));
    SameLater(g, h, Cx(g.cplx, i), c);
    assert Same(h.root, Cx(g.cplx, i), Cx(h.cplx, i));
    SameThrice(h.root, Cx(h.cplx, j), Cx(h.cplx, i), Cx(g.cplx, i), c);
  }

  lemma SameThrice(root: seq<nat>, a: Constraint, b: Constraint, c: Constraint, d: Constraint)
    requires Same(root, a, b) && Same(root, c, b) && Same(root, c, d)
    ensures Same(root, a, d)
  {
  }

  lemma SameLater(g: Graph, h: Graph, c: Constraint, d: Constraint)
    requires RootsLater(g, h) && Same(g.root, c, d)
    ensures Same(h.root, c, d)
  {
    assert Rt(h.root, Rt(g.root, c.dest)) == Rt(h.root, c.dest) && Rt(h.root, Rt(g.root, c.src)) == Rt(h.root, c.src);
    assert Rt(h.root, Rt(g.root, d.dest)) == Rt(h.root, d.dest) && Rt(h.root, Rt(g.root, d.src)) == Rt(h.root, d.src);
  }

  // The copy edge from n to b was there in g, up to merging.
  ghost predicate OldEdge(g: Graph, h: Graph, n: nat, b: nat) {
    exists a: nat :: a in CopyTo(g, n) && Rt(h.root, a) == Rt(h.root, b)
  }

  // What is done stays done, as long as new copy edges start out propagated.
  lemma LaterDone(l: Layout, g: Graph, h: Graph, n: nat, pts: set<nat>)
    requires Later(g, h) && Done(l, g, n, pts) && CplxOf(h, n) <= CplxOf(g, n)
    requires forall b: nat {:trigger b in CopyTo(h, n)} :: b in CopyTo(h, n) ==> OldEdge(g, h, n, b) || pts <= Points(h, Rt(h.root, b))
    ensures Done(l, h, n, pts)
  {
    hide Edge, CplxDone;
    forall b: nat | b in CopyTo(h, n) ensures pts <= Points(h, Rt(h.root, b)) {
      if OldEdge(g, h, n, b) {
        var a: nat :| a in CopyTo(g, n) && Rt(h.root, a) == Rt(h.root, b);
        assert Points(g, Rt(g.root, a)) <= Points(h, Rt(h.root, Rt(g.root, a)));
      }
    }
    forall i: nat | i in CplxOf(h, n) ensures CplxDone(l, h, Cx(h.cplx, i), pts) {
      assert Same(h.root, Cx(g.cplx, i), Cx(h.cplx, i));
      LaterCplxDone(l, g, h, Cx(g.cplx, i), Cx(h.cplx, i), pts);
    }
  }

  lemma LaterRefl(y: System, g: Graph)
    requires RootsOk(y, g)
    ensures Later(g, g)
  {
    hide Same;
    forall n: nat, i: nat | i in CplxOf(g, n) ensures StillListed(g, n, i) {
      assert IsRep(g.root, n);
      assert Same(g.root, Cx(g.cplx, i), Cx(g.cplx, i)) by { SameRefl(g.root, Cx(g.cplx, i)); }
    }
    forall i: nat ensures Same(g.root, Cx(g.cplx, i), Cx(g.cplx, i)) {
      SameRefl(g.root, Cx(g.cplx, i));
    }
  }

  lemma SameRefl(root: seq<nat>, c: Constraint)
    ensures Same(root, c, c)
  {
  }

  lemma LaterTrans(g: Graph, h: Graph, k: Graph)
    requires Later(g, h) && Later(h, k)
    ensures Later(g, k)
  {
    RootsTrans(g, h, k);
    hide RootsLater, EdgesLater, Edge;
    forall i: nat ensures Same(k.root, Cx(g.cplx, i), Cx(k.cplx, i)) {
      assert Same(h.root, Cx(g.cplx, i), Cx(h.cplx, i)) && Same(k.root, Cx(h.cplx, i), Cx(k.cplx, i));
      SameLater(h, k, Cx(g.cplx, i), Cx(h.cplx, i));
    }
    forall n: nat, i: nat | i in CplxOf(g, n) ensures StillListed(k, n, i) {
      StillListedTrans(g, h, k, n, i);
    }
  }

  lemma RootsTrans(g: Graph, h: Graph, k: Graph)
    requires RootsLater(g, h) && RootsLater(h, k)
    requires PointsLater(g, h) && PointsLater(h, k) && EdgesLater(g, h) && EdgesLater(h, k)
    ensures RootsLater(g, k) && PointsLater(g, k) && EdgesLater(g, k)
  {
    hide Edge;
    forall n: nat ensures Rt(k.root, Rt(g.root, n)) == Rt(k.root, n) && Rt(k.root, Rt(h.root, n)) == Rt(k.root, n) {
      assert Rt(k.root, Rt(h.root, Rt(g.root, n))) == Rt(k.root, Rt(g.root, n));
      assert Rt(h.root, Rt(g.root, n)) == Rt(h.root, n);
    }
    forall a: nat, b: nat | Edge(g, a, b) ensures Edge(k, Rt(k.root, a), Rt(k.root, b)) {
      assert Edge(h, Rt(h.root, a), Rt(h.root, b));
    }
  }

  lemma StillListedTrans(g: Graph, h: Graph, k: Graph, n: nat, i: nat)
    requires RootsLater(h, k) && CplxLater(h, k) && ListsLater(h, k) && StillListed(h, n, i)
    ensures StillListed(k, n, i)
  {
    hide Same;
    var j: nat :| j in CplxOf(h, Rt(h.root, n)) && Same(h.root, Cx(h.cplx, j), Cx(h.cplx, i));
    assert StillListed(k, Rt(h.root, n), j);
    var m: nat :| m in CplxOf(k, Rt(k.root, Rt(h.root, n))) && Same(k.root, Cx(k.cplx, m), Cx(k.cplx, j));
    SameLater(h, k, Cx(h.cplx, j), Cx(h.cplx, i));
    SameChain(k.root, Cx(k.cplx, m), Cx(k.cplx, j), Cx(h.cplx, j), Cx(h.cplx, i), Cx(k.cplx, i));
  }

  lemma SameChain(root: seq<nat>, a: Constraint, b: Constraint, c: Constraint, d: Constraint, e: Constraint)
    requires Same(root, a, b) && Same(root, c, b) && Same(root, c, d) && Same(root, d, e)
    ensures Same(root, a, e)
  {
  }

  // ---------- The worklist ----------

  // The node visited at present, the members it had when the visit began, and those of
  // them that an earlier visit had worked off.
  datatype Visit = Idle | Visit(n: nat, pts: set<nat>, before: set<nat>)

  predicate Visiting(v: Visit, n: nat) { v.Visit? && v.n == n }

  datatype Queue = Queue(curr: map<nat, nat>, next: map<nat, nat>)

  // n has an entry that will not be skipped as stale.
  ghost predicate Queued(g: Graph, q: Queue, n: nat) {
    (n in q.curr && q.curr[n] >= Vtime(g, n)) || (n in q.next && q.next[n] >= Vtime(g, n))
  }

  // No work is lost at n: it is queued, or there is nothing to do for it.
  ghost predicate Settled(y: System, g: Graph, q: Queue, v: Visit, n: nat) {
    Queued(g, q, n) || if Visiting(v, n) then v.pts == Points(g, n) else Done(y.l, g, n, Points(g, n))
  }

  ghost predicate AllSettled(y: System, g: Graph, q: Queue, v: Visit, except: set<nat>) {
    forall n: nat :: IsRep(g.root, n) && n !in except ==> Settled(y, g, q, v, n)
  }

  // ---------- Nodes without an entry ----------

  function Old(g: Graph, n: nat): Node { if n < |g.begun.nodes| then g.begun.nodes[n] else Blank }

  // n has not been merged with another node since solving began.
  ghost predicate Single(g: Graph, n: nat) {
    forall m: nat :: Rt(g.root, m) == n ==> Rt(g.begun.root, m) == n
  }

  // n had members and no outgoing constraint when solving began, so that it was not queued; it
  // has not grown since, nor been merged or visited.
  ghost predicate Asleep(g: Graph, n: nat) {
    && Old(g, n).pointsTo != {} && Old(g, n).copyTo + Old(g, n).loadTo + Old(g, n).storeFrom + Old(g, n).gepTo == {}
    && Points(g, n) == Old(g, n).pointsTo && Prev(g, n) == {} && Vtime(g, n) == 0 && Single(g, n)
  }

  // Since solving began, classes have only been merged, sets have only grown, and constraints
  // have been moved by merging only.
  ghost predicate Grown(g: Graph) {
    forall n: nat :: IsRep(g.root, n) ==>
      && IsRep(g.begun.root, n) && Old(g, n).pointsTo <= Points(g, n)
      && (Single(g, n) ==> CplxOf(g, n) <= Old(g, n).loadTo + Old(g, n).storeFrom + Old(g, n).gepTo)
  }

  // A representative with members that it was not yet visited with has a live entry, unless
  // it is asleep; nodes in except are about to be pushed.
  ghost predicate AllAwake(g: Graph, q: Queue, except: set<nat>) {
    forall n: nat :: IsRep(g.root, n) ==>
      if n in except then !Asleep(g, n) else Points(g, n) != Prev(g, n) ==> (Queued(g, q, n) <==> !Asleep(g, n))
  }

  ghost predicate Watched(g: Graph, q: Queue, except: set<nat>) {
    Grown(g) && AllAwake(g, q, except)
  }

  // The members of n that have been worked off for certain.
  function Worked(g: Graph, v: Visit, n: nat): set<nat> {
    if Visiting(v, n) then v.before else Prev(g, n)
  }

  ghost predicate WorkedOff(y: System, g: Graph, v: Visit) {
    forall n: nat :: IsRep(g.root, n) ==> Worked(g, v, n) <= Points(g, n) && Done(y.l, g, n, Worked(g, v, n))
  }
}
