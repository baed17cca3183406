/** The steps of difference propagation on the constraint graph, and what they keep. */
module Propagation {
  import opened Constraints
  import opened Entailment
  import opened UnionFind
  import opened ConstraintGraph

  // What holds between any two steps: the graph represents the constraints and nothing more,
  // outside `except` no node with work left is missing from the worklist, and it is known which
  // nodes have no entry although they were not visited with all of their members.
  ghost predicate Running(y: System, g: Graph, q: Queue, v: Visit, except: set<nat>) {
    Inv(y, g) && WorkedOff(y, g, v) && AllSettled(y, g, q, v, except) && Watched(g, q, except)
  }

  // ---------- Updates of one node ----------

  function GrowAt(nodes: seq<Node>, d: nat, m: set<nat>): (r: seq<Node>)
    requires d < |nodes|
    ensures |r| == |nodes|
  {
    nodes[d := nodes[d].(pointsTo := nodes[d].pointsTo + m)]
  }

  function LinkAt(nodes: seq<Node>, a: nat, b: nat): (r: seq<Node>)
    requires a < |nodes|
    ensures |r| == |nodes|
  {
    nodes[a := nodes[a].(copyTo := nodes[a].copyTo + {b})]
  }

  function DropAt(nodes: seq<Node>, n: nat, i: nat): (r: seq<Node>)
    requires n < |nodes|
    ensures |r| == |nodes|
  {
    nodes[n := nodes[n].(loadTo := nodes[n].loadTo - {i}, storeFrom := nodes[n].storeFrom - {i}, gepTo := nodes[n].gepTo - {i})]
  }

  function BeginAt(nodes: seq<Node>, n: nat, t: nat): (r: seq<Node>)
    requires n < |nodes|
    ensures |r| == |nodes|
  {
    nodes[n := nodes[n].(vtime := t, prev := nodes[n].pointsTo)]
  }

  // ---------- The steps ----------

  // Add members to the points-to set of d.
  function Grow(g: Graph, d: nat, m: set<nat>): (h: Graph)
    requires d < |g.nodes|
    ensures h.root == g.root && h.cplx == g.cplx && |h.nodes| == |g.nodes| && h.begun == g.begun
    ensures forall n: nat :: Points(h, n) == if n == d then Points(g, n) + m else Points(g, n)
    ensures forall n: nat :: CopyTo(h, n) == CopyTo(g, n) && Prev(h, n) == Prev(g, n) && Vtime(h, n) == Vtime(g, n)
    ensures SameLists(g, h)
  {
    g.(nodes := GrowAt(g.nodes, d, m))
  }

  // Add the copy edge from a to b.
  function Link(g: Graph, a: nat, b: nat): (h: Graph)
    requires a < |g.nodes|
    ensures h.root == g.root && h.cplx == g.cplx && |h.nodes| == |g.nodes| && h.begun == g.begun
    ensures forall n: nat :: CopyTo(h, n) == if n == a then CopyTo(g, n) + {b} else CopyTo(g, n)
    ensures forall n: nat :: Points(h, n) == Points(g, n) && Prev(h, n) == Prev(g, n) && Vtime(h, n) == Vtime(g, n)
    ensures SameLists(g, h)
  {
    g.(nodes := LinkAt(g.nodes, a, b))
  }

  // ---------- Common parts ----------

  lemma ListsSame(y: System, g: Graph, h: Graph)
    requires RootsOk(y, g) && h.root == g.root && h.cplx == g.cplx && SameLists(g, h)
    ensures CplxLater(g, h) && ListsLater(g, h) && forall n: nat :: CplxOf(h, n) == CplxOf(g, n)
  {
    forall i: nat ensures Same(h.root, Cx(g.cplx, i), Cx(h.cplx, i)) {
      SameRefl(h.root, Cx(g.cplx, i));
    }
    forall n: nat, i: nat | i in CplxOf(g, n) ensures StillListed(h, n, i) {
      assert IsRep(g.root, n);
      SameRefl(h.root, Cx(h.cplx, i));
    }
  }

  lemma CplxOkSame(g: Graph, h: Graph)
    requires CplxOk(g) && h.root == g.root && h.cplx == g.cplx && SameLists(g, h)
    ensures CplxOk(h)
  {
  }

  lemma EdgesGrow(y: System, g: Graph, h: Graph)
    requires RootsOk(y, g) && h.root == g.root && forall n: nat :: CopyTo(g, n) <= CopyTo(h, n)
    ensures EdgesLater(g, h)
  {
    LaterRefl(y, g);
    hide PointsLater, CplxLater, ListsLater;
    forall a: nat, b: nat | Edge(g, a, b) ensures Edge(h, Rt(h.root, a), Rt(h.root, b)) {
      assert Edge(g, Rt(g.root, a), Rt(g.root, b));
    }
  }

  // Merging nothing and taking nothing away.
  lemma LaterGrow(y: System, g: Graph, h: Graph)
    requires RootsOk(y, g) && h.root == g.root && CplxLater(g, h) && ListsLater(g, h)
    requires forall n: nat :: CopyTo(g, n) <= CopyTo(h, n) && Points(g, n) <= Points(h, n)
    ensures Later(g, h)
  {
    EdgesGrow(y, g, h);
    hide EdgesLater, CplxLater, ListsLater;
    forall n: nat ensures Points(g, n) <= Points(h, Rt(h.root, n)) {
      assert IsRep(g.root, n) || Points(g, n) == {} || n >= |g.root|;
    }
  }

  lemma GrowLater(y: System, g: Graph, d: nat, m: set<nat>)
    requires RootsOk(y, g) && d < |g.nodes|
    ensures Later(g, Grow(g, d, m))
  {
    hide Grow;
    ListsSame(y, g, Grow(g, d, m));
    hide ListsLater, CplxLater;
    LaterGrow(y, g, Grow(g, d, m));
  }

  lemma LinkLater(y: System, g: Graph, a: nat, b: nat)
    requires RootsOk(y, g) && a < |g.nodes|
    ensures Later(g, Link(g, a, b))
  {
    hide Link;
    ListsSame(y, g, Link(g, a, b));
    hide ListsLater, CplxLater;
    LaterGrow(y, g, Link(g, a, b));
  }

  // A step that merges nothing, starts no visit, grows no set outside `except`, and adds
  // only copy edges that start out propagated.
  ghost predicate Quiet(g: Graph, h: Graph, except: set<nat>) {
    && h.root == g.root
    && (forall n: nat :: Prev(h, n) == Prev(g, n) && Vtime(h, n) == Vtime(g, n) && Points(g, n) <= Points(h, n))
    && (forall n: nat :: n !in except ==> Points(h, n) == Points(g, n))
    && (forall n: nat :: CplxOf(h, n) <= CplxOf(g, n))
    && (forall n: nat, b: nat {:trigger b in CopyTo(h, n)} :: b in CopyTo(h, n) ==> OldEdge(g, h, n, b) || Points(g, n) <= Points(h, Rt(h.root, b)))
  }

  lemma QuietRunning(y: System, g: Graph, h: Graph, q: Queue, v: Visit, except: set<nat>, except': set<nat>)
    requires Running(y, g, q, v, except) && Inv(y, h) && Later(g, h) && Quiet(g, h, except') && except <= except' && h.begun == g.begun
    requires forall n: nat :: n in except' && n !in except ==> Points(h, n) != Points(g, n)
    ensures Running(y, h, q, v, except')
  {
    hide Inv, Later, Done, CplxOf;
    QuietWatched(g, h, q, except, except');
    hide Watched;
    forall n: nat | IsRep(h.root, n) ensures Worked(h, v, n) <= Points(h, n) && Done(y.l, h, n, Worked(h, v, n)) {
      assert IsRep(g.root, n);
      LaterDone(y.l, g, h, n, Worked(g, v, n));
    }
    forall n: nat | IsRep(h.root, n) && n !in except' ensures Settled(y, h, q, v, n) {
      assert IsRep(g.root, n);
      assert Settled(y, g, q, v, n);
      if Done(y.l, g, n, Points(g, n)) {
        LaterDone(y.l, g, h, n, Points(g, n));
      }
    }
  }

  lemma QuietWatched(g: Graph, h: Graph, q: Queue, except: set<nat>, except': set<nat>)
    requires Watched(g, q, except) && Quiet(g, h, except') && except <= except' && h.begun == g.begun
    requires forall n: nat :: n in except' && n !in except ==> Points(h, n) != Points(g, n)
    ensures Watched(h, q, except')
  {
    hide CplxOf;
    forall n: nat | IsRep(h.root, n) ensures
      if n in except' then !Asleep(h, n) else Points(h, n) != Prev(h, n) ==> (Queued(h, q, n) <==> !Asleep(h, n)) {
      assert Single(h, n) <==> Single(g, n);
      assert Old(g, n).pointsTo <= Points(g, n) <= Points(h, n);
    }
  }

  // ---------- Growing a points-to set ----------

  lemma GrowSound(y: System, g: Graph, d: nat, m: set<nat>)
    requires Shape(y, g) && Sound(y, g) && IsRep(g.root, d) && 0 < d
    requires forall o: nat :: o in m ==> Member(y, o, d) && 0 < o < |y.l.objSz|
    ensures Shape(y, Grow(g, d, m)) && Sound(y, Grow(g, d, m))
  {
    var h := Grow(g, d, m);
    CplxOkSame(g, h);
    ListsSame(y, g, h);
    hide Grow, CplxOk, Member, Le, ListsLater, CplxLater;
  }

  lemma GrowInv(y: System, g: Graph, d: nat, m: set<nat>)
    requires Inv(y, g) && IsRep(g.root, d) && 0 < d
    requires forall o: nat :: o in m ==> Member(y, o, d) && 0 < o < |y.l.objSz|
    ensures Inv(y, Grow(g, d, m))
  {
    GrowLater(y, g, d, m);
    LaterCovered(y, g, Grow(g, d, m));
    GrowSound(y, g, d, m);
    hide Grow, Shape, Sound, AllCovered, Later, Member;
  }

  lemma GrowQuiet(g: Graph, d: nat, m: set<nat>)
    requires d < |g.nodes|
    ensures var h := Grow(g, d, m);
      && (forall e: set<nat> :: m <= Points(g, d) || d in e ==> Quiet(g, h, e))
      && (!(m <= Points(g, d)) ==> Points(h, d) != Points(g, d))
  {
    hide Grow;
    var h := Grow(g, d, m);
    assert forall n: nat :: CplxOf(h, n) == CplxOf(g, n);
    hide CplxOf;
    forall n: nat, b: nat | b in CopyTo(h, n) ensures OldEdge(g, h, n, b) {
      assert b in CopyTo(g, n);
    }
  }

  lemma GrowRunning(y: System, g: Graph, q: Queue, v: Visit, except: set<nat>, d: nat, m: set<nat>)
    requires Running(y, g, q, v, except) && IsRep(g.root, d) && 0 < d
    requires forall o: nat :: o in m ==> Member(y, o, d) && 0 < o < |y.l.objSz|
    ensures Running(y, Grow(g, d, m), q, v, if m <= Points(g, d) then except else except + {d}) && Later(g, Grow(g, d, m))
  {
    var h := Grow(g, d, m);
    GrowInv(y, g, d, m);
    GrowLater(y, g, d, m);
    GrowQuiet(g, d, m);
    hide Grow, Inv, Later, Member, Watched, WorkedOff, AllSettled, Quiet;
    QuietRunning(y, g, h, q, v, except, if m <= Points(g, d) then except else except + {d});
  }

  // ---------- Adding a copy edge ----------

  lemma LinkSound(y: System, g: Graph, a: nat, b: nat)
    requires Shape(y, g) && Sound(y, g) && Proper(g.root, a) && Proper(g.root, b) && a != b && Le(y, a, b)
    requires a < |g.nodes| && IsRep(g.root, a)
    ensures Shape(y, Link(g, a, b)) && Sound(y, Link(g, a, b))
  {
    var h := Link(g, a, b);
    CplxOkSame(g, h);
    ListsSame(y, g, h);
    hide Link, CplxOk, Member, Le, ListsLater, CplxLater;
  }

  lemma LinkInv(y: System, g: Graph, a: nat, b: nat)
    requires Inv(y, g) && Proper(g.root, a) && Proper(g.root, b) && a != b && Le(y, a, b) && a < |g.nodes| && IsRep(g.root, a)
    ensures Inv(y, Link(g, a, b))
  {
    LinkLater(y, g, a, b);
    LaterCovered(y, g, Link(g, a, b));
    LinkSound(y, g, a, b);
    hide Link, Shape, Sound, AllCovered, Later, Le;
  }

  lemma LinkQuiet(g: Graph, a: nat, b: nat)
    requires IsRep(g.root, b) && Points(g, a) <= Points(g, b) && a < |g.nodes|
    ensures (forall e: set<nat> :: Quiet(g, Link(g, a, b), e)) && Edge(Link(g, a, b), a, b)
  {
    hide Link;
    var h := Link(g, a, b);
    assert forall n: nat :: CplxOf(h, n) == CplxOf(g, n);
    hide CplxOf;
    assert b in CopyTo(h, a) && Rt(h.root, b) == b;
    forall n: nat, x: nat | x in CopyTo(h, n) ensures OldEdge(g, h, n, x) || Points(g, n) <= Points(h, Rt(h.root, x)) {
      assert x in CopyTo(g, n) || (n == a && x == b);
    }
  }

  lemma LinkRunning(y: System, g: Graph, q: Queue, v: Visit, except: set<nat>, a: nat, b: nat)
    requires Running(y, g, q, v, except) && IsRep(g.root, a) && IsRep(g.root, b)
    requires Proper(g.root, a) && Proper(g.root, b) && a != b && Le(y, a, b) && Points(g, a) <= Points(g, b)
    ensures Running(y, Link(g, a, b), q, v, except) && Later(g, Link(g, a, b))
    ensures Edge(Link(g, a, b), a, b)
  {
    assert a < |g.nodes|;
    var h := Link(g, a, b);
    LinkInv(y, g, a, b);
    LinkLater(y, g, a, b);
    LinkQuiet(g, a, b);
    hide Link, Inv, Later, Le, Watched, WorkedOff, AllSettled, Quiet, Edge;
    QuietRunning(y, g, h, q, v, except, except);
  }

  // ---------- Rewriting a complex constraint to the representatives ----------

  function Canon(root: seq<nat>, c: Constraint): Constraint {
    c.(dest := Rt(root, c.dest), src := Rt(root, c.src))
  }

  function Rewrite(g: Graph, i: nat): (h: Graph)
    requires i < |g.cplx|
    ensures h.root == g.root && h.nodes == g.nodes && |h.cplx| == |g.cplx| && h.begun == g.begun
    ensures forall k: nat :: Cx(h.cplx, k) == if k == i then Canon(g.root, Cx(g.cplx, k)) else Cx(g.cplx, k)
  {
    g.(cplx := g.cplx[i := Canon(g.root, g.cplx[i])])
  }

  lemma RewriteLater(y: System, g: Graph, i: nat)
    requires RootsOk(y, g) && i < |g.cplx|
    ensures Later(g, Rewrite(g, i))
  {
    RewriteLists(y, g, i);
    hide ListsLater, CplxLater;
    assert forall n: nat :: CopyTo(Rewrite(g, i), n) == CopyTo(g, n) && Points(Rewrite(g, i), n) == Points(g, n);
    LaterGrow(y, g, Rewrite(g, i));
  }

  lemma RewriteLists(y: System, g: Graph, i: nat)
    requires RootsOk(y, g) && i < |g.cplx|
    ensures CplxLater(g, Rewrite(g, i)) && ListsLater(g, Rewrite(g, i))
  {
    var h := Rewrite(g, i);
    forall k: nat ensures Same(h.root, Cx(g.cplx, k), Cx(h.cplx, k)) {
    }
    forall n: nat, k: nat | k in CplxOf(g, n) ensures StillListed(h, n, k) {
      assert IsRep(g.root, n) && CplxOf(h, n) == CplxOf(g, n);
      SameRefl(h.root, Cx(h.cplx, k));
    }
  }

  lemma RewriteRunning(y: System, g: Graph, q: Queue, v: Visit, except: set<nat>, i: nat)
    requires Running(y, g, q, v, except) && i < |g.cplx| && Cx(g.cplx, i).typ != AddrOf
    ensures Running(y, Rewrite(g, i), q, v, except) && Later(g, Rewrite(g, i))
  {
    var h := Rewrite(g, i);
    RewriteLater(y, g, i);
    LaterCovered(y, g, h);
    HoldsModulo(y, Cx(g.cplx, i), Cx(h.cplx, i));
    RewriteInv(y, g, i);
    QuietSame(g, h);
    hide Rewrite, Inv, Later, Quiet;
    QuietRunning(y, g, h, q, v, except, except);
  }

  lemma QuietSame(g: Graph, h: Graph)
    requires h.root == g.root && h.nodes == g.nodes
    ensures Quiet(g, h, {})
    ensures forall e: set<nat> :: Quiet(g, h, e)
  {
  }

  lemma RewriteCplxOk(y: System, g: Graph, i: nat)
    requires CplxOk(g) && RootsOk(y, g) && i < |g.cplx|
    ensures CplxOk(Rewrite(g, i))
  {
    var h := Rewrite(g, i);
    assert SameLists(g, h);
    forall k: nat | k < |h.cplx| ensures Proper(h.root, Cx(h.cplx, k).dest) && Proper(h.root, Cx(h.cplx, k).src) {
      assert Proper(g.root, Cx(g.cplx, k).dest) && Proper(g.root, Cx(g.cplx, k).src);
    }
  }

  lemma RewriteInv(y: System, g: Graph, i: nat)
    requires Inv(y, g) && i < |g.cplx| && Holds(y, Cx(Rewrite(g, i).cplx, i)) && AllCovered(y, Rewrite(g, i))
    ensures Inv(y, Rewrite(g, i))
  {
    var h := Rewrite(g, i);
    hide Rewrite, AllCovered, Holds, Member, Le;
    assert SameLists(g, h);
    assert forall n: nat :: Points(h, n) == Points(g, n) && CopyTo(h, n) == CopyTo(g, n) && CplxOf(h, n) == CplxOf(g, n);
    assert RootsOk(y, h) && EdgesOk(y, h);
    assert CplxOk(h) by { RewriteCplxOk(y, g, i); }
    assert Sound(y, h);
  }

  // ---------- Deleting a constraint that another one repeats ----------

  function Drop(g: Graph, n: nat, i: nat): (h: Graph)
    requires n < |g.nodes|
    ensures h.root == g.root && h.cplx == g.cplx && |h.nodes| == |g.nodes| && h.begun == g.begun
    ensures forall m: nat :: Points(h, m) == Points(g, m) && Prev(h, m) == Prev(g, m) && CopyTo(h, m) == CopyTo(g, m) && Vtime(h, m) == Vtime(g, m)
    ensures forall m: nat :: LoadTo(h, m) == LoadTo(g, m) - (if m == n then {i} else {})
    ensures forall m: nat :: StoreFrom(h, m) == StoreFrom(g, m) - (if m == n then {i} else {})
    ensures forall m: nat :: GepTo(h, m) == GepTo(g, m) - (if m == n then {i} else {})
    ensures forall m: nat :: CplxOf(h, m) == CplxOf(g, m) - (if m == n then {i} else {})
  {
    g.(nodes := DropAt(g.nodes, n, i))
  }

  lemma DropLists(y: System, g: Graph, n: nat, i: nat, j: nat)
    requires RootsOk(y, g) && n < |g.nodes| && j in CplxOf(g, n) && i != j && Same(g.root, Cx(g.cplx, j), Cx(g.cplx, i))
    ensures CplxLater(g, Drop(g, n, i)) && ListsLater(g, Drop(g, n, i))
  {
    var h := Drop(g, n, i);
    hide Drop, CplxOf, Same;
    forall k: nat ensures Same(h.root, Cx(g.cplx, k), Cx(h.cplx, k)) {
      SameRefl(h.root, Cx(g.cplx, k));
    }
    forall m: nat, k: nat | k in CplxOf(g, m) ensures StillListed(h, m, k) {
      assert IsRep(g.root, m);
      if m == n && k == i {
        assert j in CplxOf(h, n);
      } else {
        assert k in CplxOf(h, m);
      }
    }
  }

  lemma DropLater(y: System, g: Graph, n: nat, i: nat, j: nat)
    requires RootsOk(y, g) && n < |g.nodes| && j in CplxOf(g, n) && i != j && Same(g.root, Cx(g.cplx, j), Cx(g.cplx, i))
    ensures Later(g, Drop(g, n, i))
  {
    DropLists(y, g, n, i, j);
    hide ListsLater, CplxLater, CplxOf, Drop, Same;
    LaterGrow(y, g, Drop(g, n, i));
  }

  lemma DropInv(y: System, g: Graph, n: nat, i: nat)
    requires Inv(y, g) && n < |g.nodes| && AllCovered(y, Drop(g, n, i))
    ensures Inv(y, Drop(g, n, i))
  {
    hide Drop, AllCovered, Holds, Member, Le;
    var h := Drop(g, n, i);
    assert RootsOk(y, h) && EdgesOk(y, h);
    assert CplxOk(h);
    assert Sound(y, h);
  }

  lemma DropQuiet(g: Graph, n: nat, i: nat)
    requires n < |g.nodes|
    ensures forall e: set<nat> :: Quiet(g, Drop(g, n, i), e)
  {
    hide Drop, CplxOf;
    var h := Drop(g, n, i);
    forall m: nat, b: nat | b in CopyTo(h, m) ensures OldEdge(g, h, m, b) {
      assert b in CopyTo(g, m);
    }
  }

  lemma DropRunning(y: System, g: Graph, q: Queue, v: Visit, except: set<nat>, n: nat, i: nat, j: nat)
    requires Running(y, g, q, v, except) && n < |g.nodes|
    requires j in CplxOf(g, n) && i != j && Same(g.root, Cx(g.cplx, j), Cx(g.cplx, i))
    ensures Running(y, Drop(g, n, i), q, v, except) && Later(g, Drop(g, n, i))
  {
    var h := Drop(g, n, i);
    DropLater(y, g, n, i, j);
    LaterCovered(y, g, h);
    DropInv(y, g, n, i);
    DropQuiet(g, n, i);
    hide Drop, Inv, Later, Quiet;
    QuietRunning(y, g, h, q, v, except, except);
  }

  // ---------- The worklist ----------

  lemma PushRunning(y: System, g: Graph, q: Queue, v: Visit, except: set<nat>, b: nat)
    requires Running(y, g, q, v, except) && (b in except || b == 0)
    ensures Running(y, g, q.(next := q.next[b := Vtime(g, b)]), v, except - {b})
  {
    assert Points(g, 0) == {} by { assert EdgesOk(y, g); }
    hide Inv, Done;
    var r := q.(next := q.next[b := Vtime(g, b)]);
    forall n: nat | IsRep(g.root, n) && n !in except - {b} ensures Settled(y, g, r, v, n) {
      if n != b {
        assert Settled(y, g, q, v, n);
      }
    }
  }

  // An entry taken off the current list; a stale one is not missed.
  lemma PopRunning(y: System, g: Graph, q: Queue, n: nat)
    requires Running(y, g, q, Idle, {}) && n in q.curr
    ensures Running(y, g, q.(curr := q.curr - {n}), Idle, {n})
    ensures !IsRep(g.root, n) || q.curr[n] < Vtime(g, n) ==> Running(y, g, q.(curr := q.curr - {n}), Idle, {})
  {
    hide Inv, Done;
    var r := q.(curr := q.curr - {n});
    forall m: nat | IsRep(g.root, m) ensures m != n || q.curr[n] < Vtime(g, n) ==> Settled(y, g, r, Idle, m) {
      assert Settled(y, g, q, Idle, m);
    }
  }

  lemma SwapRunning(y: System, g: Graph, q: Queue)
    requires Running(y, g, q, Idle, {}) && q.curr == map[]
    ensures Running(y, g, Queue(q.next, map[]), Idle, {})
  {
    hide Inv, Done;
    forall m: nat | IsRep(g.root, m) ensures Settled(y, g, Queue(q.next, map[]), Idle, m) {
      assert Settled(y, g, q, Idle, m);
    }
  }

  // ---------- A visit ----------

  function Begin(g: Graph, n: nat, t: nat): (h: Graph)
    requires n < |g.nodes|
    ensures h.root == g.root && h.cplx == g.cplx && |h.nodes| == |g.nodes| && h.begun == g.begun && SameLists(g, h)
    ensures forall m: nat :: Points(h, m) == Points(g, m) && CopyTo(h, m) == CopyTo(g, m) && CplxOf(h, m) == CplxOf(g, m)
    ensures forall m: nat :: Prev(h, m) == if m == n then Points(g, n) else Prev(g, m)
    ensures forall m: nat :: Vtime(h, m) == if m == n then t else Vtime(g, m)
  {
    g.(nodes := BeginAt(g.nodes, n, t))
  }

  lemma BeginLater(y: System, g: Graph, n: nat, t: nat)
    requires RootsOk(y, g) && n < |g.nodes|
    ensures Later(g, Begin(g, n, t))
  {
    hide Begin;
    ListsSame(y, g, Begin(g, n, t));
    hide ListsLater, CplxLater;
    LaterGrow(y, g, Begin(g, n, t));
  }

  lemma BeginInv(y: System, g: Graph, n: nat, t: nat)
    requires Inv(y, g) && n < |g.nodes|
    ensures Inv(y, Begin(g, n, t))
  {
    var h := Begin(g, n, t);
    BeginLater(y, g, n, t);
    LaterCovered(y, g, h);
    hide Begin, AllCovered, Later, Holds, Member, Le;
    assert RootsOk(y, h) && EdgesOk(y, h);
    assert CplxOk(h);
    assert Sound(y, h);
  }

  lemma BeginDone(y: System, g: Graph, n: nat, t: nat)
    requires n < |g.nodes| && Later(g, Begin(g, n, t))
    ensures forall m: nat, pts: set<nat> :: Done(y.l, g, m, pts) ==> Done(y.l, Begin(g, n, t), m, pts)
  {
    var h := Begin(g, n, t);
    hide Begin, Later, Done, CplxOf;
    forall m: nat, pts: set<nat> | Done(y.l, g, m, pts) ensures Done(y.l, h, m, pts) {
      forall b: nat | b in CopyTo(h, m) ensures OldEdge(g, h, m, b) {
        assert b in CopyTo(g, m);
      }
      LaterDone(y.l, g, h, m, pts);
    }
  }

  lemma BeginWorked(y: System, g: Graph, n: nat, t: nat)
    requires WorkedOff(y, g, Idle) && n < |g.nodes|
    requires forall m: nat, pts: set<nat> :: Done(y.l, g, m, pts) ==> Done(y.l, Begin(g, n, t), m, pts)
    ensures WorkedOff(y, Begin(g, n, t), Visit(n, Points(g, n), Prev(g, n)))
  {
    hide Done, Begin;
  }

  lemma BeginSettled(y: System, g: Graph, q: Queue, n: nat, t: nat)
    requires AllSettled(y, g, q, Idle, {n}) && n < |g.nodes|
    requires forall m: nat, pts: set<nat> :: Done(y.l, g, m, pts) ==> Done(y.l, Begin(g, n, t), m, pts)
    ensures AllSettled(y, Begin(g, n, t), q, Visit(n, Points(g, n), Prev(g, n)), {})
  {
    hide Done, Begin;
    forall m: nat | IsRep(g.root, m) ensures Settled(y, Begin(g, n, t), q, Visit(n, Points(g, n), Prev(g, n)), m) {
      if m != n {
        assert Settled(y, g, q, Idle, m);
      }
    }
  }

  lemma BeginWatched(g: Graph, q: Queue, n: nat, t: nat)
    requires Watched(g, q, {n}) && n < |g.nodes|
    ensures Watched(Begin(g, n, t), q, {})
  {
    hide Begin, CplxOf;
    var h := Begin(g, n, t);
    forall m: nat | IsRep(h.root, m) && Points(h, m) != Prev(h, m) ensures Queued(h, q, m) <==> !Asleep(h, m) {
      assert Single(h, m) <==> Single(g, m);
    }
  }

  lemma BeginRunning(y: System, g: Graph, q: Queue, n: nat, t: nat)
    requires Running(y, g, q, Idle, {n}) && n < |g.nodes|
    ensures Running(y, Begin(g, n, t), q, Visit(n, Points(g, n), Prev(g, n)), {}) && Later(g, Begin(g, n, t))
  {
    BeginInv(y, g, n, t);
    BeginLater(y, g, n, t);
    BeginDone(y, g, n, t);
    BeginWatched(g, q, n, t);
    hide Begin, Inv, Later, Done, WorkedOff, AllSettled, Watched;
    BeginWorked(y, g, n, t);
    BeginSettled(y, g, q, n, t);
  }

  lemma FinishRunning(y: System, g: Graph, q: Queue, v: Visit)
    requires v.Visit? && Running(y, g, q, v, {}) && Prev(g, v.n) == v.pts <= Points(g, v.n) && Done(y.l, g, v.n, v.pts)
    ensures Running(y, g, q, Idle, {})
  {
    hide Inv, Done;
    forall m: nat | IsRep(g.root, m) ensures Settled(y, g, q, Idle, m) && Worked(g, Idle, m) <= Points(g, m) && Done(y.l, g, m, Worked(g, Idle, m)) {
      assert Settled(y, g, q, v, m);
      assert m != v.n ==> Done(y.l, g, m, Worked(g, v, m));
    }
  }
}
