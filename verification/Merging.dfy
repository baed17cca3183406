/** The steps of cycle elimination on the constraint graph: pointing the copy edges of a
    node at representatives, and merging two nodes. */
module Merging {
  import opened Constraints
  import opened Entailment
  import opened UnionFind
  import opened ConstraintGraph
  import opened Propagation

  // ---------- Replacing the copy edges of a node ----------

  function RedirectAt(nodes: seq<Node>, n: nat, edges: set<nat>): (r: seq<Node>)
    requires n < |nodes|
    ensures |r| == |nodes|
  {
    nodes[n := nodes[n].(copyTo := edges)]
  }

  function Redirect(g: Graph, n: nat, edges: set<nat>): (h: Graph)
    requires n < |g.nodes|
    ensures h.root == g.root && h.cplx == g.cplx && |h.nodes| == |g.nodes| && h.begun == g.begun && SameLists(g, h)
    ensures forall m: nat :: Points(h, m) == Points(g, m) && Prev(h, m) == Prev(g, m) && Vtime(h, m) == Vtime(g, m)
    ensures forall m: nat :: CplxOf(h, m) == CplxOf(g, m)
    ensures forall m: nat :: CopyTo(h, m) == if m == n then edges else CopyTo(g, m)
  {
    g.(nodes := RedirectAt(g.nodes, n, edges))
  }

  // The new edges are the old ones up to merging; an edge of n to itself may go.
  ghost predicate SameEdges(g: Graph, n: nat, edges: set<nat>) {
    && (forall b: nat {:trigger b in edges} :: b in edges ==> Proper(g.root, b) && b != n && OldEdge(g, g, n, b))
    && (forall a: nat {:trigger a in CopyTo(g, n)} :: a in CopyTo(g, n) ==> Rt(g.root, a) == n || exists b: nat :: b in edges && Rt(g.root, b) == Rt(g.root, a))
  }

  lemma RedirectEdges(y: System, g: Graph, n: nat, edges: set<nat>)
    requires RootsOk(y, g) && IsRep(g.root, n) && SameEdges(g, n, edges) && n < |g.nodes|
    ensures EdgesLater(g, Redirect(g, n, edges))
  {
    var h := Redirect(g, n, edges);
    LaterRefl(y, g);
    hide Redirect, PointsLater, CplxLater, ListsLater;
    forall a: nat, b: nat | Edge(g, a, b) ensures Edge(h, Rt(h.root, a), Rt(h.root, b)) {
      var c, d := Rt(g.root, a), Rt(g.root, b);
      assert Edge(g, c, d);
      if c != d {
        var x: nat :| x in CopyTo(g, c) && Rt(g.root, x) == d;
        if c != n {
          assert x in CopyTo(h, c);
        }
      }
    }
  }

  lemma RedirectLater(y: System, g: Graph, n: nat, edges: set<nat>)
    requires RootsOk(y, g) && IsRep(g.root, n) && SameEdges(g, n, edges) && n < |g.nodes|
    ensures Later(g, Redirect(g, n, edges))
  {
    var h := Redirect(g, n, edges);
    RedirectEdges(y, g, n, edges);
    ListsSame(y, g, h);
    hide EdgesLater, CplxLater, ListsLater, Redirect, SameEdges;
    forall n: nat ensures Points(g, n) <= Points(h, Rt(h.root, n)) {
      assert IsRep(g.root, n) || Points(g, n) == {} || n >= |g.root|;
    }
  }

  lemma RedirectInv(y: System, g: Graph, n: nat, edges: set<nat>)
    requires Inv(y, g) && IsRep(g.root, n) && SameEdges(g, n, edges) && n < |g.nodes|
    requires edges != {} ==> Proper(g.root, n)
    ensures Inv(y, Redirect(g, n, edges))
  {
    var h := Redirect(g, n, edges);
    RedirectLater(y, g, n, edges);
    LaterCovered(y, g, h);
    forall b: nat | b in edges ensures Le(y, n, b) {
      var a: nat :| a in CopyTo(g, n) && Rt(g.root, a) == Rt(g.root, b);
      hide Le;
      assert Le(y, n, a) && Eq(y, a, Rt(g.root, a)) && Eq(y, b, Rt(g.root, b));
      LeTrans(y, n, a, Rt(g.root, a));
      LeTrans(y, n, Rt(g.root, b), b);
    }
    RedirectShape(y, g, n, edges);
    hide Redirect, AllCovered, Later, Holds, Member, Le, SameEdges;
    assert Sound(y, h);
  }

  lemma RedirectShape(y: System, g: Graph, n: nat, edges: set<nat>)
    requires Shape(y, g) && IsRep(g.root, n) && SameEdges(g, n, edges) && n < |g.nodes|
    requires edges != {} ==> Proper(g.root, n)
    ensures Shape(y, Redirect(g, n, edges))
  {
    hide Redirect, OldEdge;
    var h := Redirect(g, n, edges);
    CplxOkSame(g, h);
  }

  lemma RedirectRunning(y: System, g: Graph, q: Queue, v: Visit, except: set<nat>, n: nat, edges: set<nat>)
    requires Running(y, g, q, v, except) && IsRep(g.root, n) && SameEdges(g, n, edges) && n < |g.nodes|
    requires edges != {} ==> Proper(g.root, n)
    ensures Running(y, Redirect(g, n, edges), q, v, except) && Later(g, Redirect(g, n, edges))
  {
    var h := Redirect(g, n, edges);
    RedirectInv(y, g, n, edges);
    RedirectLater(y, g, n, edges);
    assert Quiet(g, h, except) by {
      hide Inv, Later, Redirect, CplxOf;
      forall m: nat, b: nat | b in CopyTo(h, m) ensures OldEdge(g, h, m, b) {
        if m == n {
          assert OldEdge(g, g, n, b);
        } else {
          assert b in CopyTo(g, m);
        }
      }
    }
    hide Redirect, Inv, Later, Quiet, SameEdges;
    QuietRunning(y, g, h, q, v, except, except);
  }

  // ---------- Merging two nodes ----------

  function Min(a: nat, b: nat): nat { if a < b then a else b }

  // The node that takes over the data of p and c; all of it must be propagated again.
  function Union(np: Node, nc: Node, p: nat, c: nat): Node {
    Node(np.pointsTo + nc.pointsTo, {}, np.copyTo + nc.copyTo - {p, c}, np.loadTo + nc.loadTo,
         np.storeFrom + nc.storeFrom, np.gepTo + nc.gepTo, Min(np.vtime, nc.vtime))
  }

  function JoinAt(nodes: seq<Node>, p: nat, c: nat): (r: seq<Node>)
    requires p < |nodes| && c < |nodes|
    ensures |r| == |nodes|
  {
    nodes[p := Union(nodes[p], nodes[c], p, c)][c := Blank.(vtime := nodes[c].vtime)]
  }

  // c becomes a child of p.
  function Join(g: Graph, p: nat, c: nat): (h: Graph)
    requires p < |g.nodes| && c < |g.nodes| && p != c
    ensures h.root == Merged(g.root, p, c) && h.cplx == g.cplx && |h.nodes| == |g.nodes| && h.begun == g.begun
    ensures forall m: nat :: Points(h, m) == if m == p then Points(g, p) + Points(g, c) else if m == c then {} else Points(g, m)
    ensures forall m: nat :: CopyTo(h, m) == if m == p then CopyTo(g, p) + CopyTo(g, c) - {p, c} else if m == c then {} else CopyTo(g, m)
    ensures forall m: nat :: LoadTo(h, m) == if m == p then LoadTo(g, p) + LoadTo(g, c) else if m == c then {} else LoadTo(g, m)
    ensures forall m: nat :: StoreFrom(h, m) == if m == p then StoreFrom(g, p) + StoreFrom(g, c) else if m == c then {} else StoreFrom(g, m)
    ensures forall m: nat :: GepTo(h, m) == if m == p then GepTo(g, p) + GepTo(g, c) else if m == c then {} else GepTo(g, m)
    ensures forall m: nat :: CplxOf(h, m) == if m == p then CplxOf(g, p) + CplxOf(g, c) else if m == c then {} else CplxOf(g, m)
    ensures forall m: nat :: Prev(h, m) == if m == p || m == c then {} else Prev(g, m)
    ensures forall m: nat :: Vtime(h, m) == if m == p then Min(Vtime(g, p), Vtime(g, c)) else Vtime(g, m)
  {
    g.(root := Merged(g.root, p, c), nodes := JoinAt(g.nodes, p, c))
  }

  ghost predicate Joinable(y: System, g: Graph, p: nat, c: nat) {
    && IsRep(g.root, p) && IsRep(g.root, c) && p != c && Proper(g.root, p) && Proper(g.root, c)
    && p < |g.nodes| && c < |g.nodes| && Eq(y, p, c)
  }

  lemma JoinRoot(g: Graph, p: nat, c: nat)
    requires IsRootMap(g.root) && IsRep(g.root, p) && IsRep(g.root, c) && p != c
    ensures IsRootMap(Merged(g.root, p, c))
    ensures forall m: nat :: Rt(Merged(g.root, p, c), m) == if Rt(g.root, m) == c then p else Rt(g.root, m)
    ensures forall m: nat :: Rt(g.root, Rt(g.root, m)) == Rt(g.root, m)
    ensures forall m: nat :: IsRep(Merged(g.root, p, c), m) <==> IsRep(g.root, m) && m != c
  {
    MergedIsRootMap(g.root, p, c);
  }

  lemma JoinEdges(y: System, g: Graph, p: nat, c: nat)
    requires RootsOk(y, g) && Joinable(y, g, p, c)
    ensures EdgesLater(g, Join(g, p, c))
  {
    var h := Join(g, p, c);
    hide Proper, Eq, SameLists;
    JoinRoot(g, p, c);
    LaterRefl(y, g);
    hide Join, Merged, PointsLater, CplxLater, ListsLater, Eq;
    forall a: nat, b: nat | Edge(g, a, b) ensures Edge(h, Rt(h.root, a), Rt(h.root, b)) {
      var e, d := Rt(g.root, a), Rt(g.root, b);
      assert Edge(g, e, d);
      if e != d {
        var x: nat :| x in CopyTo(g, e) && Rt(g.root, x) == d;
        if x != p && x != c {
          assert x in CopyTo(h, Rt(h.root, e));
        }
      }
    }
  }

  lemma JoinLater(y: System, g: Graph, p: nat, c: nat)
    requires RootsOk(y, g) && Joinable(y, g, p, c)
    ensures Later(g, Join(g, p, c))
  {
    var h := Join(g, p, c);
    JoinRoot(g, p, c);
    JoinEdges(y, g, p, c);
    hide Join, EdgesLater, Eq, Merged;
    forall i: nat ensures Same(h.root, Cx(g.cplx, i), Cx(h.cplx, i)) {
      SameRefl(h.root, Cx(g.cplx, i));
    }
    hide Same, CplxOf;
    forall n: nat, i: nat | i in CplxOf(g, n) ensures StillListed(h, n, i) {
      assert IsRep(g.root, n);
      assert i in CplxOf(h, Rt(h.root, n));
      SameRefl(h.root, Cx(h.cplx, i));
    }
    forall n: nat ensures Points(g, n) <= Points(h, Rt(h.root, n)) {
      assert IsRep(g.root, n) || Points(g, n) == {} || n >= |g.root|;
    }
  }

  lemma JoinShape(y: System, g: Graph, p: nat, c: nat)
    requires Shape(y, g) && Joinable(y, g, p, c)
    ensures Shape(y, Join(g, p, c))
  {
    var h := Join(g, p, c);
    JoinRoot(g, p, c);
    hide Join, Merged, Eq, CplxOf;
    assert RootsOk(y, h);
    assert EdgesOk(y, h);
    assert CplxOk(h);
  }

  lemma JoinSound(y: System, g: Graph, p: nat, c: nat)
    requires Sound(y, g) && Joinable(y, g, p, c) && IsRootMap(g.root)
    ensures Sound(y, Join(g, p, c))
  {
    var h := Join(g, p, c);
    JoinRoot(g, p, c);
    hide Join, Merged, Le, Member, Holds;
    forall n: nat, o: nat | o in Points(h, n) ensures Member(y, o, n) {
      if n == p && o in Points(g, c) {
        MemberLe(y, o, c, p);
      }
    }
    forall n: nat, b: nat | b in CopyTo(h, n) ensures Le(y, n, b) {
      if n == p && b in CopyTo(g, c) {
        LeTrans(y, p, c, b);
      }
    }
    forall n: nat ensures Eq(y, n, Rt(h.root, n)) {
      assert Eq(y, n, Rt(g.root, n));
      if Rt(g.root, n) == c {
        LeTrans(y, n, c, p);
        LeTrans(y, p, c, n);
      }
    }
  }

  lemma JoinInv(y: System, g: Graph, p: nat, c: nat)
    requires Inv(y, g) && Joinable(y, g, p, c)
    ensures Inv(y, Join(g, p, c)) && Later(g, Join(g, p, c))
  {
    JoinLater(y, g, p, c);
    JoinShape(y, g, p, c);
    JoinSound(y, g, p, c);
    LaterCovered(y, g, Join(g, p, c));
  }

  lemma EmptyDone(l: Layout, g: Graph, n: nat)
    ensures Done(l, g, n, {})
  {
    forall i: nat | i in CplxOf(g, n) ensures CplxDone(l, g, Cx(g.cplx, i), {}) {
      var c := Cx(g.cplx, i);
      assert Targets(l, {}, c.off) == {};
      assert Shift(l, {}, c.off) == {};
    }
  }

  lemma JoinDone(y: System, g: Graph, p: nat, c: nat, n: nat, pts: set<nat>)
    requires Joinable(y, g, p, c) && Later(g, Join(g, p, c)) && n != p && n != c && Done(y.l, g, n, pts)
    ensures Done(y.l, Join(g, p, c), n, pts)
  {
    var h := Join(g, p, c);
    hide Join, Later, Done, CplxOf, Eq;
    forall b: nat | b in CopyTo(h, n) ensures OldEdge(g, h, n, b) {
      assert b in CopyTo(g, n);
    }
    LaterDone(y.l, g, h, n, pts);
  }

  lemma JoinWatched(g: Graph, q: Queue, except: set<nat>, p: nat, c: nat)
    requires Watched(g, q, except) && IsRootMap(g.root) && IsRep(g.root, p) && IsRep(g.root, c) && p != c
    requires p < |g.nodes| && c < |g.nodes|
    ensures Watched(Join(g, p, c), q, except + {p})
  {
    var h := Join(g, p, c);
    JoinRoot(g, p, c);
    hide Join, Merged, CplxOf;
    // c is a representative of its own before, and now belongs to p.
    assert Rt(h.root, c) == p && Rt(g.begun.root, c) == c;
    forall n: nat | IsRep(h.root, n) && n != p ensures Single(h, n) <==> Single(g, n) {
    }
  }

  lemma JoinWorked(y: System, g: Graph, p: nat, c: nat)
    requires WorkedOff(y, g, Idle) && Joinable(y, g, p, c) && IsRootMap(g.root) && Later(g, Join(g, p, c))
    ensures WorkedOff(y, Join(g, p, c), Idle)
  {
    var h := Join(g, p, c);
    JoinRoot(g, p, c);
    hide Join, Later, Done, CplxOf, Eq, Merged;
    forall n: nat | IsRep(h.root, n) ensures Worked(h, Idle, n) <= Points(h, n) && Done(y.l, h, n, Worked(h, Idle, n)) {
      if n == p {
        EmptyDone(y.l, h, p);
      } else {
        assert Done(y.l, g, n, Worked(g, Idle, n));
        JoinDone(y, g, p, c, n, Prev(g, n));
      }
    }
  }

  lemma JoinSettled(y: System, g: Graph, q: Queue, except: set<nat>, p: nat, c: nat)
    requires AllSettled(y, g, q, Idle, except) && Joinable(y, g, p, c) && IsRootMap(g.root) && Later(g, Join(g, p, c))
    ensures AllSettled(y, Join(g, p, c), q, Idle, except + {p})
  {
    var h := Join(g, p, c);
    JoinRoot(g, p, c);
    hide Join, Later, Done, CplxOf, Eq, Merged;
    forall n: nat | IsRep(h.root, n) && n !in except + {p} ensures Settled(y, h, q, Idle, n) {
      assert Settled(y, g, q, Idle, n);
      if Done(y.l, g, n, Points(g, n)) {
        JoinDone(y, g, p, c, n, Points(g, n));
      }
    }
  }

  lemma JoinRunning(y: System, g: Graph, q: Queue, except: set<nat>, p: nat, c: nat)
    requires Running(y, g, q, Idle, except) && Joinable(y, g, p, c)
    ensures Running(y, Join(g, p, c), q, Idle, except + {p}) && Later(g, Join(g, p, c))
  {
    assert IsRootMap(g.root) by { assert RootsOk(y, g); }
    hide Join, Later, WorkedOff, AllSettled, Watched, Eq, IsRootMap;
    JoinInv(y, g, p, c);
    hide Inv;
    JoinWorked(y, g, p, c);
    JoinSettled(y, g, q, except, p, c);
    JoinWatched(g, q, except, p, c);
  }
}
