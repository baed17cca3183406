/** Lazy cycle detection: a depth-first search over the copy edges between representatives,
    which merges every strongly connected component it closes. */
module Cycles {
  import opened Constraints
  import opened Entailment
  import opened Graphs
  import opened Scc
  import opened ConstraintGraph
  import opened Propagation
  import opened Merging
  import opened UnionFind
  import SolverSteps

  // The copy graph of g between representatives.
  function Quotient(g: Graph): (r: Digraph)
    ensures |r| == |g.root|
    ensures forall n: nat, b: nat :: b in Graphs.Succ(r, n) ==> exists x: nat :: x in CopyTo(g, n) && b == Rt(g.root, x)
    ensures forall n: nat, x: nat {:trigger x in CopyTo(g, n), Graphs.Succ(r, n)} :: x in CopyTo(g, n) && n < |g.root| ==> Rt(g.root, x) in Graphs.Succ(r, n)
  {
    seq(|g.root|, n requires 0 <= n => set x | x in CopyTo(g, n) :: Rt(g.root, x))
  }

  // The search began on graph g0 and has reached state t on graph g.
  ghost predicate RootsFollow(g0: Graph, g: Graph, t: Dfs, roots: set<nat>) {
    && RootsLater(g0, g)
    && (forall x: nat :: IsRep(g0.root, x) && !Closed(t, x) ==> IsRep(g.root, x))
    && (forall x: nat :: Closed(t, x) ==> Rt(g.root, x) in roots)
    && (forall r: nat :: r in roots ==> Closed(t, r) && IsRep(g.root, r))
    && (forall x: nat, z: nat :: Closed(t, x) && Closed(t, z) ==> (Rt(g.root, x) == Rt(g.root, z) <==> Comp(t, x) == Comp(t, z)))
  }

  ghost predicate EdgesFollow(g0: Graph, g: Graph, t: Dfs) {
    forall x: nat :: !Closed(t, x) && x !in t.stk ==> CopyTo(g, x) == CopyTo(g0, x)
  }

  ghost predicate VisitedOk(g0: Graph, E: Digraph, t: Dfs, starts: set<nat>) {
    forall x: nat :: Visited(t, x) ==> IsRep(g0.root, x) && Proper(g0.root, x) && FromStart(E, starts, x)
  }

  ghost predicate FromStart(E: Digraph, starts: set<nat>, x: nat) {
    exists s: nat :: s in starts && Reach(E, s, x)
  }

  // What does not change in the course of a search.
  ghost predicate Searchable(y: System, g0: Graph, E: Digraph) {
    && E == Quotient(g0) && RootsOk(y, g0) && EdgesOk(y, g0)
    && forall a: nat, b: nat :: b in Graphs.Succ(E, a) ==> Le(y, a, b)
  }

  ghost predicate Cycling(y: System, g0: Graph, g: Graph, E: Digraph, t: Dfs, roots: set<nat>, starts: set<nat>) {
    Searchable(y, g0, E) && Scc.Inv(E, t) && RootsFollow(g0, g, t, roots) && EdgesFollow(g0, g, t) && VisitedOk(g0, E, t, starts)
  }

  lemma QuotientWellFormed(y: System, g: Graph)
    requires RootsOk(y, g) && EdgesOk(y, g)
    ensures WellFormed(Quotient(g))
    ensures forall a: nat, b: nat :: b in Graphs.Succ(Quotient(g), a) ==> IsRep(g.root, b) && Proper(g.root, b) && Proper(g.root, a)
  {
    var E := Quotient(g);
    hide Quotient;
    forall a: nat, b: nat | b in Graphs.Succ(E, a) ensures b < |E| && IsRep(g.root, b) && Proper(g.root, b) && Proper(g.root, a) {
      var x: nat :| x in CopyTo(g, a) && b == Rt(g.root, x);
      assert Proper(g.root, x);
    }
  }

  lemma QuotientSound(y: System, g: Graph)
    requires EdgesSound(y, g) && RootsSound(y, g)
    ensures forall a: nat, b: nat :: b in Graphs.Succ(Quotient(g), a) ==> Le(y, a, b)
  {
    var E := Quotient(g);
    hide Quotient, Le;
    forall a: nat, b: nat | b in Graphs.Succ(E, a) ensures Le(y, a, b) {
      var x: nat :| x in CopyTo(g, a) && b == Rt(g.root, x);
      assert Le(y, a, x) && Eq(y, x, b);
      LeTrans(y, a, x, b);
    }
  }

  lemma CyclingStart(y: System, g: Graph, starts: set<nat>)
    requires RootsOk(y, g) && EdgesOk(y, g) && EdgesSound(y, g) && RootsSound(y, g)
    ensures Cycling(y, g, g, Quotient(g), Start, {}, starts)
  {
    hide Quotient, Le, EdgesSound, RootsSound, Numbered, Scc.Listed, LowReached, PathReaches, LowCovers, Ordered, Components;
    QuotientWellFormed(y, g);
    QuotientSound(y, g);
    StartInv(Quotient(g));
    LaterRefl(y, g);
  }

  // ---------- Entering a node ----------

  lemma CyclingEnter(y: System, g0: Graph, g: Graph, E: Digraph, t: Dfs, roots: set<nat>, starts: set<nat>, n: nat)
    requires Cycling(y, g0, g, E, t, roots, starts) && n < |E| && !Visited(t, n) && IsRep(g0.root, n) && Proper(g0.root, n)
    requires if |t.path| > 0 then n in Graphs.Succ(E, t.path[|t.path| - 1]) else n in starts
    ensures Working(E, t, Enter(t, n), n, {})
    ensures Cycling(y, g0, g, E, Enter(t, n), roots, starts)
  {
    hide Searchable, Numbered, LowReached, PathReaches, LowCovers, Ordered, Components, Extends, LeastLow, Handled, RootsLater, Reach;
    EnterWorking(E, t, n);
    if |t.path| > 0 {
      var m := t.path[|t.path| - 1];
      assert m in t.path && Open(t, m);
      assert WellFormed(E) by { NumberedFacts(E, t); }
      var s: nat :| s in starts && Reach(E, s, m);
      ReachEdge(E, m, n);
      ReachTrans(E, s, m, n);
    } else {
      ReachRefl(E, n);
    }
    assert FromStart(E, starts, n);
    hide FromStart, Scc.Listed;
    var r := Enter(t, n);
    assert forall x: nat :: Closed(r, x) == Closed(t, x) && Comp(r, x) == Comp(t, x);
    assert r.stk == t.stk;
    hide Enter, Closed;
  }

  lemma NumberedFacts(E: Digraph, t: Dfs)
    requires Numbered(E, t)
    ensures WellFormed(E) && forall x: nat :: Visited(t, x) ==> x < |E|
  {
  }

  // A change of DFS ids only.
  lemma CyclingSeen(y: System, g0: Graph, g: Graph, E: Digraph, t: Dfs, roots: set<nat>, starts: set<nat>, n: nat, b: nat)
    requires Cycling(y, g0, g, E, t, roots, starts) && Scc.Inv(E, Seen(t, n, b))
    ensures Cycling(y, g0, g, E, Seen(t, n, b), roots, starts)
  {
    hide Searchable, Scc.Inv, RootsLater, FromStart;
    var r := Seen(t, n, b);
    assert r.stk == t.stk;
    hide Seen, Closed, Visited;
  }

  // ---------- The edges of a node ----------

  lemma EdgeTarget(y: System, g0: Graph, g: Graph, E: Digraph, t: Dfs, roots: set<nat>, starts: set<nat>, n: nat, x: nat)
    requires Cycling(y, g0, g, E, t, roots, starts) && n in t.path && x in CopyTo(g, n)
    ensures x < |g0.root| && x != n && CopyTo(g, n) == CopyTo(g0, n) && IsRep(g.root, n)
    ensures var b := Rt(g0.root, x);
      && b in Graphs.Succ(E, n) && Rt(g.root, x) == Rt(g.root, b) && IsRep(g0.root, b) && Proper(g0.root, b) && b < |E|
      && (Rt(g.root, b) in roots <==> Closed(t, b)) && (!Closed(t, b) ==> Rt(g.root, b) == b)
  {
    hide Numbered, LowReached, PathReaches, LowCovers, Ordered, Components, Quotient, Le;
    assert Open(t, n) && n !in t.stk;
    QuotientWellFormed(y, g0);
    assert Proper(g0.root, x);
    assert Rt(g0.root, x) in Graphs.Succ(E, n);
    assert Rt(g.root, Rt(g0.root, x)) == Rt(g.root, x);
  }

  // The edges of n in done have been looked at: those that stay and those to add lead to other
  // representatives, and those in del have a replacement or lead to n.
  ghost predicate Redirecting(g: Graph, t: Dfs, n: nat, done: set<nat>, handled: set<nat>, del: set<nat>, add: set<nat>) {
    && del <= done && (forall a: nat {:trigger a in add} :: a in add ==> Proper(g.root, a) && Handles(g, n, done, a))
    && (forall a: nat {:trigger Final(g, t, n, handled, a)} :: a in done - del + add ==> Final(g, t, n, handled, a))
    && (forall a: nat {:trigger a in del} :: a in del ==> Rt(g.root, a) == n || Replaced(g, add, a))
  }

  // A representative other than n that the search has handled.
  ghost predicate Final(g: Graph, t: Dfs, n: nat, handled: set<nat>, a: nat) {
    a != n && Rt(g.root, a) == a && (Closed(t, a) || a in handled)
  }

  ghost predicate Handles(g: Graph, n: nat, done: set<nat>, a: nat) {
    exists x: nat :: x in done && Rt(g.root, x) == Rt(g.root, a)
  }

  ghost predicate Replaced(g: Graph, add: set<nat>, a: nat) {
    exists b: nat :: b in add && Rt(g.root, b) == Rt(g.root, a)
  }

  lemma RedirectingLater(g: Graph, h: Graph, t: Dfs, u: Dfs, n: nat, done: set<nat>, handled: set<nat>, del: set<nat>, add: set<nat>)
    requires Redirecting(g, t, n, done, handled, del, add) && RootsLater(g, h) && Rt(h.root, n) == n
    requires forall x: nat :: Closed(t, x) ==> Closed(u, x)
    requires forall a: nat :: Final(g, t, n, handled, a) ==> Rt(h.root, a) == a
    ensures Redirecting(h, u, n, done, handled, del, add)
  {
    hide Closed;
    forall a: nat | a in done - del + add ensures Final(h, u, n, handled, a) {
      assert Final(g, t, n, handled, a);
    }
    forall a: nat | a in add ensures Handles(h, n, done, a) {
      var x: nat :| x in done && Rt(g.root, x) == Rt(g.root, a);
      assert Rt(h.root, x) == Rt(h.root, Rt(g.root, x)) == Rt(h.root, a);
    }
    forall a: nat | a in del ensures Rt(h.root, a) == n || Replaced(h, add, a) {
      if Rt(g.root, a) == n {
        assert Rt(h.root, a) == Rt(h.root, n);
      } else {
        var b: nat :| b in add && Rt(g.root, b) == Rt(g.root, a);
        assert Rt(h.root, b) == Rt(h.root, Rt(g.root, b)) == Rt(h.root, a);
      }
    }
  }

  lemma RedirectingEdges(g: Graph, t: Dfs, n: nat, handled: set<nat>, del: set<nat>, add: set<nat>)
    requires Redirecting(g, t, n, CopyTo(g, n), handled, del, add)
    requires forall b: nat {:trigger b in CopyTo(g, n)} :: b in CopyTo(g, n) ==> Proper(g.root, b) && b != n
    ensures SameEdges(g, n, CopyTo(g, n) - del + add) && CopyTo(g, n) - del + add == SolverSteps.Reps(g, n, CopyTo(g, n))
  {
    var edges := CopyTo(g, n) - del + add;
    RedirectedReps(g, t, n, handled, del, add);
    forall b: nat | b in edges ensures b != n && Rt(g.root, b) == b {
      assert Final(g, t, n, handled, b);
    }
    forall b: nat | b in edges ensures Proper(g.root, b) && b != n && OldEdge(g, g, n, b) {
      if b in add {
        assert Handles(g, n, CopyTo(g, n), b);
      }
    }
    forall a: nat | a in CopyTo(g, n) ensures Rt(g.root, a) == n || exists b: nat :: b in edges && Rt(g.root, b) == Rt(g.root, a) {
      if a in del {
        if Rt(g.root, a) != n {
          assert Replaced(g, add, a);
          var b: nat :| b in add && Rt(g.root, b) == Rt(g.root, a);
          assert b in edges;
        }
      } else {
        assert a in edges;
      }
    }
  }

  // ---------- Leaving a node ----------

  lemma CyclingShelve(y: System, g0: Graph, g: Graph, h: Graph, E: Digraph, t0: Dfs, t: Dfs, roots: set<nat>, starts: set<nat>, n: nat)
    requires Cycling(y, g0, g, E, t, roots, starts) && Working(E, t0, t, n, Graphs.Succ(E, n)) && Low(t, n) < Num(t, n)
    requires h.root == g.root && forall x: nat :: x != n ==> CopyTo(h, x) == CopyTo(g, x)
    ensures Returned(E, t0, Shelve(t, t0.path, n), n)
    ensures Cycling(y, g0, h, E, Shelve(t, t0.path, n), roots, starts)
  {
    hide Searchable, Scc.Inv, RootsLater, FromStart, Extends, LeastLow, Handled;
    ShelveReturned(E, t0, t, n);
    var r := Shelve(t, t0.path, n);
    hide Shelve, Closed, Visited;
    assert RootsFollow(g0, h, r, roots) by { RootsSame(g0, g, h, t, r, roots); }
    assert EdgesFollow(g0, h, r);
    assert VisitedOk(g0, E, r, starts);
  }

  lemma RootsSame(g0: Graph, g: Graph, h: Graph, t: Dfs, r: Dfs, roots: set<nat>)
    requires RootsFollow(g0, g, t, roots) && h.root == g.root
    requires forall x: nat :: Closed(r, x) == Closed(t, x) && Comp(r, x) == Comp(t, x)
    ensures RootsFollow(g0, h, r, roots)
  {
    hide Closed;
  }

  // The part m of a component has been merged into p.
  ghost predicate Popping(g0: Graph, g: Graph, t: Dfs, roots: set<nat>, members: set<nat>, m: set<nat>, p: nat) {
    && RootsLater(g0, g)
    && m <= members && p in m && (forall x: nat :: x in m ==> Rt(g.root, x) == p)
    && (forall x: nat :: x in members ==> !Closed(t, x) && IsRep(g0.root, x))
    && (forall x: nat :: IsRep(g0.root, x) && !Closed(t, x) && x !in m ==> IsRep(g.root, x))
    && (forall x: nat :: Closed(t, x) ==> Rt(g.root, x) in roots)
    && (forall r: nat :: r in roots ==> Closed(t, r) && IsRep(g.root, r))
    && (forall x: nat, z: nat :: Closed(t, x) && Closed(t, z) ==> (Rt(g.root, x) == Rt(g.root, z) <==> Comp(t, x) == Comp(t, z)))
    && (forall x: nat :: !Closed(t, x) && x !in t.stk && x !in members ==> CopyTo(g, x) == CopyTo(g0, x))
  }

  // n is the root of a component, about to be popped from the stack.
  ghost predicate Closing(y: System, g0: Graph, E: Digraph, t0: Dfs, t: Dfs, n: nat, starts: set<nat>) {
    Searchable(y, g0, E) && AtRoot(E, t0, t, n) && VisitedOk(g0, E, t, starts)
  }

  lemma PartFacts(y: System, g0: Graph, E: Digraph, t0: Dfs, t: Dfs, n: nat, starts: set<nat>)
    requires Closing(y, g0, E, t0, t, n, starts)
    ensures forall x: nat :: x in Part(t, t0, n) ==> !Closed(t, x) && IsRep(g0.root, x) && Proper(g0.root, x)
    ensures n in Part(t, t0, n)
  {
    hide Searchable, Scc.Inv, Extends, LeastLow, Handled, FromStart, Numbered, Scc.Listed;
    CloseMembers(E, t0, t, n);
  }

  lemma PoppingStart(y: System, g0: Graph, g: Graph, h: Graph, E: Digraph, t0: Dfs, t: Dfs, roots: set<nat>, starts: set<nat>, n: nat)
    requires Cycling(y, g0, g, E, t, roots, starts) && Closing(y, g0, E, t0, t, n, starts)
    requires h.root == g.root && forall x: nat :: x != n ==> CopyTo(h, x) == CopyTo(g, x)
    ensures Popping(g0, h, t, roots, Part(t, t0, n), {n}, n)
  {
    hide Searchable, Scc.Inv, Part, Closed, VisitedOk, AtRoot;
    PartFacts(y, g0, E, t0, t, n, starts);
    assert RootsLater(g0, h);
    hide RootsLater;
  }

  lemma PoppingJoinable(y: System, g0: Graph, g: Graph, E: Digraph, t0: Dfs, t: Dfs, roots: set<nat>, starts: set<nat>,
                        n: nat, m: set<nat>, p: nat, c: nat)
    requires Closing(y, g0, E, t0, t, n, starts) && Popping(g0, g, t, roots, Part(t, t0, n), m, p)
    requires c in Part(t, t0, n) && c !in m && |g.nodes| == |g.root| == |g0.root|
    ensures Joinable(y, g, p, c) && Joinable(y, g, c, p)
  {
    hide Scc.Inv, Extends, LeastLow, Handled, Closed, VisitedOk, AtRoot, RootsLater, Le, Part, Quotient, RootsOk, EdgesOk;
    PartFacts(y, g0, E, t0, t, n, starts);
    PartReach(E, t0, t, n, p, c);
    LeAlongPath(y, E, p, c);
    LeAlongPath(y, E, c, p);
  }

  lemma PartReach(E: Digraph, t0: Dfs, t: Dfs, n: nat, p: nat, c: nat)
    requires AtRoot(E, t0, t, n) && p in Part(t, t0, n) && c in Part(t, t0, n)
    ensures Reach(E, p, c) && Reach(E, c, p)
  {
    hide AtRoot, Members, Reach;
    CloseComponent(E, t0, t, n, p, c);
    CloseComponent(E, t0, t, n, c, p);
  }

  lemma PoppingRootMap(y: System, g: Graph)
    requires RootsOk(y, g)
    ensures IsRootMap(g.root)
  {
  }

  lemma PoppingJoin(y: System, g0: Graph, g: Graph, h: Graph, t: Dfs, roots: set<nat>, members: set<nat>, m: set<nat>, p: nat, a: nat, b: nat)
    requires Popping(g0, g, t, roots, members, m, p) && RootsOk(y, g) && Joinable(y, g, a, b) && h == Join(g, a, b)
    requires (a == p && b in members - m) || (b == p && a in members - m)
    ensures Popping(g0, h, t, roots, members, m + {a, b}, a)
  {
    hide Join, Closed, Eq, RootsOk;
    PoppingRootMap(y, g);
    JoinRoot(g, a, b);
    assert forall x: nat :: Rt(h.root, Rt(g0.root, x)) == Rt(h.root, x);
    hide RootsLater;
    forall x: nat | x in m + {a, b} ensures Rt(h.root, x) == a {
      assert x in m ==> Rt(g.root, x) == p;
    }
  }

  lemma PoppingRoots(g0: Graph, g: Graph, t: Dfs, r: Dfs, roots: set<nat>, members: set<nat>, p: nat, k: nat)
    requires Popping(g0, g, t, roots, members, members, p)
    requires forall x: nat :: Closed(r, x) <==> Closed(t, x) || x in members
    requires forall x: nat :: Comp(r, x) == if x in members then k else Comp(t, x)
    requires forall x: nat :: Closed(t, x) ==> Comp(t, x) < k
    ensures RootsFollow(g0, g, r, roots + {p})
  {
    hide Closed, Comp;
  }

  lemma PoppingEnd(y: System, g0: Graph, g: Graph, E: Digraph, t0: Dfs, t: Dfs, roots: set<nat>, starts: set<nat>, n: nat, p: nat)
    requires Closing(y, g0, E, t0, t, n, starts) && Popping(g0, g, t, roots, Part(t, t0, n), Part(t, t0, n), p)
    requires |t0.stk| <= |t.stk|
    ensures Returned(E, t0, Close(t, t0.path, |t0.stk|, n), n)
    ensures Cycling(y, g0, g, E, Close(t, t0.path, |t0.stk|, n), roots + {p}, starts)
  {
    hide Searchable, Scc.Inv, Extends, LeastLow, Handled, FromStart, Numbered, Scc.Listed, RootsLater, Closed, Visited, Members;
    CloseReturned(E, t0, t, n);
    CompBelow(E, t);
    var r := Close(t, t0.path, |t0.stk|, n);
    PoppingRoots(g0, g, t, r, roots, Part(t, t0, n), p, t.ncomp);
    StackSplit(t, t0, n);
    hide Close;
    assert EdgesFollow(g0, g, r);
    assert VisitedOk(g0, E, r, starts);
  }

  lemma StackSplit(t: Dfs, t0: Dfs, n: nat)
    requires |t0.stk| <= |t.stk|
    ensures forall x: nat :: x in t.stk ==> x in t.stk[..|t0.stk|] || x in Part(t, t0, n)
  {
    assert t.stk == t.stk[..|t0.stk|] + t.stk[|t0.stk|..];
  }

  lemma CompBelow(E: Digraph, t: Dfs)
    requires Scc.Inv(E, t)
    ensures forall x: nat :: Closed(t, x) ==> Comp(t, x) < t.ncomp
  {
    hide Scc.Listed, LowReached, PathReaches, LowCovers, Ordered, Components;
  }

  // Merging c into p, on the tables that a merge changes.
  lemma MergeFacts(y: System, g: Graph, q: Queue, except: set<nat>, p: nat, c: nat)
    requires Running(y, g, q, Idle, except) && Joinable(y, g, p, c)
    ensures var h := g.(root := Merged(g.root, p, c), nodes := JoinAt(g.nodes, p, c));
      && h == Join(g, p, c) && Running(y, h, q, Idle, except + {p}) && Later(g, h)
      && |h.root| == |g.root| && |Reps(h.root)| < |Reps(g.root)|
  {
    hide Running, Later, Eq, RootsOk, ConstraintGraph.Inv, Sound, AllCovered, JoinAt;
    JoinRunning(y, g, q, except, p, c);
    RunningRootMap(y, g, q, except);
    MergedIsRootMap(g.root, p, c);
  }

  lemma RunningRootMap(y: System, g: Graph, q: Queue, except: set<nat>)
    requires Running(y, g, q, Idle, except)
    ensures IsRootMap(g.root)
  {
    hide WorkedOff, AllSettled, Sound, AllCovered;
  }

  lemma PopFacts(y: System, g0: Graph, g: Graph, E: Digraph, t0: Dfs, t: Dfs, roots: set<nat>, starts: set<nat>, n: nat, k: nat, p: nat)
    requires Closing(y, g0, E, t0, t, n, starts) && StackOf(t0, t, n) && |t0.stk| < k <= |t.stk|
    requires Popping(g0, g, t, roots, Part(t, t0, n), Popped(t, n, k), p) && |g.nodes| == |g.root| && RootsOk(y, g)
    ensures var c := t.stk[k - 1];
      && Joinable(y, g, p, c) && Joinable(y, g, c, p)
      && Popping(g0, Join(g, p, c), t, roots, Part(t, t0, n), Popped(t, n, k - 1), p)
      && Popping(g0, Join(g, c, p), t, roots, Part(t, t0, n), Popped(t, n, k - 1), c)
  {
    hide Closing, Part, Join, Eq, RootsOk, Popped;
    var c := t.stk[k - 1];
    PopOne(t0, t, n, k);
    assert |g.root| == |g0.root|;
    hide RootsLater;
    var m := Popped(t, n, k);
    PoppingJoinable(y, g0, g, E, t0, t, roots, starts, n, m, p, c);
    assert m + {p, c} == m + {c} && m + {c, p} == m + {c};
    PoppingJoin(y, g0, g, Join(g, p, c), t, roots, Part(t, t0, n), m, p, p, c);
    PoppingJoin(y, g0, g, Join(g, c, p), t, roots, Part(t, t0, n), m, p, c, p);
  }

  // Neither a node that is no representative nor p itself needs a further exception.
  lemma ExceptJoined(y: System, g: Graph, q: Queue, except: set<nat>, p: nat, c: nat)
    requires Running(y, g, q, Idle, except) && p in except && except <= {p, c} && !IsRep(g.root, c)
    ensures Running(y, g, q, Idle, {p})
  {
    hide ConstraintGraph.Inv, WorkedOff, Settled, Grown, Asleep, Queued;
  }

  lemma JoinableReps(y: System, g: Graph, p: nat, c: nat)
    requires Joinable(y, g, p, c)
    ensures IsRep(g.root, p) && IsRep(g.root, c) && p < |g.nodes| && c < |g.nodes| && p != c
  {
  }

  lemma RootsLaterTrans(g: Graph, h: Graph, k: Graph)
    requires RootsLater(g, h) && RootsLater(h, k)
    ensures RootsLater(g, k)
  {
    forall n: nat ensures Rt(k.root, Rt(g.root, n)) == Rt(k.root, n) {
      assert Rt(k.root, Rt(h.root, Rt(g.root, n))) == Rt(k.root, Rt(g.root, n));
      assert Rt(h.root, Rt(g.root, n)) == Rt(h.root, n);
    }
  }

  lemma JoinedRep(g: Graph, p: nat, c: nat, y: System)
    requires Joinable(y, g, p, c)
    ensures !IsRep(Join(g, p, c).root, c)
  {
  }

  lemma PoppedAll(y: System, g0: Graph, g: Graph, E: Digraph, t0: Dfs, t: Dfs, roots: set<nat>, starts: set<nat>, n: nat)
    requires Closing(y, g0, E, t0, t, n, starts) && Popping(g0, g, t, roots, Part(t, t0, n), {n}, n) && RootsOk(y, g)
    ensures StackOf(t0, t, n) && n < |g.root| && RootsLater(g, g)
    ensures Popped(t, n, |t.stk|) == {n} && Popped(t, n, |t0.stk|) == Part(t, t0, n)
  {
    RootStack(E, t0, t, n);
    LaterRefl(y, g);
    PartFacts(y, g0, E, t0, t, n, starts);
    hide Closing, RootsOk;
  }

  // ---------- One edge of the active node ----------

  // In the end the edges lead exactly to the representatives of where they led.
  lemma RedirectedReps(g: Graph, t: Dfs, n: nat, handled: set<nat>, del: set<nat>, add: set<nat>)
    requires Redirecting(g, t, n, CopyTo(g, n), handled, del, add)
    ensures CopyTo(g, n) - del + add == SolverSteps.Reps(g, n, CopyTo(g, n))
  {
    var all := CopyTo(g, n);
    hide CopyTo, Closed, Rt;
    forall b: nat | b in all - del + add ensures b in SolverSteps.Reps(g, n, all) {
      assert Final(g, t, n, handled, b);
      if b in add {
        var x: nat :| x in all && Rt(g.root, x) == Rt(g.root, b);
      }
    }
    forall a: nat | a in all && Rt(g.root, a) != n ensures Rt(g.root, a) in all - del + add {
      if a in del {
        var b: nat :| b in add && Rt(g.root, b) == Rt(g.root, a);
        assert Final(g, t, n, handled, b);
      } else {
        assert Final(g, t, n, handled, a);
      }
    }
  }

  // The active node n, called in state t0, has handled the edges in done.
  ghost predicate Active(y: System, g0: Graph, g: Graph, E: Digraph, t0: Dfs, t: Dfs, roots: set<nat>, starts: set<nat>,
                         n: nat, done: set<nat>, handled: set<nat>, del: set<nat>, add: set<nat>) {
    && Cycling(y, g0, g, E, t, roots, starts) && Working(E, t0, t, n, handled)
    && handled <= Graphs.Succ(E, n) && (forall x: nat {:trigger x in done} :: x in done ==> Rt(g0.root, x) in handled)
    && Redirecting(g, t, n, done, handled, del, add)
  }

  lemma ActiveStart(y: System, g0: Graph, g: Graph, E: Digraph, t0: Dfs, t: Dfs, roots: set<nat>, starts: set<nat>, n: nat)
    requires Cycling(y, g0, g, E, t, roots, starts) && Working(E, t0, t, n, {})
    ensures Active(y, g0, g, E, t0, t, roots, starts, n, {}, {}, {}, {})
  {
    hide Cycling, Working;
  }

  // What is known about the edge to x before it is handled; dest is the node it leads to now.
  lemma ActiveEdge(y: System, g0: Graph, g: Graph, E: Digraph, t0: Dfs, t: Dfs, roots: set<nat>, starts: set<nat>,
                   n: nat, done: set<nat>, handled: set<nat>, del: set<nat>, add: set<nat>, x: nat)
    requires Active(y, g0, g, E, t0, t, roots, starts, n, done, handled, del, add) && x in CopyTo(g, n) && |g.root| == |g0.root|
    ensures n in t.path && CopyTo(g, n) == CopyTo(g0, n) && IsRep(g.root, n) && x < |g.root| && x != n && t.path == t0.path + [n]
    ensures var b, dest := Rt(g0.root, x), Rt(g.root, x);
      && b in Graphs.Succ(E, n) && b < |E| && IsRep(g0.root, b) && Proper(g0.root, b) && dest == Rt(g.root, b)
      && (dest in roots <==> Closed(t, b)) && (dest !in roots ==> dest == b)
  {
    assert n in t.path;
    hide Cycling, Working, Redirecting, Closed;
    EdgeTarget(y, g0, g, E, t, roots, starts, n, x);
  }

  // An edge that leads to n itself or to a node already redirected to is deleted.
  lemma ActiveSkip(y: System, g0: Graph, g: Graph, E: Digraph, t0: Dfs, t: Dfs, roots: set<nat>, starts: set<nat>,
                   n: nat, done: set<nat>, handled: set<nat>, del: set<nat>, add: set<nat>, x: nat)
    requires Active(y, g0, g, E, t0, t, roots, starts, n, done, handled, del, add) && x in CopyTo(g, n) && |g.root| == |g0.root|
    requires Rt(g.root, x) == n || Rt(g.root, x) in add
    ensures Active(y, g0, g, E, t0, t, roots, starts, n, done + {x}, handled + {Rt(g0.root, x)}, del + {x}, add)
  {
    hide Cycling, Working, Redirecting, Closed;
    ActiveEdge(y, g0, g, E, t0, t, roots, starts, n, done, handled, del, add, x);
    EdgeRoot(y, g0, g, E, t, roots, starts, x);
    var b := Rt(g0.root, x);
    AddHandled(g, t, n, done, handled, del, add, Rt(g.root, x));
    SkipWorking(E, t0, t, n, handled, b);
    SkipRedirecting(g, t, n, done, handled, del, add, x, b);
  }

  lemma EdgeRoot(y: System, g0: Graph, g: Graph, E: Digraph, t: Dfs, roots: set<nat>, starts: set<nat>, x: nat)
    requires Cycling(y, g0, g, E, t, roots, starts)
    ensures forall b: nat :: Rt(g.root, b) in roots ==> Closed(t, Rt(g.root, b)) && Rt(g.root, Rt(g.root, b)) == Rt(g.root, b)
  {
    hide Scc.Inv, EdgesFollow, VisitedOk, Searchable, Closed, RootsLater;
  }

  lemma AddHandled(g: Graph, t: Dfs, n: nat, done: set<nat>, handled: set<nat>, del: set<nat>, add: set<nat>, a: nat)
    requires Redirecting(g, t, n, done, handled, del, add)
    ensures a in add ==> Closed(t, a) || a in handled
  {
    hide Closed;
    if a in add {
      assert Final(g, t, n, handled, a);
    }
  }

  // An edge to n, to a closed node or to one handled before needs no more work.
  lemma SkipWorking(E: Digraph, t0: Dfs, t: Dfs, n: nat, handled: set<nat>, b: nat)
    requires Working(E, t0, t, n, handled) && (b == n || Closed(t, b) || b in handled)
    ensures Working(E, t0, t, n, handled + {b})
  {
    hide Scc.Inv, Extends, LeastLow, Closed, Visited;
    if Closed(t, b) {
      ClosedVisited(E, t, b);
    }
    LowBelow(E, t, n);
  }

  lemma ClosedVisited(E: Digraph, t: Dfs, x: nat)
    requires Scc.Inv(E, t) && Closed(t, x)
    ensures Visited(t, x)
  {
    hide Scc.Listed, LowReached, PathReaches, LowCovers, Ordered, Components;
  }

  lemma LowBelow(E: Digraph, t: Dfs, x: nat)
    requires Scc.Inv(E, t) && Visited(t, x)
    ensures Low(t, x) <= Num(t, x)
  {
    hide Scc.Listed, LowReached, PathReaches, LowCovers, Ordered, Components;
  }

  lemma SkipRedirecting(g: Graph, t: Dfs, n: nat, done: set<nat>, handled: set<nat>, del: set<nat>, add: set<nat>, x: nat, b: nat)
    requires Redirecting(g, t, n, done, handled, del, add) && (Rt(g.root, x) == n || Rt(g.root, x) in add)
    requires Rt(g.root, Rt(g.root, x)) == Rt(g.root, x)
    ensures Redirecting(g, t, n, done + {x}, handled + {b}, del + {x}, add)
  {
    hide Closed;
    forall a: nat | a in add ensures Handles(g, n, done + {x}, a) {
      var z: nat :| z in done && Rt(g.root, z) == Rt(g.root, a);
      assert z in done + {x};
    }
    forall a: nat | a in done + {x} - (del + {x}) + add ensures Final(g, t, n, handled + {b}, a) {
      assert a in done - del + add && Final(g, t, n, handled, a);
    }
    assert Rt(g.root, x) == n || Replaced(g, add, x);
  }

  lemma WorkingInv(E: Digraph, t0: Dfs, t: Dfs, n: nat, handled: set<nat>)
    requires Working(E, t0, t, n, handled)
    ensures Scc.Inv(E, t) && n in t.low && t.path == t0.path + [n]
  {
    assert Numbered(E, t);
    hide Scc.Listed, LowReached, PathReaches, LowCovers, Ordered, Components;
  }

  // The edge to x is redirected to dest, unless x is a representative itself.
  lemma ActiveRedirect(g: Graph, t: Dfs, n: nat, done: set<nat>, handled: set<nat>, del: set<nat>, add: set<nat>, x: nat, b: nat)
    requires Redirecting(g, t, n, done, handled, del, add)
    requires Rt(g.root, x) != n && Proper(g.root, Rt(g.root, x)) && Rt(g.root, Rt(g.root, x)) == Rt(g.root, x)
    requires Closed(t, Rt(g.root, x)) || Rt(g.root, x) == b
    ensures Redirecting(g, t, n, done + {x}, handled + {b}, del + {x}, add + {Rt(g.root, x)})
  {
    hide Closed;
    var dest := Rt(g.root, x);
    forall a: nat | a in done + {x} - (del + {x}) + (add + {dest}) ensures Final(g, t, n, handled + {b}, a) {
      assert a == dest || (a in done - del + add && Final(g, t, n, handled, a));
    }
    forall a: nat | a in add + {dest} ensures Handles(g, n, done + {x}, a) {
      if a == dest {
        assert x in done + {x} && Rt(g.root, x) == Rt(g.root, a);
      } else {
        var z: nat :| z in done && Rt(g.root, z) == Rt(g.root, a);
        assert z in done + {x};
      }
    }
    forall a: nat | a in del + {x} ensures Rt(g.root, a) == n || Replaced(g, add + {dest}, a) {
      if a == x {
        assert dest in add + {dest} && Rt(g.root, dest) == Rt(g.root, a);
      } else if Rt(g.root, a) != n {
        var b: nat :| b in add && Rt(g.root, b) == Rt(g.root, a);
        assert b in add + {dest};
      }
    }
  }

  // An edge to a representative stays.
  lemma ActiveKeep(g: Graph, t: Dfs, n: nat, done: set<nat>, handled: set<nat>, del: set<nat>, add: set<nat>, x: nat, b: nat)
    requires Redirecting(g, t, n, done, handled, del, add) && Rt(g.root, x) == x != n && (Closed(t, x) || x == b)
    ensures Redirecting(g, t, n, done + {x}, handled + {b}, del, add)
  {
    hide Closed;
    forall a: nat | a in add ensures Handles(g, n, done + {x}, a) {
      var z: nat :| z in done && Rt(g.root, z) == Rt(g.root, a);
      assert z in done + {x};
    }
    forall a: nat | a in done + {x} - del + add ensures Final(g, t, n, handled + {b}, a) {
      assert a == x || (a in done - del + add && Final(g, t, n, handled, a));
    }
  }

  // The DFS id that the active node takes over from the representative of its target b.
  function Lowered(t: Dfs, n: nat, dest: nat): Dfs {
    if Low(t, dest) < Low(t, n) then t.(low := t.low[n := Low(t, dest)]) else t
  }

  // The representative of a component closed by the call for b has no lower id than n.
  lemma LoweredIsSeen(y: System, g0: Graph, g: Graph, E: Digraph, t: Dfs, t1: Dfs, roots: set<nat>, starts: set<nat>, n: nat, b: nat)
    requires Cycling(y, g0, g, E, t1, roots, starts) && Returned(E, t, t1, b) && IsRep(g0.root, b)
    requires Scc.Inv(E, t) && Visited(t, n)
    ensures Lowered(t1, n, Rt(g.root, b)) == Seen(t1, n, b)
    ensures !Closed(t1, b) ==> Rt(g.root, b) == b
    ensures Closed(t1, b) ==> Closed(t1, Rt(g.root, b))
    ensures Visited(t1, Rt(g.root, b))
  {
    hide Cycling, Closed, Comp, Visited, Returned, Scc.Inv, Low;
    var dest := Rt(g.root, b);
    ComponentRoot(y, g0, g, E, t1, roots, starts, b);
    ReturnedVisited(E, t, t1, b);
    if Closed(t1, b) {
      ClosedVisited(E, t1, dest);
      LateClosed(E, t, t1, n, b, dest);
    }
  }

  lemma ReturnedVisited(E: Digraph, t: Dfs, t1: Dfs, b: nat)
    requires Returned(E, t, t1, b)
    ensures Visited(t1, b) && Scc.Inv(E, t1)
  {
    hide Scc.Inv;
  }

  lemma ComponentRoot(y: System, g0: Graph, g: Graph, E: Digraph, t: Dfs, roots: set<nat>, starts: set<nat>, b: nat)
    requires Cycling(y, g0, g, E, t, roots, starts) && IsRep(g0.root, b)
    ensures if Closed(t, b) then Closed(t, Rt(g.root, b)) && Comp(t, Rt(g.root, b)) == Comp(t, b) else Rt(g.root, b) == b
  {
    hide Scc.Inv, Searchable, EdgesFollow, VisitedOk, RootsLater, Closed, Comp;
    if Closed(t, b) {
      var dest := Rt(g.root, b);
      assert dest in roots;
      assert Closed(t, dest) && IsRep(g.root, dest);
    }
  }

  lemma LateClosed(E: Digraph, t: Dfs, t1: Dfs, n: nat, b: nat, dest: nat)
    requires Scc.Inv(E, t) && Returned(E, t, t1, b) && Visited(t, n)
    requires Closed(t1, b) && Closed(t1, dest) && Comp(t1, dest) == Comp(t1, b) && Visited(t1, dest)
    ensures Low(t1, n) <= Low(t1, dest)
  {
    CompBelow(E, t);
    LowBelow(E, t, n);
    NumBelow(E, t, n);
    hide Scc.Inv;
    assert !Closed(t, dest);
    assert !Visited(t, dest);
  }

  lemma NumBelow(E: Digraph, t: Dfs, n: nat)
    requires Scc.Inv(E, t) && Visited(t, n)
    ensures Num(t, n) < t.clock && (forall x: nat :: Closed(t, x) ==> Visited(t, x))
  {
    hide Scc.Listed, LowReached, PathReaches, LowCovers, Ordered, Components;
  }

  // The edge of n to x has been followed: it leads to the representative dest now.
  ghost predicate Edged(y: System, g0: Graph, g: Graph, E: Digraph, t0: Dfs, t: Dfs, roots: set<nat>, starts: set<nat>,
                        n: nat, done: set<nat>, handled: set<nat>, del: set<nat>, add: set<nat>, x: nat, dest: nat) {
    && Cycling(y, g0, g, E, t, roots, starts) && Working(E, t0, t, n, handled + {Rt(g0.root, x)})
    && Redirecting(g, t, n, done, handled, del, add) && Rt(g.root, n) == n
    && dest == Rt(g.root, x) && dest != n && Proper(g.root, dest) && Rt(g.root, dest) == dest
    && (Closed(t, dest) || dest == Rt(g0.root, x))
  }

  lemma EdgedSeen(y: System, g0: Graph, g: Graph, E: Digraph, t0: Dfs, t: Dfs, roots: set<nat>, starts: set<nat>,
                  n: nat, done: set<nat>, handled: set<nat>, del: set<nat>, add: set<nat>, x: nat)
    requires Active(y, g0, g, E, t0, t, roots, starts, n, done, handled, del, add) && x in CopyTo(g, n) && |g.root| == |g0.root|
    requires Rt(g.root, x) != n && RootsOk(y, g) && (Rt(g.root, x) in roots || Rt(g.root, x) in t.low)
    ensures var b, dest := Rt(g0.root, x), Rt(g.root, x);
      && Edged(y, g0, g, E, t0, Seen(t, n, b), roots, starts, n, done, handled, del, add, x, dest)
      && Seen(t, n, b) == (if dest in roots then t else Lowered(t, n, dest)) && n in t.low
  {
    hide Cycling, Working, Redirecting, Closed, Scc.Inv, Visited, Lowered;
    ActiveEdge(y, g0, g, E, t0, t, roots, starts, n, done, handled, del, add, x);
    var b, dest := Rt(g0.root, x), Rt(g.root, x);
    WorkingInv(E, t0, t, n, handled);
    LowKeys(E, t, n);
    assert Visited(t, b) by {
      if dest in roots {
        ClosedVisited(E, t, b);
      } else {
        InNum(t, b);
      }
    }
    SeenWorking(E, t0, t, n, handled, b);
    WorkingInv(E, t0, Seen(t, n, b), n, handled + {b});
    CyclingSeen(y, g0, g, E, t, roots, starts, n, b);
    ComponentRoot(y, g0, g, E, t, roots, starts, b);
    RedirectingSame(g, t, Seen(t, n, b), n, done, handled, del, add);
    ProperRoot(y, g0, g, b);
    SeenLowered(t, n, b);
  }

  lemma SeenLowered(t: Dfs, n: nat, b: nat)
    ensures Seen(t, n, b) == if Closed(t, b) then t else Lowered(t, n, b)
  {
  }

  lemma InNum(t: Dfs, b: nat)
    requires b in t.num
    ensures Visited(t, b)
  {
  }

  lemma RedirectingSame(g: Graph, t: Dfs, u: Dfs, n: nat, done: set<nat>, handled: set<nat>, del: set<nat>, add: set<nat>)
    requires Redirecting(g, t, n, done, handled, del, add) && forall x: nat :: Closed(t, x) ==> Closed(u, x)
    ensures Redirecting(g, u, n, done, handled, del, add)
  {
    hide Closed;
    forall a: nat | a in done - del + add ensures Final(g, u, n, handled, a) {
      assert Final(g, t, n, handled, a);
    }
  }

  lemma ProperRoot(y: System, g0: Graph, g: Graph, b: nat)
    requires Proper(g0.root, b) && RootsOk(y, g) && |g.root| == |g0.root|
    ensures Proper(g.root, Rt(g.root, b)) && Rt(g.root, Rt(g.root, b)) == Rt(g.root, b)
  {
  }

  // The call for the target of the edge has returned in state t1 on graph h.
  lemma EdgedReturn(y: System, g0: Graph, g: Graph, h: Graph, E: Digraph, t0: Dfs, t: Dfs, t1: Dfs, roots: set<nat>, roots1: set<nat>,
                    starts: set<nat>, n: nat, done: set<nat>, handled: set<nat>, del: set<nat>, add: set<nat>, x: nat)
    requires Active(y, g0, g, E, t0, t, roots, starts, n, done, handled, del, add) && x in CopyTo(g, n) && |g.root| == |g0.root|
    requires Rt(g.root, x) != n && Rt(g.root, x) !in roots
    requires Returned(E, t, t1, Rt(g0.root, x)) && Cycling(y, g0, h, E, t1, roots1, starts) && RootsLater(g, h) && RootsOk(y, h)
    requires roots <= roots1
    ensures var b, dest := Rt(g0.root, x), Rt(h.root, x);
      && Edged(y, g0, h, E, t0, Seen(t1, n, b), roots1, starts, n, done, handled, del, add, x, dest)
      && Seen(t1, n, b) == Lowered(t1, n, dest) && CopyTo(h, n) == CopyTo(g, n) && n in t1.low && dest in t1.low
  {
    hide Cycling, Working, Redirecting, Closed, Visited, Scc.Inv, Returned, Lowered;
    var b := Rt(g0.root, x);
    ActiveEdge(y, g0, g, E, t0, t, roots, starts, n, done, handled, del, add, x);
    WorkingInv(E, t0, t, n, handled);
    ReturnedWorking(E, t0, t, n, handled, b, t1);
    var r := Seen(t1, n, b);
    WorkingInv(E, t0, r, n, handled + {b});
    CyclingSeen(y, g0, h, E, t1, roots1, starts, n, b);
    LowKeys(E, t, n);
    LoweredIsSeen(y, g0, h, E, t, t1, roots1, starts, n, b);
    ReturnedKeeps(y, g0, h, E, t, t1, roots1, starts, n, b);
    forall a: nat | Final(g, t, n, handled, a) ensures Rt(h.root, a) == a {
      FinalStays(y, g0, g, h, E, t0, t, t1, roots, roots1, starts, n, handled, b, a);
    }
    RedirectingLater(g, h, t, r, n, done, handled, del, add);
    assert Rt(h.root, Rt(g0.root, x)) == Rt(h.root, x) by { CyclingRoots(y, g0, h, E, t1, roots1, starts); }
    assert |h.root| == |g.root| by { hide *; RootsLength(g, h); }
    ProperRoot(y, g0, h, b);
  }

  // A representative that the search has handled stays one during the calls that follow.
  lemma FinalStays(y: System, g0: Graph, g: Graph, h: Graph, E: Digraph, t0: Dfs, t: Dfs, t1: Dfs, roots: set<nat>, roots1: set<nat>,
                   starts: set<nat>, n: nat, handled: set<nat>, b: nat, a: nat)
    requires Cycling(y, g0, g, E, t, roots, starts) && Working(E, t0, t, n, handled) && Final(g, t, n, handled, a)
    requires Returned(E, t, t1, b) && Cycling(y, g0, h, E, t1, roots1, starts) && roots <= roots1
    ensures Rt(h.root, a) == a
  {
    hide Scc.Inv, Searchable, EdgesFollow, RootsLater, FromStart, LeastLow;
    if Closed(t, a) {
      assert a in roots;
    } else {
      assert Visited(t, a);
      assert !Closed(t1, a) && IsRep(g0.root, a);
    }
  }

  lemma RootsLength(g: Graph, h: Graph)
    requires RootsLater(g, h)
    ensures |h.root| == |g.root|
  {
  }

  lemma EdgedActive(y: System, g0: Graph, g: Graph, E: Digraph, t0: Dfs, t: Dfs, roots: set<nat>, starts: set<nat>,
                    n: nat, done: set<nat>, handled: set<nat>, del: set<nat>, add: set<nat>, x: nat, dest: nat)
    requires Edged(y, g0, g, E, t0, t, roots, starts, n, done, handled, del, add, x, dest)
    requires handled <= Graphs.Succ(E, n) && Rt(g0.root, x) in Graphs.Succ(E, n)
    requires forall z: nat {:trigger z in done} :: z in done ==> Rt(g0.root, z) in handled
    ensures Active(y, g0, g, E, t0, t, roots, starts, n, done + {x}, handled + {Rt(g0.root, x)}, del + {x}, add + {dest})
    ensures dest == x ==> Active(y, g0, g, E, t0, t, roots, starts, n, done + {x}, handled + {Rt(g0.root, x)}, del, add)
  {
    hide Cycling, Working, Redirecting, Closed;
    ActiveRedirect(g, t, n, done, handled, del, add, x, Rt(g0.root, x));
    if dest == x {
      ActiveKeep(g, t, n, done, handled, del, add, x, Rt(g0.root, x));
    }
  }

  lemma CyclingRoots(y: System, g0: Graph, g: Graph, E: Digraph, t: Dfs, roots: set<nat>, starts: set<nat>)
    requires Cycling(y, g0, g, E, t, roots, starts)
    ensures forall x: nat :: Rt(g.root, Rt(g0.root, x)) == Rt(g.root, x)
  {
    hide Scc.Inv, Searchable, EdgesFollow, VisitedOk;
  }

  lemma LowKeys(E: Digraph, t: Dfs, n: nat)
    requires Scc.Inv(E, t)
    ensures t.low.Keys == t.num.Keys && (n in t.path ==> Visited(t, n) && !Closed(t, n))
  {
    assert n in t.path ==> Open(t, n);
    hide LowReached, PathReaches, LowCovers, Ordered, Components;
  }

  // The active node is left alone by the call.
  lemma ReturnedKeeps(y: System, g0: Graph, h: Graph, E: Digraph, t: Dfs, t1: Dfs, roots1: set<nat>, starts: set<nat>, n: nat, b: nat)
    requires Returned(E, t, t1, b) && Cycling(y, g0, h, E, t1, roots1, starts) && n in t.path
    ensures Rt(h.root, n) == n && CopyTo(h, n) == CopyTo(g0, n) && !Closed(t1, n) && n in t1.low
    ensures forall x: nat :: Closed(t, x) ==> Closed(t1, x)
    ensures forall x: nat :: Visited(t1, x) ==> x in t1.low
  {
    assert n in t1.path && Open(t1, n) && n !in t1.stk;
    assert IsRep(g0.root, n);
    hide LowReached, PathReaches, LowCovers, Ordered, Components, Searchable, RootsLater, LeastLow;
  }

  // ---------- The whole call ----------

  // Everything that must hold when the call for n begins.
  ghost predicate Callable(g0: Graph, E: Digraph, t: Dfs, starts: set<nat>, n: nat) {
    && n < |E| && !Visited(t, n) && IsRep(g0.root, n) && Proper(g0.root, n)
    && if |t.path| > 0 then n in Graphs.Succ(E, t.path[|t.path| - 1]) else n in starts
  }

  lemma CallableTarget(y: System, g0: Graph, g: Graph, E: Digraph, t0: Dfs, t: Dfs, roots: set<nat>, starts: set<nat>,
                       n: nat, done: set<nat>, handled: set<nat>, del: set<nat>, add: set<nat>, x: nat)
    requires Active(y, g0, g, E, t0, t, roots, starts, n, done, handled, del, add) && x in CopyTo(g, n) && |g.root| == |g0.root|
    requires Rt(g.root, x) !in roots && Rt(g.root, x) !in t.low
    ensures Callable(g0, E, t, starts, Rt(g0.root, x)) && Rt(g.root, x) == Rt(g0.root, x)
  {
    hide Cycling, Redirecting, Closed, Scc.Inv, Working;
    ActiveEdge(y, g0, g, E, t0, t, roots, starts, n, done, handled, del, add, x);
    WorkingInv(E, t0, t, n, handled);
    LowKeys(E, t, n);
  }

  // At the end of the loop every successor has been handled.
  lemma AllHandled(y: System, g0: Graph, g: Graph, E: Digraph, t0: Dfs, t: Dfs, roots: set<nat>, starts: set<nat>,
                   n: nat, done: set<nat>, handled: set<nat>, del: set<nat>, add: set<nat>)
    requires Active(y, g0, g, E, t0, t, roots, starts, n, done, handled, del, add) && done == CopyTo(g, n) && RootsOk(y, g) && EdgesOk(y, g)
    ensures Working(E, t0, t, n, Graphs.Succ(E, n)) && SameEdges(g, n, CopyTo(g, n) - del + add)
    ensures CopyTo(g, n) - del + add == SolverSteps.Reps(g, n, CopyTo(g, n))
    ensures IsRep(g.root, n) && (CopyTo(g, n) - del + add != {} ==> Proper(g.root, n)) && n < |g.root| && n in t.low && t.path == t0.path + [n]
  {
    hide Working, Redirecting, Scc.Inv;
    WorkingInv(E, t0, t, n, handled);
    LowKeys(E, t, n);
    assert n in t.path && CopyTo(g, n) == CopyTo(g0, n) && IsRep(g.root, n) && Proper(g0.root, n) by {
      hide Quotient, RootsLater;
      assert n in t.path;
      NotShelved(E, t, n);
    }
    forall b: nat | b in Graphs.Succ(E, n) ensures b in handled {
      hide Cycling, Quotient;
      assert b in Graphs.Succ(Quotient(g0), n);
      var x: nat :| x in CopyTo(g0, n) && b == Rt(g0.root, x);
    }
    assert handled == Graphs.Succ(E, n);
    hide Cycling;
    RedirectingEdges(g, t, n, handled, del, add);
    assert |g.root| == |g0.root| by { CyclingLength(y, g0, g, E, t, roots, starts); }
  }

  lemma CyclingLength(y: System, g0: Graph, g: Graph, E: Digraph, t: Dfs, roots: set<nat>, starts: set<nat>)
    requires Cycling(y, g0, g, E, t, roots, starts)
    ensures |g.root| == |g0.root| == |E|
  {
    hide Scc.Inv, EdgesFollow, VisitedOk;
  }

  lemma NotShelved(E: Digraph, t: Dfs, n: nat)
    requires Scc.Inv(E, t) && n in t.path
    ensures n !in t.stk && !Closed(t, n) && Visited(t, n)
  {
    hide LowReached, PathReaches, LowCovers, Ordered, Components, Numbered;
    assert Open(t, n);
  }

  // Facts about a search in progress.
  lemma SearchFacts(y: System, g0: Graph, g: Graph, q: Queue, E: Digraph, t: Dfs, roots: set<nat>, starts: set<nat>)
    requires Running(y, g, q, Idle, {}) && Cycling(y, g0, g, E, t, roots, starts)
    ensures |g.root| == |g0.root| == |E| && RootsOk(y, g) && EdgesOk(y, g) && RootsLater(g, g) && Scc.Inv(E, t)
  {
    hide Running, RootsOk, EdgesOk, RootsLater, Cycling, Scc.Inv;
    CyclingInv(y, g0, g, E, t, roots, starts);
    CyclingLength(y, g0, g, E, t, roots, starts);
    RunningOk(y, g, q);
  }

  lemma RunningOk(y: System, g: Graph, q: Queue)
    requires Running(y, g, q, Idle, {})
    ensures RootsOk(y, g) && EdgesOk(y, g) && RootsLater(g, g)
  {
    hide Sound, AllCovered, WorkedOff, AllSettled;
  }

  lemma HandledFacts(y: System, g0: Graph, g: Graph, E: Digraph, t0: Dfs, t: Dfs, roots: set<nat>, starts: set<nat>,
                     n: nat, done: set<nat>, handled: set<nat>, del: set<nat>, add: set<nat>)
    requires Active(y, g0, g, E, t0, t, roots, starts, n, done, handled, del, add)
    ensures handled <= Graphs.Succ(E, n)
    ensures forall z: nat {:trigger z in done} :: z in done ==> Rt(g0.root, z) in handled
  {
    hide Cycling, Working, Redirecting;
  }

  lemma EdgedCycling(y: System, g0: Graph, g: Graph, E: Digraph, t0: Dfs, t: Dfs, roots: set<nat>, starts: set<nat>,
                     n: nat, done: set<nat>, handled: set<nat>, del: set<nat>, add: set<nat>, x: nat, dest: nat)
    requires Edged(y, g0, g, E, t0, t, roots, starts, n, done, handled, del, add, x, dest)
    ensures Cycling(y, g0, g, E, t, roots, starts)
  {
    hide Cycling, Working, Redirecting;
  }

  lemma EnterFields(t: Dfs, n: nat)
    ensures var r := Enter(t, n); r.low == t.low[n := t.clock] && r.clock == t.clock + 1 && r.stk == t.stk
  {
  }

  lemma ActiveShrinks(y: System, g0: Graph, g: Graph, E: Digraph, t0: Dfs, t: Dfs, roots: set<nat>, starts: set<nat>,
                      n: nat, done: set<nat>, handled: set<nat>, del: set<nat>, add: set<nat>)
    requires Active(y, g0, g, E, t0, t, roots, starts, n, done, handled, del, add)
    ensures Unvisited(E, t) < Unvisited(E, t0)
  {
    hide Cycling, Working, Redirecting, Unvisited, Scc.Inv;
    WorkingInv(E, t0, t, n, handled);
    LowKeys(E, t, n);
    NumberedBelow(E, t, n);
    UnvisitedShrinks(E, t0, t, n, handled);
  }

  lemma NumberedBelow(E: Digraph, t: Dfs, n: nat)
    requires Scc.Inv(E, t) && n in t.path
    ensures n < |E|
  {
    assert Open(t, n);
    hide LowReached, PathReaches, LowCovers, Ordered, Components;
  }

  lemma RedirectCopy(g: Graph, n: nat, edges: set<nat>)
    requires n < |g.nodes|
    ensures CopyTo(g.(nodes := RedirectAt(g.nodes, n, edges)), n) == edges
  {
  }

  // The two ways to leave the active node n, once its edges have been replaced.
  lemma LeaveFacts(y: System, g0: Graph, g: Graph, q: Queue, E: Digraph, t0: Dfs, t: Dfs, roots: set<nat>, starts: set<nat>,
                   n: nat, edges: set<nat>)
    requires Running(y, g, q, Idle, {}) && Cycling(y, g0, g, E, t, roots, starts) && Working(E, t0, t, n, Graphs.Succ(E, n))
    requires SameEdges(g, n, edges) && (edges != {} ==> Proper(g.root, n)) && IsRep(g.root, n) && n < |g.nodes| && Scc.Inv(E, t0)
    requires n in t.low
    ensures var h := g.(nodes := RedirectAt(g.nodes, n, edges));
      && Running(y, h, q, Idle, {}) && RootsLater(g, h) && Num(t, n) == t0.clock && CopyTo(h, n) == edges
      && (t.low[n] == t0.clock ==> Closing(y, g0, E, t0, t, n, starts) && Popping(g0, h, t, roots, Part(t, t0, n), {n}, n))
      && (t.low[n] != t0.clock ==> var r := Shelve(t, t0.path, n);
           Returned(E, t0, r, n) && Cycling(y, g0, h, E, r, roots, starts) && r.low == t.low && r.stk == t.stk + [n] && r.clock == t.clock)
  {
    hide Running, Cycling, SameEdges, Scc.Inv, RedirectAt, Closing, Popping, Part, Returned, RootsLater, Extends, LeastLow, Handled;
    var h := Redirect(g, n, edges);
    RedirectRunning(y, g, q, Idle, {}, n, edges);
    assert RootsLater(g, h);
    assert h == g.(nodes := RedirectAt(g.nodes, n, edges));
    RedirectCopy(g, n, edges);
    LowBelow(E, t, n);
    if t.low[n] == t0.clock {
      RootClosing(y, g0, g, E, t0, t, roots, starts, n);
      PoppingStart(y, g0, g, h, E, t0, t, roots, starts, n);
    } else {
      CyclingShelve(y, g0, g, h, E, t0, t, roots, starts, n);
    }
  }

  lemma RootClosing(y: System, g0: Graph, g: Graph, E: Digraph, t0: Dfs, t: Dfs, roots: set<nat>, starts: set<nat>, n: nat)
    requires Cycling(y, g0, g, E, t, roots, starts) && Working(E, t0, t, n, Graphs.Succ(E, n)) && Scc.Inv(E, t0)
    requires n in t.low && t.low[n] == t0.clock
    ensures Closing(y, g0, E, t0, t, n, starts)
  {
    hide LowReached, PathReaches, LowCovers, Ordered, Components, Searchable, VisitedOk, RootsFollow, EdgesFollow, Extends, LeastLow, Handled;
    assert Numbered(E, t0) && Scc.Listed(t0);
  }

  lemma CyclingInv(y: System, g0: Graph, g: Graph, E: Digraph, t: Dfs, roots: set<nat>, starts: set<nat>)
    requires Cycling(y, g0, g, E, t, roots, starts)
    ensures Scc.Inv(E, t)
  {
    hide Scc.Inv, Searchable, RootsFollow, EdgesFollow, VisitedOk;
  }

  // ---------- The whole search ----------

  // Between g0 and g exactly the strongly connected components of the copy graph that can
  // be reached from starts have been merged.
  ghost predicate Collapsed(g0: Graph, g: Graph, starts: set<nat>) {
    forall a: nat, b: nat :: IsRep(g0.root, a) && IsRep(g0.root, b) ==>
      (Rt(g.root, a) == Rt(g.root, b) <==> a == b || (Mutual(Quotient(g0), a, b) && FromStart(Quotient(g0), RepsIn(g0, starts), a)))
  }

  function RepsIn(g: Graph, s: set<nat>): set<nat> {
    set x | x in s && IsRep(g.root, x)
  }

  // A representative has been one from the beginning.
  lemma StillRep(y: System, g0: Graph, g: Graph, E: Digraph, t: Dfs, roots: set<nat>, starts: set<nat>, n: nat)
    requires Cycling(y, g0, g, E, t, roots, starts) && IsRep(g.root, n)
    ensures IsRep(g0.root, n)
    ensures forall s: nat :: IsRep(g0.root, s) && !IsRep(g.root, s) ==> Closed(t, s)
  {
    hide Scc.Inv, EdgesFollow, Quotient, EdgesOk, Closed, Visited;
    var m := Rt(g0.root, n);
    assert Rt(g.root, m) == n;
    assert forall x: nat :: Closed(t, x) ==> Visited(t, x) by { AllClosedVisited(E, t); }
  }

  lemma AllClosedVisited(E: Digraph, t: Dfs)
    requires Scc.Inv(E, t)
    ensures forall x: nat :: Closed(t, x) ==> Visited(t, x)
  {
    forall x: nat | Closed(t, x) ensures Visited(t, x) {
      ClosedVisited(E, t, x);
    }
  }

  lemma SearchEnds(y: System, g0: Graph, g: Graph, E: Digraph, t: Dfs, roots: set<nat>, starts: set<nat>)
    requires Cycling(y, g0, g, E, t, roots, RepsIn(g0, starts)) && t.path == [] && forall s: nat :: s in RepsIn(g0, starts) ==> Visited(t, s)
    ensures t.stk == [] && Collapsed(g0, g, starts)
  {
    hide Searchable, EdgesFollow, Scc.Inv, Quotient, RootsLater, FromStart, Closed, Visited, RepsIn, Reach, Comp;
    SearchComplete(E, t);
    assert E == Quotient(g0) by { hide Scc.Inv, RootsFollow, VisitedOk, RepsIn; SearchedGraph(y, g0, E); }
    assert Components(E, t) by { hide *; SccParts(E, t); }
    forall a: nat, b: nat | IsRep(g0.root, a) && IsRep(g0.root, b)
      ensures Rt(g.root, a) == Rt(g.root, b) <==> a == b || (Mutual(E, a, b) && FromStart(E, RepsIn(g0, starts), a)) {
      if FromStart(E, RepsIn(g0, starts), a) {
        StartsClosed(E, t, RepsIn(g0, starts), a);
        if Mutual(E, a, b) {
          ClosedReach(E, t, a, b);
        }
      }
      if Closed(t, a) && Mutual(E, a, b) {
        ClosedReach(E, t, a, b);
      }
      RootsApart(g0, g, t, roots, a, b);
    }
  }

  lemma SearchedGraph(y: System, g0: Graph, E: Digraph)
    requires Searchable(y, g0, E)
    ensures E == Quotient(g0)
  {
  }

  lemma SccParts(E: Digraph, t: Dfs)
    requires Scc.Inv(E, t)
    ensures Components(E, t)
  {
  }

  lemma StartsClosed(E: Digraph, t: Dfs, starts: set<nat>, a: nat)
    requires Scc.Inv(E, t) && FromStart(E, starts, a)
    requires forall s: nat :: s in starts ==> Closed(t, s)
    ensures Closed(t, a)
  {
    hide Scc.Inv, Closed, Reach;
    var s: nat :| s in starts && Reach(E, s, a);
    ClosedReach(E, t, s, a);
  }

  lemma RootsApart(g0: Graph, g: Graph, t: Dfs, roots: set<nat>, a: nat, b: nat)
    requires RootsFollow(g0, g, t, roots) && IsRep(g0.root, a) && IsRep(g0.root, b)
    ensures Rt(g.root, a) == Rt(g.root, b) <==> a == b || (Closed(t, a) && Closed(t, b) && Comp(t, a) == Comp(t, b))
  {
    hide Closed, Comp, RootsLater;
  }

  lemma RunCycling(y: System, g: Graph, q: Queue, starts: set<nat>)
    requires Running(y, g, q, Idle, {})
    ensures Cycling(y, g, g, Quotient(g), Start, {}, starts) && RootsLater(g, g)
  {
    hide WorkedOff, AllSettled, AllCovered, CplxSound, CplxOk, PointsSound, Cycling, RootsOk, EdgesOk, EdgesSound, RootsSound;
    CyclingStart(y, g, starts);
    LaterRefl(y, g);
  }

  // What is known of a node from which the search is to start.
  lemma StartFacts(y: System, g0: Graph, g: Graph, E: Digraph, t: Dfs, roots: set<nat>, starts: set<nat>, n: nat)
    requires Cycling(y, g0, g, E, t, roots, starts) && Proper(g.root, n) && |g.root| == |g0.root| == |E| && t.path == []
    requires n in starts <==> IsRep(g0.root, n)
    ensures IsRep(g.root, n) && n !in t.low ==> Callable(g0, E, t, starts, n)
    ensures IsRep(g0.root, n) && (!IsRep(g.root, n) || n in t.low) ==> Visited(t, n)
  {
    hide Cycling, Scc.Inv;
    if IsRep(g.root, n) {
      StillRep(y, g0, g, E, t, roots, starts, n);
    }
    if IsRep(g0.root, n) && !IsRep(g.root, n) {
      MergedClosed(y, g0, g, E, t, roots, starts, n);
    }
    CyclingInv(y, g0, g, E, t, roots, starts);
    LowKeys(E, t, n);
  }

  lemma MergedClosed(y: System, g0: Graph, g: Graph, E: Digraph, t: Dfs, roots: set<nat>, starts: set<nat>, n: nat)
    requires Cycling(y, g0, g, E, t, roots, starts) && IsRep(g0.root, n) && !IsRep(g.root, n)
    ensures Visited(t, n)
  {
    assert Closed(t, n) by { hide Scc.Inv, Searchable, EdgesFollow, VisitedOk, RootsLater, Closed; }
    assert Scc.Inv(E, t);
    hide Cycling;
    ClosedVisited(E, t, n);
  }

  lemma ReturnedPath(E: Digraph, t: Dfs, t1: Dfs, n: nat)
    requires Returned(E, t, t1, n)
    ensures t1.path == t.path && Visited(t1, n) && forall s: nat :: Visited(t, s) ==> Visited(t1, s)
  {
    hide Scc.Inv, LeastLow;
  }

  lemma RedirectSlack(l: Layout, nodes: seq<Node>, n: nat, edges: set<nat>)
    requires n < |nodes|
    ensures SolverSteps.Slack(RedirectAt(nodes, n, edges), SolverSteps.Objects(l)) == SolverSteps.Slack(nodes, SolverSteps.Objects(l))
  {
    SolverSteps.SlackSame(nodes, RedirectAt(nodes, n, edges), SolverSteps.Objects(l));
  }
}
