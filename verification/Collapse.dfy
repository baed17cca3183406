/** Collapsing the components of the offline graph as they are found, and labelling each. */
module Collapse {
  import opened Constraints
  import opened ConstraintGraph
  import opened Graphs
  import opened Offline
  import opened Labels
  import opened Scc
  import Sets = UnionFind

  // ---------- The graph during the search ----------

  predicate Intact(e: OffNode, f: OffNode) {
    f.edges == e.edges && f.implEdges == e.implEdges && f.ptrEq == e.ptrEq && f.indirect == e.indirect
  }

  function At(off: seq<OffNode>, x: nat): OffNode {
    if x < |off| then off[x] else OffNode({}, {}, {}, 0, false, false)
  }

  // Finished components share a representative, which is marked; all other nodes are as built.
  ghost predicate Collapsing(e0: seq<OffNode>, root: seq<nat>, off: seq<OffNode>, t: Dfs) {
    && |root| == |off| == |e0| && Sets.IsRootMap(root) && !Visited(t, 0)
    && (forall x: nat :: x < |e0| ==> At(off, x).dfsId == Low(t, x))
    && (forall x: nat :: x < |e0| ==> (At(off, x).sccRoot <==> Closed(t, x) && Rt(root, x) == x))
    && (forall x: nat, z: nat :: x < |e0| && z < |e0| ==>
          (Rt(root, x) == Rt(root, z) <==> x == z || (Closed(t, x) && Closed(t, z) && Comp(t, x) == Comp(t, z))))
    && (forall x: nat :: x < |e0| && !Closed(t, x) ==> Intact(At(e0, x), At(off, x)))
  }

  lemma StartCollapsing(e0: seq<OffNode>)
    requires forall x: nat :: x < |e0| ==> e0[x].dfsId == 0 && !e0[x].sccRoot
    ensures Collapsing(e0, seq(|e0|, i => i), e0, Start)
  {
  }

  // A node that is not finished is its own representative.
  lemma OpenIsRep(e0: seq<OffNode>, root: seq<nat>, off: seq<OffNode>, t: Dfs, x: nat)
    requires Collapsing(e0, root, off, t) && x < |e0|
    ensures Rt(root, x) < |e0| && Rt(root, Rt(root, x)) == Rt(root, x)
    ensures !Closed(t, x) ==> Rt(root, x) == x && Intact(e0[x], off[x]) && !off[x].sccRoot
    ensures Closed(t, x) <==> Closed(t, Rt(root, x))
    ensures off[x].dfsId == Low(t, x) && (off[x].sccRoot <==> Closed(t, x) && Rt(root, x) == x)
  {
  }

  // The DFS number of n has changed, and the search has gone from t to r.
  lemma Renumbered(e0: seq<OffNode>, root: seq<nat>, off: seq<OffNode>, t: Dfs, r: Dfs, n: nat)
    requires Collapsing(e0, root, off, t) && n < |e0| && !Visited(r, 0)
    requires forall x: nat :: Low(r, x) == (if x == n then Low(r, n) else Low(t, x)) && Comp(r, x) == Comp(t, x) && (Closed(r, x) <==> Closed(t, x))
    ensures Collapsing(e0, root, off[n := off[n].(dfsId := Low(r, n))], r)
  {
    var off' := off[n := off[n].(dfsId := Low(r, n))];
    assert forall x: nat :: At(off', x) == if x == n then off[n].(dfsId := Low(r, n)) else At(off, x);
    assert At(off, n) == off[n];
  }

  // Nothing but DFS numbers has changed.
  lemma LabelledSame(k: Pass, root: seq<nat>, off: seq<OffNode>, off': seq<OffNode>, t: Dfs, r: Dfs, mean: map<nat, set<nat>>)
    requires Labelled(k, root, off, t, mean) && |off'| == |off|
    requires forall x: nat :: x < |off| ==> off'[x].ptrEq == off[x].ptrEq
    requires forall x: nat :: Closed(r, x) <==> Closed(t, x)
    ensures Labelled(k, root, off', r, mean)
  {
  }

  lemma SameNumbers(e0: seq<OffNode>, root: seq<nat>, off: seq<OffNode>, t: Dfs, r: Dfs)
    requires Collapsing(e0, root, off, t) && (Visited(r, 0) <==> Visited(t, 0))
    requires forall x: nat :: Low(r, x) == Low(t, x) && Comp(r, x) == Comp(t, x) && (Closed(r, x) <==> Closed(t, x))
    ensures Collapsing(e0, root, off, r)
  {
  }

  // The node whose call is active is as it was built.
  lemma ActiveIntact(k: Pass, root: seq<nat>, off: seq<OffNode>, t0: Dfs, t: Dfs, n: nat, done: set<nat>)
    requires Collapsing(k.e0, root, off, t) && Working(Arc(k), t0, t, n, done)
    ensures n < |k.e0| && n > 0 && !Closed(t, n) && Rt(root, n) == n && off[n].dfsId == Low(t, n) > 0
    ensures Succ(Arc(k), n) == off[n].edges + off[n].implEdges && !Visited(t0, 0) && Visited(t, n)
  {
    hide LowReached, PathReaches, LowCovers, Ordered, Components, Handled, LeastLow, Collapsing;
    assert n in t.path && Visited(t, n);
    OpenIsRep(k.e0, root, off, t, n);
    assert !Visited(t, 0) by { Unseen(k.e0, root, off, t); }
  }

  lemma Unseen(e0: seq<OffNode>, root: seq<nat>, off: seq<OffNode>, t: Dfs)
    requires Collapsing(e0, root, off, t)
    ensures !Visited(t, 0) && |root| == |off| == |e0|
  {
  }

  // What looking at the target of an edge from n tells.
  lemma EdgeTarget(k: Pass, root: seq<nat>, off: seq<OffNode>, t0: Dfs, t: Dfs, n: nat, done: set<nat>, y: nat)
    requires PassOk(k) && Collapsing(k.e0, root, off, t) && Working(Arc(k), t0, t, n, done) && y in Succ(Arc(k), n)
    ensures y < |k.e0| && Rt(root, y) < |k.e0|
    ensures Rt(root, y) == n || off[Rt(root, y)].sccRoot ==> Visited(t, y) && Seen(t, n, y) == t
    ensures Rt(root, y) != n && !off[Rt(root, y)].sccRoot ==>
      Rt(root, y) == y && !Closed(t, y) && off[y].dfsId == Low(t, y) && (off[y].dfsId == 0 <==> !Visited(t, y))
  {
    ArcInRange(k, n, y);
    ActiveIntact(k, root, off, t0, t, n, done);
    OpenIsRep(k.e0, root, off, t, y);
    OpenIsRep(k.e0, root, off, t, Rt(root, y));
    assert Rt(root, y) == n ==> y == n;
    assert Closed(t, y) ==> y in t.num.Keys;
    hide PassOk, Collapsing, LowReached, PathReaches, LowCovers, Ordered, Components, Handled, LeastLow, Scc.Extends, Scc.Listed;
  }

  // A finished target has a higher number than the node whose edge led to it.
  lemma ReturnedLow(k: Pass, t0: Dfs, t: Dfs, t1: Dfs, n: nat, done: set<nat>, y: nat)
    requires Working(Arc(k), t0, t, n, done) && Returned(Arc(k), t, t1, y)
    ensures Closed(t1, y) ==> Low(t1, n) <= Low(t1, y)
    ensures Low(t1, n) == Low(t, n) && Visited(t1, n) && Visited(t1, y)
  {
    hide LowReached, PathReaches, LowCovers, Ordered, Components, Handled, LeastLow, Scc.Listed;
    assert Visited(t, n) && !Visited(t, y);
  }

  // ---------- Popping a component ----------

  // M is a strongly connected component all of whose edges lead to finished nodes or back to it.
  ghost predicate IsComponent(E: Digraph, t: Dfs, M: set<nat>) {
    && (forall x: nat :: x in M ==> 0 < x < |E| && !Closed(t, x))
    && (forall x: nat, z: nat :: x in M && z in Succ(E, x) ==> Closed(t, z) || z in M)
    && (forall x: nat, z: nat :: x in M && z in M ==> Mutual(E, x, z))
  }

  lemma RootComponent(E: Digraph, t0: Dfs, t: Dfs, n: nat)
    requires AtRoot(E, t0, t, n) && !Visited(t, 0)
    ensures IsComponent(E, t, Part(t, t0, n)) && n in Part(t, t0, n)
  {
    hide LowReached, PathReaches, LowCovers, Ordered, Components, Handled, LeastLow, Mutual, Succ, Members, Scc.Listed, Scc.Extends;
    CloseMembers(E, t0, t, n);
    CloseMutual(E, t0, t, n);
    forall x: nat, z: nat | x in Part(t, t0, n) && z in Succ(E, x) ensures Closed(t, z) || z in Part(t, t0, n) {
      MemberEdges(E, t0, t, n, x, z);
    }
    InMembersRoot(t, |t0.stk|, n);
  }

  lemma InMembersRoot(t: Dfs, base: nat, n: nat)
    ensures n in Members(t, base, n)
  {
  }

  // The nodes of M have been merged into p, which has taken over their edges and labels.
  ghost predicate Merging(e0: seq<OffNode>, root0: seq<nat>, off0: seq<OffNode>, root: seq<nat>, off: seq<OffNode>, M: set<nat>, p: nat) {
    && |root| == |off| == |root0| == |off0| == |e0| && p in M && p < |e0|
    && (forall x: nat :: x in M ==> x < |e0|)
    && (forall x: nat :: x < |e0| ==> Rt(root, x) == if x in M then p else Rt(root0, x))
    && (forall x: nat :: x < |e0| && x !in M ==> At(off, x) == At(off0, x))
    && (forall x: nat :: x in M ==> At(off, x).dfsId == At(off0, x).dfsId && !At(off, x).sccRoot)
    && Pooled(e0, off[p], M)
  }

  // f has the edges, labels and flags of all nodes of M.
  ghost predicate Pooled(e0: seq<OffNode>, f: OffNode, M: set<nat>) {
    && (forall z: nat :: z in f.edges <==> exists x: nat :: x in M && z in At(e0, x).edges)
    && (forall a: nat :: a in f.ptrEq <==> exists x: nat :: x in M && a in At(e0, x).ptrEq)
    && (f.indirect <==> exists x: nat :: x in M && At(e0, x).indirect)
  }

  lemma StartMerging(e0: seq<OffNode>, root: seq<nat>, off: seq<OffNode>, t: Dfs, n: nat)
    requires Collapsing(e0, root, off, t) && n < |e0| && !Closed(t, n)
    ensures Merging(e0, root, off, root, off, {n}, n)
  {
    OpenIsRep(e0, root, off, t, n);
    assert At(e0, n) == e0[n] && At(off, n) == off[n];
  }

  // What merging c into p does to the node records.
  function MergeAt(off: seq<OffNode>, p: nat, c: nat): (r: seq<OffNode>)
    requires p < |off| && c < |off|
    ensures |r| == |off|
  {
    off[p := off[p].(edges := off[p].edges + off[c].edges, implEdges := off[p].implEdges + off[c].implEdges,
                     ptrEq := off[p].ptrEq + off[c].ptrEq, indirect := off[p].indirect || off[c].indirect)]
       [c := off[c].(edges := {}, implEdges := {}, ptrEq := {})]
  }

  lemma MergeOne(e0: seq<OffNode>, root0: seq<nat>, off0: seq<OffNode>, root: seq<nat>, off: seq<OffNode>,
                 M: set<nat>, p: nat, c: nat, q: nat)
    requires Merging(e0, root0, off0, root, off, M, p) && c < |e0| && c !in M && Intact(e0[c], off0[c]) && !off0[c].sccRoot
    requires Rt(root0, c) == c && (forall x: nat :: x < |e0| && Rt(root0, x) == c ==> x == c)
    requires forall x: nat :: x < |e0| && x !in M ==> Rt(root0, x) != p
    requires q == p || q == c
    ensures Merging(e0, root0, off0, Sets.Merged(root, q, p + c - q), MergeAt(off, q, p + c - q), M + {c}, q)
  {
    hide MergeAt, Sets.Merged, Rt, At, Intact, Pooled;
    var d := p + c - q;
    MergeRoots(root0, root, |e0|, M, p, c, q);
    AtIs(off, c);
    AtIs(off, p);
    AtIs(off0, c);
    MergeRest(off0, off, M, p, c, q);
    AtIs(e0, c);
    AtIs(MergeAt(off, q, d), q);
    MergedEdges(off, q, d);
    PooledOne(e0, off[p], off[c], MergeAt(off, q, d)[q], M, c);
  }

  lemma AtIs(off: seq<OffNode>, x: nat)
    requires x < |off|
    ensures At(off, x) == off[x]
  {
  }

  lemma MergeRest(off0: seq<OffNode>, off: seq<OffNode>, M: set<nat>, p: nat, c: nat, q: nat)
    requires |off| == |off0| && p < |off| && c < |off| && (q == p || q == c) && p in M && c !in M
    requires forall x: nat :: x < |off| && x !in M ==> At(off, x) == At(off0, x)
    requires forall x: nat :: x in M ==> At(off, x).dfsId == At(off0, x).dfsId && !At(off, x).sccRoot
    requires !At(off0, c).sccRoot
    ensures var h := MergeAt(off, q, p + c - q);
      && (forall x: nat :: x < |off| && x !in M + {c} ==> At(h, x) == At(off0, x))
      && (forall x: nat :: x in M + {c} ==> At(h, x).dfsId == At(off0, x).dfsId && !At(h, x).sccRoot)
  {
  }

  lemma MergeRoots(root0: seq<nat>, root: seq<nat>, n: nat, M: set<nat>, p: nat, c: nat, q: nat)
    requires |root| == |root0| == n && p in M && c !in M && c < n && (q == p || q == c)
    requires forall x: nat :: x < n ==> Rt(root, x) == if x in M then p else Rt(root0, x)
    requires forall x: nat :: x in M ==> x < n
    requires Rt(root0, c) == c && (forall x: nat :: x < n && Rt(root0, x) == c ==> x == c)
    requires forall x: nat :: x < n && x !in M ==> Rt(root0, x) != p
    ensures forall x: nat :: x < n ==> Rt(Sets.Merged(root, q, p + c - q), x) == if x in M + {c} then q else Rt(root0, x)
  {
  }

  lemma PooledOne(e0: seq<OffNode>, f: OffNode, g: OffNode, h: OffNode, M: set<nat>, c: nat)
    requires Pooled(e0, f, M) && c < |e0| && Intact(e0[c], g)
    requires h.edges == f.edges + g.edges && h.ptrEq == f.ptrEq + g.ptrEq && h.indirect == (f.indirect || g.indirect)
    ensures Pooled(e0, h, M + {c})
  {
  }

  lemma MergedEdges(off: seq<OffNode>, p: nat, c: nat)
    requires p < |off| && c < |off| && p != c
    ensures var h := MergeAt(off, p, c);
      && (forall x: nat :: x != p && x != c ==> At(h, x) == At(off, x))
      && At(h, p).edges == off[p].edges + off[c].edges && At(h, p).ptrEq == off[p].ptrEq + off[c].ptrEq
      && At(h, p).indirect == (off[p].indirect || off[c].indirect)
      && At(h, p).dfsId == off[p].dfsId && At(h, c).dfsId == off[c].dfsId
      && At(h, p).sccRoot == off[p].sccRoot && At(h, c).sccRoot == off[c].sccRoot
  {
  }

  // ---------- The label of a component ----------

  // The labels of the finished neighbours of p, except those of non-pointers.
  function Incoming(root: seq<nat>, off: seq<OffNode>, p: nat): set<nat> {
    IncomingFrom(root, off, p, At(off, p).edges)
  }

  function IncomingFrom(root: seq<nat>, off: seq<OffNode>, p: nat, edges: set<nat>): set<nat> {
    set z, a | z in edges && Rt(root, z) != p && 0 !in LabelsAt(root, off, z) && a in LabelsAt(root, off, z) :: a
  }

  lemma OneIncoming(root: seq<nat>, off: seq<OffNode>, p: nat, edges: set<nat>, z: nat)
    ensures var pe := LabelsAt(root, off, z);
      IncomingFrom(root, off, p, edges + {z}) == IncomingFrom(root, off, p, edges) + if Rt(root, z) == p || 0 in pe then {} else pe
  {
  }

  // Everything known when the component M has been merged into p and is to be labelled.
  ghost predicate Ready(k: Pass, root0: seq<nat>, off0: seq<OffNode>, root: seq<nat>, off: seq<OffNode>,
                        t: Dfs, mean: map<nat, set<nat>>, M: set<nat>, p: nat) {
    && PassOk(k) && PreLabelled(k, mean) && IsComponent(Arc(k), t, M)
    && Collapsing(k.e0, root0, off0, t) && Labelled(k, root0, off0, t, mean) && Merging(k.e0, root0, off0, root, off, M, p)
  }

  // Finished nodes keep their representative and labels while a component is merged.
  lemma FinishedSame(k: Pass, root0: seq<nat>, off0: seq<OffNode>, root: seq<nat>, off: seq<OffNode>,
                     t: Dfs, mean: map<nat, set<nat>>, M: set<nat>, p: nat, x: nat)
    requires Ready(k, root0, off0, root, off, t, mean, M, p) && Closed(t, x) && x < |k.e0|
    ensures x !in M && Rt(root, x) == Rt(root0, x) && Rt(root, x) !in M && LabelsAt(root, off, x) == LabelsAt(root0, off0, x)
  {
    hide PassOk, PreLabelled, Labelled, Pooled;
    OpenIsRep(k.e0, root0, off0, t, x);
    var r := Rt(root0, x);
    assert At(off, r) == At(off0, r);
  }

  // An edge of the component leads back to it or to a labelled node.
  lemma EdgeOut(k: Pass, root0: seq<nat>, off0: seq<OffNode>, root: seq<nat>, off: seq<OffNode>,
                t: Dfs, mean: map<nat, set<nat>>, M: set<nat>, p: nat, z: nat)
    requires Ready(k, root0, off0, root, off, t, mean, M, p) && z in At(off, p).edges
    ensures z < |k.e0| && (Rt(root, z) == p <==> z in M)
    ensures z !in M ==> Closed(t, z) && LabelOk(k, root0, off0, t, mean, z) && LabelsAt(root, off, z) == LabelsAt(root0, off0, z)
    ensures exists x: nat :: x in M && z in At(k.e0, x).edges
  {
    hide PassOk, PreLabelled;
    assert At(off, p) == off[p];
    var x: nat :| x in M && z in At(k.e0, x).edges;
    assert x < |k.e0| && z in Succ(Arc(k), x);
    assert z < |k.e0| by { ArcInRange(k, x, z); }
    hide Collapsing, IsComponent, Merging;
    if z !in M {
      assert Closed(t, z) by { ComponentEdge(k, t, M, x, z); }
      FinishedSame(k, root0, off0, root, off, t, mean, M, p, z);
      MergingPart(k.e0, root0, off0, root, off, M, p);
    } else {
      MergingPart(k.e0, root0, off0, root, off, M, p);
    }
  }

  lemma MergingPart(e0: seq<OffNode>, root0: seq<nat>, off0: seq<OffNode>, root: seq<nat>, off: seq<OffNode>, M: set<nat>, p: nat)
    requires Merging(e0, root0, off0, root, off, M, p)
    ensures p in M && p < |e0| && |off| == |e0| && forall x: nat :: x in M ==> x < |e0| && Rt(root, x) == p
  {
  }

  lemma ArcInRange(k: Pass, x: nat, z: nat)
    requires PassOk(k) && z in Succ(Arc(k), x)
    ensures z < |k.e0|
  {
  }

  lemma ComponentEdge(k: Pass, t: Dfs, M: set<nat>, x: nat, z: nat)
    requires IsComponent(Arc(k), t, M) && x in M && z in Succ(Arc(k), x)
    ensures Closed(t, z) || z in M
  {
  }

  lemma ValuesEqual(k: Pass, t: Dfs, M: set<nat>, x: nat, z: nat)
    requires PassOk(k) && k.ne && IsComponent(Arc(k), t, M) && x in M && z in M
    ensures Value(k, x) == Value(k, z)
  {
    hide PassInput, IsLeast, Represented, EdgesInclude, Val, Succ, Reach;
    assert Mutual(Arc(k), x, z);
    ReachLe(k.ix, k.s, Arc(k), x, z);
    ReachLe(k.ix, k.s, Arc(k), z, x);
  }

  // The labels that the merged node collects.
  function Collected(root: seq<nat>, off: seq<OffNode>, p: nat): set<nat> {
    At(off, p).ptrEq + Incoming(root, off, p)
  }

  lemma CollectedKnown(k: Pass, root0: seq<nat>, off0: seq<OffNode>, root: seq<nat>, off: seq<OffNode>,
                       t: Dfs, mean: map<nat, set<nat>>, M: set<nat>, p: nat)
    requires Ready(k, root0, off0, root, off, t, mean, M, p)
    ensures Collected(root, off, p) <= mean.Keys && 0 !in Collected(root, off, p)
  {
    forall a: nat | a in Incoming(root, off, p) ensures a in mean && a != 0 {
      var z: nat :| z in At(off, p).edges && Rt(root, z) != p && 0 !in LabelsAt(root, off, z) && a in LabelsAt(root, off, z);
      EdgeOut(k, root0, off0, root, off, t, mean, M, p, z);
    }
    forall a: nat | a in At(off, p).ptrEq ensures a in mean && a != 0 {
      PreLabel(k, root0, off0, root, off, t, mean, M, p, a);
    }
  }

  lemma PreLabel(k: Pass, root0: seq<nat>, off0: seq<OffNode>, root: seq<nat>, off: seq<OffNode>,
                 t: Dfs, mean: map<nat, set<nat>>, M: set<nat>, p: nat, a: nat)
    requires Ready(k, root0, off0, root, off, t, mean, M, p) && a in At(off, p).ptrEq
    ensures a in mean && a != 0
    ensures exists x: nat :: x in M && x < |k.e0| && a in k.e0[x].ptrEq && mean[a] <= Value(k, x)
  {
    hide PassOk, Collapsing, IsComponent, Labelled, Val;
    assert At(off, p) == off[p];
    var x: nat :| x in M && a in At(k.e0, x).ptrEq;
  }

  // What the collected labels mean is held by every node of the component.
  lemma CollectedHeld(k: Pass, root0: seq<nat>, off0: seq<OffNode>, root: seq<nat>, off: seq<OffNode>,
                      t: Dfs, mean: map<nat, set<nat>>, M: set<nat>, p: nat, x: nat)
    requires Ready(k, root0, off0, root, off, t, mean, M, p) && k.ne && x in M
    ensures Means(mean, Collected(root, off, p)) <= Value(k, x)
  {
    forall v | v in Means(mean, Collected(root, off, p)) ensures v in Value(k, x) {
      var a: nat :| a in Collected(root, off, p) && a in mean && v in mean[a];
      LabelHeld(k, root0, off0, root, off, t, mean, M, p, x, a);
    }
  }

  lemma LabelHeld(k: Pass, root0: seq<nat>, off0: seq<OffNode>, root: seq<nat>, off: seq<OffNode>,
                  t: Dfs, mean: map<nat, set<nat>>, M: set<nat>, p: nat, x: nat, a: nat)
    requires Ready(k, root0, off0, root, off, t, mean, M, p) && k.ne && x in M && a in Collected(root, off, p) && a in mean
    ensures mean[a] <= Value(k, x)
  {
    hide Merging, Collapsing, Labelled, PreLabelled, IsComponent, Val;
    if a in At(off, p).ptrEq {
      PreLabel(k, root0, off0, root, off, t, mean, M, p, a);
      var x': nat :| x' in M && x' < |k.e0| && a in k.e0[x'].ptrEq && mean[a] <= Value(k, x');
      ValuesEqual(k, t, M, x, x');
    } else {
      var z: nat :| z in At(off, p).edges && Rt(root, z) != p && 0 !in LabelsAt(root, off, z) && a in LabelsAt(root, off, z);
      EdgeOut(k, root0, off0, root, off, t, mean, M, p, z);
      var x': nat :| x' in M && z in At(k.e0, x').edges;
      ValuesEqual(k, t, M, x, x');
      assert z in Succ(Arc(k), x');
      assert Value(k, z) <= Value(k, x');
      assert mean[a] <= Means(mean, LabelsAt(root, off, z));
    }
  }

  // A direct component holds nothing else.
  lemma CollectedAll(k: Pass, root0: seq<nat>, off0: seq<OffNode>, root: seq<nat>, off: seq<OffNode>,
                     t: Dfs, mean: map<nat, set<nat>>, M: set<nat>, p: nat)
    requires Ready(k, root0, off0, root, off, t, mean, M, p) && k.ne && !At(off, p).indirect
    ensures forall x: nat :: x in M ==> Value(k, x) <= Means(mean, Collected(root, off, p))
  {
    var U := Means(mean, Collected(root, off, p));
    forall x: nat | x in M ensures IsVal(k.ix, x) {
      DirectVal(k, root0, off0, root, off, t, mean, M, p, x);
    }
    forall c | c in k.y.cs && Off(k.ix, c.dest) in M ensures GivesOnly(k.y, k.ix, k.s, M, U, c) {
      GivenByLabels(k, root0, off0, root, off, t, mean, M, p, c);
    }
    hide Merging, Collapsing, Labelled, PreLabelled, IsComponent, IsVal, GivesOnly;
    DirectOnly(k.y, k.ix, k.s, M, U);
  }

  lemma DirectVal(k: Pass, root0: seq<nat>, off0: seq<OffNode>, root: seq<nat>, off: seq<OffNode>,
                  t: Dfs, mean: map<nat, set<nat>>, M: set<nat>, p: nat, x: nat)
    requires Ready(k, root0, off0, root, off, t, mean, M, p) && !At(off, p).indirect && x in M
    ensures x < |k.e0| && !k.e0[x].indirect && IsVal(k.ix, x)
  {
    hide PassInput, IsLeast, Represented, EdgesInclude, Collapsing, Labelled, PreLabelled, IsVal;
    assert At(off, p) == off[p];
    assert x < |k.e0|;
    assert At(k.e0, x) == k.e0[x];
  }

  lemma GivenByLabels(k: Pass, root0: seq<nat>, off0: seq<OffNode>, root: seq<nat>, off: seq<OffNode>,
                      t: Dfs, mean: map<nat, set<nat>>, M: set<nat>, p: nat, c: Constraint)
    requires Ready(k, root0, off0, root, off, t, mean, M, p) && k.ne && !At(off, p).indirect
    requires c in k.y.cs && Off(k.ix, c.dest) in M
    ensures GivesOnly(k.y, k.ix, k.s, M, Means(mean, Collected(root, off, p)), c)
  {
    var od, os := Off(k.ix, c.dest), Off(k.ix, c.src);
    var U := Means(mean, Collected(root, off, p));
    DirectVal(k, root0, off0, root, off, t, mean, M, p, od);
    assert Represented(k, c) && Given(k, mean, c) by { FromPass(k, mean, c); }
    hide PassOk, Collapsing, Labelled, PreLabelled, IsComponent, Val, Collected, Means, IsVal;
    match c.typ
    case AddrOf =>
      var a: nat :| a in k.e0[od].ptrEq && a in mean && c.src in mean[a];
      PreLabelMeans(k, root0, off0, root, off, t, mean, M, p, od, a);
    case Copy =>
      OffValue(k, c.src);
      EdgeGiven(k, root0, off0, root, off, t, mean, M, p, od, os);
    case Load =>
      OffValue(k, c.src);
      EdgeGiven(k, root0, off0, root, off, t, mean, M, p, od, Ref(k.ix, os));
      if Ref(k.ix, os) in M {
        DirectVal(k, root0, off0, root, off, t, mean, M, p, Ref(k.ix, os));
      }
    case Store =>
    case Gep =>
      var a: nat :| a in k.e0[od].ptrEq && a in mean && Shift(k.y.l, Pts(k.s, c.src), c.off) <= mean[a];
      PreLabelMeans(k, root0, off0, root, off, t, mean, M, p, od, a);
  }

  lemma FromPass(k: Pass, mean: map<nat, set<nat>>, c: Constraint)
    requires PassOk(k) && PreLabelled(k, mean) && c in k.y.cs && Off(k.ix, c.dest) > 0
    ensures Represented(k, c) && Given(k, mean, c)
  {
  }

  lemma OffValue(k: Pass, n: nat)
    requires PassOk(k) && Off(k.ix, n) > 0
    ensures Value(k, Off(k.ix, n)) == Pts(k.s, n) && Value(k, Ref(k.ix, Off(k.ix, n))) == Deref(k.s, Pts(k.s, n))
    ensures Ref(k.ix, Off(k.ix, n)) >= k.ix.firstRef
  {
  }

  lemma PreLabelMeans(k: Pass, root0: seq<nat>, off0: seq<OffNode>, root: seq<nat>, off: seq<OffNode>,
                      t: Dfs, mean: map<nat, set<nat>>, M: set<nat>, p: nat, x: nat, a: nat)
    requires Ready(k, root0, off0, root, off, t, mean, M, p) && x in M && x < |k.e0| && a in k.e0[x].ptrEq && a in mean
    ensures mean[a] <= Means(mean, Collected(root, off, p))
  {
    hide PassOk, Collapsing, Labelled, PreLabelled, IsComponent;
    assert At(off, p) == off[p] && At(k.e0, x) == k.e0[x];
    assert a in off[p].ptrEq;
    assert a in Collected(root, off, p);
  }

  // An edge out of the component adds what its target holds.
  lemma EdgeGiven(k: Pass, root0: seq<nat>, off0: seq<OffNode>, root: seq<nat>, off: seq<OffNode>,
                  t: Dfs, mean: map<nat, set<nat>>, M: set<nat>, p: nat, x: nat, z: nat)
    requires Ready(k, root0, off0, root, off, t, mean, M, p) && k.ne && x in M && x < |k.e0| && z in k.e0[x].edges
    ensures z in M || Value(k, z) <= Means(mean, Collected(root, off, p))
  {
    assert z in At(off, p).edges by {
      hide PassOk, Collapsing, Labelled, PreLabelled, IsComponent;
      assert At(off, p) == off[p] && At(k.e0, x) == k.e0[x];
    }
    hide PassOk, Collapsing, Labelled, PreLabelled, IsComponent, Merging, Val;
    EdgeOut(k, root0, off0, root, off, t, mean, M, p, z);
    if z !in M {
      var pe := LabelsAt(root, off, z);
      if 0 in pe {
        ZeroMeans(k, mean);
      } else {
        assert pe <= Collected(root, off, p);
        MeansMonotone(mean, pe, Collected(root, off, p));
      }
    }
  }

  lemma ZeroMeans(k: Pass, mean: map<nat, set<nat>>)
    requires PreLabelled(k, mean)
    ensures Means(mean, {0}) == {}
  {
  }

  lemma MeansMonotone(mean: map<nat, set<nat>>, a: set<nat>, b: set<nat>)
    requires a <= b
    ensures Means(mean, a) <= Means(mean, b)
  {
  }

  // ---------- Choosing the label ----------

  // pe is a right label for the component M, merged into p, once labels mean what mean' says.
  ghost predicate Fits(k: Pass, root: seq<nat>, off: seq<OffNode>, mean: map<nat, set<nat>>, mean': map<nat, set<nat>>,
                       M: set<nat>, p: nat, pe: set<nat>) {
    && pe != {} && pe <= mean'.Keys && Labels.Extends(mean, mean')
    && (k.ne ==> forall x: nat :: x in M ==> Value(k, x) == Means(mean', pe))
    && (0 in pe ==> pe == {0})
    && (pe == {0} <==> !At(off, p).indirect && Collected(root, off, p) == {})
    && (if At(off, p).indirect then HasFresh(k, pe) else |Collected(root, off, p)| <= 1 ==> pe <= Collected(root, off, p) + {0})
  }

  // Value numbering gives an indirect node a new label.
  lemma FreshFits(k: Pass, root0: seq<nat>, off0: seq<OffNode>, root: seq<nat>, off: seq<OffNode>,
                  t: Dfs, mean: map<nat, set<nat>>, M: set<nat>, p: nat, next: nat, lbl2pe: map<set<nat>, nat>)
    requires Ready(k, root0, off0, root, off, t, mean, M, p) && Numbering(mean, next, lbl2pe) && At(off, p).indirect && |k.y.rep| <= next
    ensures var mean' := mean[next := Value(k, p)];
      Numbering(mean', next + 1, lbl2pe) && Fits(k, root, off, mean, mean', M, p, {next})
  {
    hide PassOk, Collapsing, Labelled, PreLabelled, IsComponent, Value, Collected;
    NewLabel(mean, next, lbl2pe, Value(k, p));
    MergingPart(k.e0, root0, off0, root, off, M, p);
    hide Merging, Numbering;
    if k.ne {
      forall x: nat | x in M ensures Value(k, x) == Value(k, p) {
        ValuesEqual(k, t, M, x, p);
      }
    }
  }

  lemma ExactlyCollected(k: Pass, root0: seq<nat>, off0: seq<OffNode>, root: seq<nat>, off: seq<OffNode>,
                         t: Dfs, mean: map<nat, set<nat>>, M: set<nat>, p: nat)
    requires Ready(k, root0, off0, root, off, t, mean, M, p) && !At(off, p).indirect
    ensures k.ne ==> forall x: nat :: x in M ==> Value(k, x) == Means(mean, Collected(root, off, p))
  {
    hide PassOk, Collapsing, Labelled, PreLabelled, IsComponent, Value, Collected, Merging, Means;
    if k.ne {
      CollectedAll(k, root0, off0, root, off, t, mean, M, p);
      forall x: nat | x in M ensures Value(k, x) == Means(mean, Collected(root, off, p)) {
        CollectedHeld(k, root0, off0, root, off, t, mean, M, p, x);
      }
    }
  }

  // A direct node that collects nothing is a non-pointer.
  lemma ZeroFits(k: Pass, root0: seq<nat>, off0: seq<OffNode>, root: seq<nat>, off: seq<OffNode>,
                 t: Dfs, mean: map<nat, set<nat>>, M: set<nat>, p: nat)
    requires Ready(k, root0, off0, root, off, t, mean, M, p) && !At(off, p).indirect && Collected(root, off, p) == {}
    ensures Fits(k, root, off, mean, mean, M, p, {0})
  {
    ExactlyCollected(k, root0, off0, root, off, t, mean, M, p);
    assert 0 in mean by { hide PassOk; }
    ZeroMeans(k, mean);
    hide PassOk, Collapsing, Labelled, PreLabelled, IsComponent, Value, Merging;
  }

  // A direct node may keep what it collects (HU always does, HVN if it is one label).
  lemma KeptFits(k: Pass, root0: seq<nat>, off0: seq<OffNode>, root: seq<nat>, off: seq<OffNode>,
                 t: Dfs, mean: map<nat, set<nat>>, M: set<nat>, p: nat)
    requires Ready(k, root0, off0, root, off, t, mean, M, p) && !At(off, p).indirect && Collected(root, off, p) != {}
    ensures Fits(k, root, off, mean, mean, M, p, Collected(root, off, p))
  {
    hide PassOk, Collapsing, Labelled, PreLabelled, IsComponent, Value, Collected, Merging, Means;
    ExactlyCollected(k, root0, off0, root, off, t, mean, M, p);
    CollectedKnown(k, root0, off0, root, off, t, mean, M, p);
    assert 0 in {0} && Collected(root, off, p) != {0};
  }

  // Value numbering gives a set of labels a label of its own.
  lemma NumberedFits(k: Pass, root0: seq<nat>, off0: seq<OffNode>, root: seq<nat>, off: seq<OffNode>,
                     t: Dfs, mean: map<nat, set<nat>>, M: set<nat>, p: nat, next: nat, lbl2pe: map<set<nat>, nat>)
    requires Ready(k, root0, off0, root, off, t, mean, M, p) && Numbering(mean, next, lbl2pe)
    requires !At(off, p).indirect && |Collected(root, off, p)| > 1
    ensures var pe := Collected(root, off, p);
      if pe in lbl2pe then Fits(k, root, off, mean, mean, M, p, {lbl2pe[pe]})
      else var mean' := mean[next := Means(mean, pe)];
        Numbering(mean', next + 1, lbl2pe[pe := next]) && Fits(k, root, off, mean, mean', M, p, {next})
  {
    hide PassOk, Collapsing, Labelled, PreLabelled, IsComponent, Value, Collected, Merging, Means;
    var pe := Collected(root, off, p);
    ExactlyCollected(k, root0, off0, root, off, t, mean, M, p);
    CollectedKnown(k, root0, off0, root, off, t, mean, M, p);
    if pe in lbl2pe {
      MeansOne(mean, lbl2pe[pe]);
    } else {
      NewSetLabel(mean, next, lbl2pe, pe);
    }
  }

  // HU adds a new label to what an indirect node collects.
  lemma FreshAndKeptFits(k: Pass, root0: seq<nat>, off0: seq<OffNode>, root: seq<nat>, off: seq<OffNode>,
                         t: Dfs, mean: map<nat, set<nat>>, M: set<nat>, p: nat, next: nat, lbl2pe: map<set<nat>, nat>)
    requires Ready(k, root0, off0, root, off, t, mean, M, p) && Numbering(mean, next, lbl2pe) && At(off, p).indirect && |k.y.rep| <= next
    ensures var mean' := mean[next := Value(k, p)];
      Numbering(mean', next + 1, lbl2pe) && Fits(k, root, off, mean, mean', M, p, Collected(root, off, p) + {next})
  {
    var pe := Collected(root, off, p);
    var mean' := mean[next := Value(k, p)];
    hide PassOk, Collapsing, Labelled, PreLabelled, IsComponent, Value, Collected;
    FreshFits(k, root0, off0, root, off, t, mean, M, p, next, lbl2pe);
    CollectedKnown(k, root0, off0, root, off, t, mean, M, p);
    MergingPart(k.e0, root0, off0, root, off, M, p);
    hide Merging, Numbering;
    MeansExtends(mean, mean', pe);
    assert Means(mean', pe + {next}) == Means(mean', pe) + Means(mean', {next});
    if k.ne {
      forall x: nat | x in M ensures Value(k, x) == Means(mean', pe + {next}) {
        CollectedHeld(k, root0, off0, root, off, t, mean, M, p, x);
      }
    }
  }

  // ---------- Closing the component ----------

  function Rooted(off: seq<OffNode>, p: nat, pe: set<nat>): (r: seq<OffNode>)
    requires p < |off|
    ensures |r| == |off|
  {
    off[p := off[p].(sccRoot := true, ptrEq := pe)]
  }

  // A node without outgoing edges is a component of its own.
  lemma PlainAlone(k: Pass, root0: seq<nat>, off0: seq<OffNode>, root: seq<nat>, off: seq<OffNode>,
                  t: Dfs, mean: map<nat, set<nat>>, M: set<nat>, p: nat, x: nat)
    requires Ready(k, root0, off0, root, off, t, mean, M, p) && x in M && x < |k.e0| && Plain(k.e0[x])
    ensures !At(off, p).indirect && Collected(root, off, p) == k.e0[x].ptrEq
  {
    hide PassOk, Collapsing, Labelled, PreLabelled;
    assert Succ(Arc(k), x) == {};
    forall z: nat | z in M ensures z == x {
      assert Mutual(Arc(k), x, z);
      ReachClosed(Arc(k), {x}, x, z);
    }
    assert M == {x};
    assert At(off, p) == off[p] && At(k.e0, x) == k.e0[x];
    hide IsComponent;
    assert off[p].edges == {} && off[p].ptrEq == k.e0[x].ptrEq;
  }

  lemma CloseLabel(k: Pass, root0: seq<nat>, off0: seq<OffNode>, root: seq<nat>, off: seq<OffNode>, t: Dfs, r: Dfs,
                   mean: map<nat, set<nat>>, mean': map<nat, set<nat>>, M: set<nat>, p: nat, pe: set<nat>, x: nat)
    requires Ready(k, root0, off0, root, off, t, mean, M, p) && Fits(k, root, off, mean, mean', M, p, pe) && x in M
    requires p < |off| && forall z: nat :: Closed(r, z) <==> Closed(t, z) || z in M
    ensures LabelOk(k, root, Rooted(off, p, pe), r, mean', x)
  {
    var off' := Rooted(off, p, pe);
    MergingPart(k.e0, root0, off0, root, off, M, p);
    assert LabelsAt(root, off', x) == pe;
    assert k.e0[x].indirect ==> At(off, p).indirect by { hide LabelOk; assert At(k.e0, x) == k.e0[x] && At(off, p) == off[p]; }
    if Plain(k.e0[x]) {
      PlainAlone(k, root0, off0, root, off, t, mean, M, p, x);
    }
    if 0 in pe {
      CloseNothing(k, root0, off0, root, off, t, r, mean, M, p, pe, x);
    }
    hide PassOk, Collapsing, Labelled, PreLabelled, IsComponent, Merging, Collected, NothingGiven, Value;
  }

  lemma CloseNothing(k: Pass, root0: seq<nat>, off0: seq<OffNode>, root: seq<nat>, off: seq<OffNode>, t: Dfs, r: Dfs,
                     mean: map<nat, set<nat>>, M: set<nat>, p: nat, pe: set<nat>, x: nat)
    requires Ready(k, root0, off0, root, off, t, mean, M, p) && x in M && 0 in pe
    requires p < |off| && forall z: nat :: Closed(r, z) <==> Closed(t, z) || z in M
    requires !At(off, p).indirect && Collected(root, off, p) == {}
    ensures NothingGiven(k, root, Rooted(off, p, pe), r, x)
  {
    var off' := Rooted(off, p, pe);
    DirectVal(k, root0, off0, root, off, t, mean, M, p, x);
    hide PassOk, Collapsing, Labelled, PreLabelled, IsComponent;
    assert At(off, p) == off[p] && At(k.e0, x) == k.e0[x];
    MergingPart(k.e0, root0, off0, root, off, M, p);
    assert k.e0[x].ptrEq <= off[p].ptrEq;
    forall z: nat | z in k.e0[x].edges ensures Closed(r, z) && 0 in LabelsAt(root, off', z) {
      assert z in off[p].edges;
      EdgeOut(k, root0, off0, root, off, t, mean, M, p, z);
      assert z in M || 0 in LabelsAt(root, off, z) || LabelsAt(root, off, z) <= Incoming(root, off, p);
    }
  }

  lemma CloseOld(k: Pass, root0: seq<nat>, off0: seq<OffNode>, root: seq<nat>, off: seq<OffNode>, t: Dfs, r: Dfs,
                 mean: map<nat, set<nat>>, mean': map<nat, set<nat>>, M: set<nat>, p: nat, pe: set<nat>, x: nat)
    requires Ready(k, root0, off0, root, off, t, mean, M, p) && Labels.Extends(mean, mean') && Closed(t, x)
    requires p < |off| && forall z: nat :: Closed(r, z) <==> Closed(t, z) || z in M
    ensures LabelOk(k, root, Rooted(off, p, pe), r, mean', x)
  {
    var off' := Rooted(off, p, pe);
    assert LabelOk(k, root0, off0, t, mean, x);
    FinishedRooted(k, root0, off0, root, off, t, mean, M, p, pe, x);
    MeansExtends(mean, mean', LabelsAt(root0, off0, x));
    if 0 in LabelsAt(root0, off0, x) {
      forall z: nat | z in k.e0[x].edges ensures Closed(r, z) && 0 in LabelsAt(root, off', z) {
        FinishedRooted(k, root0, off0, root, off, t, mean, M, p, pe, z);
      }
    }
    hide PassOk, Collapsing, Labelled, PreLabelled, IsComponent, Merging, Value, Means, LabelsAt, Rooted;
  }

  lemma FinishedRooted(k: Pass, root0: seq<nat>, off0: seq<OffNode>, root: seq<nat>, off: seq<OffNode>,
                       t: Dfs, mean: map<nat, set<nat>>, M: set<nat>, p: nat, pe: set<nat>, x: nat)
    requires Ready(k, root0, off0, root, off, t, mean, M, p) && Closed(t, x) && p < |off|
    ensures LabelsAt(root, Rooted(off, p, pe), x) == LabelsAt(root0, off0, x)
  {
    assert LabelOk(k, root0, off0, t, mean, x) && x < |k.e0|;
    FinishedSame(k, root0, off0, root, off, t, mean, M, p, x);
    MergingPart(k.e0, root0, off0, root, off, M, p);
    hide PassOk, Collapsing, Labelled, PreLabelled, IsComponent, Merging;
  }

  lemma CloseLabelled(k: Pass, root0: seq<nat>, off0: seq<OffNode>, root: seq<nat>, off: seq<OffNode>, t: Dfs, r: Dfs,
                      mean: map<nat, set<nat>>, mean': map<nat, set<nat>>, M: set<nat>, p: nat, pe: set<nat>)
    requires Ready(k, root0, off0, root, off, t, mean, M, p) && Fits(k, root, off, mean, mean', M, p, pe)
    requires p < |off| && forall z: nat :: Closed(r, z) <==> Closed(t, z) || z in M
    ensures Labelled(k, root, Rooted(off, p, pe), r, mean')
  {
    hide PassOk, Collapsing, PreLabelled, IsComponent, Merging, LabelOk, Rooted, Ready;
    forall x: nat | Closed(r, x) ensures LabelOk(k, root, Rooted(off, p, pe), r, mean', x) {
      if x in M {
        CloseLabel(k, root0, off0, root, off, t, r, mean, mean', M, p, pe, x);
      } else {
        CloseOld(k, root0, off0, root, off, t, r, mean, mean', M, p, pe, x);
      }
    }
  }

  lemma CloseCollapsing(e0: seq<OffNode>, root0: seq<nat>, off0: seq<OffNode>, root: seq<nat>, off: seq<OffNode>, t: Dfs, r: Dfs,
                        M: set<nat>, p: nat, pe: set<nat>)
    requires Collapsing(e0, root0, off0, t) && Merging(e0, root0, off0, root, off, M, p) && Sets.IsRootMap(root)
    requires forall x: nat :: x in M ==> !Closed(t, x)
    requires forall x: nat :: Closed(r, x) <==> Closed(t, x) || x in M
    requires forall x: nat :: Comp(r, x) == if x in M then t.ncomp else Comp(t, x)
    requires forall x: nat :: Low(r, x) == Low(t, x) && (Visited(r, x) <==> Visited(t, x))
    requires forall x: nat :: Closed(t, x) ==> Comp(t, x) < t.ncomp
    ensures Collapsing(e0, root, Rooted(off, p, pe), r)
  {
    hide Pooled;
    var off' := Rooted(off, p, pe);
    assert forall x: nat :: x < |e0| ==> At(off', x) == if x == p then off[p].(sccRoot := true, ptrEq := pe) else At(off, x);
    assert At(off, p) == off[p];
    hide Rooted, At;
    forall x: nat, z: nat | x < |e0| && z < |e0|
      ensures Rt(root, x) == Rt(root, z) <==> x == z || (Closed(r, x) && Closed(r, z) && Comp(r, x) == Comp(r, z))
    {
      RootApart(e0, root0, off0, root, off, t, M, p, x);
      RootApart(e0, root0, off0, root, off, t, M, p, z);
    }
    forall x: nat | x < |e0| ensures At(off', x).sccRoot <==> Closed(r, x) && Rt(root, x) == x {
      RootApart(e0, root0, off0, root, off, t, M, p, x);
    }
  }

  lemma RootApart(e0: seq<OffNode>, root0: seq<nat>, off0: seq<OffNode>, root: seq<nat>, off: seq<OffNode>, t: Dfs,
                  M: set<nat>, p: nat, x: nat)
    requires Collapsing(e0, root0, off0, t) && Merging(e0, root0, off0, root, off, M, p) && x < |e0|
    requires forall x: nat :: x in M ==> !Closed(t, x)
    ensures if x in M then Rt(root, x) == p else Rt(root, x) == Rt(root0, x) && Rt(root0, x) !in M
  {
  }
}
