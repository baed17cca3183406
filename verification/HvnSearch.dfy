/** Hash-based value numbering (HVN and HU): the depth-first search that collapses the
    components of the offline graph and labels each when it is finished. */
module HvnSearch {
  import opened Constraints
  import opened ConstraintGraph
  import opened Graphs
  import opened Offline
  import opened Labels
  import opened Collapse
  import opened Naming
  import Scc
  import Sets = UnionFind

  // The labels of finished nodes have been recorded in lab.
  ghost predicate Recorded(root: seq<nat>, off: seq<OffNode>, lab: seq<set<nat>>, t: Scc.Dfs) {
    forall x: nat :: Scc.Closed(t, x) ==> x < |lab| && lab[x] == LabelsAt(root, off, x)
  }

  class Search {
    ghost const k: Pass
    // Give a node the union of the incoming labels (HU) instead of one label (HVN).
    const doUnion: bool
    const classes: Sets.Classes
    var offNodes: seq<OffNode>
    // The finished nodes of open components.
    var dfsStk: seq<nat>
    // The next unused label, the number of the next DFS call, and the label of each set of labels.
    var nextPtrEq: nat
    var currDfs: nat
    var lbl2pe: map<set<nat>, nat>
    ghost var mean: map<nat, set<nat>>
    ghost var t: Scc.Dfs
    // The labels of all finished nodes, and the labels made for indirect components; those given
    // when the graph was built are below first.
    ghost var lab: seq<set<nat>>
    ghost var own: seq<nat>
    ghost const first: nat

    ghost function W(): Names
      reads this
    {
      Names(first, nextPtrEq, own, lbl2pe)
    }

    ghost function E(): Digraph { Arc(k) }

    ghost predicate Valid()
      reads this, classes
    {
      && classes.Valid() && |offNodes| == |classes.rep| == |classes.root| == |k.e0|
      && PassOk(k) && PreLabelled(k, mean) && Numbering(mean, nextPtrEq, lbl2pe) && |k.y.rep| <= nextPtrEq
      && Collapsing(k.e0, classes.root, offNodes, t) && Labelled(k, classes.root, offNodes, t, mean)
      && dfsStk == t.stk && currDfs == t.clock
      && Named(k.e0, doUnion, lab, W(), t.comp.Keys) && Recorded(classes.root, offNodes, lab, t)
    }

    constructor (ghost k': Pass, union: bool, nodes: seq<OffNode>, next: nat, ghost mean': map<nat, set<nat>>)
      requires PassOk(k') && k'.e0 == nodes && PreLabelled(k', mean') && Numbering(mean', next, map[])
      requires |nodes| <= Sets.NODE_RANK_MIN && |k'.y.rep| <= next
      ensures Valid() && k == k' && doUnion == union && t == Scc.Start && fresh(classes) && first == next
    {
      var c := new Sets.Classes(|nodes|);
      classes := c;
      k, doUnion, offNodes := k', union, nodes;
      dfsStk, nextPtrEq, currDfs, lbl2pe := [], next, 1, map[];
      mean, t := mean', Scc.Start;
      lab, own, first := seq(|nodes|, _ => {}), seq(|nodes|, _ => 0), next;
      new;
      StartCollapsing(nodes);
      StartNamed(k', mean', next, union, W());
      hide Sets.RankBounded, PassOk, PreLabelled, Numbering, Collapsing, Named;
    }

    method GetOffRep(n: nat) returns (r: nat)
      requires classes.Valid() && n < |classes.rep|
      modifies classes
      ensures classes.Valid() && classes.root == old(classes.root) && |classes.rep| == old(|classes.rep|)
      ensures r == Rt(classes.root, n) < |classes.rep|
    {
      r := classes.Find(n);
    }

    // Unify two representatives; returns the one that remains.
    method MergeOffNodes(n1: nat, n2: nat) returns (p: nat)
      requires classes.Valid() && |offNodes| == |classes.rep| == |classes.root| && n1 < |offNodes| && n2 < |offNodes| && n1 != n2
      requires Rt(classes.root, n1) == n1 && Rt(classes.root, n2) == n2
      requires offNodes[n1].dfsId > 0 && offNodes[n2].dfsId > 0
      modifies classes, this`offNodes
      ensures classes.Valid() && (p == n1 || p == n2) && classes.root == Sets.Merged(old(classes.root), p, n1 + n2 - p)
      ensures |classes.rep| == |offNodes| && offNodes == MergeAt(old(offNodes), p, n1 + n2 - p)
    {
      p := classes.Union(n1, n2);
      offNodes := MergeAt(offNodes, p, n1 + n2 - p);
    }

    // ---------- Labels ----------

    // Collect the labels of all finished neighbours of n, besides its own.
    method CollectLabels(n: nat, ghost root0: seq<nat>, ghost off0: seq<OffNode>, ghost off1: seq<OffNode>, ghost M: set<nat>)
      returns (pe: set<nat>)
      requires classes.Valid() && |offNodes| == |classes.rep| == |classes.root| == |k.e0| && n < |off1| == |offNodes|
      requires Ready(k, root0, off0, classes.root, off1, t, mean, M, n)
      requires offNodes == off1[n := off1[n].(sccRoot := true)]
      modifies classes
      ensures classes.Valid() && |classes.rep| == old(|classes.rep|) && classes.root == old(classes.root)
      ensures pe == Collected(classes.root, off1, n)
    {
      hide Ready, LabelOk, Sets.Linked, Sets.RankBounded;
      pe := offNodes[n].ptrEq;
      var todo := offNodes[n].edges;
      ghost var done: set<nat> := {};
      while todo != {}
        invariant classes.Valid() && |classes.rep| == old(|classes.rep|) && classes.root == old(classes.root)
        invariant todo + done == off1[n].edges && pe == off1[n].ptrEq + IncomingFrom(classes.root, off1, n, done)
        decreases todo
      {
        var z :| z in todo;
        assert z in At(off1, n).edges;
        EdgeOut(k, root0, off0, classes.root, off1, t, mean, M, n, z);
        OneIncoming(classes.root, off1, n, done, z);
        var n2 := GetOffRep(z);
        if n2 != n {
          var pe2 := offNodes[n2].ptrEq;
          assert pe2 == LabelsAt(classes.root, off1, z);
          assert pe2 != {} by { LabelledNeighbour(k, root0, off0, t, mean, z); }
          // Ignore neighbours that are no pointers.
          if 0 !in pe2 {
            pe := pe + pe2;
          }
        }
        todo, done := todo - {z}, done + {z};
      }
      assert done == off1[n].edges;
    }

    // Label a component by value numbering.
    method HvnLabel(n: nat, ghost root0: seq<nat>, ghost off0: seq<OffNode>, ghost off1: seq<OffNode>, ghost M: set<nat>)
      returns (ghost given: set<nat>)
      requires classes.Valid() && |offNodes| == |classes.rep| == |classes.root| == |k.e0| && n < |off1| == |offNodes|
      requires Ready(k, root0, off0, classes.root, off1, t, mean, M, n) && Numbering(mean, nextPtrEq, lbl2pe) && |k.y.rep| <= nextPtrEq
      requires offNodes == off1[n := off1[n].(sccRoot := true)]
      modifies classes, this`offNodes, this`nextPtrEq, this`lbl2pe, this`mean
      ensures classes.Valid() && |classes.rep| == old(|classes.rep|) && classes.root == old(classes.root)
      ensures offNodes == Rooted(off1, n, given) && Fits(k, classes.root, off1, old(mean), mean, M, n, given)
      ensures Numbering(mean, nextPtrEq, lbl2pe) && |given| == 1 && |k.y.rep| <= nextPtrEq
      ensures Pick(given, nextPtrEq, lbl2pe) == HvnPick(off1[n].indirect, Collected(classes.root, off1, n), old(nextPtrEq), old(lbl2pe))
    {
      hide Ready, LabelOk, Sets.Linked, Sets.RankBounded, Fits, Numbering, Collected, Value, Means;
      assert At(off1, n) == off1[n];
      var pe: set<nat>;
      // An indirect component is labelled afresh.
      if offNodes[n].indirect {
        FreshFits(k, root0, off0, classes.root, off1, t, mean, M, n, nextPtrEq, lbl2pe);
        pe := {nextPtrEq};
        mean := mean[nextPtrEq := Value(k, n)];
        nextPtrEq := nextPtrEq + 1;
      } else {
        pe := CollectLabels(n, root0, off0, off1, M);
        if pe == {} {
          // A direct node without incoming labels is a non-pointer.
          ZeroFits(k, root0, off0, classes.root, off1, t, mean, M, n);
          pe := {0};
        } else if |pe| == 1 {
          KeptFits(k, root0, off0, classes.root, off1, t, mean, M, n);
        } else {
          // More than one label is replaced by the label of the set.
          NumberedFits(k, root0, off0, classes.root, off1, t, mean, M, n, nextPtrEq, lbl2pe);
          if pe in lbl2pe {
            pe := {lbl2pe[pe]};
          } else {
            mean := mean[nextPtrEq := Means(mean, pe)];
            lbl2pe := lbl2pe[pe := nextPtrEq];
            pe := {nextPtrEq};
            nextPtrEq := nextPtrEq + 1;
          }
        }
      }
      offNodes := offNodes[n := offNodes[n].(ptrEq := pe)];
      given := pe;
    }

    // Label a component with the union of the incoming labels.
    method HuLabel(n: nat, ghost root0: seq<nat>, ghost off0: seq<OffNode>, ghost off1: seq<OffNode>, ghost M: set<nat>)
      returns (ghost given: set<nat>)
      requires classes.Valid() && |offNodes| == |classes.rep| == |classes.root| == |k.e0| && n < |off1| == |offNodes|
      requires Ready(k, root0, off0, classes.root, off1, t, mean, M, n) && Numbering(mean, nextPtrEq, lbl2pe) && |k.y.rep| <= nextPtrEq
      requires offNodes == off1[n := off1[n].(sccRoot := true)]
      modifies classes, this`offNodes, this`nextPtrEq, this`lbl2pe, this`mean
      ensures classes.Valid() && |classes.rep| == old(|classes.rep|) && classes.root == old(classes.root)
      ensures offNodes == Rooted(off1, n, given) && Fits(k, classes.root, off1, old(mean), mean, M, n, given)
      ensures Numbering(mean, nextPtrEq, lbl2pe) && |k.y.rep| <= nextPtrEq
      ensures Pick(given, nextPtrEq, lbl2pe) == HuPick(off1[n].indirect, Collected(classes.root, off1, n), old(nextPtrEq), old(lbl2pe))
    {
      hide Ready, LabelOk, Sets.Linked, Sets.RankBounded, Fits, Numbering, Collected, Value, Means;
      assert At(off1, n) == off1[n];
      var pe := CollectLabels(n, root0, off0, off1, M);
      if offNodes[n].indirect {
        // An indirect node has a unique label as well.
        FreshAndKeptFits(k, root0, off0, classes.root, off1, t, mean, M, n, nextPtrEq, lbl2pe);
        pe := pe + {nextPtrEq};
        mean := mean[nextPtrEq := Value(k, n)];
        nextPtrEq := nextPtrEq + 1;
      } else if pe == {} {
        ZeroFits(k, root0, off0, classes.root, off1, t, mean, M, n);
        pe := {0};
      } else {
        KeptFits(k, root0, off0, classes.root, off1, t, mean, M, n);
      }
      offNodes := offNodes[n := offNodes[n].(ptrEq := pe)];
      given := pe;
    }

    // ---------- The search ----------

    // Visit n, and collapse and label every component that is finished in doing so.
    method HvnDfs(n: nat)
      requires Valid() && Scc.Inv(E(), t) && 0 < n < |k.e0| && !Scc.Visited(t, n)
      requires |t.path| > 0 ==> n in Succ(E(), t.path[|t.path| - 1])
      modifies this, classes
      ensures Valid() && Scc.Returned(E(), old(t), t, n)
      decreases Scc.Unvisited(E(), t), 3
    {
      hide Named, Recorded, Collapsing, Labelled, PassOk, PreLabelled, Numbering, Scc.Inv, Scc.Working, Scc.Returned, Scc.Unvisited, Sets.Linked,
        Sets.RankBounded, Intact, Arcs, Scc.Enter;
      ghost var t0 := t;
      EnterState(k, classes.root, offNodes, t, n, mean, lab);
      var ourDfs := currDfs;
      currDfs := currDfs + 1;
      offNodes := offNodes[n := offNodes[n].(dfsId := ourDfs)];
      t := Scc.Enter(t, n);
      ActiveIntact(k, classes.root, offNodes, t0, t, n, {});
      // Look for components using all edges.
      var edges, implEdges := offNodes[n].edges, offNodes[n].implEdges;
      HvnEdges(n, edges, t0, {});
      HvnEdges(n, implEdges, t0, {} + edges);
      assert {} + edges + implEdges == Succ(E(), n);
      HvnLeave(n, ourDfs, t0);
    }

    method HvnEdges(n: nat, edges: set<nat>, ghost t0: Scc.Dfs, ghost done: set<nat>)
      requires Valid() && Scc.Working(E(), t0, t, n, done) && edges <= Succ(E(), n)
      modifies this, classes
      ensures Valid() && Scc.Working(E(), t0, t, n, done + edges)
      decreases Scc.Unvisited(E(), t0), 2
    {
      hide Named, Recorded, Collapsing, Labelled, PassOk, PreLabelled, Numbering, Scc.Inv, Scc.Working, Scc.Returned, Scc.Unvisited, Sets.Linked, Sets.RankBounded;
      var todo := edges;
      ghost var seen: set<nat> := {};
      assert done + {} == done;
      while todo != {}
        invariant Valid() && todo + seen == edges && Scc.Working(E(), t0, t, n, done + seen)
        decreases todo
      {
        var dest :| dest in todo;
        HvnCheckEdge(n, dest, t0, done + seen);
        assert done + seen + {dest} == done + (seen + {dest});
        todo, seen := todo - {dest}, seen + {dest};
      }
      assert seen == edges;
    }

    // Look at the edge from n to dest, and continue the search along it.
    method HvnCheckEdge(n: nat, dest: nat, ghost t0: Scc.Dfs, ghost done: set<nat>)
      requires Valid() && Scc.Working(E(), t0, t, n, done) && dest in Succ(E(), n)
      modifies this, classes
      ensures Valid() && Scc.Working(E(), t0, t, n, done + {dest})
      decreases Scc.Unvisited(E(), t0), 1
    {
      hide Named, Recorded, Collapsing, Labelled, PassOk, PreLabelled, Numbering, Scc.Inv, Scc.Working, Scc.Returned, Scc.Unvisited, Sets.Linked,
        Sets.RankBounded, Scc.Seen;
      EdgeTarget(k, classes.root, offNodes, t0, t, n, done, dest);
      ActiveIntact(k, classes.root, offNodes, t0, t, n, done);
      var n2 := GetOffRep(dest);
      // Skip a neighbour that was merged into n or is in a finished component.
      if n2 == n || offNodes[n2].sccRoot {
        Scc.SeenWorking(E(), t0, t, n, done, dest);
        return;
      }
      if offNodes[n2].dfsId == 0 {
        ghost var t1 := t;
        Scc.UnvisitedShrinks(E(), t0, t, n, done);
        TargetOpen(k, classes.root, offNodes, t0, t, n, done, dest);
        HvnDfs(n2);
        Scc.ReturnedWorking(E(), t0, t1, n, done, dest, t);
        ReturnedLow(k, t0, t1, t, n, done, dest);
        HvnLower(n, n2);
      } else {
        Scc.SeenWorking(E(), t0, t, n, done, dest);
        HvnLower(n, n2);
      }
    }

    // The DFS number of n becomes the least number reached.
    method HvnLower(n: nat, n2: nat)
      requires Valid() && 0 < n < |k.e0| && n2 < |k.e0| && Scc.Visited(t, n) && Scc.Visited(t, n2)
      requires Scc.Closed(t, n2) ==> Scc.Low(t, n) <= Scc.Low(t, n2)
      modifies this`offNodes, this`t
      ensures Valid() && t == old(Scc.Seen(t, n, n2))
    {
      hide Labelled, PassOk, PreLabelled, Numbering, Sets.Linked, Sets.RankBounded, Collapsing;
      SeenState(k, classes.root, offNodes, t, n, n2, mean, lab);
      if offNodes[n2].dfsId < offNodes[n].dfsId {
        offNodes := offNodes[n := offNodes[n].(dfsId := offNodes[n2].dfsId)];
      }
      t := Scc.Seen(t, n, n2);
    }

    // n is finished: close its component if it is a root, else keep it on the stack.
    method HvnLeave(n: nat, ourDfs: nat, ghost t0: Scc.Dfs)
      requires Valid() && Scc.Working(E(), t0, t, n, Succ(E(), n)) && Scc.Inv(E(), t0) && ourDfs == t0.clock
      modifies this, classes
      ensures Valid() && Scc.Returned(E(), t0, t, n)
    {
      hide Named, Recorded, Collapsing, Labelled, PassOk, PreLabelled, Numbering, Scc.Inv, Scc.Working, Scc.Returned, Sets.Linked, Sets.RankBounded, Scc.Shelve;
      ActiveIntact(k, classes.root, offNodes, t0, t, n, Succ(E(), n));
      LeaveNumbers(k, t0, t, n);
      if offNodes[n].dfsId == ourDfs {
        HvnClose(n, ourDfs, t0);
      } else {
        Scc.ShelveReturned(E(), t0, t, n);
        ShelveState(k, classes.root, offNodes, t0, t, n, mean, lab);
        dfsStk := dfsStk + [n];
        t := Scc.Shelve(t, t0.path, n);
      }
    }

    // Pop and merge the component of the root n, then label it.
    method HvnClose(n: nat, ourDfs: nat, ghost t0: Scc.Dfs)
      requires Valid() && Scc.AtRoot(E(), t0, t, n) && ourDfs == Scc.Num(t, n) && n < |k.e0|
      modifies this, classes
      ensures Valid() && Scc.Returned(E(), t0, t, n)
    {
      hide Named, Recorded, Collapsing, Labelled, PassOk, PreLabelled, Numbering, Scc.AtRoot, Scc.Returned, Sets.Linked, Sets.RankBounded,
        Merging, IsComponent, Scc.Part, Scc.Popped, Scc.StackOf, Ready;
      ghost var root0, off0 := classes.root, offNodes;
      CloseStart(k, root0, off0, t0, t, n);
      var p := HvnPopAll(n, ourDfs, t0);
      MergingPart(k.e0, root0, off0, classes.root, offNodes, Scc.Part(t, t0, n), p);
      BeReady(k, root0, off0, classes.root, offNodes, t, mean, Scc.Part(t, t0, n), p);
      HvnLabelRoot(n, p, root0, off0, t0);
    }

    // Label the representative p of the component of the root n as the mode asks for.
    method HvnLabelRoot(n: nat, p: nat, ghost root0: seq<nat>, ghost off0: seq<OffNode>, ghost t0: Scc.Dfs)
      requires classes.Valid() && |offNodes| == |classes.rep| == |classes.root| == |k.e0| && p < |k.e0| && Sets.IsRootMap(classes.root)
      requires Ready(k, root0, off0, classes.root, offNodes, t, mean, Scc.Part(t, t0, n), p) && Scc.AtRoot(E(), t0, t, n)
      requires n in Scc.Part(t, t0, n) && |t0.stk| <= |t.stk| && dfsStk == t.stk[..|t0.stk|] && currDfs == t.clock
      requires PassOk(k) && Numbering(mean, nextPtrEq, lbl2pe) && |k.y.rep| <= nextPtrEq
      requires Named(k.e0, doUnion, lab, W(), t.comp.Keys) && Recorded(root0, off0, lab, t)
      modifies this, classes
      ensures Valid() && Scc.Returned(E(), t0, t, n)
    {
      hide Named, Recorded, Collapsing, Labelled, PassOk, PreLabelled, Numbering, Scc.AtRoot, Scc.Returned, Sets.Linked, Sets.RankBounded,
        Scc.Close, Merging, IsComponent, Scc.Part, LabelOk, Ready, Fits, Rooted, Collected, HvnPick, HuPick, Assign;
      ghost var off1, M := offNodes, Scc.Part(t, t0, n);
      offNodes := offNodes[p := offNodes[p].(sccRoot := true)];
      ghost var pe, mean0, w0 := {}, mean, W();
      if doUnion {
        pe := HuLabel(p, root0, off0, off1, M);
      } else {
        pe := HvnLabel(p, root0, off0, off1, M);
      }
      CloseEnd(k, root0, off0, classes.root, off1, t0, t, mean0, mean, n, p, pe);
      CloseNaming(k, root0, off0, classes.root, off1, t0, t, mean0, n, p, doUnion, lab, w0, Pick(pe, nextPtrEq, lbl2pe));
      lab, own := Assign(lab, M, pe), Assign(own, M, w0.next);
      t := Scc.Close(t, t0.path, |t0.stk|, n);
    }

    method HvnPopAll(n: nat, ourDfs: nat, ghost t0: Scc.Dfs) returns (p: nat)
      requires Valid() && Scc.AtRoot(E(), t0, t, n) && ourDfs == Scc.Num(t, n) && n < |k.e0|
      requires IsComponent(E(), t, Scc.Part(t, t0, n)) && Scc.StackOf(t0, t, n) && |t0.stk| <= |t.stk|
      requires Scc.Numbered(E(), t) && Scc.Visited(t, n) && n in Scc.Part(t, t0, n)
      requires Merging(k.e0, classes.root, offNodes, classes.root, offNodes, Scc.Popped(t, n, |t.stk|), n)
      modifies this`dfsStk, this`offNodes, classes
      ensures classes.Valid() && |classes.rep| == |classes.root| == |offNodes| == |k.e0| && |t0.stk| <= |t.stk|
      ensures dfsStk == t.stk[..|t0.stk|] && Sets.IsRootMap(classes.root)
      ensures Merging(k.e0, old(classes.root), old(offNodes), classes.root, offNodes, Scc.Popped(t, n, |t0.stk|), p)
    {
      hide Named, Recorded, Collapsing, Labelled, PassOk, PreLabelled, Numbering, Scc.AtRoot, Merging, IsComponent, Scc.Part, Scc.Popped,
        Scc.StackOf, Sets.RankBounded, Scc.Numbered;
      ghost var root0, off0 := classes.root, offNodes;
      p := n;
      assert t.stk[..|t.stk|] == t.stk;
      TopNumber(k, root0, off0, root0, off0, t0, t, n, |dfsStk|, p);
      while |dfsStk| > 0 && offNodes[dfsStk[|dfsStk| - 1]].dfsId >= ourDfs
        invariant classes.Valid() && |classes.rep| == |classes.root| == |offNodes| == |k.e0|
        invariant |t0.stk| <= |dfsStk| <= |t.stk| && dfsStk == t.stk[..|dfsStk|]
        invariant Merging(k.e0, root0, off0, classes.root, offNodes, Scc.Popped(t, n, |dfsStk|), p)
        invariant |dfsStk| > 0 ==> dfsStk[|dfsStk| - 1] < |k.e0| && (offNodes[dfsStk[|dfsStk| - 1]].dfsId >= ourDfs <==> |t0.stk| < |dfsStk|)
        decreases |dfsStk|
      {
        var n2 := dfsStk[|dfsStk| - 1];
        dfsStk := dfsStk[..|dfsStk| - 1];
        PopState(k, root0, off0, classes.root, offNodes, t0, t, n, |dfsStk| + 1, p);
        p := MergeOffNodes(p, n2);
        TopNumber(k, root0, off0, classes.root, offNodes, t0, t, n, |dfsStk|, p);
      }
    }

    // Search from every node that has not been visited yet.
    method Run()
      requires Valid() && t == Scc.Start
      modifies this, classes
      ensures Valid() && dfsStk == [] && !Scc.Closed(t, 0) && forall x: nat :: 0 < x < |k.e0| ==> Scc.Closed(t, x)
      // Two nodes have one representative if and only if each reaches the other.
      ensures forall x: nat, z: nat :: 0 < x < |k.e0| && 0 < z < |k.e0| ==>
        (Rt(classes.root, x) == Rt(classes.root, z) <==> Mutual(E(), x, z))
    {
      hide Named, Recorded, Collapsing, Labelled, PassOk, PreLabelled, Numbering, Scc.Inv, Scc.Returned, Scc.Unvisited, Sets.Linked, Sets.RankBounded, Mutual;
      Scc.StartInv(E()) by { SearchGraph(k); }
      var i := 1;
      while i < |offNodes|
        invariant 1 <= i && Valid() && Scc.Inv(E(), t) && t.path == []
        invariant forall x: nat :: 0 < x < i && x < |k.e0| ==> Scc.Visited(t, x)
        decreases |k.e0| - i
      {
        VisitedNumber(k, classes.root, offNodes, t, i);
        if offNodes[i].dfsId == 0 {
          ghost var t0 := t;
          HvnDfs(i);
          ReturnedKeeps(k, t0, t, i);
        }
        i := i + 1;
      }
      Scc.SearchComplete(E(), t);
      RootsAreComponents(k, classes.root, offNodes, t);
    }

    // The label of an offline node after the search.
    method FinalLabel(n: nat) returns (pe: set<nat>)
      requires Valid() && n < |offNodes|
      modifies classes
      ensures Valid() && classes.root == old(classes.root) && pe == LabelsAt(classes.root, offNodes, n)
    {
      hide Named, Recorded, Collapsing, Labelled, PassOk, PreLabelled, Numbering, Sets.Linked, Sets.RankBounded;
      var r := GetOffRep(n);
      pe := offNodes[r].ptrEq;
    }
  }

  lemma LabelledNeighbour(k: Pass, root0: seq<nat>, off0: seq<OffNode>, t: Scc.Dfs, mean: map<nat, set<nat>>, z: nat)
    requires LabelOk(k, root0, off0, t, mean, z)
    ensures LabelsAt(root0, off0, z) != {}
  {
  }

  // ---------- What the steps of the search keep ----------

  lemma EnterState(k: Pass, root: seq<nat>, off: seq<OffNode>, t: Scc.Dfs, n: nat, mean: map<nat, set<nat>>, lab: seq<set<nat>>)
    requires Collapsing(k.e0, root, off, t) && Labelled(k, root, off, t, mean) && Scc.Inv(Arc(k), t) && 0 < n < |k.e0| == |off| && !Scc.Visited(t, n)
    requires (|t.path| > 0 ==> n in Succ(Arc(k), t.path[|t.path| - 1])) && Recorded(root, off, lab, t)
    ensures var off' := off[n := off[n].(dfsId := t.clock)];
      Collapsing(k.e0, root, off', Scc.Enter(t, n)) && Labelled(k, root, off', Scc.Enter(t, n), mean) && Recorded(root, off', lab, Scc.Enter(t, n))
    ensures Scc.Working(Arc(k), t, Scc.Enter(t, n), n, {}) && Scc.Enter(t, n).clock == t.clock + 1 && Scc.Enter(t, n).stk == t.stk && Scc.Enter(t, n).comp == t.comp
  {
    hide Scc.Inv, Scc.Working, Collapsing, Labelled, Recorded;
    Scc.EnterWorking(Arc(k), t, n);
    Unseen(k.e0, root, off, t);
    Renumbered(k.e0, root, off, t, Scc.Enter(t, n), n);
    LabelledSame(k, root, off, off[n := off[n].(dfsId := t.clock)], t, Scc.Enter(t, n), mean);
    RecordedSame(root, off, off[n := off[n].(dfsId := t.clock)], lab, t, Scc.Enter(t, n));
  }

  lemma SeenState(k: Pass, root: seq<nat>, off: seq<OffNode>, t: Scc.Dfs, n: nat, y: nat, mean: map<nat, set<nat>>, lab: seq<set<nat>>)
    requires Collapsing(k.e0, root, off, t) && Labelled(k, root, off, t, mean) && n < |k.e0| == |off| && y < |k.e0|
    requires (Scc.Closed(t, y) ==> Scc.Low(t, n) <= Scc.Low(t, y)) && Recorded(root, off, lab, t)
    ensures off[n].dfsId == Scc.Low(t, n) && off[y].dfsId == Scc.Low(t, y)
    ensures var off' := if off[y].dfsId < off[n].dfsId then off[n := off[n].(dfsId := off[y].dfsId)] else off;
      Collapsing(k.e0, root, off', Scc.Seen(t, n, y)) && Labelled(k, root, off', Scc.Seen(t, n, y), mean) && Recorded(root, off', lab, Scc.Seen(t, n, y))
    ensures Scc.Seen(t, n, y).clock == t.clock && Scc.Seen(t, n, y).stk == t.stk && Scc.Seen(t, n, y).comp == t.comp
  {
    hide Collapsing, Labelled, Recorded;
    var r := Scc.Seen(t, n, y);
    OpenIsRep(k.e0, root, off, t, n);
    OpenIsRep(k.e0, root, off, t, y);
    Unseen(k.e0, root, off, t);
    Renumbered(k.e0, root, off, t, r, n);
    var off' := off[n := off[n].(dfsId := Scc.Low(r, n))];
    assert off' == if off[y].dfsId < off[n].dfsId then off[n := off[n].(dfsId := off[y].dfsId)] else off;
    LabelledSame(k, root, off, off', t, r, mean);
    RecordedSame(root, off, off', lab, t, r);
  }

  lemma ShelveState(k: Pass, root: seq<nat>, off: seq<OffNode>, t0: Scc.Dfs, t: Scc.Dfs, n: nat, mean: map<nat, set<nat>>, lab: seq<set<nat>>)
    requires Collapsing(k.e0, root, off, t) && Labelled(k, root, off, t, mean) && Recorded(root, off, lab, t)
    ensures var r := Scc.Shelve(t, t0.path, n);
      && Collapsing(k.e0, root, off, r) && Labelled(k, root, off, r, mean) && Recorded(root, off, lab, r)
      && r.stk == t.stk + [n] && r.clock == t.clock && r.comp == t.comp
  {
    hide Collapsing, Labelled, Recorded;
    RecordedSame(root, off, off, lab, t, Scc.Shelve(t, t0.path, n));
    SameNumbers(k.e0, root, off, t, Scc.Shelve(t, t0.path, n));
    LabelledSame(k, root, off, off, t, Scc.Shelve(t, t0.path, n), mean);
  }

  // The target of the edge can be visited next.
  lemma TargetOpen(k: Pass, root: seq<nat>, off: seq<OffNode>, t0: Scc.Dfs, t: Scc.Dfs, n: nat, done: set<nat>, y: nat)
    requires Collapsing(k.e0, root, off, t) && Scc.Working(Arc(k), t0, t, n, done) && y in Succ(Arc(k), n)
    requires PassOk(k)
    ensures Scc.Inv(Arc(k), t) && |t.path| > 0 && t.path[|t.path| - 1] == n && y > 0
  {
    hide Scc.Inv, Collapsing;
    ArcPositive(k, n, y);
  }

  lemma LeaveNumbers(k: Pass, t0: Scc.Dfs, t: Scc.Dfs, n: nat)
    requires Scc.Working(Arc(k), t0, t, n, Succ(Arc(k), n)) && Scc.Inv(Arc(k), t0)
    ensures Scc.Num(t, n) == t0.clock && Scc.Low(t, n) <= Scc.Num(t, n)
    ensures Scc.Low(t, n) == Scc.Num(t, n) ==> Scc.AtRoot(Arc(k), t0, t, n)
  {
    hide Scc.LowReached, Scc.PathReaches, Scc.LowCovers, Scc.Ordered, Scc.Components, Scc.Handled, Scc.LeastLow, Scc.Extends;
  }

  lemma CloseStart(k: Pass, root: seq<nat>, off: seq<OffNode>, t0: Scc.Dfs, t: Scc.Dfs, n: nat)
    requires Collapsing(k.e0, root, off, t) && Scc.AtRoot(Arc(k), t0, t, n) && n < |k.e0|
    ensures IsComponent(Arc(k), t, Scc.Part(t, t0, n)) && Scc.StackOf(t0, t, n) && |t0.stk| <= |t.stk|
    ensures Merging(k.e0, root, off, root, off, Scc.Popped(t, n, |t.stk|), n)
    ensures Scc.Popped(t, n, |t0.stk|) == Scc.Part(t, t0, n)
    ensures Scc.Numbered(Arc(k), t) && Scc.Visited(t, n) && n in Scc.Part(t, t0, n)
  {
    RootNumbered(k, t0, t, n);
    hide Scc.AtRoot, Scc.Numbered, Collapsing, IsComponent, Merging;
    Unseen(k.e0, root, off, t);
    RootComponent(Arc(k), t0, t, n);
    Scc.RootStack(Arc(k), t0, t, n);
    assert Scc.Popped(t, n, |t.stk|) == {n};
    assert !Scc.Closed(t, n) by { NotClosed(k, t, Scc.Part(t, t0, n), n); }
    StartMerging(k.e0, root, off, t, n);
  }

  lemma RootNumbered(k: Pass, t0: Scc.Dfs, t: Scc.Dfs, n: nat)
    requires Scc.AtRoot(Arc(k), t0, t, n)
    ensures Scc.Numbered(Arc(k), t) && Scc.Visited(t, n)
  {
    hide Scc.LowReached, Scc.PathReaches, Scc.LowCovers, Scc.Ordered, Scc.Components, Scc.Handled, Scc.LeastLow, Scc.Extends, Scc.Listed;
  }

  lemma NotClosed(k: Pass, t: Scc.Dfs, M: set<nat>, x: nat)
    requires IsComponent(Arc(k), t, M) && x in M
    ensures !Scc.Closed(t, x) && 0 < x < |k.e0|
  {
  }

  lemma BeReady(k: Pass, root0: seq<nat>, off0: seq<OffNode>, root: seq<nat>, off: seq<OffNode>,
                t: Scc.Dfs, mean: map<nat, set<nat>>, M: set<nat>, p: nat)
    requires PassOk(k) && PreLabelled(k, mean) && IsComponent(Arc(k), t, M)
    requires Collapsing(k.e0, root0, off0, t) && Labelled(k, root0, off0, t, mean) && Merging(k.e0, root0, off0, root, off, M, p)
    ensures Ready(k, root0, off0, root, off, t, mean, M, p)
  {
    hide PassOk, PreLabelled, IsComponent, Collapsing, Labelled, Merging;
  }

  // The node on top of the stack, and what its number tells.
  lemma TopNumber(k: Pass, root0: seq<nat>, off0: seq<OffNode>, root: seq<nat>, off: seq<OffNode>, t0: Scc.Dfs, t: Scc.Dfs, n: nat, i: nat, p: nat)
    requires Collapsing(k.e0, root0, off0, t) && Scc.StackOf(t0, t, n) && |t0.stk| <= i <= |t.stk| && Scc.Numbered(Arc(k), t)
    requires Merging(k.e0, root0, off0, root, off, Scc.Popped(t, n, i), p)
    ensures i > 0 ==> t.stk[i - 1] < |k.e0| == |off| && (off[t.stk[i - 1]].dfsId >= Scc.Num(t, n) <==> |t0.stk| < i)
  {
    hide Collapsing, Pooled;
    if i > 0 {
      var x := t.stk[i - 1];
      assert x in t.low.Keys;
      assert Scc.Visited(t, x);
      OpenIsRep(k.e0, root0, off0, t, x);
      assert x !in Scc.Popped(t, n, i);
      assert At(off, x) == At(off0, x);
    }
  }

  // The node on top of the stack can be merged.
  lemma PopState(k: Pass, root0: seq<nat>, off0: seq<OffNode>, root: seq<nat>, off: seq<OffNode>, t0: Scc.Dfs, t: Scc.Dfs, n: nat, i: nat, p: nat)
    requires Collapsing(k.e0, root0, off0, t) && Scc.StackOf(t0, t, n) && |t0.stk| < i <= |t.stk| && Scc.Numbered(Arc(k), t)
    requires IsComponent(Arc(k), t, Scc.Part(t, t0, n)) && n in Scc.Part(t, t0, n) && Scc.Visited(t, n)
    requires Merging(k.e0, root0, off0, root, off, Scc.Popped(t, n, i), p)
    ensures var c := t.stk[i - 1];
      && c < |off| == |k.e0| && p < |off| && c != p && Rt(root, c) == c && Rt(root, p) == p && off[c].dfsId > 0 && off[p].dfsId > 0
      && Merging(k.e0, root0, off0, Sets.Merged(root, p, c), MergeAt(off, p, c), Scc.Popped(t, n, i - 1), p)
      && Merging(k.e0, root0, off0, Sets.Merged(root, c, p), MergeAt(off, c, p), Scc.Popped(t, n, i - 1), c)
  {
    hide Collapsing, Scc.StackOf, Scc.Part, Scc.Popped, IsComponent, Scc.Numbered, Pooled, Sets.Merged, MergeAt, Merging, At, Intact, Rt;
    var c := t.stk[i - 1];
    var M := Scc.Popped(t, n, i);
    PopMembers(k, t0, t, n, i);
    MergingPart(k.e0, root0, off0, root, off, M, p);
    Alone(k.e0, root0, off0, t, c);
    Alone(k.e0, root0, off0, t, p);
    MergeOne(k.e0, root0, off0, root, off, M, p, c, p);
    MergeOne(k.e0, root0, off0, root, off, M, p, c, c);
    PopNumbers(k.e0, root0, off0, root, off, t, M, p, c);
  }

  lemma PopNumbers(e0: seq<OffNode>, root0: seq<nat>, off0: seq<OffNode>, root: seq<nat>, off: seq<OffNode>, t: Scc.Dfs, M: set<nat>, p: nat, c: nat)
    requires Merging(e0, root0, off0, root, off, M, p) && c < |e0| && c !in M && Rt(root0, c) == c
    requires At(off0, c).dfsId > 0 && At(off0, p).dfsId > 0
    ensures c < |off| && p < |off| && c != p && Rt(root, c) == c && off[c].dfsId > 0 && off[p].dfsId > 0
  {
    hide Pooled;
    assert At(off, c) == At(off0, c) && At(off, p).dfsId == At(off0, p).dfsId;
  }

  // A node that is not finished shares its representative with no other node.
  lemma Alone(e0: seq<OffNode>, root: seq<nat>, off: seq<OffNode>, t: Scc.Dfs, c: nat)
    requires Collapsing(e0, root, off, t) && c < |e0| && !Scc.Closed(t, c)
    ensures c < |off| && Rt(root, c) == c && Intact(e0[c], off[c]) && !off[c].sccRoot && At(off, c).dfsId == Scc.Low(t, c)
    ensures forall x: nat :: x < |e0| && Rt(root, x) == c ==> x == c
  {
    OpenIsRep(e0, root, off, t, c);
  }

  lemma PopMembers(k: Pass, t0: Scc.Dfs, t: Scc.Dfs, n: nat, i: nat)
    requires Scc.StackOf(t0, t, n) && |t0.stk| < i <= |t.stk| && Scc.Numbered(Arc(k), t) && Scc.Visited(t, n)
    requires IsComponent(Arc(k), t, Scc.Part(t, t0, n)) && n in Scc.Part(t, t0, n)
    ensures var c := t.stk[i - 1];
      && c !in Scc.Popped(t, n, i) && Scc.Popped(t, n, i - 1) == Scc.Popped(t, n, i) + {c}
      && !Scc.Closed(t, c) && c < |k.e0| && Scc.Low(t, c) > 0
      && (forall x: nat :: x in Scc.Popped(t, n, i) ==> !Scc.Closed(t, x) && x < |k.e0| && Scc.Low(t, x) > 0)
  {
    Scc.PopOne(t0, t, n, i);
    forall x: nat | x in Scc.Popped(t, n, i - 1) ensures !Scc.Closed(t, x) && x < |k.e0| && Scc.Low(t, x) > 0 {
      assert x in Scc.Part(t, t0, n);
      assert Scc.Visited(t, x) by { assert x == n || x in t.low.Keys; }
      NotClosed(k, t, Scc.Part(t, t0, n), x);
    }
  }

  lemma ArcPositive(k: Pass, x: nat, z: nat)
    requires PassOk(k) && z in Succ(Arc(k), x)
    ensures z > 0
  {
    hide PassInput, IsLeast, Represented, EdgesInclude;
  }

  lemma CloseEnd(k: Pass, root0: seq<nat>, off0: seq<OffNode>, root: seq<nat>, off: seq<OffNode>, t0: Scc.Dfs, t: Scc.Dfs,
                 mean: map<nat, set<nat>>, mean': map<nat, set<nat>>, n: nat, p: nat, pe: set<nat>)
    requires Ready(k, root0, off0, root, off, t, mean, Scc.Part(t, t0, n), p) && Scc.AtRoot(Arc(k), t0, t, n)
    requires Fits(k, root, off, mean, mean', Scc.Part(t, t0, n), p, pe) && p < |off| && Sets.IsRootMap(root) && |t0.stk| <= |t.stk|
    ensures var r := Scc.Close(t, t0.path, |t0.stk|, n);
      && Collapsing(k.e0, root, Rooted(off, p, pe), r) && Labelled(k, root, Rooted(off, p, pe), r, mean')
      && Scc.Returned(Arc(k), t0, r, n) && r.stk == t.stk[..|t0.stk|] && r.clock == t.clock
    ensures PreLabelled(k, mean')
  {
    hide Collapsing, Labelled, PassOk, PreLabelled, Merging, IsComponent, Fits, Rooted, Scc.Returned, Scc.Close, Ready;
    var M, r := Scc.Part(t, t0, n), Scc.Close(t, t0.path, |t0.stk|, n);
    Scc.CloseReturned(Arc(k), t0, t, n);
    CloseFacts(k, root0, off0, root, off, t0, t, mean, n, p);
    hide Scc.AtRoot, Scc.Part;
    CloseLabelled(k, root0, off0, root, off, t, r, mean, mean', M, p, pe);
    CloseCollapsing(k.e0, root0, off0, root, off, t, r, M, p, pe);
    PreLabelledLater(k, root0, off0, root, off, t, mean, mean', M, p, pe);
  }

  lemma CloseFacts(k: Pass, root0: seq<nat>, off0: seq<OffNode>, root: seq<nat>, off: seq<OffNode>, t0: Scc.Dfs, t: Scc.Dfs,
                   mean: map<nat, set<nat>>, n: nat, p: nat)
    requires Ready(k, root0, off0, root, off, t, mean, Scc.Part(t, t0, n), p) && Scc.AtRoot(Arc(k), t0, t, n) && |t0.stk| <= |t.stk|
    ensures Collapsing(k.e0, root0, off0, t) && Merging(k.e0, root0, off0, root, off, Scc.Part(t, t0, n), p)
    ensures forall x: nat :: x in Scc.Part(t, t0, n) ==> !Scc.Closed(t, x)
    ensures forall x: nat :: Scc.Closed(t, x) ==> Scc.Comp(t, x) < t.ncomp
  {
    hide Collapsing, Labelled, PassOk, PreLabelled, Merging;
    hide Scc.LowReached, Scc.PathReaches, Scc.LowCovers, Scc.Ordered, Scc.Components, Scc.Handled, Scc.LeastLow, Scc.Extends, Scc.Listed;
  }

  lemma PreLabelledLater(k: Pass, root0: seq<nat>, off0: seq<OffNode>, root: seq<nat>, off: seq<OffNode>, t: Scc.Dfs,
                         mean: map<nat, set<nat>>, mean': map<nat, set<nat>>, M: set<nat>, p: nat, pe: set<nat>)
    requires Ready(k, root0, off0, root, off, t, mean, M, p) && Fits(k, root, off, mean, mean', M, p, pe)
    ensures PreLabelled(k, mean')
  {
    assert PreLabelled(k, mean) && Labels.Extends(mean, mean');
    hide Collapsing, Labelled, PassOk, Merging, IsComponent, Value, Ready, Fits;
    forall c | c in k.y.cs && Off(k.ix, c.dest) > 0 ensures Given(k, mean', c) {
      assert Given(k, mean, c);
    }
  }

  // ---------- The record of labels ----------

  lemma StartNamed(k: Pass, mean: map<nat, set<nat>>, next: nat, union: bool, w: Names)
    requires PreLabelled(k, mean) && Numbering(mean, next, map[])
    requires w.first == w.next == next && |w.own| == |k.e0| && w.number == map[]
    ensures Named(k.e0, union, seq(|k.e0|, _ => {}), w, {})
  {
    hide Value, Given, Named;
    forall x: nat, a: nat | x < |k.e0| && a in k.e0[x].ptrEq ensures 0 < a < w.first {
      assert a in mean;
    }
    NoneNamed(k.e0, union, w);
  }

  lemma RecordedSame(root: seq<nat>, off: seq<OffNode>, off': seq<OffNode>, lab: seq<set<nat>>, t: Scc.Dfs, r: Scc.Dfs)
    requires Recorded(root, off, lab, t) && |off'| == |off|
    requires forall x: nat :: x < |off| ==> off'[x].ptrEq == off[x].ptrEq
    requires forall x: nat :: Scc.Closed(r, x) <==> Scc.Closed(t, x)
    ensures Recorded(root, off', lab, r)
  {
  }

  // What the merged node collects is what its component gathers.
  lemma CollectedGathered(k: Pass, root0: seq<nat>, off0: seq<OffNode>, root: seq<nat>, off: seq<OffNode>,
                          t: Scc.Dfs, mean: map<nat, set<nat>>, M: set<nat>, p: nat, lab: seq<set<nat>>)
    requires Collapse.Ready(k, root0, off0, root, off, t, mean, M, p) && Recorded(root0, off0, lab, t)
    ensures Collected(root, off, p) == Gathered(k.e0, M, lab) && (At(off, p).indirect <==> AnyIndirect(k.e0, M))
  {
    CollectedLabels(k, root0, off0, root, off, t, mean, M, p);
    hide PassOk, PreLabelled, IsComponent, Collapsing, Labelled, LabelOk, Recorded, Ready, OwnLabels, AnyIndirect, LabelsAt, Outside;
    var G := set z: nat, a | z in Outside(k.e0, M) && z < |lab| && 0 !in lab[z] && a in lab[z] :: a;
    forall a | a in G ensures a in Incoming(root, off, p) {
      var z: nat :| z in Outside(k.e0, M) && z < |lab| && 0 !in lab[z] && a in lab[z];
      OutsideEdge(k, root0, off0, root, off, t, mean, M, p, lab, z);
    }
    forall a: nat | a in Incoming(root, off, p) ensures a in G {
      var z: nat :| z in At(off, p).edges && Rt(root, z) != p && 0 !in LabelsAt(root, off, z) && a in LabelsAt(root, off, z);
      OutsideEdge(k, root0, off0, root, off, t, mean, M, p, lab, z);
    }
  }

  // An edge out of the component leads to a finished node, whose labels are recorded.
  lemma OutsideEdge(k: Pass, root0: seq<nat>, off0: seq<OffNode>, root: seq<nat>, off: seq<OffNode>,
                    t: Scc.Dfs, mean: map<nat, set<nat>>, M: set<nat>, p: nat, lab: seq<set<nat>>, z: nat)
    requires Collapse.Ready(k, root0, off0, root, off, t, mean, M, p) && Recorded(root0, off0, lab, t)
    ensures z in Outside(k.e0, M) <==> z in At(off, p).edges && Rt(root, z) != p
    ensures z in Outside(k.e0, M) ==> z < |lab| && lab[z] == LabelsAt(root, off, z)
  {
    OutsideEdges(k, root0, off0, root, off, t, mean, M, p);
    hide PassOk, PreLabelled, IsComponent, Collapsing, Labelled, LabelOk, Ready, LabelsAt, Outside, Merging;
    if z in At(off, p).edges {
      EdgeOut(k, root0, off0, root, off, t, mean, M, p, z);
    }
  }

  lemma OutsideEdges(k: Pass, root0: seq<nat>, off0: seq<OffNode>, root: seq<nat>, off: seq<OffNode>,
                     t: Scc.Dfs, mean: map<nat, set<nat>>, M: set<nat>, p: nat)
    requires Collapse.Ready(k, root0, off0, root, off, t, mean, M, p)
    ensures forall z: nat :: z in Outside(k.e0, M) <==> z in At(off, p).edges && z !in M
  {
    hide PassOk, PreLabelled, IsComponent, Collapsing, Labelled;
    assert p < |off| && At(off, p) == off[p];
  }

  lemma CollectedLabels(k: Pass, root0: seq<nat>, off0: seq<OffNode>, root: seq<nat>, off: seq<OffNode>,
                        t: Scc.Dfs, mean: map<nat, set<nat>>, M: set<nat>, p: nat)
    requires Collapse.Ready(k, root0, off0, root, off, t, mean, M, p)
    ensures p < |off| && At(off, p).ptrEq == OwnLabels(k.e0, M) && (At(off, p).indirect <==> AnyIndirect(k.e0, M))
  {
    hide PassOk, PreLabelled, IsComponent, Collapsing, Labelled;
  }

  // What is popped at a root is a whole component, whose edges lead to labelled nodes.
  lemma ClosingPart(k: Pass, t0: Scc.Dfs, t: Scc.Dfs, n: nat)
    requires IsComponent(Arc(k), t, Scc.Part(t, t0, n)) && n in Scc.Part(t, t0, n) && Scc.AtRoot(Arc(k), t0, t, n) && |t0.stk| <= |t.stk|
    ensures Naming.Closing(k.e0, Scc.Part(t, t0, n), t.comp.Keys)
  {
    var M := Scc.Part(t, t0, n);
    hide Scc.AtRoot, Scc.Part, Mutual, Mates;
    forall x: nat | x in M ensures Mates(k.e0, x) == M {
      PartMates(k, t0, t, n, x);
    }
    forall x: nat, z: nat | x in M && x < |k.e0| && z in k.e0[x].edges && z !in M ensures z in t.comp.Keys {
      assert z in Succ(Arc(k), x);
    }
  }

  lemma PartMates(k: Pass, t0: Scc.Dfs, t: Scc.Dfs, n: nat, x: nat)
    requires IsComponent(Arc(k), t, Scc.Part(t, t0, n)) && Scc.AtRoot(Arc(k), t0, t, n) && x in Scc.Part(t, t0, n) && |t0.stk| <= |t.stk|
    ensures Mates(k.e0, x) == Scc.Part(t, t0, n)
  {
    var M, r := Scc.Part(t, t0, n), Scc.Close(t, t0.path, |t0.stk|, n);
    assert Scc.Inv(Arc(k), r) && |Arc(k)| == |k.e0| by {
      hide Scc.Inv, Scc.AtRoot, Scc.Close, Scc.Part;
      Scc.CloseReturned(Arc(k), t0, t, n);
    }
    CompsBelow(k, t0, t, n);
    hide Scc.AtRoot, Arc, Reach, Mutual, Scc.Inv, Succ;
    forall z: nat | z < |k.e0| ensures Mutual(Arc(k), x, z) <==> z in M {
      PartMate(k, t0, t, n, x, z);
    }
  }

  lemma PartMate(k: Pass, t0: Scc.Dfs, t: Scc.Dfs, n: nat, x: nat, z: nat)
    requires IsComponent(Arc(k), t, Scc.Part(t, t0, n)) && x in Scc.Part(t, t0, n) && |t0.stk| <= |t.stk|
    requires Scc.Inv(Arc(k), Scc.Close(t, t0.path, |t0.stk|, n)) && forall z: nat :: Scc.Closed(t, z) ==> Scc.Comp(t, z) < t.ncomp
    ensures Mutual(Arc(k), x, z) <==> z in Scc.Part(t, t0, n)
  {
    var M, r := Scc.Part(t, t0, n), Scc.Close(t, t0.path, |t0.stk|, n);
    if Mutual(Arc(k), x, z) {
      assert Reach(Arc(k), x, z);
      hide Scc.Inv, Reach, Mutual, IsComponent;
      Scc.ClosedReach(Arc(k), r, x, z);
      assert Scc.Comp(r, x) == Scc.Comp(r, z) by { SameComp(k, r, x, z); }
    }
  }

  lemma SameComp(k: Pass, r: Scc.Dfs, x: nat, z: nat)
    requires Scc.Inv(Arc(k), r) && Scc.Closed(r, x) && Scc.Closed(r, z) && Mutual(Arc(k), x, z)
    ensures Scc.Comp(r, x) == Scc.Comp(r, z)
  {
    hide Mutual, Scc.LowReached, Scc.PathReaches, Scc.LowCovers, Scc.Ordered, Scc.Numbered, Scc.Listed;
  }

  lemma CompsBelow(k: Pass, t0: Scc.Dfs, t: Scc.Dfs, n: nat)
    requires Scc.AtRoot(Arc(k), t0, t, n)
    ensures forall z: nat :: Scc.Closed(t, z) ==> Scc.Comp(t, z) < t.ncomp
  {
    RootNumbered(k, t0, t, n);
    hide Scc.AtRoot;
  }

  // The component is labelled as its mode asks for.
  lemma CloseNaming(k: Pass, root0: seq<nat>, off0: seq<OffNode>, root: seq<nat>, off: seq<OffNode>, t0: Scc.Dfs, t: Scc.Dfs,
                    mean: map<nat, set<nat>>, n: nat, p: nat, union: bool, lab: seq<set<nat>>, w: Names, pick: Pick)
    requires Collapse.Ready(k, root0, off0, root, off, t, mean, Scc.Part(t, t0, n), p) && Scc.AtRoot(Arc(k), t0, t, n)
    requires Recorded(root0, off0, lab, t) && Named(k.e0, union, lab, w, t.comp.Keys) && |t0.stk| <= |t.stk| && p < |off| && n in Scc.Part(t, t0, n)
    requires var pe := Collected(root, off, p);
      pick == if union then HuPick(off[p].indirect, pe, w.next, w.number) else HvnPick(off[p].indirect, pe, w.next, w.number)
    ensures var M, r := Scc.Part(t, t0, n), Scc.Close(t, t0.path, |t0.stk|, n);
      && Named(k.e0, union, Assign(lab, M, pick.labels), After(w, M, pick), r.comp.Keys)
      && Recorded(root, Rooted(off, p, pick.labels), Assign(lab, M, pick.labels), r)
  {
    var M := Scc.Part(t, t0, n);
    CollectedGathered(k, root0, off0, root, off, t, mean, M, p, lab);
    assert At(off, p) == off[p];
    ClosingPart(k, t0, t, n) by { hide Scc.AtRoot, PassOk, Collapsing, Labelled, PreLabelled, IsComponent; }
    hide PassOk, Collapsing, Labelled, PreLabelled, IsComponent, Merging, Scc.AtRoot, Named, Naming.Closing, Collected, Gathered, AnyIndirect,
      HvnPick, HuPick;
    CloseNamed(k.e0, union, lab, w, t.comp.Keys, M, pick);
    RecordedClose(k, root0, off0, root, off, t, mean, M, p, lab, pick.labels, Scc.Close(t, t0.path, |t0.stk|, n));
  }

  lemma RecordedClose(k: Pass, root0: seq<nat>, off0: seq<OffNode>, root: seq<nat>, off: seq<OffNode>, t: Scc.Dfs,
                      mean: map<nat, set<nat>>, M: set<nat>, p: nat, lab: seq<set<nat>>, pe: set<nat>, r: Scc.Dfs)
    requires Collapse.Ready(k, root0, off0, root, off, t, mean, M, p) && Recorded(root0, off0, lab, t) && p < |off| && |lab| == |k.e0|
    requires forall x: nat :: Scc.Closed(r, x) <==> Scc.Closed(t, x) || x in M
    ensures Recorded(root, Rooted(off, p, pe), Assign(lab, M, pe), r)
  {
    MergingPart(k.e0, root0, off0, root, off, M, p);
    hide PassOk, Collapsing, Labelled, PreLabelled, IsComponent, Merging, Ready;
    forall x: nat | Scc.Closed(r, x) ensures x < |lab| && Assign(lab, M, pe)[x] == LabelsAt(root, Rooted(off, p, pe), x) {
      if x !in M {
        FinishedRooted(k, root0, off0, root, off, t, mean, M, p, pe, x);
        FinishedSame(k, root0, off0, root, off, t, mean, M, p, x);
      }
    }
  }

  // ---------- The end of the search ----------

  lemma SearchGraph(k: Pass)
    requires PassOk(k)
    ensures WellFormed(Arc(k))
  {
  }

  lemma VisitedNumber(k: Pass, root: seq<nat>, off: seq<OffNode>, t: Scc.Dfs, x: nat)
    requires Collapsing(k.e0, root, off, t) && Scc.Inv(Arc(k), t) && x < |k.e0|
    ensures off[x].dfsId == 0 <==> !Scc.Visited(t, x)
  {
    OpenIsRep(k.e0, root, off, t, x);
    hide Collapsing, Scc.LowReached, Scc.PathReaches, Scc.LowCovers, Scc.Ordered, Scc.Components, Scc.Listed;
  }

  lemma ReturnedKeeps(k: Pass, t0: Scc.Dfs, t: Scc.Dfs, n: nat)
    requires Scc.Returned(Arc(k), t0, t, n)
    ensures Scc.Inv(Arc(k), t) && t.path == t0.path && Scc.Visited(t, n)
    ensures forall x: nat :: Scc.Visited(t0, x) ==> Scc.Visited(t, x)
  {
    hide Scc.Inv;
  }

  lemma NullOpen(k: Pass, root: seq<nat>, off: seq<OffNode>, t: Scc.Dfs)
    requires Collapsing(k.e0, root, off, t) && Scc.Inv(Arc(k), t)
    ensures !Scc.Closed(t, 0)
  {
    Unseen(k.e0, root, off, t);
    hide Collapsing, Scc.LowReached, Scc.PathReaches, Scc.LowCovers, Scc.Ordered, Scc.Listed;
  }

  lemma RootsAreComponents(k: Pass, root: seq<nat>, off: seq<OffNode>, t: Scc.Dfs)
    requires Collapsing(k.e0, root, off, t) && Scc.Inv(Arc(k), t)
    requires forall x: nat :: 0 < x < |k.e0| ==> Scc.Closed(t, x)
    ensures forall x: nat, z: nat :: 0 < x < |k.e0| && 0 < z < |k.e0| ==> (Rt(root, x) == Rt(root, z) <==> Mutual(Arc(k), x, z))
    ensures !Scc.Closed(t, 0)
  {
    assert !Scc.Closed(t, 0) by { NullOpen(k, root, off, t); }
    hide Scc.LowReached, Scc.PathReaches, Scc.LowCovers, Scc.Ordered, Scc.Listed, Scc.Numbered, Mutual, Intact;
    forall x: nat, z: nat | 0 < x < |k.e0| && 0 < z < |k.e0| ensures Rt(root, x) == Rt(root, z) <==> Mutual(Arc(k), x, z) {
      assert Scc.Comp(t, x) == Scc.Comp(t, z) <==> Mutual(Arc(k), x, z);
    }
  }
}
