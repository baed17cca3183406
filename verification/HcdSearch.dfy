/** Hybrid cycle detection, offline part: the search that maps a dereferenced node to a
    variable in the same component of the offline graph, and merges variables that share one. */
module HcdSearch {
  import opened Constraints
  import opened ConstraintGraph
  import opened Graphs
  import opened Offline
  import opened OfflineEdges
  import opened HybridCycles
  import opened Collapse
  import opened Rewriting
  import Scc
  import Sets = UnionFind

  // DFS numbers and marks of finished nodes follow the search; nothing else changes.
  ghost predicate Marked(e0: seq<OffNode>, off: seq<OffNode>, t: Scc.Dfs) {
    && |off| == |e0| && !Scc.Visited(t, 0)
    && (forall x: nat :: x < |e0| ==> off[x].edges == e0[x].edges && off[x].dfsId == Scc.Low(t, x) && (off[x].sccRoot <==> Scc.Closed(t, x)))
  }

  // Main nodes a and b are one, or their offline nodes are in one component.
  ghost predicate Within(ix: Index, E: Digraph, a: nat, b: nat) {
    a == b || (Off(ix, a) > 0 && Off(ix, b) > 0 && Mutual(E, Off(ix, a), Off(ix, b)))
  }

  lemma WithinTrans(ix: Index, E: Digraph, a: nat, b: nat, c: nat)
    requires Within(ix, E, a, b) && Within(ix, E, b, c)
    ensures Within(ix, E, a, c) && Within(ix, E, b, a)
  {
    hide Reach;
    if a != b && b != c {
      ReachTrans(E, Off(ix, a), Off(ix, b), Off(ix, c));
      ReachTrans(E, Off(ix, c), Off(ix, b), Off(ix, a));
    }
  }

  // Nodes have been merged only within components.
  ghost predicate MergedWithin(y: System, ix: Index, E: Digraph, root: seq<nat>) {
    forall m: nat, n: nat :: m < |root| && n < |root| && Rt(root, m) == Rt(root, n) ==> Within(ix, E, Rt(y.rep, m), Rt(y.rep, n))
  }

  // The entry v for n was recorded for u: the dereference of u is in a component with v, and u is
  // n or, if the entry was taken over, in a component with n.
  ghost predicate EntryFrom(ix: Index, E: Digraph, n: nat, u: nat, v: nat) {
    Within(ix, E, n, u) && Off(ix, u) > 0 && Off(ix, v) > 0 && Mutual(E, Ref(ix, Off(ix, u)), Off(ix, v))
  }

  ghost predicate EntriesFrom(ix: Index, E: Digraph, hcdVar: map<nat, nat>) {
    forall n: nat :: n in hcdVar ==> exists u: nat :: EntryFrom(ix, E, n, u, hcdVar[n])
  }

  // The main nodes of VAR nodes that are not finished have not been merged.
  ghost predicate Unmerged(ix: Index, root: seq<nat>, t: Scc.Dfs) {
    forall x: nat :: IsVar(ix, x) && !Scc.Closed(t, x) ==> Rt(root, Main(ix, x)) == Main(ix, x)
  }

  // Finished VAR nodes of one component have been merged.
  ghost predicate VarsMerged(ix: Index, E: Digraph, root: seq<nat>, t: Scc.Dfs) {
    forall x: nat, z: nat :: IsVar(ix, x) && IsVar(ix, z) && Scc.Closed(t, x) && Scc.Closed(t, z) && Mutual(E, x, z) ==>
      Rt(root, Main(ix, x)) == Rt(root, Main(ix, z))
  }

  // If the finished dereference of x shares its component with another node, x is mapped.
  ghost predicate RefsMapped(ix: Index, E: Digraph, root: seq<nat>, hcdVar: map<nat, nat>, t: Scc.Dfs) {
    forall x: nat, z: nat :: IsVar(ix, x) && Scc.Closed(t, Ref(ix, x)) && z != Ref(ix, x) && Mutual(E, Ref(ix, x), z) ==>
      IsMapped(root, hcdVar, Main(ix, x))
  }

  ghost predicate IsMapped(root: seq<nat>, hcdVar: map<nat, nat>, n: nat) {
    exists m: nat :: m in hcdVar && Rt(root, m) == Rt(root, n)
  }

  ghost predicate Mapping(y: System, ix: Index, E: Digraph, root: seq<nat>, hcdVar: map<nat, nat>, t: Scc.Dfs) {
    && Coarser(y.rep, root) && MergedWithin(y, ix, E, root) && EntriesFrom(ix, E, hcdVar)
    && Unmerged(ix, root, t) && VarsMerged(ix, E, root, t) && RefsMapped(ix, E, root, hcdVar, t)
  }

  // Only what is finished matters.
  lemma MappingSame(y: System, ix: Index, E: Digraph, root: seq<nat>, hcdVar: map<nat, nat>, t: Scc.Dfs, r: Scc.Dfs)
    requires Mapping(y, ix, E, root, hcdVar, t) && forall x: nat :: Scc.Closed(r, x) <==> Scc.Closed(t, x)
    ensures Mapping(y, ix, E, root, hcdVar, r)
  {
    hide Coarser, MergedWithin, EntriesFrom, Mutual, IsMapped;
  }

  // ---------- Merging two variables ----------

  // When c is merged into p, p takes over the map entry of c unless it has its own.
  function TakeOver(hcdVar: map<nat, nat>, p: nat, c: nat): map<nat, nat> {
    (if c in hcdVar && p !in hcdVar then hcdVar[p := hcdVar[c]] else hcdVar) - {c}
  }

  lemma MergeHolds(y: System, ix: Index, E: Digraph, root: seq<nat>, hcdVar: map<nat, nat>, p: nat, c: nat)
    requires Coarser(y.rep, root) && MergedWithin(y, ix, E, root) && EntriesFrom(ix, E, hcdVar) && Within(ix, E, p, c)
    requires p < |root| && c < |root| && p != c && Rt(root, p) == p && Rt(root, c) == c
    ensures var r := Sets.Merged(root, p, c);
      Coarser(y.rep, r) && MergedWithin(y, ix, E, r) && EntriesFrom(ix, E, TakeOver(hcdVar, p, c)) && |r| == |root|
    ensures forall m: nat :: Rt(Sets.Merged(root, p, c), m) == if m < |root| && Rt(root, m) == c then p else Rt(root, m)
  {
    var r := Sets.Merged(root, p, c);
    MergedRt(root, p, c);
    MergeCoarser(y.rep, root, p, c);
    assert IsRep(root, p) && IsRep(root, c);
    assert Rt(y.rep, p) == p && Rt(y.rep, c) == c;
    hide Sets.Merged, Coarser, Within;
    WithinTrans(ix, E, p, c, c) by { assert Within(ix, E, c, c) by { WithinSame(ix, E, c); } }
    forall m: nat, n: nat | m < |r| && n < |r| && Rt(r, m) == Rt(r, n) ensures Within(ix, E, Rt(y.rep, m), Rt(y.rep, n)) {
      if Rt(root, m) != Rt(root, n) {
        var a, b := Rt(root, m), Rt(root, n);
        assert Within(ix, E, Rt(y.rep, m), a) && Within(ix, E, b, Rt(y.rep, n)) && Within(ix, E, a, b);
        WithinTrans(ix, E, Rt(y.rep, m), a, b);
        WithinTrans(ix, E, Rt(y.rep, m), b, Rt(y.rep, n));
      }
    }
    TakenOver(ix, E, hcdVar, p, c);
  }

  lemma WithinSame(ix: Index, E: Digraph, a: nat)
    ensures Within(ix, E, a, a)
  {
  }

  lemma TakenOver(ix: Index, E: Digraph, hcdVar: map<nat, nat>, p: nat, c: nat)
    requires EntriesFrom(ix, E, hcdVar) && Within(ix, E, p, c)
    ensures EntriesFrom(ix, E, TakeOver(hcdVar, p, c))
  {
    hide Within, Mutual;
    var h := TakeOver(hcdVar, p, c);
    forall n: nat | n in h ensures exists u: nat :: EntryFrom(ix, E, n, u, h[n]) {
      var m := if n in hcdVar then n else c;
      var u: nat :| EntryFrom(ix, E, m, u, hcdVar[m]);
      if n !in hcdVar {
        WithinTrans(ix, E, p, c, u);
      }
      assert EntryFrom(ix, E, n, u, h[n]);
    }
  }

  // ---------- The class ----------

  class Search {
    ghost const y: System
    const ix: Index
    ghost const e0: seq<OffNode>
    const classes: Sets.Classes
    var offNodes: seq<OffNode>
    var dfsStk: seq<nat>
    var currDfs: nat
    // For a node whose dereference is in a component with variables: one of these.
    var hcdVar: map<nat, nat>
    ghost var t: Scc.Dfs

    ghost function E(): Digraph { Arcs(e0) }

    ghost predicate Valid()
      reads this, classes
    {
      && classes.Valid() && |classes.rep| == |classes.root| && PassInput(y, ix) && HcdGraphed(ix, y.cs, e0)
      && |offNodes| == |e0| && Marked(e0, offNodes, t) && Mapping(y, ix, E(), classes.root, hcdVar, t) && dfsStk == t.stk && currDfs == t.clock
    }

    constructor (ghost y': System, ix': Index, c: Sets.Classes, nodes: seq<OffNode>)
      requires c.Valid() && c.root == y'.rep && |c.rep| == |c.root| && PassInput(y', ix') && HcdGraphed(ix', y'.cs, nodes) && Sets.IsRootMap(y'.rep)
      ensures Valid() && y == y' && ix == ix' && e0 == nodes && classes == c && t == Scc.Start && offNodes == nodes
    {
      y, ix, e0, classes, offNodes := y', ix', nodes, c, nodes;
      dfsStk, currDfs, hcdVar, t := [], 1, map[], Scc.Start;
      new;
      hide Sets.Linked, Sets.RankBounded;
      StartMapping(y, ix, e0);
      assert Marked(e0, offNodes, t) by { hide PassInput; }
      hide PassInput, HcdGraphed, Mapping;
    }

    // Visit n; every component that is finished in doing so is recorded.
    method HcdDfs(n: nat)
      requires Valid() && Scc.Inv(E(), t) && 0 < n < |e0| && !Scc.Visited(t, n)
      requires |t.path| > 0 ==> n in Succ(E(), t.path[|t.path| - 1])
      modifies this, classes
      ensures Valid() && Scc.Returned(E(), old(t), t, n)
      decreases Scc.Unvisited(E(), t), 2
    {
      hide Marked, Mapping, PassInput, HcdGraphed, Scc.Inv, Scc.Working, Scc.Returned, Scc.Unvisited, Sets.Linked, Sets.RankBounded, Arcs, Scc.Enter;
      ghost var t0 := t;
      EnterState(y, ix, e0, offNodes, classes.root, hcdVar, t, n);
      var ourDfs := currDfs;
      currDfs := currDfs + 1;
      offNodes := offNodes[n := offNodes[n].(dfsId := ourDfs)];
      t := Scc.Enter(t, n);
      ActiveNode(y, ix, e0, offNodes, t0, t, n, {});
      // Look for components.
      var edges := offNodes[n].edges;
      var todo := edges;
      ghost var done: set<nat> := {};
      while todo != {}
        invariant Valid() && todo + done == edges && Scc.Working(E(), t0, t, n, done)
        decreases todo
      {
        var dest :| dest in todo;
        HcdEdge(n, dest, t0, done);
        todo, done := todo - {dest}, done + {dest};
      }
      assert done == edges;
      HcdLeave(n, ourDfs, t0);
    }

    method HcdEdge(n: nat, dest: nat, ghost t0: Scc.Dfs, ghost done: set<nat>)
      requires Valid() && Scc.Working(E(), t0, t, n, done) && dest in Succ(E(), n)
      modifies this, classes
      ensures Valid() && Scc.Working(E(), t0, t, n, done + {dest})
      decreases Scc.Unvisited(E(), t0), 1
    {
      hide Marked, Mapping, PassInput, HcdGraphed, Scc.Inv, Scc.Working, Scc.Returned, Scc.Unvisited, Sets.Linked, Sets.RankBounded, Arcs, Scc.Seen;
      HcdTarget(y, ix, e0, offNodes, t0, t, n, done, dest);
      ActiveNode(y, ix, e0, offNodes, t0, t, n, done);
      // Skip a neighbour in a finished component.
      if offNodes[dest].sccRoot {
        Scc.SeenWorking(E(), t0, t, n, done, dest);
        return;
      }
      if offNodes[dest].dfsId == 0 {
        ghost var t1 := t;
        Scc.UnvisitedShrinks(E(), t0, t, n, done);
        HcdDfs(dest);
        Scc.ReturnedWorking(E(), t0, t1, n, done, dest, t);
        HcdReturned(E(), t0, t1, t, n, done, dest);
      } else {
        Scc.SeenWorking(E(), t0, t, n, done, dest);
      }
      SeenState(y, ix, e0, offNodes, classes.root, hcdVar, t, n, dest);
      if offNodes[dest].dfsId < offNodes[n].dfsId {
        offNodes := offNodes[n := offNodes[n].(dfsId := offNodes[dest].dfsId)];
      }
      t := Scc.Seen(t, n, dest);
    }

    // n is finished: record its component if it is a root, else keep it on the stack.
    method HcdLeave(n: nat, ourDfs: nat, ghost t0: Scc.Dfs)
      requires Valid() && Scc.Working(E(), t0, t, n, Succ(E(), n)) && Scc.Inv(E(), t0) && ourDfs == t0.clock
      modifies this, classes
      ensures Valid() && Scc.Returned(E(), t0, t, n)
    {
      hide Marked, Mapping, PassInput, HcdGraphed, Scc.Inv, Scc.Working, Scc.Returned, Sets.Linked, Sets.RankBounded, Scc.Shelve, Arcs;
      ActiveNode(y, ix, e0, offNodes, t0, t, n, Succ(E(), n));
      LeaveNumbers(E(), t0, t, n);
      if offNodes[n].dfsId == ourDfs {
        HcdClose(n, ourDfs, t0);
      } else {
        Scc.ShelveReturned(E(), t0, t, n);
        ShelveState(y, ix, e0, offNodes, classes.root, hcdVar, t0, t, n);
        dfsStk := dfsStk + [n];
        t := Scc.Shelve(t, t0.path, n);
      }
    }

    // Pop the component of the root n, merge its variables, and map its dereferences to them.
    method HcdClose(n: nat, ourDfs: nat, ghost t0: Scc.Dfs)
      requires Valid() && Scc.AtRoot(E(), t0, t, n) && ourDfs == Scc.Num(t, n) && n < |e0|
      modifies this, classes
      ensures Valid() && Scc.Returned(E(), t0, t, n)
    {
      hide Marked, Mapping, PassInput, HcdGraphed, Scc.AtRoot, Scc.Returned, Sets.Linked, Sets.RankBounded, Scc.Close,
        IsComponent, Scc.Part, Scc.Popped, Scc.StackOf, Arcs, Scc.Ordered;
      CloseStart(e0, offNodes, t0, t, n);
      ghost var M, r := Scc.Part(t, t0, n), Scc.Close(t, t0.path, |t0.stk|, n);
      var scc, vars := PopComponent(n, ourDfs, t0);
      CloseNumbers(E(), t0, t, n);
      // Components of one node are ignored.
      if |scc| == 1 {
        SingleState(y, ix, e0, offNodes, classes.root, hcdVar, t, r, M, scc, n);
        offNodes := offNodes[n := offNodes[n].(sccRoot := true)];
      } else {
        Record(scc, vars, M, r);
      }
      t := r;
    }

    // The nodes of the component of root n, and the VAR nodes among them.
    method PopComponent(n: nat, ourDfs: nat, ghost t0: Scc.Dfs) returns (scc: seq<nat>, vars: seq<nat>)
      requires Marked(e0, offNodes, t) && dfsStk == t.stk && Scc.StackOf(t0, t, n) && Scc.Numbered(E(), t) && ourDfs == Scc.Num(t, n)
      requires |t0.stk| <= |t.stk| && Scc.Popped(t, n, |t0.stk|) == Scc.Part(t, t0, n)
      modifies this`dfsStk
      ensures dfsStk == t.stk[..|t0.stk|] && |scc| > 0 && scc[0] == n && Enumerates(scc, Scc.Part(t, t0, n)) && vars == VarsIn(ix, scc)
    {
      hide Marked, Scc.Numbered, Scc.StackOf, Scc.Popped, Scc.Part, VarsIn, Enumerates;
      scc := [n];
      vars := if n < ix.firstRef then [n] else [];
      VarsSingle(ix, n);
      PopNone(t, n);
      assert t.stk[..|t.stk|] == t.stk;
      TopNumber(e0, offNodes, t0, t, n, |dfsStk|);
      while |dfsStk| > 0 && offNodes[dfsStk[|dfsStk| - 1]].dfsId >= ourDfs
        invariant |t0.stk| <= |dfsStk| <= |t.stk| && dfsStk == t.stk[..|dfsStk|]
        invariant |scc| > 0 && scc[0] == n && Enumerates(scc, Scc.Popped(t, n, |dfsStk|)) && vars == VarsIn(ix, scc)
        invariant |dfsStk| > 0 ==> dfsStk[|dfsStk| - 1] < |offNodes| && (offNodes[dfsStk[|dfsStk| - 1]].dfsId >= ourDfs <==> |t0.stk| < |dfsStk|)
        decreases |dfsStk|
      {
        var n2 := dfsStk[|dfsStk| - 1];
        Scc.PopOne(t0, t, n, |dfsStk|);
        EnumerateOne(scc, Scc.Popped(t, n, |dfsStk|), n2);
        dfsStk := dfsStk[..|dfsStk| - 1];
        VarsMore(ix, scc, n2);
        scc := scc + [n2];
        if n2 < ix.firstRef {
          vars := vars + [n2];
        }
        TopNumber(e0, offNodes, t0, t, n, |dfsStk|);
      }
    }

    // Merge the variables of a component, mark its nodes, and map its dereferences.
    method Record(scc: seq<nat>, vars: seq<nat>, ghost M: set<nat>, ghost r: Scc.Dfs)
      requires classes.Valid() && |classes.rep| == |classes.root| && PassInput(y, ix) && HcdGraphed(ix, y.cs, e0)
      requires Marked(e0, offNodes, t) && Mapping(y, ix, E(), classes.root, hcdVar, t) && Scc.Ordered(E(), t)
      requires |scc| > 1 && Enumerates(scc, M) && vars == VarsIn(ix, scc) && IsComponent(E(), t, M) && Closes(t, r, M)
      modifies this`offNodes, this`hcdVar, classes
      ensures classes.Valid() && |classes.rep| == |classes.root| && |offNodes| == |e0|
      ensures Marked(e0, offNodes, r) && Mapping(y, ix, E(), classes.root, hcdVar, r)
    {
      hide Marked, Mapping, PassInput, HcdGraphed, Sets.Linked, Sets.RankBounded, IsComponent, Closes, Grouped, Arcs, VarsIn, Scc.Ordered, Recorded;
      VarsExist(y, ix, e0, t, M, scc);
      assert vars != [];  // there is a VAR node in the component
      var varRep := MergeVars(vars, M);
      ghost var root, hcd0, off0 := classes.root, hcdVar, offNodes;
      NoneRecorded(y, ix, e0, off0, root, hcd0, t, M, scc, vars, varRep);
      var i := 0;
      while i < |scc|
        invariant i <= |scc| && classes.root == root && classes.Valid() && |classes.rep| == |classes.root|
        invariant Recorded(y, ix, e0, off0, offNodes, hcdVar, t, M, scc, i, varRep) && hcd0.Keys <= hcdVar.Keys
      {
        RecordOne(y, ix, e0, off0, offNodes, root, hcd0, hcdVar, t, M, scc, i, vars, varRep);
        var m := scc[i];
        offNodes := offNodes[m := offNodes[m].(sccRoot := true)];
        if m >= ix.firstRef {
          // Map the main node of m to the representative of the variables.
          hcdVar := hcdVar[ix.mainOf[m - ix.firstRef + 1] := varRep];
        }
        i := i + 1;
      }
      RecordEnd(y, ix, e0, off0, offNodes, root, hcd0, hcdVar, t, r, M, scc, vars, varRep);
    }

    // Merge the main nodes of the variables; returns their representative.
    method MergeVars(vars: seq<nat>, ghost M: set<nat>) returns (varRep: nat)
      requires classes.Valid() && |classes.rep| == |classes.root| && PassInput(y, ix) && HcdGraphed(ix, y.cs, e0)
      requires Mapping(y, ix, E(), classes.root, hcdVar, t) && IsComponent(E(), t, M) && VarsOf(ix, M, vars) && |vars| > 0
      modifies this`hcdVar, classes
      ensures classes.Valid() && |classes.rep| == |classes.root|
      ensures Grouped(y, ix, E(), classes.root, hcdVar, t, vars, |vars|, varRep)
    {
      hide Mapping, PassInput, HcdGraphed, Sets.Linked, Sets.RankBounded, IsComponent, Grouped, Arcs;
      FirstVar(y, ix, e0, classes.root, hcdVar, t, M, vars);
      varRep := ix.mainOf[vars[0]];
      var i := 1;
      while i < |vars|
        invariant 1 <= i <= |vars| && classes.Valid() && |classes.rep| == |classes.root|
        invariant Grouped(y, ix, E(), classes.root, hcdVar, t, vars, i, varRep)
      {
        NextVar(y, ix, e0, classes.root, hcdVar, t, M, vars, i, varRep);
        varRep := MergeNodes(varRep, ix.mainOf[vars[i]]);
        i := i + 1;
      }
    }

    // Unify two representatives; the one that remains takes over the map entry of the other.
    method MergeNodes(n1: nat, n2: nat) returns (p: nat)
      requires classes.Valid() && |classes.rep| == |classes.root| && n1 < |classes.rep| && n2 < |classes.rep| && n1 != n2
      requires Rt(classes.root, n1) == n1 && Rt(classes.root, n2) == n2
      modifies this`hcdVar, classes
      ensures classes.Valid() && |classes.rep| == |classes.root| && (p == n1 || p == n2)
      ensures classes.root == Sets.Merged(old(classes.root), p, n1 + n2 - p) && hcdVar == TakeOver(old(hcdVar), p, n1 + n2 - p)
    {
      hide Sets.Linked, Sets.RankBounded, Sets.Merged;
      RootsCount(classes.rep, classes.root, classes.rank);
      p := classes.Union(n1, n2);
      RootsCount(classes.rep, classes.root, classes.rank);
      var c := n1 + n2 - p;
      if c in hcdVar {
        if p !in hcdVar {
          hcdVar := hcdVar[p := hcdVar[c]];
        }
        // c no longer points to anything.
        hcdVar := hcdVar - {c};
      }
    }

    // Search from every node that has not been visited yet.
    method Run()
      requires Valid() && t == Scc.Start
      modifies this, classes
      ensures Valid() && dfsStk == [] && forall x: nat :: 0 < x < |e0| ==> Scc.Closed(t, x)
    {
      hide Marked, Mapping, PassInput, HcdGraphed, Scc.Inv, Scc.Returned, Scc.Unvisited, Sets.Linked, Sets.RankBounded, Arcs;
      StartSearch(y, ix, e0);
      var i := 1;
      while i < |offNodes|
        invariant 1 <= i && Valid() && Scc.Inv(E(), t) && t.path == []
        invariant forall x: nat :: 0 < x < i && x < |e0| ==> Scc.Visited(t, x)
        decreases |e0| - i
      {
        VisitedNumber(e0, offNodes, t, i);
        if offNodes[i].dfsId == 0 {
          ghost var t0 := t;
          HcdDfs(i);
          ReturnedKeeps(E(), t0, t, i);
        }
        i := i + 1;
      }
      Scc.SearchComplete(E(), t);
    }
  }

  // ---------- The steps of the search ----------

  lemma RootsCount(rep: seq<nat>, root: seq<nat>, rank: seq<nat>)
    requires Sets.Linked(rep, root, rank)
    ensures |root| == |rep|
  {
  }

  lemma StartMapping(y: System, ix: Index, e0: seq<OffNode>)
    requires Sets.IsRootMap(y.rep) && PassInput(y, ix)
    ensures Mapping(y, ix, Arcs(e0), y.rep, map[], Scc.Start)
  {
    assert Coarser(y.rep, y.rep) by { hide PassInput; }
    assert MergedWithin(y, ix, Arcs(e0), y.rep) by { hide PassInput; }
    forall x: nat | IsVar(ix, x) ensures Rt(y.rep, Main(ix, x)) == Main(ix, x) {
      MainIsRep(y, ix, x);
    }
    hide PassInput, Coarser, MergedWithin;
  }

  lemma MainIsRep(y: System, ix: Index, x: nat)
    requires PassInput(y, ix) && IsVar(ix, x)
    ensures IsRep(y.rep, Main(ix, x)) && Off(ix, Main(ix, x)) == x && Ref(ix, x) == x - 1 + ix.firstRef && x < |ix.mainOf| == ix.firstRef
  {
  }

  lemma EnterState(y: System, ix: Index, e0: seq<OffNode>, off: seq<OffNode>, root: seq<nat>, hcdVar: map<nat, nat>, t: Scc.Dfs, n: nat)
    requires Marked(e0, off, t) && Mapping(y, ix, Arcs(e0), root, hcdVar, t) && Scc.Inv(Arcs(e0), t) && 0 < n < |e0| == |off| && !Scc.Visited(t, n)
    requires |t.path| > 0 ==> n in Succ(Arcs(e0), t.path[|t.path| - 1])
    ensures Marked(e0, off[n := off[n].(dfsId := t.clock)], Scc.Enter(t, n)) && Mapping(y, ix, Arcs(e0), root, hcdVar, Scc.Enter(t, n))
    ensures Scc.Working(Arcs(e0), t, Scc.Enter(t, n), n, {}) && Scc.Enter(t, n).clock == t.clock + 1 && Scc.Enter(t, n).stk == t.stk
  {
    hide Scc.Inv, Scc.Working, Mapping;
    Scc.EnterWorking(Arcs(e0), t, n);
    MappingSame(y, ix, Arcs(e0), root, hcdVar, t, Scc.Enter(t, n));
  }

  lemma ActiveNode(y: System, ix: Index, e0: seq<OffNode>, off: seq<OffNode>, t0: Scc.Dfs, t: Scc.Dfs, n: nat, done: set<nat>)
    requires Marked(e0, off, t) && Scc.Working(Arcs(e0), t0, t, n, done) && PassInput(y, ix) && HcdGraphed(ix, y.cs, e0)
    ensures 0 < n < |e0| == |off| && off[n].edges == Succ(Arcs(e0), n) && off[n].dfsId == Scc.Low(t, n) > 0
    ensures Scc.Visited(t, n) && !Scc.Visited(t0, 0)
  {
    hide Scc.LowReached, Scc.PathReaches, Scc.LowCovers, Scc.Ordered, Scc.Components, Scc.Handled, Scc.LeastLow, PassInput;
    assert Scc.Visited(t, n);
    assert e0[n].implEdges == {};
  }

  lemma HcdTarget(y: System, ix: Index, e0: seq<OffNode>, off: seq<OffNode>, t0: Scc.Dfs, t: Scc.Dfs, n: nat, done: set<nat>, z: nat)
    requires Marked(e0, off, t) && Scc.Working(Arcs(e0), t0, t, n, done) && z in Succ(Arcs(e0), n) && PassInput(y, ix) && HcdGraphed(ix, y.cs, e0)
    ensures 0 < z < |e0| == |off| && (off[z].sccRoot ==> Scc.Visited(t, z) && Scc.Seen(t, n, z) == t)
    ensures off[z].sccRoot <==> Scc.Closed(t, z)
    ensures off[z].dfsId == 0 <==> !Scc.Visited(t, z)
    ensures Scc.Inv(Arcs(e0), t) && |t.path| > 0 && t.path[|t.path| - 1] == n
  {
    ArcTarget(y, ix, e0, n, z);
    assert Scc.Closed(t, z) ==> z in t.num.Keys;
    hide Scc.LowReached, Scc.PathReaches, Scc.LowCovers, Scc.Ordered, Scc.Components, Scc.Handled, Scc.LeastLow, PassInput, HcdGraphed;
  }

  lemma ArcTarget(y: System, ix: Index, e0: seq<OffNode>, x: nat, z: nat)
    requires PassInput(y, ix) && HcdGraphed(ix, y.cs, e0) && z in Succ(Arcs(e0), x)
    ensures 0 < z < |e0|
  {
    assert z in e0[x].edges;
    var c :| c in y.cs && EdgeOf(ix, c, x, z);
    EdgeEnds(ix, c, x, z);
    InGraph(y, ix, c.src);
  }

  // A finished target has a higher number than the node whose edge led to it.
  lemma HcdReturned(E: Digraph, t0: Scc.Dfs, t: Scc.Dfs, t1: Scc.Dfs, n: nat, done: set<nat>, z: nat)
    requires Scc.Working(E, t0, t, n, done) && Scc.Returned(E, t, t1, z)
    ensures Scc.Closed(t1, z) ==> Scc.Low(t1, n) <= Scc.Low(t1, z)
  {
    hide Scc.LowReached, Scc.PathReaches, Scc.LowCovers, Scc.Ordered, Scc.Components, Scc.Handled, Scc.LeastLow, Scc.Listed;
    assert Scc.Visited(t, n) && !Scc.Visited(t, z);
  }

  lemma SeenState(y: System, ix: Index, e0: seq<OffNode>, off: seq<OffNode>, root: seq<nat>, hcdVar: map<nat, nat>, t: Scc.Dfs, n: nat, z: nat)
    requires Marked(e0, off, t) && Mapping(y, ix, Arcs(e0), root, hcdVar, t) && n < |e0| == |off| && z < |e0|
    requires Scc.Closed(t, z) ==> Scc.Low(t, n) <= Scc.Low(t, z)
    ensures var off' := if off[z].dfsId < off[n].dfsId then off[n := off[n].(dfsId := off[z].dfsId)] else off;
      Marked(e0, off', Scc.Seen(t, n, z)) && Mapping(y, ix, Arcs(e0), root, hcdVar, Scc.Seen(t, n, z))
    ensures Scc.Seen(t, n, z).clock == t.clock && Scc.Seen(t, n, z).stk == t.stk
  {
    hide Mapping;
    MappingSame(y, ix, Arcs(e0), root, hcdVar, t, Scc.Seen(t, n, z));
  }

  lemma ShelveState(y: System, ix: Index, e0: seq<OffNode>, off: seq<OffNode>, root: seq<nat>, hcdVar: map<nat, nat>, t0: Scc.Dfs, t: Scc.Dfs, n: nat)
    requires Marked(e0, off, t) && Mapping(y, ix, Arcs(e0), root, hcdVar, t)
    ensures var r := Scc.Shelve(t, t0.path, n);
      Marked(e0, off, r) && Mapping(y, ix, Arcs(e0), root, hcdVar, r) && r.stk == t.stk + [n] && r.clock == t.clock
  {
    hide Mapping;
    MappingSame(y, ix, Arcs(e0), root, hcdVar, t, Scc.Shelve(t, t0.path, n));
  }

  lemma LeaveNumbers(E: Digraph, t0: Scc.Dfs, t: Scc.Dfs, n: nat)
    requires Scc.Working(E, t0, t, n, Succ(E, n)) && Scc.Inv(E, t0)
    ensures Scc.Num(t, n) == t0.clock && Scc.Low(t, n) <= Scc.Num(t, n)
    ensures Scc.Low(t, n) == Scc.Num(t, n) ==> Scc.AtRoot(E, t0, t, n)
  {
    hide Scc.LowReached, Scc.PathReaches, Scc.LowCovers, Scc.Ordered, Scc.Components, Scc.Handled, Scc.LeastLow, Scc.Extends;
  }

  // ---------- Popping a component ----------

  // scc lists the elements of M once each.
  ghost predicate Enumerates(scc: seq<nat>, M: set<nat>) {
    && (forall x: nat :: x in scc <==> x in M)
    && (forall i, j :: 0 <= i < j < |scc| ==> scc[i] != scc[j])
  }

  function VarsIn(ix: Index, scc: seq<nat>): seq<nat> {
    if |scc| == 0 then [] else
      var k := |scc| - 1;
      if scc[k] < ix.firstRef then VarsIn(ix, scc[..k]) + [scc[k]] else VarsIn(ix, scc[..k])
  }

  // vars lists the VAR nodes of M once each.
  ghost predicate VarsOf(ix: Index, M: set<nat>, vars: seq<nat>) {
    && (forall x: nat :: x in vars <==> x in M && x < ix.firstRef)
    && (forall i, j :: 0 <= i < j < |vars| ==> vars[i] != vars[j])
  }

  lemma VarsMore(ix: Index, scc: seq<nat>, n: nat)
    ensures VarsIn(ix, scc + [n]) == VarsIn(ix, scc) + if n < ix.firstRef then [n] else []
  {
    assert (scc + [n])[..|scc|] == scc;
  }

  lemma VarsSingle(ix: Index, n: nat)
    ensures VarsIn(ix, [n]) == if n < ix.firstRef then [n] else []
  {
    assert [n][..0] == [];
  }

  lemma {:induction false} VarsInAre(ix: Index, scc: seq<nat>)
    requires forall i, j :: 0 <= i < j < |scc| ==> scc[i] != scc[j]
    ensures VarsOf(ix, (set x | x in scc), VarsIn(ix, scc))
  {
    if |scc| > 0 {
      var k := |scc| - 1;
      VarsInAre(ix, scc[..k]);
      assert scc == scc[..k] + [scc[k]] && scc[k] !in scc[..k];
      var rest, vars := VarsIn(ix, scc[..k]), VarsIn(ix, scc);
      assert scc[k] !in rest;
      forall x: nat ensures x in vars <==> x in scc && x < ix.firstRef {
        assert x in rest <==> x in scc[..k] && x < ix.firstRef by { assert x in (set a | a in scc[..k]) <==> x in scc[..k]; }
        assert x in vars <==> x in rest || (x == scc[k] && x < ix.firstRef);
      }
    }
  }

  lemma PopNone(t: Scc.Dfs, n: nat)
    ensures Enumerates([n], Scc.Popped(t, n, |t.stk|))
  {
  }

  lemma EnumerateOne(scc: seq<nat>, M: set<nat>, x: nat)
    requires Enumerates(scc, M) && x !in M
    ensures Enumerates(scc + [x], M + {x})
  {
  }

  lemma TopNumber(e0: seq<OffNode>, off: seq<OffNode>, t0: Scc.Dfs, t: Scc.Dfs, n: nat, i: nat)
    requires Marked(e0, off, t) && Scc.StackOf(t0, t, n) && |t0.stk| <= i <= |t.stk| && Scc.Numbered(Arcs(e0), t)
    ensures i > 0 ==> t.stk[i - 1] < |e0| == |off| && (off[t.stk[i - 1]].dfsId >= Scc.Num(t, n) <==> |t0.stk| < i)
  {
    if i > 0 {
      var x := t.stk[i - 1];
      assert x in t.low.Keys;
      assert Scc.Visited(t, x);
    }
  }

  lemma CloseStart(e0: seq<OffNode>, off: seq<OffNode>, t0: Scc.Dfs, t: Scc.Dfs, n: nat)
    requires Marked(e0, off, t) && Scc.AtRoot(Arcs(e0), t0, t, n)
    ensures IsComponent(Arcs(e0), t, Scc.Part(t, t0, n)) && Scc.StackOf(t0, t, n) && |t0.stk| <= |t.stk|
    ensures Scc.Popped(t, n, |t0.stk|) == Scc.Part(t, t0, n) && Scc.Numbered(Arcs(e0), t) && Scc.Ordered(Arcs(e0), t)
  {
    RootParts(Arcs(e0), t0, t, n);
    hide Scc.AtRoot, Scc.Numbered, Scc.Ordered, IsComponent;
    RootComponent(Arcs(e0), t0, t, n);
    Scc.RootStack(Arcs(e0), t0, t, n);
  }

  lemma RootParts(E: Digraph, t0: Scc.Dfs, t: Scc.Dfs, n: nat)
    requires Scc.AtRoot(E, t0, t, n)
    ensures Scc.Numbered(E, t) && Scc.Ordered(E, t)
  {
    hide Scc.LowReached, Scc.PathReaches, Scc.LowCovers, Scc.Components, Scc.Handled, Scc.LeastLow, Scc.Extends, Scc.Listed, Scc.Ordered;
  }

  // The search goes from t to r by closing M.
  ghost predicate Closes(t: Scc.Dfs, r: Scc.Dfs, M: set<nat>) {
    && (forall x: nat :: Scc.Closed(r, x) <==> Scc.Closed(t, x) || x in M)
    && (forall x: nat :: Scc.Low(r, x) == Scc.Low(t, x)) && (Scc.Visited(r, 0) <==> Scc.Visited(t, 0))
  }

  lemma CloseNumbers(E: Digraph, t0: Scc.Dfs, t: Scc.Dfs, n: nat)
    requires Scc.AtRoot(E, t0, t, n) && |t0.stk| <= |t.stk|
    ensures var r := Scc.Close(t, t0.path, |t0.stk|, n);
      && Closes(t, r, Scc.Part(t, t0, n)) && Scc.Returned(E, t0, r, n) && r.stk == t.stk[..|t0.stk|] && r.clock == t.clock
  {
    hide Scc.AtRoot, Scc.Returned, Scc.Members, Scc.Close;
    Scc.CloseReturned(E, t0, t, n);
  }

  // Whatever shares a component with a node of M is in M.
  lemma MutualInside(E: Digraph, t: Scc.Dfs, M: set<nat>, x: nat, z: nat)
    requires IsComponent(E, t, M) && Scc.Ordered(E, t) && x in M && Mutual(E, x, z)
    ensures z in M
  {
    var S := M + t.comp.Keys;
    forall a, b | a in S && b in Succ(E, a) ensures b in S {
      assert a in M || Scc.Closed(t, a);
      assert b in M || Scc.Closed(t, b);
    }
    ReachClosed(E, S, x, z);
    if z !in M {
      assert Scc.Closed(t, z);
      Scc.ClosedApart(E, t, z, x);
    }
  }

  // A component of one node changes nothing.
  lemma SingleState(y: System, ix: Index, e0: seq<OffNode>, off: seq<OffNode>, root: seq<nat>, hcdVar: map<nat, nat>,
                    t: Scc.Dfs, r: Scc.Dfs, M: set<nat>, scc: seq<nat>, n: nat)
    requires Marked(e0, off, t) && Mapping(y, ix, Arcs(e0), root, hcdVar, t) && IsComponent(Arcs(e0), t, M) && Scc.Ordered(Arcs(e0), t)
    requires Closes(t, r, M) && Enumerates(scc, M) && |scc| == 1 && scc[0] == n
    ensures n < |off| && Marked(e0, off[n := off[n].(sccRoot := true)], r) && Mapping(y, ix, Arcs(e0), root, hcdVar, r)
  {
    var E := Arcs(e0);
    assert n in M && forall x: nat :: x in M ==> x == n;
    assert n < |E| && !Scc.Closed(t, n);
    assert Marked(e0, off[n := off[n].(sccRoot := true)], r) by { hide Mapping, IsComponent, Scc.Ordered; }
    forall x: nat, z: nat | x in M && Mutual(E, x, z) ensures z == x {
      MutualInside(E, t, M, x, z);
    }
    forall x: nat, z: nat | z in M && Mutual(E, x, z) ensures z == x {
      MutualInside(E, t, M, z, x);
    }
    hide Coarser, MergedWithin, EntriesFrom, Mutual, IsMapped, Arcs, IsComponent, Scc.Ordered, Marked;
  }

  lemma VarsExist(y: System, ix: Index, e0: seq<OffNode>, t: Scc.Dfs, M: set<nat>, scc: seq<nat>)
    requires PassInput(y, ix) && HcdGraphed(ix, y.cs, e0) && IsComponent(Arcs(e0), t, M) && Scc.Ordered(Arcs(e0), t)
    requires Enumerates(scc, M) && |scc| > 1
    ensures VarsOf(ix, M, VarsIn(ix, scc)) && VarsIn(ix, scc) != []
  {
    VarsInAre(ix, scc);
    assert (set x | x in scc) == M;
    var x, z := scc[0], scc[1];
    assert x in M && z in M && x != z;
    assert Mutual(Arcs(e0), x, z) && x > 0;
    hide IsComponent, PassInput, HcdGraphed, Arcs, Scc.Ordered;
    ComponentHasVar(y, ix, e0, x, z);
    var v: nat :| IsVar(ix, v) && Mutual(Arcs(e0), x, v);
    MutualInside(Arcs(e0), t, M, x, v);
    assert v in VarsIn(ix, scc);
  }

  // ---------- Merging the variables ----------

  // The first i of the variables have been merged into varRep.
  ghost predicate Grouped(y: System, ix: Index, E: Digraph, root: seq<nat>, hcdVar: map<nat, nat>, t: Scc.Dfs,
                          vars: seq<nat>, i: nat, varRep: nat) {
    && Coarser(y.rep, root) && MergedWithin(y, ix, E, root) && EntriesFrom(ix, E, hcdVar)
    && VarsMerged(ix, E, root, t) && RefsMapped(ix, E, root, hcdVar, t)
    && i <= |vars| && Loose(ix, root, t, vars[..i]) && Gathered(ix, root, vars[..i], varRep)
  }

  ghost predicate Loose(ix: Index, root: seq<nat>, t: Scc.Dfs, done: seq<nat>) {
    forall x: nat :: IsVar(ix, x) && !Scc.Closed(t, x) && x !in done ==> Rt(root, Main(ix, x)) == Main(ix, x)
  }

  ghost predicate Gathered(ix: Index, root: seq<nat>, done: seq<nat>, varRep: nat) {
    && Rt(root, varRep) == varRep && (exists v: nat :: v in done && varRep == Main(ix, v))
    && (forall v: nat :: v in done ==> Rt(root, Main(ix, v)) == varRep)
  }

  // A VAR node of the component, and its main node.
  lemma MemberVar(y: System, ix: Index, E: Digraph, t: Scc.Dfs, M: set<nat>, vars: seq<nat>, v: nat)
    requires PassInput(y, ix) && IsComponent(E, t, M) && VarsOf(ix, M, vars) && v in vars
    ensures IsVar(ix, v) && !Scc.Closed(t, v) && v in M && Main(ix, v) < |y.rep| && v < |ix.mainOf| && Main(ix, v) == ix.mainOf[v]
  {
    assert v in M && v > 0;
    MainIsRep(y, ix, v);
  }

  lemma FirstVar(y: System, ix: Index, e0: seq<OffNode>, root: seq<nat>, hcdVar: map<nat, nat>, t: Scc.Dfs, M: set<nat>, vars: seq<nat>)
    requires PassInput(y, ix) && Mapping(y, ix, Arcs(e0), root, hcdVar, t) && IsComponent(Arcs(e0), t, M) && VarsOf(ix, M, vars) && |vars| > 0
    ensures vars[0] < |ix.mainOf| && Grouped(y, ix, Arcs(e0), root, hcdVar, t, vars, 1, ix.mainOf[vars[0]])
  {
    MemberVar(y, ix, Arcs(e0), t, M, vars, vars[0]);
    assert vars[..1] == [vars[0]];
    hide PassInput, IsComponent, Coarser, MergedWithin, EntriesFrom, VarsMerged, RefsMapped;
  }

  lemma NextVar(y: System, ix: Index, e0: seq<OffNode>, root: seq<nat>, hcdVar: map<nat, nat>, t: Scc.Dfs, M: set<nat>,
                vars: seq<nat>, i: nat, varRep: nat)
    requires PassInput(y, ix) && HcdGraphed(ix, y.cs, e0) && Grouped(y, ix, Arcs(e0), root, hcdVar, t, vars, i, varRep)
    requires IsComponent(Arcs(e0), t, M) && VarsOf(ix, M, vars) && 0 < i < |vars|
    ensures vars[i] < |ix.mainOf|
    ensures var m := ix.mainOf[vars[i]];
      && m != varRep && m < |root| && varRep < |root| && Rt(root, m) == m && Rt(root, varRep) == varRep
      && Grouped(y, ix, Arcs(e0), Sets.Merged(root, varRep, m), TakeOver(hcdVar, varRep, m), t, vars, i + 1, varRep)
      && Grouped(y, ix, Arcs(e0), Sets.Merged(root, m, varRep), TakeOver(hcdVar, m, varRep), t, vars, i + 1, m)
  {
    var E := Arcs(e0);
    hide PassInput, HcdGraphed, Arcs, IsComponent, Coarser, MergedWithin, EntriesFrom, VarsMerged, RefsMapped, Within;
    var v: nat :| v in vars[..i] && varRep == Main(ix, v);
    assert v in vars && vars[i] in vars && vars[i] != v;
    assert vars[i] !in vars[..i];
    MemberVar(y, ix, E, t, M, vars, v);
    MemberVar(y, ix, E, t, M, vars, vars[i]);
    CoarserLength(y.rep, root);
    forall a: nat, b: nat | IsVar(ix, a) && IsVar(ix, b) && a != b ensures Main(ix, a) != Main(ix, b) {
      MainsApart(y, ix, a, b);
    }
    forall u: nat | u in vars[..i] ensures IsVar(ix, u) {
      MemberVar(y, ix, E, t, M, vars, u);
    }
    VarsEqual(y, ix, e0, t, M, v, vars[i]);
    var m := Main(ix, vars[i]);
    hide Loose, Gathered;
    GroupOne(y, ix, E, root, hcdVar, t, vars, i, varRep, varRep, m);
    GroupOne(y, ix, E, root, hcdVar, t, vars, i, varRep, m, varRep);
  }

  lemma CoarserLength(rep: seq<nat>, root: seq<nat>)
    requires Coarser(rep, root)
    ensures |root| == |rep|
  {
  }

  lemma MainsApart(y: System, ix: Index, v: nat, u: nat)
    requires PassInput(y, ix) && IsVar(ix, v) && IsVar(ix, u) && u != v
    ensures Main(ix, u) != Main(ix, v)
  {
    MainIsRep(y, ix, u);
    MainIsRep(y, ix, v);
  }

  lemma VarsEqual(y: System, ix: Index, e0: seq<OffNode>, t: Scc.Dfs, M: set<nat>, v: nat, u: nat)
    requires PassInput(y, ix) && IsComponent(Arcs(e0), t, M) && v in M && u in M && IsVar(ix, v) && IsVar(ix, u)
    ensures Within(ix, Arcs(e0), Main(ix, v), Main(ix, u)) && Within(ix, Arcs(e0), Main(ix, u), Main(ix, v))
  {
    assert Mutual(Arcs(e0), v, u);
    MainIsRep(y, ix, v);
    MainIsRep(y, ix, u);
    hide PassInput, Arcs, IsComponent, Reach;
  }

  lemma GroupOne(y: System, ix: Index, E: Digraph, root: seq<nat>, hcdVar: map<nat, nat>, t: Scc.Dfs,
                 vars: seq<nat>, i: nat, varRep: nat, p: nat, c: nat)
    requires Grouped(y, ix, E, root, hcdVar, t, vars, i, varRep) && i < |vars|
    requires var m := Main(ix, vars[i]); (p == varRep && c == m) || (p == m && c == varRep)
    requires p != c && p < |root| && c < |root| && Rt(root, p) == p && Rt(root, c) == c && Within(ix, E, p, c)
    requires forall a: nat, b: nat :: IsVar(ix, a) && IsVar(ix, b) && a != b ==> Main(ix, a) != Main(ix, b)
    requires IsVar(ix, vars[i]) && forall v: nat :: v in vars[..i] ==> IsVar(ix, v)
    ensures Grouped(y, ix, E, Sets.Merged(root, p, c), TakeOver(hcdVar, p, c), t, vars, i + 1, p)
  {
    var r := Sets.Merged(root, p, c);
    MergeHolds(y, ix, E, root, hcdVar, p, c);
    assert vars[..i + 1] == vars[..i] + [vars[i]];
    hide Coarser, MergedWithin, EntriesFrom, Mutual, Sets.Merged, Within, RefsMapped;
    assert Gathered(ix, r, vars[..i + 1], p) by { hide VarsMerged, Loose, TakeOver; }
    assert Loose(ix, r, t, vars[..i + 1]) by { hide VarsMerged, TakeOver; }
    assert VarsMerged(ix, E, r, t) by { hide Loose, Gathered, TakeOver; }
    hide VarsMerged, Loose, Gathered, TakeOver;
    StillAllMapped(ix, E, root, r, hcdVar, t, p, c);
  }

  lemma StillAllMapped(ix: Index, E: Digraph, root: seq<nat>, r: seq<nat>, hcdVar: map<nat, nat>, t: Scc.Dfs, p: nat, c: nat)
    requires RefsMapped(ix, E, root, hcdVar, t) && p < |root| && c < |root| && p != c && Rt(root, p) == p && Rt(root, c) == c
    requires forall m: nat :: Rt(r, m) == if m < |root| && Rt(root, m) == c then p else Rt(root, m)
    ensures RefsMapped(ix, E, r, TakeOver(hcdVar, p, c), t)
  {
    hide Mutual, IsMapped, TakeOver, Rt;
    forall x: nat, z: nat | IsVar(ix, x) && Scc.Closed(t, Ref(ix, x)) && z != Ref(ix, x) && Mutual(E, Ref(ix, x), z)
      ensures IsMapped(r, TakeOver(hcdVar, p, c), Main(ix, x)) {
      StillMapped(root, r, hcdVar, p, c, Main(ix, x));
    }
  }

  lemma StillMapped(root: seq<nat>, r: seq<nat>, hcdVar: map<nat, nat>, p: nat, c: nat, n: nat)
    requires IsMapped(root, hcdVar, n) && p < |root| && c < |root| && p != c && Rt(root, p) == p && Rt(root, c) == c
    requires forall m: nat :: Rt(r, m) == if m < |root| && Rt(root, m) == c then p else Rt(root, m)
    ensures IsMapped(r, TakeOver(hcdVar, p, c), n)
  {
    var h := TakeOver(hcdVar, p, c);
    var m: nat :| m in hcdVar && Rt(root, m) == Rt(root, n);
    hide Rt;
    assert Rt(r, m) == Rt(r, n) by { RtSame(root, r, p, c, m, n); }
    if m == c {
      assert p in h && Rt(r, p) == Rt(r, c);
    } else {
      assert m in h;
    }
  }

  lemma RtSame(root: seq<nat>, r: seq<nat>, p: nat, c: nat, m: nat, n: nat)
    requires Rt(root, m) == Rt(root, n) && c < |root| && Rt(root, c) == c
    requires forall x: nat :: Rt(r, x) == if x < |root| && Rt(root, x) == c then p else Rt(root, x)
    ensures Rt(r, m) == Rt(r, n)
  {
  }

  // ---------- Recording the dereferences ----------

  // The first i nodes of the component have been marked and recorded.
  ghost predicate Recorded(y: System, ix: Index, e0: seq<OffNode>, off0: seq<OffNode>, off: seq<OffNode>, hcdVar: map<nat, nat>,
                           t: Scc.Dfs, M: set<nat>, scc: seq<nat>, i: nat, varRep: nat) {
    && i <= |scc| && |off| == |off0| == |e0| && (forall x: nat :: x in M ==> x < |e0|)
    && (forall x: nat :: x < |off| ==> off[x] == if x in scc[..i] then off0[x].(sccRoot := true) else off0[x])
    && EntriesFrom(ix, Arcs(e0), hcdVar) && (forall x: nat :: x in scc[..i] && x >= ix.firstRef ==> Main(ix, x - ix.firstRef + 1) in hcdVar)
  }

  lemma NoneRecorded(y: System, ix: Index, e0: seq<OffNode>, off0: seq<OffNode>, root: seq<nat>, hcdVar: map<nat, nat>,
                     t: Scc.Dfs, M: set<nat>, scc: seq<nat>, vars: seq<nat>, varRep: nat)
    requires Marked(e0, off0, t) && Grouped(y, ix, Arcs(e0), root, hcdVar, t, vars, |vars|, varRep) && IsComponent(Arcs(e0), t, M)
    ensures Recorded(y, ix, e0, off0, off0, hcdVar, t, M, scc, 0, varRep)
  {
    assert |Arcs(e0)| == |e0|;
    hide MergedWithin, EntriesFrom, Coarser, Arcs, VarsMerged, RefsMapped;
  }

  lemma RecordOne(y: System, ix: Index, e0: seq<OffNode>, off0: seq<OffNode>, off: seq<OffNode>, root: seq<nat>, hcd0: map<nat, nat>, hcdVar: map<nat, nat>,
                  t: Scc.Dfs, M: set<nat>, scc: seq<nat>, i: nat, vars: seq<nat>, varRep: nat)
    requires PassInput(y, ix) && HcdGraphed(ix, y.cs, e0) && IsComponent(Arcs(e0), t, M) && Enumerates(scc, M) && VarsOf(ix, M, vars)
    requires Grouped(y, ix, Arcs(e0), root, hcd0, t, vars, |vars|, varRep) && Recorded(y, ix, e0, off0, off, hcdVar, t, M, scc, i, varRep)
    requires i < |scc|
    ensures scc[i] < |off| && (scc[i] >= ix.firstRef ==> scc[i] - ix.firstRef + 1 < |ix.mainOf|)
    ensures var off' := off[scc[i] := off[scc[i]].(sccRoot := true)];
      var h := if scc[i] >= ix.firstRef then hcdVar[ix.mainOf[scc[i] - ix.firstRef + 1] := varRep] else hcdVar;
      Recorded(y, ix, e0, off0, off', h, t, M, scc, i + 1, varRep)
  {
    hide MergedWithin, EntriesFrom, Coarser, Arcs, VarsMerged, RefsMapped, PassInput, HcdGraphed, Grouped, IsComponent, Recorded, VarsOf;
    var m := scc[i];
    assert m in scc && m in M;
    RecordedFacts(y, ix, e0, off0, off, hcdVar, t, M, scc, i, varRep);
    if m >= ix.firstRef {
      RefMain(y, ix, e0, m);
      MapRef(y, ix, e0, root, hcd0, hcdVar, t, M, vars, varRep, m);
    }
    RecordStep(y, ix, e0, off0, off, hcdVar, t, M, scc, i, varRep);
  }

  lemma RecordedFacts(y: System, ix: Index, e0: seq<OffNode>, off0: seq<OffNode>, off: seq<OffNode>, hcdVar: map<nat, nat>,
                      t: Scc.Dfs, M: set<nat>, scc: seq<nat>, i: nat, varRep: nat)
    requires Recorded(y, ix, e0, off0, off, hcdVar, t, M, scc, i, varRep)
    ensures EntriesFrom(ix, Arcs(e0), hcdVar) && |off| == |e0| && forall x: nat :: x in M ==> x < |e0|
  {
  }

  lemma RecordStep(y: System, ix: Index, e0: seq<OffNode>, off0: seq<OffNode>, off: seq<OffNode>, hcdVar: map<nat, nat>,
                   t: Scc.Dfs, M: set<nat>, scc: seq<nat>, i: nat, varRep: nat)
    requires Recorded(y, ix, e0, off0, off, hcdVar, t, M, scc, i, varRep) && i < |scc| && scc[i] < |off|
    requires scc[i] >= ix.firstRef ==> scc[i] - ix.firstRef + 1 < |ix.mainOf|
    requires scc[i] >= ix.firstRef ==> EntriesFrom(ix, Arcs(e0), hcdVar[ix.mainOf[scc[i] - ix.firstRef + 1] := varRep])
    ensures var off' := off[scc[i] := off[scc[i]].(sccRoot := true)];
      var h := if scc[i] >= ix.firstRef then hcdVar[ix.mainOf[scc[i] - ix.firstRef + 1] := varRep] else hcdVar;
      Recorded(y, ix, e0, off0, off', h, t, M, scc, i + 1, varRep)
  {
    hide EntriesFrom;
    assert scc[..i + 1] == scc[..i] + [scc[i]];
  }

  // A REF node is that of some main node.
  lemma RefMain(y: System, ix: Index, e0: seq<OffNode>, m: nat)
    requires PassInput(y, ix) && HcdGraphed(ix, y.cs, e0) && ix.firstRef <= m < |e0|
    ensures var x := m - ix.firstRef + 1;
      IsVar(ix, x) && m == Ref(ix, x) && Off(ix, Main(ix, x)) == x && x < |ix.mainOf| && Main(ix, x) == ix.mainOf[x]
  {
    MainIsRep(y, ix, m - ix.firstRef + 1);
  }

  lemma MapRef(y: System, ix: Index, e0: seq<OffNode>, root: seq<nat>, hcd0: map<nat, nat>, hcdVar: map<nat, nat>,
               t: Scc.Dfs, M: set<nat>, vars: seq<nat>, varRep: nat, m: nat)
    requires PassInput(y, ix) && HcdGraphed(ix, y.cs, e0) && IsComponent(Arcs(e0), t, M) && VarsOf(ix, M, vars)
    requires Grouped(y, ix, Arcs(e0), root, hcd0, t, vars, |vars|, varRep) && EntriesFrom(ix, Arcs(e0), hcdVar)
    requires m in M && ix.firstRef <= m < |e0|
    ensures EntriesFrom(ix, Arcs(e0), hcdVar[Main(ix, m - ix.firstRef + 1) := varRep])
  {
    var x := m - ix.firstRef + 1;
    var n := Main(ix, x);
    assert vars[..|vars|] == vars;
    var v: nat :| v in vars && varRep == Main(ix, v);
    assert v in M && Mutual(Arcs(e0), m, v);
    RefMain(y, ix, e0, m);
    MemberVar(y, ix, Arcs(e0), t, M, vars, v);
    MainIsRep(y, ix, v);
    assert m != v;
    hide PassInput, HcdGraphed, Arcs, Mutual, IsComponent, Grouped;
    assert EntryFrom(ix, Arcs(e0), n, n, varRep);
    var h := hcdVar[n := varRep];
    forall k: nat | k in h ensures exists u: nat :: EntryFrom(ix, Arcs(e0), k, u, h[k]) {
      if k != n {
        var u: nat :| EntryFrom(ix, Arcs(e0), k, u, hcdVar[k]);
        assert EntryFrom(ix, Arcs(e0), k, u, h[k]);
      }
    }
  }

  lemma RecordEnd(y: System, ix: Index, e0: seq<OffNode>, off0: seq<OffNode>, off: seq<OffNode>, root: seq<nat>, hcd0: map<nat, nat>, hcdVar: map<nat, nat>,
                  t: Scc.Dfs, r: Scc.Dfs, M: set<nat>, scc: seq<nat>, vars: seq<nat>, varRep: nat)
    requires Grouped(y, ix, Arcs(e0), root, hcd0, t, vars, |vars|, varRep) && Recorded(y, ix, e0, off0, off, hcdVar, t, M, scc, |scc|, varRep)
    requires Marked(e0, off0, t) && Closes(t, r, M) && Enumerates(scc, M) && VarsOf(ix, M, vars) && hcd0.Keys <= hcdVar.Keys
    requires IsComponent(Arcs(e0), t, M) && Scc.Ordered(Arcs(e0), t) && PassInput(y, ix)
    ensures Marked(e0, off, r) && Mapping(y, ix, Arcs(e0), root, hcdVar, r) && |off| == |e0|
  {
    var E := Arcs(e0);
    assert scc[..|scc|] == scc && vars[..|vars|] == vars;
    assert Marked(e0, off, r) by { hide PassInput, IsComponent, Scc.Ordered, MergedWithin, EntriesFrom, Coarser, VarsMerged, RefsMapped; }
    hide Marked, Coarser, MergedWithin, EntriesFrom, Arcs;
    assert MergedWithin(y, ix, E, root) && EntriesFrom(ix, E, hcdVar);
    RecordedVars(ix, E, root, t, r, M, vars, varRep);
    RecordedRefs(ix, E, root, hcd0, hcdVar, t, r, M, scc);
    hide IsComponent, Scc.Ordered, VarsMerged, RefsMapped, PassInput, Mutual;
  }

  lemma RecordedVars(ix: Index, E: Digraph, root: seq<nat>, t: Scc.Dfs, r: Scc.Dfs, M: set<nat>, vars: seq<nat>, varRep: nat)
    requires VarsMerged(ix, E, root, t) && Gathered(ix, root, vars, varRep) && VarsOf(ix, M, vars)
    requires Closes(t, r, M) && IsComponent(E, t, M) && Scc.Ordered(E, t)
    ensures VarsMerged(ix, E, root, r)
  {
    hide IsComponent, Scc.Ordered, Mutual;
    forall x: nat, z: nat | IsVar(ix, x) && IsVar(ix, z) && Scc.Closed(r, x) && Scc.Closed(r, z) && Mutual(E, x, z)
      ensures Rt(root, Main(ix, x)) == Rt(root, Main(ix, z)) {
      if x in M {
        MutualInside(E, t, M, x, z);
      } else if z in M {
        MutualBack(E, x, z);
        MutualInside(E, t, M, z, x);
      }
    }
  }

  lemma MutualBack(E: Digraph, x: nat, z: nat)
    requires Mutual(E, x, z)
    ensures Mutual(E, z, x)
  {
  }

  lemma RecordedRefs(ix: Index, E: Digraph, root: seq<nat>, hcd0: map<nat, nat>, hcdVar: map<nat, nat>,
                     t: Scc.Dfs, r: Scc.Dfs, M: set<nat>, scc: seq<nat>)
    requires RefsMapped(ix, E, root, hcd0, t) && Closes(t, r, M) && Enumerates(scc, M) && hcd0.Keys <= hcdVar.Keys
    requires forall x: nat :: x in scc && x >= ix.firstRef ==> Main(ix, x - ix.firstRef + 1) in hcdVar
    ensures RefsMapped(ix, E, root, hcdVar, r)
  {
    hide Mutual;
    forall x: nat, z: nat | IsVar(ix, x) && Scc.Closed(r, Ref(ix, x)) && z != Ref(ix, x) && Mutual(E, Ref(ix, x), z)
      ensures IsMapped(root, hcdVar, Main(ix, x)) {
      if Ref(ix, x) in M {
        assert Main(ix, x) in hcdVar;
      } else {
        assert IsMapped(root, hcd0, Main(ix, x));
      }
    }
  }

  // ---------- The whole search ----------

  lemma StartSearch(y: System, ix: Index, e0: seq<OffNode>)
    requires PassInput(y, ix) && HcdGraphed(ix, y.cs, e0)
    ensures Scc.Inv(Arcs(e0), Scc.Start)
  {
    forall x: nat, z: nat | z in Succ(Arcs(e0), x) ensures z < |Arcs(e0)| {
      ArcTarget(y, ix, e0, x, z);
    }
    Scc.StartInv(Arcs(e0)) by { hide PassInput, HcdGraphed; AllSuccs(Arcs(e0)); }
  }

  lemma AllSuccs(E: Digraph)
    requires forall x: nat, z: nat :: z in Succ(E, x) ==> z < |E|
    ensures WellFormed(E)
  {
  }

  lemma VisitedNumber(e0: seq<OffNode>, off: seq<OffNode>, t: Scc.Dfs, x: nat)
    requires Marked(e0, off, t) && Scc.Inv(Arcs(e0), t) && x < |e0|
    ensures x < |off| && (off[x].dfsId == 0 <==> !Scc.Visited(t, x))
  {
    hide Scc.LowReached, Scc.PathReaches, Scc.LowCovers, Scc.Ordered, Scc.Components, Scc.Listed;
  }

  lemma ReturnedKeeps(E: Digraph, t0: Scc.Dfs, t: Scc.Dfs, n: nat)
    requires Scc.Returned(E, t0, t, n)
    ensures Scc.Inv(E, t) && t.path == t0.path && Scc.Visited(t, n)
    ensures forall x: nat :: Scc.Visited(t0, x) ==> Scc.Visited(t, x)
  {
    hide Scc.Inv;
  }

  // What a finished search guarantees: nodes are merged if and only if they were before or are
  // variables of one component, and a node whose dereference is in a component with others is
  // mapped to a variable of the component, or has taken over such an entry.
  ghost predicate CyclesFound(y: System, ix: Index, E: Digraph, root: seq<nat>, hcdVar: map<nat, nat>) {
    && Coarser(y.rep, root) && MergedWithin(y, ix, E, root) && EntriesFrom(ix, E, hcdVar)
    && (forall x: nat, z: nat :: IsVar(ix, x) && IsVar(ix, z) && Mutual(E, x, z) ==> Rt(root, Main(ix, x)) == Rt(root, Main(ix, z)))
    && (forall x: nat, z: nat :: IsVar(ix, x) && z != Ref(ix, x) && Mutual(E, Ref(ix, x), z) ==> IsMapped(root, hcdVar, Main(ix, x)))
  }

  // ---------- What merges and entries mean ----------

  // Every pointer that is dereferenced in the component of a has a member besides I2P, unless b
  // is the same node.
  ghost predicate ReachBetween(ix: Index, E: Digraph, s: Sol, a: nat, b: nat) {
    a == b || DerefsReach(ix, E, s, Off(ix, a))
  }

  // Merged nodes have equal sets in every solution in which the pointers that are dereferenced
  // in their component have a member besides I2P.
  lemma MergedEqual(y: System, ix: Index, off: seq<OffNode>, s: Sol, a: nat, b: nat)
    requires PassInput(y, ix) && Solves(y, s) && HcdGraphed(ix, y.cs, off) && Within(ix, Arcs(off), a, b) && ReachBetween(ix, Arcs(off), s, a, b)
    ensures Pts(s, a) == Pts(s, b)
  {
    if a != b {
      VarValue(y, ix, s, a);
      VarValue(y, ix, s, b);
      hide PassInput, HcdGraphed, Arcs, Mutual, Solves, IsValue, DerefsReach;
      assert Off(ix, a) != Off(ix, b);
      ComponentValues(y, ix, s, off, Off(ix, a), Off(ix, b), Pts(s, a), Pts(s, b));
    }
  }

  // The members of a mapped node point to what its variable points to, in every solution in
  // which the pointers that are dereferenced in the component of the entry, and in that in which
  // it was taken over, have a member besides I2P.
  lemma EntryHolds(y: System, ix: Index, off: seq<OffNode>, s: Sol, n: nat, u: nat, v: nat, o: nat)
    requires PassInput(y, ix) && Solves(y, s) && HcdGraphed(ix, y.cs, off) && EntryFrom(ix, Arcs(off), n, u, v)
    requires DerefsReach(ix, Arcs(off), s, Ref(ix, Off(ix, u))) && ReachBetween(ix, Arcs(off), s, n, u)
    requires o in Pts(s, n) && o != I2P
    ensures Pts(s, o) == Pts(s, v)
  {
    hide PassInput, HcdGraphed, Arcs, Mutual, Solves, DerefsReach, ReachBetween, Within;
    MergedEqual(y, ix, off, s, n, u);
    Justification(y, ix, s, off, u, v, o);
  }

  // If all stores reach, both hold of all nodes.
  lemma GoodMerges(y: System, ix: Index, off: seq<OffNode>, root: seq<nat>, s: Sol)
    requires PassInput(y, ix) && Solves(y, s) && HcdGraphed(ix, y.cs, off) && StoresReach(y.cs, s)
    requires Coarser(y.rep, root) && MergedWithin(y, ix, Arcs(off), root)
    ensures Respects(root, s)
  {
    forall m | 0 <= m < |root| ensures Pts(s, m) == Pts(s, root[m]) {
      var r := root[m];
      assert r < |root| && Rt(root, r) == Rt(root, m);
      var a, b := Rt(y.rep, m), Rt(y.rep, r);
      assert Pts(s, m) == Pts(s, a) && Pts(s, r) == Pts(s, b);
      if a != b {
        hide PassInput, HcdGraphed, Arcs, Mutual, Solves, Coarser;
        OffApart(y, ix, a, b);
        StoresReachDerefs(y, ix, s, off, Off(ix, a), Off(ix, b));
        MergedEqual(y, ix, off, s, a, b);
      }
    }
  }

  lemma OffApart(y: System, ix: Index, a: nat, b: nat)
    requires PassInput(y, ix) && Off(ix, a) > 0 && Off(ix, b) > 0 && a != b
    ensures Off(ix, a) != Off(ix, b)
  {
  }

  lemma GoodEntries(y: System, ix: Index, off: seq<OffNode>, hcdVar: map<nat, nat>, s: Sol, n: nat, o: nat)
    requires PassInput(y, ix) && Solves(y, s) && HcdGraphed(ix, y.cs, off) && StoresReach(y.cs, s)
    requires EntriesFrom(ix, Arcs(off), hcdVar) && n in hcdVar && o in Pts(s, n) && o != I2P
    ensures Pts(s, o) == Pts(s, hcdVar[n])
  {
    var u: nat :| EntryFrom(ix, Arcs(off), n, u, hcdVar[n]);
    VarValue(y, ix, s, u);
    VarValue(y, ix, s, hcdVar[n]);
    hide PassInput, HcdGraphed, Arcs, Mutual, Solves, IsValue, DerefsReach;
    StoresReachDerefs(y, ix, s, off, Ref(ix, Off(ix, u)), Off(ix, hcdVar[n]));
    if n != u {
      OffApart(y, ix, n, u);
      StoresReachDerefs(y, ix, s, off, Off(ix, n), Off(ix, u));
    }
    EntryHolds(y, ix, off, s, n, u, hcdVar[n], o);
  }

  lemma SearchFinds(y: System, ix: Index, e0: seq<OffNode>, root: seq<nat>, hcdVar: map<nat, nat>, t: Scc.Dfs)
    requires Mapping(y, ix, Arcs(e0), root, hcdVar, t) && |e0| == Count(ix) && forall x: nat :: 0 < x < |e0| ==> Scc.Closed(t, x)
    ensures CyclesFound(y, ix, Arcs(e0), root, hcdVar)
  {
    hide Coarser, MergedWithin, EntriesFrom, Mutual, Arcs, IsMapped;
    forall x: nat | IsVar(ix, x) ensures Scc.Closed(t, x) && Scc.Closed(t, Ref(ix, x)) {
    }
  }
}
