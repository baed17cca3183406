/** Merging pointer-equivalent nodes, and rewriting the constraint list accordingly. */
module PtrEq {
  import opened Constraints
  import opened ConstraintGraph
  import opened Offline
  import opened Labels
  import opened Rewriting
  import Sets = UnionFind

  // The final label of main node n; labs has those of the offline nodes.
  function LabelOfMain(ix: Index, labs: seq<set<nat>>, n: nat): set<nat> {
    if Off(ix, n) < |labs| then labs[Off(ix, n)] else {}
  }

  // m and n have offline nodes with one label, which is not that of a non-pointer.
  ghost predicate SameLabel(ix: Index, labs: seq<set<nat>>, m: nat, n: nat) {
    Off(ix, m) > 0 && Off(ix, n) > 0 && LabelOfMain(ix, labs, m) == LabelOfMain(ix, labs, n) && 0 !in LabelOfMain(ix, labs, m)
  }

  // From node i on nothing has been merged.
  ghost predicate Pending(ix: Index, root: seq<nat>, i: nat) {
    forall j: nat :: i <= j < |root| && Off(ix, j) > 0 ==> Rt(root, j) == j
  }

  // A node below i with a label is represented by the node for this label.
  ghost predicate Assigned(ix: Index, labs: seq<set<nat>>, root: seq<nat>, pe2node: map<set<nat>, nat>, i: nat) {
    forall j: nat :: j < i && j < |root| && Off(ix, j) > 0 && 0 !in LabelOfMain(ix, labs, j) ==>
      LabelOfMain(ix, labs, j) in pe2node && Rt(root, j) == pe2node[LabelOfMain(ix, labs, j)]
  }

  // The node for a label has this label, and is a representative.
  ghost predicate Table(ix: Index, labs: seq<set<nat>>, root: seq<nat>, pe2node: map<set<nat>, nat>, i: nat) {
    forall pe :: pe in pe2node ==>
      var e := pe2node[pe];
      e < i && e < |root| && Off(ix, e) > 0 && LabelOfMain(ix, labs, e) == pe && 0 !in pe && Rt(root, e) == e
  }

  // Nodes are merged only if they were before, or have the same label.
  ghost predicate Justified(rep: seq<nat>, ix: Index, labs: seq<set<nat>>, root: seq<nat>) {
    forall m: nat, n: nat :: m < |rep| && n < |rep| && Rt(root, m) == Rt(root, n) ==>
      Rt(rep, m) == Rt(rep, n) || SameLabel(ix, labs, Rt(rep, m), Rt(rep, n))
  }

  // Nodes below i have been merged by label; pe2node has the representative for each label.
  ghost predicate MergedBelow(rep: seq<nat>, ix: Index, labs: seq<set<nat>>, root: seq<nat>, pe2node: map<set<nat>, nat>, i: nat) {
    && Coarser(rep, root) && Pending(ix, root, i) && Assigned(ix, labs, root, pe2node, i)
    && Table(ix, labs, root, pe2node, i) && Justified(rep, ix, labs, root)
  }

  ghost predicate IndexReps(rep: seq<nat>, ix: Index) {
    && Sets.IsRootMap(rep) && |ix.main2off| == |rep| && forall i: nat :: i < |rep| && Off(ix, i) > 0 ==> IsRep(rep, i)
  }

  lemma NoneMerged(rep: seq<nat>, ix: Index, labs: seq<set<nat>>)
    requires IndexReps(rep, ix)
    ensures MergedBelow(rep, ix, labs, rep, map[], 0)
  {
  }

  // The node has no label that calls for merging.
  lemma PassOver(rep: seq<nat>, ix: Index, labs: seq<set<nat>>, root: seq<nat>, pe2node: map<set<nat>, nat>, i: nat)
    requires MergedBelow(rep, ix, labs, root, pe2node, i) && (Off(ix, i) == 0 || 0 in LabelOfMain(ix, labs, i))
    ensures MergedBelow(rep, ix, labs, root, pe2node, i + 1)
  {
  }

  // The node is the first one with its label.
  lemma FirstOfLabel(rep: seq<nat>, ix: Index, labs: seq<set<nat>>, root: seq<nat>, pe2node: map<set<nat>, nat>, i: nat)
    requires MergedBelow(rep, ix, labs, root, pe2node, i) && i < |rep| && Off(ix, i) > 0
    requires var pe := LabelOfMain(ix, labs, i); 0 !in pe && pe !in pe2node
    ensures Rt(root, i) == i && MergedBelow(rep, ix, labs, root, pe2node[LabelOfMain(ix, labs, i) := i], i + 1)
  {
  }

  // Merge node i with the representative of its label.
  lemma MergeByLabel(rep: seq<nat>, ix: Index, labs: seq<set<nat>>, root: seq<nat>, pe2node: map<set<nat>, nat>, i: nat, p: nat)
    requires IndexReps(rep, ix) && MergedBelow(rep, ix, labs, root, pe2node, i) && i < |rep| && Off(ix, i) > 0
    requires var pe := LabelOfMain(ix, labs, i); 0 !in pe && pe in pe2node && (p == pe2node[pe] || p == i)
    ensures var pe := LabelOfMain(ix, labs, i);
      var en := pe2node[pe];
      && en < i && Rt(root, en) == en && Rt(root, i) == i
      && MergedBelow(rep, ix, labs, Sets.Merged(root, p, en + i - p), pe2node[pe := p], i + 1)
  {
    hide Coarser, Pending, Assigned, Table, Sets.Merged, SameLabel, LabelOfMain, Sets.IsRootMap, Rt;
    var en := pe2node[LabelOfMain(ix, labs, i)];
    var r := Sets.Merged(root, p, en + i - p);
    CoarserRoots(rep, root);
    MergeTable(ix, labs, root, pe2node, i, p);
    MergeCoarser(rep, root, p, en + i - p);
    MergeAssigned(ix, labs, root, pe2node, i, p);
    forall m: nat, n: nat | m < |rep| && n < |rep| && Rt(r, m) == Rt(r, n)
      ensures Rt(rep, m) == Rt(rep, n) || SameLabel(ix, labs, Rt(rep, m), Rt(rep, n)) {
      MergedPair(rep, ix, labs, root, pe2node, i, p, m, n);
    }
  }

  lemma CoarserRoots(rep: seq<nat>, root: seq<nat>)
    requires Coarser(rep, root)
    ensures |root| == |rep|
  {
  }

  lemma MergeTable(ix: Index, labs: seq<set<nat>>, root: seq<nat>, pe2node: map<set<nat>, nat>, i: nat, p: nat)
    requires Table(ix, labs, root, pe2node, i) && Pending(ix, root, i) && i < |root| && Off(ix, i) > 0
    requires var pe := LabelOfMain(ix, labs, i); 0 !in pe && pe in pe2node && (p == pe2node[pe] || p == i)
    ensures var pe := LabelOfMain(ix, labs, i);
      var en := pe2node[pe];
      && en < i && Rt(root, en) == en && Rt(root, i) == i
      && Table(ix, labs, Sets.Merged(root, p, en + i - p), pe2node[pe := p], i + 1) && Pending(ix, Sets.Merged(root, p, en + i - p), i + 1)
  {
  }

  lemma MergeAssigned(ix: Index, labs: seq<set<nat>>, root: seq<nat>, pe2node: map<set<nat>, nat>, i: nat, p: nat)
    requires Assigned(ix, labs, root, pe2node, i) && Table(ix, labs, root, pe2node, i) && Pending(ix, root, i) && i < |root| && Off(ix, i) > 0
    requires var pe := LabelOfMain(ix, labs, i); 0 !in pe && pe in pe2node && (p == pe2node[pe] || p == i)
    ensures var pe := LabelOfMain(ix, labs, i);
      Assigned(ix, labs, Sets.Merged(root, p, pe2node[pe] + i - p), pe2node[pe := p], i + 1)
  {
  }

  lemma MergedPair(rep: seq<nat>, ix: Index, labs: seq<set<nat>>, root: seq<nat>, pe2node: map<set<nat>, nat>, i: nat, p: nat, m: nat, n: nat)
    requires IndexReps(rep, ix) && MergedBelow(rep, ix, labs, root, pe2node, i) && i < |rep| && Off(ix, i) > 0 && m < |rep| && n < |rep|
    requires var pe := LabelOfMain(ix, labs, i); 0 !in pe && pe in pe2node && (p == pe2node[pe] || p == i)
    requires var en := pe2node[LabelOfMain(ix, labs, i)];
      Rt(Sets.Merged(root, p, en + i - p), m) == Rt(Sets.Merged(root, p, en + i - p), n)
    ensures Rt(rep, m) == Rt(rep, n) || SameLabel(ix, labs, Rt(rep, m), Rt(rep, n))
  {
    var en := pe2node[LabelOfMain(ix, labs, i)];
    MergedRt(root, p, en + i - p);
    hide Sets.Merged;
    if Rt(root, m) != Rt(root, n) {
      assert {Rt(root, m), Rt(root, n)} == {en, i};
      LabelledAs(rep, ix, labs, root, pe2node, i, m, Rt(root, m));
      LabelledAs(rep, ix, labs, root, pe2node, i, n, Rt(root, n));
    }
  }

  // A node merged into w has the label of w.
  lemma LabelledAs(rep: seq<nat>, ix: Index, labs: seq<set<nat>>, root: seq<nat>, pe2node: map<set<nat>, nat>, i: nat, m: nat, w: nat)
    requires IndexReps(rep, ix) && MergedBelow(rep, ix, labs, root, pe2node, i) && m < |rep| && Rt(root, m) == w
    requires w < |rep| && Off(ix, w) > 0 && 0 !in LabelOfMain(ix, labs, w) && Rt(root, w) == w
    ensures SameLabel(ix, labs, Rt(rep, m), w)
  {
  }

  // When merged nodes have labels of one meaning, merging changes no set of s.
  lemma MergeRespects(y: System, s: Sol, ix: Index, labs: seq<set<nat>>, mean: map<nat, set<nat>>, root: seq<nat>, pe2node: map<set<nat>, nat>, i: nat)
    requires IndexReps(y.rep, ix) && MergedBelow(y.rep, ix, labs, root, pe2node, i) && Respects(y.rep, s)
    requires forall n: nat :: n < |y.rep| && Off(ix, n) > 0 ==> Pts(s, n) == Means(mean, LabelOfMain(ix, labs, n))
    ensures Respects(root, s)
  {
    forall n: nat | n < |root| ensures Pts(s, n) == Pts(s, root[n]) {
      var r := Rt(root, n);
      assert Rt(root, r) == r;
      RespectsRt(y.rep, s, n);
      RespectsRt(y.rep, s, r);
      if Rt(y.rep, n) != Rt(y.rep, r) {
        assert SameLabel(ix, labs, Rt(y.rep, n), Rt(y.rep, r));
      }
    }
  }

  // A node labelled as a non-pointer is not merged with any other representative.
  lemma ZeroStays(rep: seq<nat>, ix: Index, labs: seq<set<nat>>, root: seq<nat>, n: nat, m: nat)
    requires Coarser(rep, root) && Justified(rep, ix, labs, root) && n < |rep| && IsRep(rep, n) && 0 in LabelOfMain(ix, labs, n)
    requires m < |rep| && IsRep(rep, m) && Rt(root, m) == Rt(root, n)
    ensures m == n && IsRep(root, n)
  {
    assert Rt(rep, n) == n && Rt(rep, m) == m;
    var r := Rt(root, n);
    assert Rt(root, r) == r;
    assert IsRep(root, r);
    assert Rt(rep, r) == r;
  }

  // ---------- The rewritten constraint list ----------

  ghost predicate RewrittenSoFar(cs: seq<Constraint>, root: seq<nat>, nonptr: set<nat>, cs': seq<Constraint>, seen: set<Constraint>) {
    Rewritten(cs, root, nonptr, cs') && forall c :: c in seen <==> c in cs'
  }

  lemma NextRewritten(cs: seq<Constraint>, c: Constraint, root: seq<nat>, nonptr: set<nat>, cs': seq<Constraint>, seen: set<Constraint>)
    requires RewrittenSoFar(cs, root, nonptr, cs', seen)
    ensures var d := Redirect(root, c);
      if Kept(root, nonptr, c) && d !in seen then RewrittenSoFar(cs + [c], root, nonptr, cs' + [d], seen + {d})
      else RewrittenSoFar(cs + [c], root, nonptr, cs', seen)
  {
  }

  // The constraints stay in the order of their first occurrences: origin has where those are.
  ghost predicate InOrder(cs: seq<Constraint>, root: seq<nat>, nonptr: set<nat>, cs': seq<Constraint>, origin: seq<nat>) {
    && |origin| == |cs'| && (forall i, j :: 0 <= i < j < |origin| ==> origin[i] < origin[j])
    && (forall i :: 0 <= i < |origin| ==> origin[i] < |cs| && Kept(root, nonptr, cs[origin[i]]) && cs'[i] == Redirect(root, cs[origin[i]]))
    && forall i, k :: 0 <= i < |origin| && 0 <= k < origin[i] && Kept(root, nonptr, cs[k]) ==> Redirect(root, cs[k]) != cs'[i]
  }

  lemma NextInOrder(cs: seq<Constraint>, c: Constraint, root: seq<nat>, nonptr: set<nat>, cs': seq<Constraint>, seen: set<Constraint>, origin: seq<nat>)
    requires RewrittenSoFar(cs, root, nonptr, cs', seen) && InOrder(cs, root, nonptr, cs', origin)
    ensures InOrder(cs + [c], root, nonptr, cs', origin)
    ensures var d := Redirect(root, c);
      Kept(root, nonptr, c) && d !in seen ==> InOrder(cs + [c], root, nonptr, cs' + [d], origin + [|cs|])
  {
    hide Kept, Redirect;
  }

  // Rewrite the constraints to refer to representatives, without non-pointers, copies of a
  // node to itself and duplicates.
  method RewriteConstraints(oldCons: seq<Constraint>, classes: Sets.Classes, nonptr: set<nat>)
    returns (constraints: seq<Constraint>, ghost origin: seq<nat>)
    requires classes.Valid() && forall c :: c in oldCons ==> c.dest < |classes.rep| && c.src < |classes.rep|
    modifies classes
    ensures classes.Valid() && classes.root == old(classes.root) && |classes.rep| == old(|classes.rep|)
    ensures Rewritten(oldCons, classes.root, nonptr, constraints) && |constraints| <= |oldCons|
    ensures InOrder(oldCons, classes.root, nonptr, constraints, origin)
  {
    hide Sets.Linked, Sets.RankBounded, Rewritten, InOrder;
    constraints, origin := [], [];
    var consSeen: set<Constraint> := {};
    NoneRewritten(classes.root, nonptr);
    NoneInOrder(classes.root, nonptr);
    for i := 0 to |oldCons|
      invariant classes.Valid() && classes.root == old(classes.root) && |classes.rep| == old(|classes.rep|)
      invariant RewrittenSoFar(oldCons[..i], classes.root, nonptr, constraints, consSeen) && |constraints| <= i
      invariant InOrder(oldCons[..i], classes.root, nonptr, constraints, origin)
    {
      var c := oldCons[i];
      assert c in oldCons;
      NextRewritten(oldCons[..i], c, classes.root, nonptr, constraints, consSeen);
      NextInOrder(oldCons[..i], c, classes.root, nonptr, constraints, consSeen, origin);
      assert oldCons[..i + 1] == oldCons[..i] + [c];
      // Nothing flows into or out of a non-pointer.
      if c.dest in nonptr || c.src in nonptr {
        continue;
      }
      var dest := classes.Find(c.dest);
      // Non-representatives may still be pointed to.
      var src := c.src;
      if c.typ != AddrOf {
        src := classes.Find(c.src);
      }
      RootsInRange(classes.rep, classes.root, classes.rank, c);
      var d := c.(dest := dest, src := src);
      assert d == Redirect(classes.root, c);
      if (d.typ != Copy || d.dest != d.src) && d !in consSeen {
        consSeen := consSeen + {d};
        constraints, origin := constraints + [d], origin + [i];
      }
    }
    assert oldCons[..|oldCons|] == oldCons;
  }

  lemma NoneRewritten(root: seq<nat>, nonptr: set<nat>)
    ensures RewrittenSoFar([], root, nonptr, [], {})
  {
  }

  lemma NoneInOrder(root: seq<nat>, nonptr: set<nat>)
    ensures InOrder([], root, nonptr, [], [])
  {
  }

  lemma RootsInRange(rep: seq<nat>, root: seq<nat>, rank: seq<nat>, c: Constraint)
    requires Sets.Linked(rep, root, rank) && c.dest < |rep| && c.src < |rep|
    ensures Rt(root, c.dest) == root[c.dest] && Rt(root, c.src) == root[c.src]
  {
  }
}
