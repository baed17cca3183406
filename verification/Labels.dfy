/** Pointer-equivalence labels: the meaning of a label, and what a labelled part of the
    offline graph satisfies. */
module Labels {
  import opened Constraints
  import opened ConstraintGraph
  import opened Graphs
  import opened Offline
  import opened Scc
  import Sets = UnionFind

  // The setting of one pass: the system and its least solution s, and the offline graph e0 as
  // it was built.  ne says whether every pointer that is stored through has a member besides I2P.
  datatype Pass = Pass(y: System, ix: Index, s: Sol, e0: seq<OffNode>, ne: bool)

  function Arc(k: Pass): Digraph { Arcs(k.e0) }

  ghost function Value(k: Pass, x: nat): set<nat> { Val(k.ix, k.s, x) }

  ghost predicate PassOk(k: Pass) {
    && PassInput(k.y, k.ix) && IsLeast(k.y, k.s) && |k.e0| == Count(k.ix) && WellFormed(Arc(k))
    && (forall x: nat, z: nat :: z in Succ(Arc(k), x) ==> z > 0)
    && (forall x: nat :: x < |k.e0| ==> k.e0[x].dfsId == 0 && !k.e0[x].sccRoot)
    && (forall x: nat :: 0 < x < |k.e0| && !k.e0[x].indirect ==> IsVal(k.ix, x))
    && (forall c :: c in k.y.cs && Off(k.ix, c.dest) > 0 ==> Represented(k, c))
    && (k.ne ==> EdgesInclude(k.ix, k.s, Arc(k)))
  }

  // The offline graph has the edge or flag that constraint c calls for.
  ghost predicate Represented(k: Pass, c: Constraint) {
    var od, os := Off(k.ix, c.dest), Off(k.ix, c.src);
    od < |k.e0| && match c.typ
      case Copy => if os > 0 then os in k.e0[od].edges else k.e0[od].indirect
      case Load => if c.off > 0 then k.e0[od].indirect else os > 0 && Ref(k.ix, os) in k.e0[od].edges
      case _ => true
  }

  // ---------- Labels and their meaning ----------

  ghost function Means(mean: map<nat, set<nat>>, pe: set<nat>): set<nat> {
    set a, z | a in pe && a in mean && z in mean[a] :: z
  }

  // Label 0 means nothing, and every label given to a node when the graph was built means
  // something that the node holds; together they say what address-of and GEP constraints give.
  ghost predicate PreLabelled(k: Pass, mean: map<nat, set<nat>>) {
    && 0 in mean && mean[0] == {}
    && (forall x: nat, a: nat :: x < |k.e0| && a in k.e0[x].ptrEq ==> a != 0 && a in mean && mean[a] <= Value(k, x))
    && (forall c :: c in k.y.cs && Off(k.ix, c.dest) > 0 ==> Given(k, mean, c))
  }

  ghost predicate Given(k: Pass, mean: map<nat, set<nat>>, c: Constraint) {
    var od := Off(k.ix, c.dest);
    od < |k.e0| && match c.typ
      case AddrOf => exists a: nat :: a in k.e0[od].ptrEq && a in mean && c.src in mean[a]
      case Gep => exists a: nat :: a in k.e0[od].ptrEq && a in mean && Shift(k.y.l, Pts(k.s, c.src), c.off) <= mean[a]
      case _ => true
  }

  // Labels below next are in use; a set of labels with a label of its own means the same.
  ghost predicate Numbering(mean: map<nat, set<nat>>, next: nat, lbl2pe: map<set<nat>, nat>) {
    && 0 < next && 0 in mean && mean[0] == {} && (forall a: nat :: a in mean ==> a < next)
    && forall pe :: pe in lbl2pe ==> 0 !in pe && pe <= mean.Keys && 0 < lbl2pe[pe] && lbl2pe[pe] in mean && mean[lbl2pe[pe]] == Means(mean, pe)
  }

  ghost predicate Extends(mean: map<nat, set<nat>>, mean': map<nat, set<nat>>) {
    forall a :: a in mean ==> a in mean' && mean'[a] == mean[a]
  }

  lemma MeansExtends(mean: map<nat, set<nat>>, mean': map<nat, set<nat>>, pe: set<nat>)
    requires Extends(mean, mean') && pe <= mean.Keys
    ensures Means(mean', pe) == Means(mean, pe)
  {
  }

  lemma MeansOne(mean: map<nat, set<nat>>, a: nat)
    requires a in mean
    ensures Means(mean, {a}) == mean[a]
  {
  }

  lemma NewLabel(mean: map<nat, set<nat>>, next: nat, lbl2pe: map<set<nat>, nat>, v: set<nat>)
    requires Numbering(mean, next, lbl2pe)
    ensures Extends(mean, mean[next := v]) && Numbering(mean[next := v], next + 1, lbl2pe)
    ensures Means(mean[next := v], {next}) == v
  {
    var mean' := mean[next := v];
    MeansOne(mean', next);
    forall pe | pe in lbl2pe ensures mean'[lbl2pe[pe]] == Means(mean', pe) {
      MeansExtends(mean, mean', pe);
    }
  }

  // A new label that stands for the set pe of labels.
  lemma NewSetLabel(mean: map<nat, set<nat>>, next: nat, lbl2pe: map<set<nat>, nat>, pe: set<nat>)
    requires Numbering(mean, next, lbl2pe) && 0 !in pe && pe <= mean.Keys
    ensures var mean' := mean[next := Means(mean, pe)];
      Extends(mean, mean') && Numbering(mean', next + 1, lbl2pe[pe := next]) && Means(mean', {next}) == Means(mean, pe)
  {
  }

  // ---------- The labelled part of the graph ----------

  ghost predicate Bare(e: OffNode) { e.edges == {} && e.implEdges == {} && e.ptrEq == {} && !e.indirect }

  // A node without outgoing edges that was given at most one label.
  ghost predicate Plain(e: OffNode) { e.edges == {} && e.implEdges == {} && |e.ptrEq| <= 1 && !e.indirect }

  // One of the labels is no node number.
  ghost predicate HasFresh(k: Pass, pe: set<nat>) {
    exists a: nat :: a in pe && |k.y.rep| <= a
  }

  function LabelsAt(root: seq<nat>, off: seq<OffNode>, x: nat): set<nat> {
    if Rt(root, x) < |off| then off[Rt(root, x)].ptrEq else {}
  }

  // A node labelled as a non-pointer has nothing that could give it a member.
  ghost predicate NothingGiven(k: Pass, root: seq<nat>, off: seq<OffNode>, t: Dfs, x: nat) {
    && x < |k.e0| && !k.e0[x].indirect && k.e0[x].ptrEq == {}
    && forall z: nat :: z in k.e0[x].edges ==> Closed(t, z) && 0 in LabelsAt(root, off, z)
  }

  ghost predicate LabelOk(k: Pass, root: seq<nat>, off: seq<OffNode>, t: Dfs, mean: map<nat, set<nat>>, x: nat) {
    var pe := LabelsAt(root, off, x);
    && pe != {} && pe <= mean.Keys && x < |k.e0|
    && (k.ne ==> Value(k, x) == Means(mean, pe))
    && (0 in pe ==> pe == {0} && NothingGiven(k, root, off, t, x))
    && (k.e0[x].indirect ==> HasFresh(k, pe)) && (Plain(k.e0[x]) ==> pe <= k.e0[x].ptrEq + {0})
  }

  ghost predicate Labelled(k: Pass, root: seq<nat>, off: seq<OffNode>, t: Dfs, mean: map<nat, set<nat>>) {
    forall x: nat :: Closed(t, x) ==> LabelOk(k, root, off, t, mean, x)
  }

  // When all nodes are labelled, those labelled 0 point to nothing in the least solution.
  lemma NonPointers(k: Pass, root: seq<nat>, off: seq<OffNode>, t: Dfs, mean: map<nat, set<nat>>)
    requires PassOk(k) && PreLabelled(k, mean) && Labelled(k, root, off, t, mean)
    requires forall x: nat :: 0 < x < |k.e0| ==> Closed(t, x)
    ensures forall x: nat :: 0 < x < |k.e0| && 0 in LabelsAt(root, off, x) ==> Value(k, x) == {}
  {
    hide PassInput, IsLeast, Val;
    var C := set x: nat | 0 < x < |k.e0| && 0 in LabelsAt(root, off, x);
    forall x: nat | x in C ensures IsVal(k.ix, x) && NothingGiven(k, root, off, t, x) {
      assert LabelOk(k, root, off, t, mean, x);
    }
    forall c | c in k.y.cs && Off(k.ix, c.dest) in C ensures GivesOnly(k.y, k.ix, k.s, C, {}, c) {
      NothingGivenBy(k, root, off, t, mean, C, c);
    }
    DirectOnly(k.y, k.ix, k.s, C, {});
  }

  lemma NothingGivenBy(k: Pass, root: seq<nat>, off: seq<OffNode>, t: Dfs, mean: map<nat, set<nat>>, C: set<nat>, c: Constraint)
    requires PassOk(k) && PreLabelled(k, mean) && Labelled(k, root, off, t, mean) && c in k.y.cs
    requires C == set x: nat | 0 < x < |k.e0| && 0 in LabelsAt(root, off, x)
    requires var x := Off(k.ix, c.dest); x in C && NothingGiven(k, root, off, t, x)
    ensures GivesOnly(k.y, k.ix, k.s, C, {}, c)
  {
    var x := Off(k.ix, c.dest);
    assert Represented(k, c) && Given(k, mean, c);
    hide PassInput, IsLeast, Val, Labelled, EdgesInclude, PreLabelled;
    match c.typ
    case AddrOf =>
    case Copy =>
      var os := Off(k.ix, c.src);
      assert os in k.e0[x].edges;
      assert os in Succ(Arc(k), x);
    case Load =>
      // A dereference node is indirect and never labelled 0.
      assert false;
    case Store =>
    case Gep =>
  }
}
