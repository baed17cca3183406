/** The initial constraint graph: one entry for each constraint of the list. */
module Building {
  import opened Constraints
  import opened Entailment
  import opened UnionFind
  import opened ConstraintGraph
  import opened Propagation
  import opened SolverSteps

  // What the solver demands of its input: constraints between proper nodes, address-taken
  // nodes that are objects and representatives, and no copy within one class.
  ghost predicate Accepts(y: System, n: nat) {
    && |y.rep| == n && |y.l.objSz| <= n && IsRootMap(y.rep) && LayoutOk(y.l)
    && (forall m: nat :: m < n ==> (Rt(y.rep, m) == 0 <==> m == 0) && (Rt(y.rep, m) == I2P <==> m == I2P))
    && (forall c :: c in y.cs ==> Accepted(y, c))
  }

  ghost predicate Accepted(y: System, c: Constraint) {
    && Proper(y.rep, c.dest)
    && (c.typ == AddrOf ==> 0 < c.src < |y.l.objSz| && IsRep(y.rep, c.src))
    && (c.typ != AddrOf ==> Proper(y.rep, c.src))
    && (c.typ == Copy ==> Rt(y.rep, c.src) != Rt(y.rep, c.dest))
    && (c.typ == Gep ==> c.off > 0)
  }

  // The list as it is entered into the graph: the source of an address-of constraint is taken
  // to be its representative.
  function Taken(root: seq<nat>, cs: seq<Constraint>): (r: seq<Constraint>)
    ensures |r| == |cs|
    ensures (forall c :: c in cs && c.typ == AddrOf ==> Rt(root, c.src) == c.src) ==> r == cs
  {
    seq(|cs|, i requires 0 <= i < |cs| => TakenOne(root, cs[i]))
  }

  function TakenOne(root: seq<nat>, c: Constraint): Constraint {
    if c.typ == AddrOf then c.(src := Rt(root, c.src)) else c
  }

  lemma AcceptedFacts(l: Layout, cs: seq<Constraint>, root: seq<nat>, n: nat)
    requires Accepts(System(l, Taken(root, cs), root), n)
    ensures |root| == n && |l.objSz| <= n && LayoutOk(l)
    ensures forall c :: c in cs && c.typ == Gep ==> c.off > 0
  {
    forall c | c in cs && c.typ == Gep ensures c.off > 0 {
      var i: nat :| i < |cs| && cs[i] == c;
      assert Taken(root, cs)[i] == c;
      assert Accepted(System(l, Taken(root, cs), root), c);
    }
  }

  // The first k constraints have been entered into the graph, and nothing has been worked off.
  ghost predicate Built(y: System, g: Graph, k: nat) {
    && g.root == y.rep && Shape(y, g) && Sound(y, g) && Fresh(g)
    && k <= |y.cs| && forall i: nat :: i < k ==> Covered(g, y.cs[i])
  }

  ghost predicate Fresh(g: Graph) {
    forall n: nat :: Prev(g, n) == {} && Vtime(g, n) == 0
  }

  lemma EmptyBuilt(y: System, g: Graph)
    requires Accepts(y, |g.nodes|) && g.root == y.rep && g.cplx == []
    requires forall n: nat :: n < |g.nodes| ==> g.nodes[n] == Blank
    ensures Built(y, g, 0)
  {
    assert forall n: nat :: Nd(g, n) == Blank;
    forall n: nat ensures Eq(y, n, Rt(g.root, n)) {
      RepEq(y, n);
    }
  }

  lemma RepEq(y: System, n: nat)
    ensures Eq(y, n, Rt(y.rep, n))
  {
  }

  // ---------- Entering one constraint ----------

  lemma AddressMember(y: System, c: Constraint)
    requires c in y.cs && c.typ == AddrOf
    ensures Member(y, c.src, Rt(y.rep, c.dest))
  {
  }

  lemma CopyLe(y: System, c: Constraint)
    requires c in y.cs && c.typ == Copy
    ensures Le(y, Rt(y.rep, c.src), Rt(y.rep, c.dest))
  {
  }

  lemma EnterAddress(y: System, g: Graph, k: nat)
    requires Built(y, g, k) && k < |y.cs| && y.cs[k].typ == AddrOf && Accepted(y, y.cs[k])
    ensures Rt(y.rep, y.cs[k].dest) < |g.nodes|
    ensures Built(y, Grow(g, Rt(y.rep, y.cs[k].dest), {y.cs[k].src}), k + 1)
  {
    hide Covered, Sound, CplxOk, EdgesOk, Grow, Later;
    var c := y.cs[k];
    var d := Rt(y.rep, c.dest);
    AddressMember(y, c);
    assert IsRep(g.root, d) && 0 < d;
    var h := Grow(g, d, {c.src});
    GrowSound(y, g, d, {c.src});
    GrowLater(y, g, d, {c.src});
    CoveredLater(y, g, h, k);
    AddressCovered(g, h, c);
  }

  lemma AddressCovered(g: Graph, h: Graph, c: Constraint)
    requires c.typ == AddrOf && h.root == g.root && c.src in Points(h, Rt(g.root, c.dest))
    ensures Covered(h, c)
  {
  }

  lemma EnterCopy(y: System, g: Graph, k: nat)
    requires Built(y, g, k) && k < |y.cs| && y.cs[k].typ == Copy && Accepted(y, y.cs[k])
    ensures Rt(y.rep, y.cs[k].src) < |g.nodes|
    ensures Built(y, Link(g, Rt(y.rep, y.cs[k].src), Rt(y.rep, y.cs[k].dest)), k + 1)
  {
    hide Covered, Sound, CplxOk, EdgesOk, Link, Later, Le;
    var c := y.cs[k];
    var a, b := Rt(y.rep, c.src), Rt(y.rep, c.dest);
    CopyLe(y, c);
    assert IsRep(g.root, a) && IsRep(g.root, b) && Proper(g.root, a) && Proper(g.root, b);
    var h := Link(g, a, b);
    LinkSound(y, g, a, b);
    LinkLater(y, g, a, b);
    CoveredLater(y, g, h, k);
    CopyCovered(g, h, c);
  }

  lemma CopyCovered(g: Graph, h: Graph, c: Constraint)
    requires c.typ == Copy && IsRootMap(g.root) && h.root == g.root && c.dest < |g.root|
    requires Rt(g.root, c.dest) in CopyTo(h, Rt(g.root, c.src))
    ensures Covered(h, c)
  {
  }

  // Append the complex constraint c and list it at node n.
  function AttachAt(nodes: seq<Node>, n: nat, kind: ConsType, i: nat): (r: seq<Node>)
    requires n < |nodes|
    ensures |r| == |nodes|
  {
    var N := nodes[n];
    nodes[n := match kind
      case Load => N.(loadTo := N.loadTo + {i})
      case Store => N.(storeFrom := N.storeFrom + {i})
      case _ => N.(gepTo := N.gepTo + {i})]
  }

  function Attach(g: Graph, n: nat, c: Constraint): (h: Graph)
    requires n < |g.nodes| && c.typ in {Load, Store, Gep}
    ensures h.root == g.root && |h.nodes| == |g.nodes| && |h.cplx| == |g.cplx| + 1 && h.begun == g.begun
    ensures forall i: nat :: Cx(h.cplx, i) == if i == |g.cplx| then c else Cx(g.cplx, i)
    ensures forall m: nat :: Points(h, m) == Points(g, m) && Prev(h, m) == Prev(g, m) && CopyTo(h, m) == CopyTo(g, m) && Vtime(h, m) == Vtime(g, m)
    ensures forall m: nat :: LoadTo(h, m) == LoadTo(g, m) + if m == n && c.typ == Load then {|g.cplx|} else {}
    ensures forall m: nat :: StoreFrom(h, m) == StoreFrom(g, m) + if m == n && c.typ == Store then {|g.cplx|} else {}
    ensures forall m: nat :: GepTo(h, m) == GepTo(g, m) + if m == n && c.typ == Gep then {|g.cplx|} else {}
  {
    g.(nodes := AttachAt(g.nodes, n, c.typ, |g.cplx|), cplx := g.cplx + [c])
  }

  lemma AttachShape(y: System, g: Graph, n: nat, c: Constraint)
    requires Shape(y, g) && IsRep(g.root, n) && c.typ in {Load, Store, Gep} && n == Rt(g.root, Base(c)) && n < |g.nodes|
    requires Proper(g.root, c.dest) && Proper(g.root, c.src)
    ensures Shape(y, Attach(g, n, c))
  {
    hide Attach, AttachAt;
    var h := Attach(g, n, c);
    assert RootsOk(y, h);
    assert EdgesOk(y, h);
    AttachCplxOk(g, n, c);
  }

  lemma AttachCplxOk(g: Graph, n: nat, c: Constraint)
    requires CplxOk(g) && c.typ in {Load, Store, Gep} && n == Rt(g.root, Base(c)) && n < |g.nodes|
    requires Proper(g.root, c.dest) && Proper(g.root, c.src)
    ensures CplxOk(Attach(g, n, c))
  {
  }

  lemma AttachSound(y: System, g: Graph, n: nat, c: Constraint)
    requires Sound(y, g) && c.typ in {Load, Store, Gep} && n < |g.nodes| && Holds(y, c)
    ensures Sound(y, Attach(g, n, c))
  {
  }

  lemma AttachKeeps(g: Graph, n: nat, c: Constraint, d: Constraint)
    requires c.typ in {Load, Store, Gep} && n < |g.nodes| && CplxOk(g) && Covered(g, d)
    ensures Covered(Attach(g, n, c), d)
  {
  }

  lemma AttachCovers(g: Graph, n: nat, c: Constraint)
    requires c.typ in {Load, Store, Gep} && n == Rt(g.root, Base(c)) && n < |g.nodes|
    ensures Covered(Attach(g, n, c), c)
  {
    hide Attach, AttachAt, Same;
    var h := Attach(g, n, c);
    SameRefl(h.root, c);
    assert |g.cplx| in CplxOf(h, n) && Cx(h.cplx, |g.cplx|) == c;
  }

  lemma EnterComplex(y: System, g: Graph, k: nat)
    requires Built(y, g, k) && k < |y.cs| && y.cs[k].typ in {Load, Store, Gep} && Accepted(y, y.cs[k])
    ensures Rt(y.rep, Base(y.cs[k])) < |g.nodes|
    ensures Built(y, Attach(g, Rt(y.rep, Base(y.cs[k])), y.cs[k]), k + 1)
  {
    hide Covered, Sound, CplxOk, EdgesOk, Attach;
    var c := y.cs[k];
    var n := Rt(y.rep, Base(c));
    assert IsRep(g.root, n);
    var h := Attach(g, n, c);
    AttachShape(y, g, n, c);
    assert Holds(y, c);
    AttachSound(y, g, n, c);
    forall i: nat | i < k ensures Covered(h, y.cs[i]) {
      AttachKeeps(g, n, c, y.cs[i]);
    }
    AttachCovers(g, n, c);
  }

  // ---------- The initial worklist ----------

  predicate Outgoing(g: Graph, n: nat) {
    CopyTo(g, n) != {} || LoadTo(g, n) != {} || StoreFrom(g, n) != {} || GepTo(g, n) != {}
  }

  // Exactly the nodes below i that can do something have been pushed.
  ghost predicate Started(g: Graph, q: Queue, i: nat) {
    && q.curr == map[] && (forall n: nat :: n in q.next <==> n < i && IsRep(g.root, n) && Points(g, n) != {} && Outgoing(g, n))
    && (forall n: nat :: n in q.next ==> q.next[n] == 0)
  }

  lemma StartRunning(y: System, g: Graph, q: Queue)
    requires Built(y, g, |y.cs|) && Started(g, q, |g.root|) && g.begun == Begun(g.root, g.nodes)
    ensures Running(y, g, Queue(q.next, map[]), Idle, {})
  {
    StartWatched(g, q);
    hide Covered, Sound, Shape, Watched;
    forall c | c in y.cs ensures Covered(g, c) {
      var i: nat :| i < |y.cs| && y.cs[i] == c;
    }
    forall n: nat ensures Done(y.l, g, n, {}) {
      NothingDone(y.l, g, n);
    }
    forall n: nat | IsRep(g.root, n) ensures Settled(y, g, Queue(q.next, map[]), Idle, n) {
      assert Vtime(g, n) == 0;
    }
  }

  lemma StartWatched(g: Graph, q: Queue)
    requires Fresh(g) && Started(g, q, |g.root|) && g.begun == Begun(g.root, g.nodes)
    ensures Watched(g, Queue(q.next, map[]), {})
  {
    forall n: nat | IsRep(g.root, n) && Points(g, n) != Prev(g, n) ensures Queued(g, Queue(q.next, map[]), n) <==> !Asleep(g, n) {
      assert Outgoing(g, n) <==> CopyTo(g, n) + LoadTo(g, n) + StoreFrom(g, n) + GepTo(g, n) != {};
    }
  }

  // What has been built is what solving begins with.
  lemma BuiltBegun(y: System, g: Graph, k: nat, b: Begun)
    requires Built(y, g, k)
    ensures Built(y, g.(begun := b), k)
  {
    var h := g.(begun := b);
    assert forall n: nat :: Points(h, n) == Points(g, n) && CopyTo(h, n) == CopyTo(g, n) && CplxOf(h, n) == CplxOf(g, n);
    assert forall n: nat :: Prev(h, n) == Prev(g, n) && Vtime(h, n) == Vtime(g, n);
    assert SameLists(g, h);
    hide Member, Le, Holds, CplxOf;
    assert RootsOk(y, h) && EdgesOk(y, h) && CplxOk(h);
    assert Sound(y, h) && Fresh(h);
    forall i: nat | i < k ensures Covered(h, y.cs[i]) {
      assert Covered(g, y.cs[i]);
    }
  }

  lemma NothingDone(l: Layout, g: Graph, n: nat)
    ensures Done(l, g, n, {})
  {
  }

  lemma CoveredLater(y: System, g: Graph, h: Graph, k: nat)
    requires k <= |y.cs| && Later(g, h) && forall i: nat :: i < k ==> Covered(g, y.cs[i])
    ensures forall i: nat :: i < k ==> Covered(h, y.cs[i])
  {
  }

  lemma StartedMore(g: Graph, q: Queue, i: nat)
    requires Started(g, q, i) && i < |g.root| == |g.nodes|
    ensures if IsRep(g.root, i) && g.nodes[i].pointsTo != {} && Outgoing(g, i) then Started(g, q.(next := q.next[i := 0]), i + 1)
      else Started(g, q, i + 1)
  {
  }

  lemma StartEmpty(g: Graph, q: Queue)
    requires q == Queue(map[], map[])
    ensures Started(g, q, 0)
  {
  }

  lemma StartedEmpty(g: Graph, q: Queue, i: nat)
    requires Started(g, q, i)
    ensures q.curr == map[]
  {
  }

  // The roots of the graph being built are those of the system.
  lemma BuiltSame(y: System, g: Graph, k: nat)
    requires Built(y, g, k)
    ensures g.root == y.rep && |g.nodes| == |g.root|
  {
  }

  lemma BuiltFresh(y: System, g: Graph, n: nat)
    requires Built(y, g, |y.cs|) && n < |g.nodes|
    ensures g.nodes[n].vtime == 0
  {
    hide Shape, Sound, Covered;
    assert Vtime(g, n) == 0;
  }
}
