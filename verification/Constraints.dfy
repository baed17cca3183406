/** Inclusion constraints over the nodes of a pointer analysis, and what it means for a
    points-to assignment to solve them. */
module Constraints {

  // The special nodes: 0 is no node, I2P the unknown target of pointers cast from
  // integers, P_I2P a constant pointer to it.
  const I2P: nat := 1
  const P_I2P: nat := 2
  const FIRST_VAR_NODE: nat := 3

  datatype ConsType = AddrOf | Copy | Load | Store | Gep

  // AddrOf: D = &S.  Copy: D = S.  Load: D = *S + off.  Store: *D + off = S.  Gep: D = S + off.
  datatype Constraint = Constraint(typ: ConsType, dest: nat, src: nat, off: nat)

  // objSz[o] is the number of nodes in the object that starts at node o (0 when o is no
  // object node); funcs holds the first nodes of function objects.
  datatype Layout = Layout(objSz: seq<nat>, funcs: set<nat>)

  // A points-to assignment; a node without an entry points to nothing.
  type Sol = map<nat, set<nat>>

  function Pts(s: Sol, n: nat): set<nat> {
    if n in s then s[n] else {}
  }

  function Size(l: Layout, o: nat): nat {
    if o < |l.objSz| then l.objSz[o] else 0
  }

  // The nodes reached by dereferencing a pointer with points-to set pts at offset off.
  function Targets(l: Layout, pts: set<nat>, off: nat): set<nat> {
    if off == 0 then pts - {I2P}
    else set o | o in pts && Size(l, o) > off && o !in l.funcs :: o + off
  }

  // The points-to set pts moved by off; members too small for the offset are dropped.
  function Shift(l: Layout, pts: set<nat>, off: nat): set<nat> {
    set o | o in pts && Size(l, o) > off :: o + off
  }

  ghost predicate Sat(l: Layout, s: Sol, c: Constraint) {
    match c.typ
    case AddrOf => c.src in Pts(s, c.dest)
    case Copy => Pts(s, c.src) <= Pts(s, c.dest)
    case Load => forall o :: o in Targets(l, Pts(s, c.src), c.off) ==> Pts(s, o) <= Pts(s, c.dest)
    case Store => forall o :: o in Targets(l, Pts(s, c.dest), c.off) ==> Pts(s, c.src) <= Pts(s, o)
    case Gep => Shift(l, Pts(s, c.src), c.off) <= Pts(s, c.dest)
  }

  // Nodes merged by the union-find array rep have one common points-to set.
  ghost predicate Respects(rep: seq<nat>, s: Sol) {
    forall n :: 0 <= n < |rep| ==> Pts(s, n) == Pts(s, rep[n])
  }

  // A constraint system: a layout, a constraint list, and the merges made so far.
  datatype System = System(l: Layout, cs: seq<Constraint>, rep: seq<nat>)

  ghost predicate Solves(y: System, s: Sol) {
    Respects(y.rep, s) && forall c :: c in y.cs ==> Sat(y.l, s, c)
  }

  ghost predicate Below(s: Sol, t: Sol) {
    forall n :: Pts(s, n) <= Pts(t, n)
  }

  ghost predicate IsLeast(y: System, s: Sol) {
    Solves(y, s) && forall t :: Solves(y, t) ==> Below(s, t)
  }

  lemma TargetsGrow(l: Layout, p: set<nat>, q: set<nat>, off: nat)
    requires p <= q
    ensures Targets(l, p, off) <= Targets(l, q, off)
  {
  }

  // ---------- Solutions are closed under intersection ----------

  function Meet(s: Sol, t: Sol): (r: Sol)
    ensures forall n :: Pts(r, n) == Pts(s, n) * Pts(t, n)
  {
    map n | n in s.Keys :: s[n] * Pts(t, n)
  }

  lemma MeetSat(l: Layout, s: Sol, t: Sol, c: Constraint)
    requires Sat(l, s, c) && Sat(l, t, c)
    ensures Sat(l, Meet(s, t), c)
  {
  }

  lemma MeetSolves(y: System, s: Sol, t: Sol)
    requires Solves(y, s) && Solves(y, t)
    ensures Solves(y, Meet(s, t))
  {
    forall c | c in y.cs ensures Sat(y.l, Meet(s, t), c) {
      MeetSat(y.l, s, t, c);
    }
  }

  // Any two least solutions agree on every node.
  lemma LeastUnique(y: System, s: Sol, t: Sol)
    requires IsLeast(y, s) && IsLeast(y, t)
    ensures forall n :: Pts(s, n) == Pts(t, n)
  {
  }

  // ---------- There is a least solution ----------

  function Pairs(s: Sol): set<(nat, nat)> {
    set n, o | n in s && o in s[n] :: (n, o)
  }

  // Below every solution there is a least one: a solution that is not below another one can be
  // made smaller.
  lemma {:induction false} LeastBelow(y: System, s: Sol)
    requires Solves(y, s)
    ensures exists r :: IsLeast(y, r)
    decreases |Pairs(s)|
  {
    if !IsLeast(y, s) {
      var t :| Solves(y, t) && !Below(s, t);
      var m := Meet(s, t);
      MeetSolves(y, s, t);
      var n: nat :| !(Pts(s, n) <= Pts(t, n));
      var o :| o in Pts(s, n) && o !in Pts(t, n);
      assert (n, o) in Pairs(s) && (n, o) !in Pairs(m);
      assert Pairs(m) <= Pairs(s) - {(n, o)};
      Fewer(Pairs(m), Pairs(s), (n, o));
      LeastBelow(y, m);
    }
  }

  lemma {:induction false} Fewer<T>(a: set<T>, b: set<T>, x: T)
    requires a <= b - {x} && x in b
    ensures |a| < |b|
  {
    if a != {} {
      var z :| z in a;
      Fewer(a - {z}, b - {z}, x);
    }
  }

  // A number above all nodes and fields that the constraints speak of.
  function Above(cs: seq<Constraint>): (n: nat)
    ensures forall c :: c in cs ==> c.dest < n && c.src < n && c.off < n
  {
    if cs == [] then 0 else
      var c, n := cs[0], Above(cs[1..]);
      assert forall d :: d in cs ==> d == c || d in cs[1..];
      n + c.dest + c.src + c.off + 1
  }

  function Nodes(n: nat): (r: set<nat>)
    ensures forall o: nat :: o in r <==> o < n
  {
    if n == 0 then {} else Nodes(n - 1) + {n - 1}
  }

  // Every node below n points to all of them.
  function Everything(n: nat): (s: Sol)
    ensures forall m: nat :: Pts(s, m) == if m < n then Nodes(n) else {}
  {
    map m | m in Nodes(n) :: Nodes(n)
  }

  lemma LeastExists(y: System)
    requires forall n :: 0 <= n < |y.rep| ==> y.rep[n] < |y.rep|
    ensures exists s :: IsLeast(y, s)
  {
    var n := Above(y.cs) + |y.rep| + |y.l.objSz|;
    var s := Everything(n);
    forall c | c in y.cs ensures Sat(y.l, s, c) {
      assert c.off + |y.l.objSz| <= n;
      assert forall o: nat :: o in Targets(y.l, Pts(s, c.dest), c.off) ==> o < n;
    }
    LeastBelow(y, s);
  }

  // ---------- The least solution mentions only address-taken objects ----------

  // objs contains every address that is taken and is closed under offsets within an object.
  ghost predicate ClosedUniverse(y: System, objs: set<nat>) {
    && (forall c :: c in y.cs && c.typ == AddrOf ==> c.src in objs)
    && (forall k :: Shift(y.l, objs, k) <= objs)
  }

  function Restrict(s: Sol, objs: set<nat>): (r: Sol)
    ensures forall n :: Pts(r, n) == Pts(s, n) * objs
  {
    map n | n in s.Keys :: s[n] * objs
  }

  lemma RestrictSat(y: System, s: Sol, objs: set<nat>, c: Constraint)
    requires Sat(y.l, s, c) && c in y.cs && ClosedUniverse(y, objs)
    ensures Sat(y.l, Restrict(s, objs), c)
  {
    var r := Restrict(s, objs);
    match c.typ
    case AddrOf =>
    case Copy =>
    case Load => assert Targets(y.l, Pts(r, c.src), c.off) <= Targets(y.l, Pts(s, c.src), c.off);
    case Store => assert Targets(y.l, Pts(r, c.dest), c.off) <= Targets(y.l, Pts(s, c.dest), c.off);
    case Gep => assert Shift(y.l, Pts(r, c.src), c.off) <= Shift(y.l, objs, c.off);
  }

  lemma LeastWithin(y: System, s: Sol, objs: set<nat>)
    requires IsLeast(y, s) && ClosedUniverse(y, objs)
    ensures forall n :: Pts(s, n) <= objs
  {
    var r := Restrict(s, objs);
    forall c | c in y.cs ensures Sat(y.l, r, c) {
      RestrictSat(y, s, objs, c);
    }
    assert Solves(y, r);
    assert Below(s, r);
  }
}
