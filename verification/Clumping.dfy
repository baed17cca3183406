/** Renumbering: the object nodes move to the front, just after the special nodes. */
module Clumping {
  import opened Constraints
  import opened Offline

  // ---------- The new number of each node ----------

  // How many nodes from FIRST_VAR_NODE up to i (exclusive) are objects, and how many are not.
  function Objects(sz: seq<nat>, i: nat): nat {
    if i <= FIRST_VAR_NODE then 0 else Objects(sz, i - 1) + if SizeAt(sz, i - 1) > 0 then 1 else 0
  }

  function Values(sz: seq<nat>, i: nat): nat {
    if i <= FIRST_VAR_NODE then 0 else Values(sz, i - 1) + if SizeAt(sz, i - 1) > 0 then 0 else 1
  }

  function SizeAt(sz: seq<nat>, i: nat): nat { if i < |sz| then sz[i] else 0 }

  function Moved(sz: seq<nat>, i: nat): nat {
    if i < FIRST_VAR_NODE then i
    else if SizeAt(sz, i) > 0 then FIRST_VAR_NODE + Objects(sz, i)
    else FIRST_VAR_NODE + Objects(sz, |sz|) + Values(sz, i)
  }

  lemma {:induction false} CountsMonotone(sz: seq<nat>, i: nat, j: nat)
    requires FIRST_VAR_NODE <= i <= j
    ensures Objects(sz, i) <= Objects(sz, j) && Values(sz, i) <= Values(sz, j)
  {
    if i < j {
      CountsMonotone(sz, i, j - 1);
    }
  }

  lemma {:induction false} CountsAll(sz: seq<nat>, i: nat)
    requires FIRST_VAR_NODE <= i
    ensures Objects(sz, i) + Values(sz, i) == i - FIRST_VAR_NODE
  {
    if i > FIRST_VAR_NODE {
      CountsAll(sz, i - 1);
    }
  }

  // Every node below n gets a number below n; objects come before values.
  lemma MovedInRange(sz: seq<nat>, i: nat)
    requires FIRST_VAR_NODE <= |sz| && i < |sz|
    ensures Moved(sz, i) < |sz|
    ensures FIRST_VAR_NODE <= i ==> FIRST_VAR_NODE <= Moved(sz, i) && (Moved(sz, i) < FIRST_VAR_NODE + Objects(sz, |sz|) <==> sz[i] > 0)
  {
    CountsAll(sz, |sz|);
    if FIRST_VAR_NODE <= i {
      CountsMonotone(sz, i + 1, |sz|);
    }
  }

  lemma MovedInjective(sz: seq<nat>, i: nat, j: nat)
    requires FIRST_VAR_NODE <= |sz| && i < |sz| && j < |sz| && Moved(sz, i) == Moved(sz, j)
    ensures i == j
  {
    MovedInRange(sz, i);
    MovedInRange(sz, j);
    if FIRST_VAR_NODE <= i < j {
      CountsMonotone(sz, i + 1, j);
    } else if FIRST_VAR_NODE <= j < i {
      CountsMonotone(sz, j + 1, i);
    }
  }

  // Objects keep their order, and so do values; all objects come before all values.
  lemma OrderKept(sz: seq<nat>, i: nat, j: nat)
    requires FIRST_VAR_NODE <= i < |sz| && FIRST_VAR_NODE <= j < |sz|
    ensures Moved(sz, i) < Moved(sz, j) <==> if sz[i] > 0 <==> sz[j] > 0 then i < j else sz[i] > 0
  {
    MovedInRange(sz, i);
    MovedInRange(sz, j);
    if i < j {
      CountsMonotone(sz, i + 1, j);
    } else if j < i {
      CountsMonotone(sz, j + 1, i);
    }
  }

  // Objects are blocks of object nodes; of the special nodes only I2P is one, of size 1.
  ghost predicate Blocks(sz: seq<nat>) {
    && FIRST_VAR_NODE <= |sz| && sz[0] == 0 && sz[I2P] == 1 && sz[P_I2P] == 0
    && (forall o: nat :: o < |sz| ==> BlockAt(sz, o))
  }

  ghost predicate BlockAt(sz: seq<nat>, o: nat) {
    o + SizeAt(sz, o) <= |sz| && forall j: nat :: o <= j < o + SizeAt(sz, o) ==> SizeAt(sz, j) > 0
  }

  // The nodes of a block stay next to each other.
  lemma {:induction false} BlockContiguous(sz: seq<nat>, o: nat, k: nat)
    requires Blocks(sz) && o < |sz| && k < sz[o]
    ensures Moved(sz, o + k) == Moved(sz, o) + k
  {
    assert BlockAt(sz, o);
    hide Blocks;
    if k > 0 {
      BlockContiguous(sz, o, k - 1);
      assert SizeAt(sz, o + k) > 0 && SizeAt(sz, o + k - 1) > 0;
    }
  }

  // ---------- The renumbered system ----------

  function MovedCons(sz: seq<nat>, c: Constraint): Constraint {
    c.(dest := Moved(sz, c.dest), src := Moved(sz, c.src))
  }

  // to is the new layout: sizes and function heads have moved with their nodes.
  ghost predicate MovedLayout(l: Layout, to: Layout) {
    && |to.objSz| == FIRST_VAR_NODE + Objects(l.objSz, |l.objSz|)
    && (forall o: nat :: o < |l.objSz| && Moved(l.objSz, o) < |to.objSz| ==> to.objSz[Moved(l.objSz, o)] == l.objSz[o])
    && (forall o: nat :: o < |l.objSz| ==> (Moved(l.objSz, o) in to.funcs <==> o in l.funcs))
  }

  ghost predicate MovedList(sz: seq<nat>, cs: seq<Constraint>, to: seq<Constraint>) {
    |to| == |cs| && forall i :: 0 <= i < |cs| ==> to[i] == MovedCons(sz, cs[i])
  }

  ghost predicate InNodes(l: Layout, cs: seq<Constraint>) {
    Blocks(l.objSz) && forall c :: c in cs ==> c.dest < |l.objSz| && c.src < |l.objSz|
  }

  lemma MovedSize(l: Layout, to: Layout, o: nat)
    requires Blocks(l.objSz) && MovedLayout(l, to) && o < |l.objSz|
    ensures Size(to, Moved(l.objSz, o)) == Size(l, o)
  {
    BlocksFacts(l.objSz);
    hide Blocks;
    MovedInRange(l.objSz, o);
  }

  lemma BlocksFacts(sz: seq<nat>)
    requires Blocks(sz)
    ensures FIRST_VAR_NODE <= |sz| && sz[0] == 0 && sz[I2P] == 1 && sz[P_I2P] == 0
  {
  }

  lemma MovedSpecial(sz: seq<nat>, i: nat)
    requires Blocks(sz) && i < |sz|
    ensures Moved(sz, i) == I2P <==> i == I2P
  {
  }

  // ---------- Solutions, renumbered ----------

  ghost function MovedSet(sz: seq<nat>, p: set<nat>): set<nat> {
    set o | o in p :: Moved(sz, o)
  }

  // The solution s under the new numbers.
  ghost function Rename(sz: seq<nat>, s: Sol): Sol {
    map m: nat | m < |sz| :: NamedPts(sz, s, m)
  }

  ghost function NamedPts(sz: seq<nat>, s: Sol, m: nat): set<nat> {
    set i: nat, o | i < |sz| && Moved(sz, i) == m && o in Pts(s, i) :: Moved(sz, o)
  }

  lemma RenamedPts(sz: seq<nat>, s: Sol, i: nat)
    requires FIRST_VAR_NODE <= |sz| && i < |sz|
    ensures Pts(Rename(sz, s), Moved(sz, i)) == MovedSet(sz, Pts(s, i))
  {
    MovedInRange(sz, i);
    forall x | x in NamedPts(sz, s, Moved(sz, i)) ensures x in MovedSet(sz, Pts(s, i)) {
      var j: nat, o :| j < |sz| && Moved(sz, j) == Moved(sz, i) && o in Pts(s, j) && x == Moved(sz, o);
      MovedInjective(sz, i, j);
    }
  }

  // The solution t under the old numbers; members that are no nodes are dropped.
  ghost function Unname(sz: seq<nat>, t: Sol): (s: Sol)
    ensures forall i: nat :: i < |sz| ==> Pts(s, i) == OldPts(sz, t, i)
    ensures forall i: nat :: i >= |sz| ==> Pts(s, i) == {}
  {
    map i: nat | i < |sz| :: OldPts(sz, t, i)
  }

  ghost function OldPts(sz: seq<nat>, t: Sol, i: nat): set<nat> {
    set o: nat | o < |sz| && Moved(sz, o) in Pts(t, Moved(sz, i))
  }

  // Renumbering commutes with dereferencing at an offset.
  lemma TargetsMove(l: Layout, to: Layout, p: set<nat>, off: nat, o: nat)
    requires Blocks(l.objSz) && MovedLayout(l, to) && o < |l.objSz| && o in Targets(l, p, off)
    requires forall x :: x in p ==> x < |l.objSz|
    ensures Moved(l.objSz, o) in Targets(to, MovedSet(l.objSz, p), off)
  {
    var sz := l.objSz;
    hide Blocks, Moved, MovedLayout;
    if off == 0 {
      MovedSpecial(sz, o);
    } else {
      var x :| x in p && Size(l, x) > off && x !in l.funcs && o == x + off;
      MovedSize(l, to, x);
      BlockContiguous(sz, x, off);
      MovedFunc(l, to, x);
      assert Moved(sz, x) in MovedSet(sz, p);
    }
  }

  lemma MovedFunc(l: Layout, to: Layout, o: nat)
    requires MovedLayout(l, to) && o < |l.objSz|
    ensures Moved(l.objSz, o) in to.funcs <==> o in l.funcs
  {
  }

  lemma BlockEnd(sz: seq<nat>, o: nat, k: nat)
    requires Blocks(sz) && o < |sz| && k < sz[o]
    ensures o + k < |sz|
  {
    assert BlockAt(sz, o);
    hide Blocks;
  }

  lemma TargetsUnmove(l: Layout, to: Layout, p: set<nat>, off: nat, w: nat)
    requires Blocks(l.objSz) && MovedLayout(l, to) && w in Targets(to, MovedSet(l.objSz, p), off)
    requires forall x :: x in p ==> x < |l.objSz|
    ensures exists o: nat :: o < |l.objSz| && o in Targets(l, p, off) && Moved(l.objSz, o) == w
  {
    var sz := l.objSz;
    hide Blocks, Moved, MovedLayout;
    if off == 0 {
      var o :| o in p && Moved(sz, o) == w;
      MovedSpecial(sz, o);
      assert o in Targets(l, p, off);
    } else {
      var v :| v in MovedSet(sz, p) && Size(to, v) > off && v !in to.funcs && w == v + off;
      var x :| x in p && Moved(sz, x) == v;
      MovedSize(l, to, x);
      BlockContiguous(sz, x, off);
      MovedFunc(l, to, x);
      BlockEnd(sz, x, off);
      assert x + off in Targets(l, p, off);
    }
  }

  lemma ShiftMove(l: Layout, to: Layout, p: set<nat>, off: nat)
    requires Blocks(l.objSz) && MovedLayout(l, to) && forall x :: x in p ==> x < |l.objSz|
    ensures Shift(to, MovedSet(l.objSz, p), off) == MovedSet(l.objSz, Shift(l, p, off))
  {
    var sz := l.objSz;
    hide Blocks, Moved, MovedLayout;
    forall w ensures w in Shift(to, MovedSet(sz, p), off) <==> w in MovedSet(sz, Shift(l, p, off)) {
      if w in Shift(to, MovedSet(sz, p), off) {
        var v :| v in MovedSet(sz, p) && Size(to, v) > off && w == v + off;
        var x :| x in p && Moved(sz, x) == v;
        MovedSize(l, to, x);
        BlockContiguous(sz, x, off);
        assert x + off in Shift(l, p, off);
      }
      if w in MovedSet(sz, Shift(l, p, off)) {
        var o :| o in Shift(l, p, off) && w == Moved(sz, o);
        var x :| x in p && Size(l, x) > off && o == x + off;
        MovedSize(l, to, x);
        BlockContiguous(sz, x, off);
        assert Moved(sz, x) in MovedSet(sz, p);
      }
    }
  }

  // ---------- The theorem ----------

  ghost predicate MembersWithin(s: Sol, n: nat) {
    forall m: nat, o: nat {:trigger o in Pts(s, m)} :: o in Pts(s, m) ==> o < n
  }

  lemma RenameSat(l: Layout, to: Layout, s: Sol, c: Constraint)
    requires Blocks(l.objSz) && MovedLayout(l, to) && MembersWithin(s, |l.objSz|) && c.dest < |l.objSz| && c.src < |l.objSz|
    requires Sat(l, s, c)
    ensures Sat(to, Rename(l.objSz, s), MovedCons(l.objSz, c))
  {
    var sz := l.objSz;
    var t, d := Rename(sz, s), MovedCons(sz, c);
    BlocksFacts(sz);
    hide Blocks, Moved, MovedLayout, Rename;
    RenamedPts(sz, s, c.dest);
    RenamedPts(sz, s, c.src);
    match c.typ
    case AddrOf =>
    case Copy =>
    case Load =>
      forall w | w in Targets(to, Pts(t, d.src), d.off) ensures Pts(t, w) <= Pts(t, d.dest) {
        TargetsUnmove(l, to, Pts(s, c.src), c.off, w);
        var o: nat :| o < |sz| && o in Targets(l, Pts(s, c.src), c.off) && Moved(sz, o) == w;
        RenamedPts(sz, s, o);
      }
    case Store =>
      forall w | w in Targets(to, Pts(t, d.dest), d.off) ensures Pts(t, d.src) <= Pts(t, w) {
        TargetsUnmove(l, to, Pts(s, c.dest), c.off, w);
        var o: nat :| o < |sz| && o in Targets(l, Pts(s, c.dest), c.off) && Moved(sz, o) == w;
        RenamedPts(sz, s, o);
      }
    case Gep =>
      ShiftMove(l, to, Pts(s, c.src), c.off);
  }

  // The members of a set under the old numbers, taken forward again.
  lemma OldMoved(sz: seq<nat>, t: Sol, i: nat)
    ensures MovedSet(sz, OldPts(sz, t, i)) <= Pts(t, Moved(sz, i)) && forall x :: x in OldPts(sz, t, i) ==> x < |sz|
  {
  }

  lemma UnnameSat(l: Layout, to: Layout, t: Sol, c: Constraint)
    requires Blocks(l.objSz) && MovedLayout(l, to) && c.dest < |l.objSz| && c.src < |l.objSz|
    requires Sat(to, t, MovedCons(l.objSz, c))
    ensures Sat(l, Unname(l.objSz, t), c)
  {
    var sz := l.objSz;
    var s, d := Unname(sz, t), MovedCons(sz, c);
    OldMoved(sz, t, c.dest);
    OldMoved(sz, t, c.src);
    hide Unname, Blocks, Moved, MovedLayout;
    match c.typ
    case AddrOf =>
    case Copy =>
    case Load =>
      forall o | o in Targets(l, Pts(s, c.src), c.off) ensures Pts(s, o) <= Pts(s, c.dest) {
        if o < |sz| {
          TargetsMove(l, to, Pts(s, c.src), c.off, o);
          TargetsGrow(to, MovedSet(sz, Pts(s, c.src)), Pts(t, d.src), c.off);
          assert Pts(t, Moved(sz, o)) <= Pts(t, d.dest);
        }
      }
    case Store =>
      forall o | o in Targets(l, Pts(s, c.dest), c.off) ensures Pts(s, c.src) <= Pts(s, o) {
        TargetInRange(l, Pts(s, c.dest), c.off, o);
        TargetsMove(l, to, Pts(s, c.dest), c.off, o);
        TargetsGrow(to, MovedSet(sz, Pts(s, c.dest)), Pts(t, d.dest), c.off);
        assert Pts(t, d.src) <= Pts(t, Moved(sz, o));
      }
    case Gep =>
      ShiftMove(l, to, Pts(s, c.src), c.off);
      assert Shift(to, MovedSet(sz, Pts(s, c.src)), c.off) <= Shift(to, Pts(t, d.src), c.off);
      forall o | o in Shift(l, Pts(s, c.src), c.off) ensures o in Pts(s, c.dest) {
        ShiftInRange(l, Pts(s, c.src), c.off, o);
        assert Moved(sz, o) in MovedSet(sz, Shift(l, Pts(s, c.src), c.off));
      }
  }

  lemma TargetInRange(l: Layout, p: set<nat>, off: nat, o: nat)
    requires Blocks(l.objSz) && o in Targets(l, p, off) && forall x :: x in p ==> x < |l.objSz|
    ensures o < |l.objSz|
  {
    hide Blocks;
    if off > 0 {
      var x :| x in p && Size(l, x) > off && o == x + off;
      BlockEnd(l.objSz, x, off);
    }
  }

  lemma ShiftInRange(l: Layout, p: set<nat>, off: nat, o: nat)
    requires Blocks(l.objSz) && o in Shift(l, p, off)
    ensures o < |l.objSz|
  {
    hide Blocks;
    var x :| x in p && Size(l, x) > off && o == x + off;
    BlockEnd(l.objSz, x, off);
  }

  // Members of the least solution are numbers of nodes.
  lemma LeastMembers(l: Layout, cs: seq<Constraint>, s: Sol)
    requires InNodes(l, cs) && IsLeast(System(l, cs, []), s)
    ensures MembersWithin(s, |l.objSz|)
  {
    var y, objs := System(l, cs, []), Nodes(|l.objSz|);
    forall k: nat ensures Shift(l, objs, k) <= objs {
      forall o: nat | o in Shift(l, objs, k) ensures o in objs {
        ShiftInRange(l, objs, k, o);
      }
    }
    hide IsLeast, Blocks;
    LeastWithin(y, s, objs);
  }

  // The least solution of the renumbered system is the renumbered least solution.
  lemma ClumpingPreserves(l: Layout, cs: seq<Constraint>, to: Layout, cs': seq<Constraint>, s: Sol)
    requires InNodes(l, cs) && MovedLayout(l, to) && MovedList(l.objSz, cs, cs')
    requires IsLeast(System(l, cs, []), s)
    ensures IsLeast(System(to, cs', []), Rename(l.objSz, s))
  {
    var sz := l.objSz;
    LeastMembers(l, cs, s);
    forall d | d in cs' ensures Sat(to, Rename(sz, s), d) {
      var i: nat :| i < |cs'| && cs'[i] == d;
      assert cs[i] in cs;
      RenameSat(l, to, s, cs[i]);
    }
    forall t | Solves(System(to, cs', []), t) ensures Below(Rename(sz, s), t) {
      forall c | c in cs ensures Sat(l, Unname(sz, t), c) {
        var i: nat :| i < |cs| && cs[i] == c;
        assert cs'[i] in cs';
        UnnameSat(l, to, t, c);
      }
      assert Solves(System(l, cs, []), Unname(sz, t));
      RenamedBelow(sz, s, t);
    }
  }

  lemma RenamedBelow(sz: seq<nat>, s: Sol, t: Sol)
    requires FIRST_VAR_NODE <= |sz| && Below(s, Unname(sz, t))
    ensures Below(Rename(sz, s), t)
  {
  }

  // ---------- The algorithm ----------

  // Nodes below i that are objects (values) have been given their new numbers.
  ghost predicate Placed(sz: seq<nat>, moveTo: seq<nat>, i: nat, objects: bool) {
    |moveTo| == |sz| && forall j: nat :: j < |sz| && j < i && (j >= FIRST_VAR_NODE ==> (sz[j] > 0) == objects) ==> moveTo[j] == Moved(sz, j)
  }

  // newSz holds the sizes of the objects below i, at their new numbers.
  ghost predicate Filled(sz: seq<nat>, newSz: seq<nat>, i: nat) {
    && |newSz| == FIRST_VAR_NODE + Objects(sz, i)
    && forall j: nat :: j < i && j < |sz| && (j >= FIRST_VAR_NODE ==> sz[j] > 0) ==> Moved(sz, j) < |newSz| && newSz[Moved(sz, j)] == sz[j]
  }

  lemma NextObject(sz: seq<nat>, newSz: seq<nat>, i: nat)
    requires Filled(sz, newSz, i) && FIRST_VAR_NODE <= i < |sz|
    ensures Filled(sz, if sz[i] > 0 then newSz + [sz[i]] else newSz, i + 1)
    ensures sz[i] > 0 ==> Moved(sz, i) == |newSz|
  {
  }

  lemma ObjectPlaced(sz: seq<nat>, moveTo: seq<nat>, newSz: seq<nat>, i: nat)
    requires Filled(sz, newSz, i) && Placed(sz, moveTo, i, true) && FIRST_VAR_NODE <= i < |sz| == |moveTo| && sz[i] > 0
    ensures Filled(sz, newSz + [sz[i]], i + 1) && Placed(sz, moveTo[i := |newSz|], i + 1, true)
  {
    NextObject(sz, newSz, i);
    hide Moved, Filled;
  }

  lemma ValuePassed(sz: seq<nat>, moveTo: seq<nat>, newSz: seq<nat>, i: nat)
    requires Filled(sz, newSz, i) && Placed(sz, moveTo, i, true) && FIRST_VAR_NODE <= i < |sz| && sz[i] == 0
    ensures Filled(sz, newSz, i + 1) && Placed(sz, moveTo, i + 1, true)
  {
    NextObject(sz, newSz, i);
    hide Moved, Filled;
  }

  lemma SpecialPlaced(sz: seq<nat>, moveTo: seq<nat>)
    requires FIRST_VAR_NODE <= |sz| == |moveTo| && forall i :: 0 <= i < FIRST_VAR_NODE ==> moveTo[i] == i
    ensures Placed(sz, moveTo, FIRST_VAR_NODE, true) && Filled(sz, sz[..FIRST_VAR_NODE], FIRST_VAR_NODE)
  {
  }

  // Give every object its new number.
  method PlaceObjects(sz: seq<nat>) returns (moveTo: seq<nat>, newSz: seq<nat>)
    requires FIRST_VAR_NODE <= |sz|
    ensures Placed(sz, moveTo, |sz|, true) && Filled(sz, newSz, |sz|)
  {
    // Special nodes keep their numbers.
    moveTo, newSz := SpecialFirst(|sz|), sz[..FIRST_VAR_NODE];
    SpecialPlaced(sz, moveTo);
    hide *;
    var nn := FIRST_VAR_NODE;
    var i := FIRST_VAR_NODE;
    while i < |sz|
      invariant FIRST_VAR_NODE <= i <= |sz| && nn == |newSz| && |moveTo| == |sz| && Filled(sz, newSz, i)
      invariant Placed(sz, moveTo, i, true)
    {
      if sz[i] > 0 {
        ObjectPlaced(sz, moveTo, newSz, i);
        newSz := newSz + [sz[i]];
        moveTo := moveTo[i := nn];
        nn := nn + 1;
      } else {
        ValuePassed(sz, moveTo, newSz, i);
      }
      i := i + 1;
    }
  }

  function SpecialFirst(n: nat): (r: seq<nat>)
    requires FIRST_VAR_NODE <= n
    ensures |r| == n && forall i :: 0 <= i < FIRST_VAR_NODE ==> r[i] == i
  {
    seq(n, i => if i < FIRST_VAR_NODE then i else 0)
  }

  // Then every other node.
  method PlaceValues(sz: seq<nat>, moveTo0: seq<nat>, nn0: nat) returns (moveTo: seq<nat>)
    requires FIRST_VAR_NODE <= |sz| && Placed(sz, moveTo0, |sz|, true) && nn0 == FIRST_VAR_NODE + Objects(sz, |sz|)
    ensures |moveTo| == |sz| && forall j: nat :: j < |sz| ==> moveTo[j] == Moved(sz, j)
  {
    hide Placed, Objects, Values, Moved;
    moveTo := moveTo0;
    var nn := nn0;
    var i := FIRST_VAR_NODE;
    NoValues(sz, moveTo);
    while i < |sz|
      invariant FIRST_VAR_NODE <= i <= |sz| && nn == nn0 + Values(sz, i)
      invariant Placed(sz, moveTo, |sz|, true) && Placed(sz, moveTo, i, false)
    {
      NextValue(sz, moveTo, i, nn0);
      if sz[i] == 0 {
        moveTo := moveTo[i := nn];
        nn := nn + 1;
      }
      i := i + 1;
    }
    AllPlaced(sz, moveTo);
  }

  lemma NoValues(sz: seq<nat>, moveTo: seq<nat>)
    requires Placed(sz, moveTo, |sz|, true) && FIRST_VAR_NODE <= |sz|
    ensures Placed(sz, moveTo, FIRST_VAR_NODE, false) && Values(sz, FIRST_VAR_NODE) == 0 && |moveTo| == |sz|
  {
  }

  lemma NextValue(sz: seq<nat>, moveTo: seq<nat>, i: nat, nn0: nat)
    requires Placed(sz, moveTo, |sz|, true) && Placed(sz, moveTo, i, false) && FIRST_VAR_NODE <= i < |sz|
    requires nn0 == FIRST_VAR_NODE + Objects(sz, |sz|)
    ensures |moveTo| == |sz|
    ensures if sz[i] == 0
      then var next := moveTo[i := nn0 + Values(sz, i)];
        Placed(sz, next, |sz|, true) && Placed(sz, next, i + 1, false) && Values(sz, i + 1) == Values(sz, i) + 1
      else Placed(sz, moveTo, i + 1, false) && Values(sz, i + 1) == Values(sz, i)
  {
    hide Moved, Objects, Values;
    ValueStep(sz, i);
  }

  lemma ValueStep(sz: seq<nat>, i: nat)
    requires FIRST_VAR_NODE <= i < |sz|
    ensures Values(sz, i + 1) == Values(sz, i) + if sz[i] > 0 then 0 else 1
    ensures sz[i] == 0 ==> Moved(sz, i) == FIRST_VAR_NODE + Objects(sz, |sz|) + Values(sz, i)
  {
  }

  lemma AllPlaced(sz: seq<nat>, moveTo: seq<nat>)
    requires Placed(sz, moveTo, |sz|, true) && Placed(sz, moveTo, |sz|, false)
    ensures |moveTo| == |sz| && forall j: nat :: j < |sz| ==> moveTo[j] == Moved(sz, j)
  {
  }

  // Renumber the nodes so that the object nodes come first, in all constraints.
  method ClumpAddrTaken(l: Layout, cs: seq<Constraint>) returns (moveTo: seq<nat>, to: Layout, constraints: seq<Constraint>)
    requires InNodes(l, cs) && forall c :: c in cs && c.typ == AddrOf ==> SizeAt(l.objSz, c.src) > 0
    ensures |moveTo| == |l.objSz| && forall j: nat :: j < |moveTo| ==> moveTo[j] == Moved(l.objSz, j)
    ensures MovedLayout(l, to) && MovedList(l.objSz, cs, constraints) && Clumped(to)
    ensures forall c :: c in constraints && c.typ == AddrOf ==> IsObject(to, c.src)
    ensures forall s :: IsLeast(System(l, cs, []), s) ==> IsLeast(System(to, constraints, []), Rename(l.objSz, s))
  {
    hide Blocks, Moved, Objects, Values, Placed, Filled, Clumped, MovedLayout, SizeAt, BlockAt, IsObject, IsLeast;
    BlocksFacts(l.objSz);
    var newSz;
    moveTo, newSz := PlaceObjects(l.objSz);
    FilledSize(l.objSz, newSz);
    moveTo := PlaceValues(l.objSz, moveTo, |newSz|);
    to := Layout(newSz, set f | f in l.funcs && f < |l.objSz| :: moveTo[f]);
    LayoutMoved(l, to);
    BlocksClumped(l, to);
    constraints := RenumberConstraints(l, to, cs, moveTo);
    forall s | IsLeast(System(l, cs, []), s) ensures IsLeast(System(to, constraints, []), Rename(l.objSz, s)) {
      ClumpingPreserves(l, cs, to, constraints, s);
    }
  }

  method RenumberConstraints(l: Layout, to: Layout, cs: seq<Constraint>, moveTo: seq<nat>) returns (constraints: seq<Constraint>)
    requires InNodes(l, cs) && MovedLayout(l, to) && forall c :: c in cs && c.typ == AddrOf ==> SizeAt(l.objSz, c.src) > 0
    requires |moveTo| == |l.objSz| && forall j: nat :: j < |moveTo| ==> moveTo[j] == Moved(l.objSz, j)
    ensures MovedList(l.objSz, cs, constraints)
    ensures forall c :: c in constraints && c.typ == AddrOf ==> IsObject(to, c.src)
  {
    hide Blocks, Moved, MovedLayout, SizeAt, BlockAt, IsObject;
    constraints := [];
    for i := 0 to |cs|
      invariant |constraints| == i && forall k :: 0 <= k < i ==> constraints[k] == MovedCons(l.objSz, cs[k])
      invariant forall c :: c in constraints && c.typ == AddrOf ==> IsObject(to, c.src)
    {
      var c := cs[i];
      assert c in cs;
      var d := c.(dest := moveTo[c.dest], src := moveTo[c.src]);
      // No value has its address taken.
      if c.typ == AddrOf {
        MovedObject(l, to, c.src);
      }
      constraints := constraints + [d];
    }
  }

  lemma FilledSize(sz: seq<nat>, newSz: seq<nat>)
    requires Filled(sz, newSz, |sz|)
    ensures |newSz| == FIRST_VAR_NODE + Objects(sz, |sz|)
  {
  }

  lemma LayoutMoved(l: Layout, to: Layout)
    requires Filled(l.objSz, to.objSz, |l.objSz|) && FIRST_VAR_NODE <= |l.objSz|
    requires to.funcs == set f | f in l.funcs && f < |l.objSz| :: Moved(l.objSz, f)
    ensures MovedLayout(l, to)
  {
    var sz := l.objSz;
    FilledSize(sz, to.objSz);
    forall o: nat | o < |sz| && Moved(sz, o) < |to.objSz| ensures to.objSz[Moved(sz, o)] == sz[o] {
      MovedInRange(sz, o);
    }
    hide Moved, Filled;
    forall o: nat | o < |sz| && Moved(sz, o) in to.funcs ensures o in l.funcs {
      var f :| f in l.funcs && f < |sz| && Moved(sz, f) == Moved(sz, o);
      MovedInjective(sz, f, o);
    }
  }

  lemma MovedObject(l: Layout, to: Layout, o: nat)
    requires Blocks(l.objSz) && MovedLayout(l, to) && SizeAt(l.objSz, o) > 0
    ensures o < |l.objSz| && IsObject(to, Moved(l.objSz, o))
  {
    hide Blocks, Objects, Values, MovedLayout, Moved;
    BlocksFacts(l.objSz);
    LayoutSize(l, to);
    SpecialStays(l.objSz);
    if o >= FIRST_VAR_NODE {
      MovedInRange(l.objSz, o);
    }
  }

  lemma LayoutSize(l: Layout, to: Layout)
    requires MovedLayout(l, to)
    ensures |to.objSz| == FIRST_VAR_NODE + Objects(l.objSz, |l.objSz|)
  {
  }

  lemma SpecialStays(sz: seq<nat>)
    ensures forall i: nat :: i < FIRST_VAR_NODE ==> Moved(sz, i) == i
  {
  }

  // Every number in the object range is that of some object.
  lemma {:induction false} ObjectAt(sz: seq<nat>, n: nat, m: nat)
    requires FIRST_VAR_NODE <= n <= |sz| && FIRST_VAR_NODE <= m < FIRST_VAR_NODE + Objects(sz, n)
    ensures exists o: nat :: FIRST_VAR_NODE <= o < n && sz[o] > 0 && Moved(sz, o) == m
  {
    if sz[n - 1] > 0 && m == FIRST_VAR_NODE + Objects(sz, n - 1) {
      assert Moved(sz, n - 1) == m;
    } else {
      ObjectAt(sz, n - 1, m);
    }
  }

  lemma BlockMember(sz: seq<nat>, o: nat, k: nat)
    requires Blocks(sz) && o < |sz| && k < sz[o]
    ensures SizeAt(sz, o + k) > 0
  {
    assert BlockAt(sz, o);
    hide Blocks;
  }

  lemma BlocksClumped(l: Layout, to: Layout)
    requires Blocks(l.objSz) && MovedLayout(l, to)
    ensures Clumped(to)
  {
    hide Moved, Objects, Values, Blocks, MovedLayout;
    SpecialSizes(l, to);
    LayoutSize(l, to);
    forall m: nat | FIRST_VAR_NODE <= m < |to.objSz| ensures 0 < to.objSz[m] && m + to.objSz[m] <= |to.objSz| {
      ObjectFits(l, to, m);
    }
  }

  lemma ObjectFits(l: Layout, to: Layout, m: nat)
    requires Blocks(l.objSz) && MovedLayout(l, to) && FIRST_VAR_NODE <= m < |to.objSz|
    ensures 0 < to.objSz[m] && m + to.objSz[m] <= |to.objSz|
  {
    hide Moved, Objects, Values, Blocks, MovedLayout, SizeAt, BlockAt;
    var sz := l.objSz;
    SpecialSizes(l, to);
    LayoutSize(l, to);
    ObjectAt(sz, |sz|, m);
    var o: nat :| FIRST_VAR_NODE <= o < |sz| && sz[o] > 0 && Moved(sz, o) == m;
    MovedSize(l, to, o);
    var k := sz[o] - 1;
    BlockContiguous(sz, o, k);
    BlockEnd(sz, o, k);
    BlockMember(sz, o, k);
    InObjectRange(sz, o + k);
  }

  lemma InObjectRange(sz: seq<nat>, i: nat)
    requires FIRST_VAR_NODE <= i < |sz| && SizeAt(sz, i) > 0
    ensures Moved(sz, i) < FIRST_VAR_NODE + Objects(sz, |sz|)
  {
    hide Objects, Values, Moved;
    MovedInRange(sz, i);
  }

  lemma SpecialSizes(l: Layout, to: Layout)
    requires Blocks(l.objSz) && MovedLayout(l, to)
    ensures FIRST_VAR_NODE <= |l.objSz| && FIRST_VAR_NODE <= |to.objSz| && to.objSz[0] == 0 && to.objSz[I2P] == 1 && to.objSz[P_I2P] == 0
  {
    BlocksFacts(l.objSz);
    SpecialStays(l.objSz);
    LayoutSize(l, to);
    hide Moved, Objects, Blocks;
    assert forall o: nat :: o < FIRST_VAR_NODE ==> Moved(l.objSz, o) < |to.objSz|;
  }
}
