/** Factoring of load and store constraints: n loads (or stores) of one pointer at one offset
    become a single one, of a new node, and n copies. */
module Factoring {
  import opened Constraints
  import opened SolverSteps

  // Groups of fewer constraints are left alone.
  const FACTOR_LS_MIN_SZ: nat := 2

  // The loads (stores) of node ref at offset off.
  datatype Key = Key(load: bool, ref: nat, off: nat)

  predicate InGroup(k: Key, c: Constraint) {
    if k.load then c.typ == Load && c.src == k.ref && c.off == k.off
    else c.typ == Store && c.dest == k.ref && c.off == k.off
  }

  // The other side of a load or store.
  function Other(k: Key, c: Constraint): nat { if k.load then c.dest else c.src }

  // The nodes that are loaded to (stored from).
  function Group(cs: seq<Constraint>, k: Key): set<nat> {
    set c | c in cs && InGroup(k, c) :: Other(k, c)
  }

  // The load to (store from) node x.
  function Complex(k: Key, x: nat): Constraint {
    if k.load then Constraint(Load, x, k.ref, k.off) else Constraint(Store, k.ref, x, k.off)
  }

  // The copy between the temporary node t and node x of the group.
  function CopyFor(k: Key, t: nat, x: nat): Constraint {
    if k.load then Constraint(Copy, x, t, 0) else Constraint(Copy, t, x, 0)
  }

  predicate IsComplex(c: Constraint) { c.typ == Load || c.typ == Store }

  // ---------- The new list ----------

  // What becomes of a group, given the temporary nodes.
  ghost predicate Emitted(cs: seq<Constraint>, temps: map<Key, nat>, k: Key, c: Constraint) {
    if k in temps then c == Complex(k, temps[k]) || exists x: nat :: x in Group(cs, k) && c == CopyFor(k, temps[k], x)
    else exists x: nat :: x in Group(cs, k) && c == Complex(k, x)
  }

  // Every group of at least two constraints has a temporary node of its own, numbered from n up.
  ghost predicate TempsFor(cs: seq<Constraint>, temps: map<Key, nat>, n: nat, n': nat) {
    && (forall k :: k in temps <==> |Group(cs, k)| >= FACTOR_LS_MIN_SZ)
    && (forall k :: k in temps ==> n <= temps[k] < n')
    && (forall k, m :: k in temps && m in temps && temps[k] == temps[m] ==> k == m)
  }

  ghost predicate Factored(cs: seq<Constraint>, temps: map<Key, nat>, cs': seq<Constraint>) {
    forall c :: c in cs' <==> (c in cs && !IsComplex(c)) || exists k: Key :: Group(cs, k) != {} && Emitted(cs, temps, k, c)
  }

  // After factoring, a pointer is loaded from at most once at each offset, and stored to at most once.
  lemma OncePerPointer(cs: seq<Constraint>, temps: map<Key, nat>, n: nat, n': nat, cs': seq<Constraint>, k: Key, c: Constraint, d: Constraint)
    requires TempsFor(cs, temps, n, n') && Factored(cs, temps, cs')
    requires c in cs' && d in cs' && InGroup(k, c) && InGroup(k, d)
    ensures c == d
  {
    OfGroup(cs, temps, cs', k, c);
    OfGroup(cs, temps, cs', k, d);
    if k !in temps {
      var x: nat :| x in Group(cs, k) && c == Complex(k, x);
      var y: nat :| y in Group(cs, k) && d == Complex(k, y);
      if x != y {
        TwoMembers(Group(cs, k), x, y);
      }
    }
  }

  lemma OfGroup(cs: seq<Constraint>, temps: map<Key, nat>, cs': seq<Constraint>, k: Key, c: Constraint)
    requires Factored(cs, temps, cs') && c in cs' && InGroup(k, c)
    ensures Emitted(cs, temps, k, c)
  {
    var m: Key :| Group(cs, m) != {} && Emitted(cs, temps, m, c);
    assert m == k;
  }

  lemma TwoMembers(s: set<nat>, x: nat, y: nat)
    requires x in s && y in s && x != y
    ensures |s| >= 2
  {
    assert y in s - {x} && |s - {x}| == |s| - 1;
  }

  // ---------- Meaning ----------

  // What the temporary node of a group points to.
  ghost function Bundle(l: Layout, cs: seq<Constraint>, s: Sol, k: Key): set<nat> {
    if k.load then set o, z | o in Targets(l, Pts(s, k.ref), k.off) && z in Pts(s, o) :: z
    else set x, z | x in Group(cs, k) && z in Pts(s, x) :: z
  }

  ghost function TempPts(l: Layout, cs: seq<Constraint>, s: Sol, temps: map<Key, nat>, t: nat): set<nat> {
    set k, z | k in temps && temps[k] == t && z in Bundle(l, cs, s, k) :: z
  }

  // s on the old nodes, and the bundles on the temporary ones.
  ghost function Extend(l: Layout, cs: seq<Constraint>, s: Sol, temps: map<Key, nat>): (e: Sol)
    ensures forall n: nat :: n !in temps.Values ==> Pts(e, n) == Pts(s, n)
    ensures forall n: nat :: n in temps.Values ==> Pts(e, n) == TempPts(l, cs, s, temps, n)
  {
    map n | n in s.Keys + temps.Values :: if n in temps.Values then TempPts(l, cs, s, temps, n) else s[n]
  }

  lemma BundleAt(l: Layout, cs: seq<Constraint>, s: Sol, temps: map<Key, nat>, n: nat, n': nat, k: Key)
    requires TempsFor(cs, temps, n, n') && k in temps
    ensures Pts(Extend(l, cs, s, temps), temps[k]) == Bundle(l, cs, s, k) && temps[k] in temps.Values
  {
    forall z | z in Bundle(l, cs, s, k) ensures z in TempPts(l, cs, s, temps, temps[k]) {
    }
  }

  // Nodes of the system, members of sets and what they lead to all lie below n.
  ghost predicate Within(y: System, s: Sol, n: nat) {
    && |y.rep| <= n && (forall m: nat :: m < |y.rep| ==> y.rep[m] < n) && (forall c :: c in y.cs ==> c.dest < n && c.src < n)
    && forall m: nat, off: nat, o: nat {:trigger o in Targets(y.l, Pts(s, m), off)} :: o in Targets(y.l, Pts(s, m), off) ==> o < n
  }

  lemma OldNode(y: System, s: Sol, temps: map<Key, nat>, n: nat, n': nat, m: nat)
    requires TempsFor(y.cs, temps, n, n') && m < n
    ensures Pts(Extend(y.l, y.cs, s, temps), m) == Pts(s, m)
  {
  }

  // Any solution of the factored list solves the original one.
  lemma FactoredSolves(y: System, cs': seq<Constraint>, temps: map<Key, nat>, n: nat, n': nat, t: Sol)
    requires TempsFor(y.cs, temps, n, n') && Factored(y.cs, temps, cs') && Solves(System(y.l, cs', y.rep), t)
    ensures Solves(y, t)
  {
    forall c | c in y.cs ensures Sat(y.l, t, c) {
      if IsComplex(c) {
        FactoredSat(y, cs', temps, t, c);
      }
    }
  }

  lemma FactoredSat(y: System, cs': seq<Constraint>, temps: map<Key, nat>, t: Sol, c: Constraint)
    requires Factored(y.cs, temps, cs') && c in y.cs && IsComplex(c) && forall d :: d in cs' ==> Sat(y.l, t, d)
    ensures Sat(y.l, t, c)
  {
    var k := Key(c.typ == Load, if c.typ == Load then c.src else c.dest, c.off);
    var x := Other(k, c);
    assert InGroup(k, c) && x in Group(y.cs, k) && c == Complex(k, x);
    if k in temps {
      var d, e := Complex(k, temps[k]), CopyFor(k, temps[k], x);
      assert Emitted(y.cs, temps, k, d) && Emitted(y.cs, temps, k, e);
      assert d in cs' && e in cs';
      assert Sat(y.l, t, d) && Sat(y.l, t, e);
    } else {
      assert Emitted(y.cs, temps, k, c);
    }
  }

  // The extension of a solution solves the factored list.
  lemma ExtendSolves(y: System, cs': seq<Constraint>, temps: map<Key, nat>, n: nat, n': nat, s: Sol)
    requires TempsFor(y.cs, temps, n, n') && Factored(y.cs, temps, cs') && Solves(y, s) && Within(y, s, n)
    ensures Solves(System(y.l, cs', y.rep), Extend(y.l, y.cs, s, temps))
  {
    var e := Extend(y.l, y.cs, s, temps);
    forall c | c in cs' ensures Sat(y.l, e, c) {
      if c in y.cs && !IsComplex(c) {
        OldNode(y, s, temps, n, n', c.dest);
        OldNode(y, s, temps, n, n', c.src);
        assert Sat(y.l, s, c);
      } else {
        var k: Key :| Group(y.cs, k) != {} && Emitted(y.cs, temps, k, c);
        EmittedSat(y, temps, n, n', s, k, c);
      }
    }
    forall m: nat | m < |y.rep| ensures Pts(e, m) == Pts(e, y.rep[m]) {
      OldNode(y, s, temps, n, n', m);
      OldNode(y, s, temps, n, n', y.rep[m]);
    }
  }

  // The members of a group come from the list.
  lemma GroupMembers(y: System, n: nat, s: Sol, k: Key, x: nat)
    requires Solves(y, s) && Within(y, s, n) && x in Group(y.cs, k)
    ensures Complex(k, x) in y.cs && x < n && k.ref < n && Sat(y.l, s, Complex(k, x))
  {
    var d :| d in y.cs && InGroup(k, d) && x == Other(k, d);
    assert d == Complex(k, x);
  }

  // What is dereferenced by a group are old nodes.
  lemma OldTargets(y: System, temps: map<Key, nat>, n: nat, n': nat, s: Sol, k: Key, x: nat)
    requires TempsFor(y.cs, temps, n, n') && Solves(y, s) && Within(y, s, n) && x in Group(y.cs, k)
    ensures var e := Extend(y.l, y.cs, s, temps);
      Pts(e, k.ref) == Pts(s, k.ref) && forall o :: o in Targets(y.l, Pts(s, k.ref), k.off) ==> Pts(e, o) == Pts(s, o)
  {
    hide Extend, TempPts, Targets;
    GroupMembers(y, n, s, k, x);
    OldNode(y, s, temps, n, n', k.ref);
    var e := Extend(y.l, y.cs, s, temps);
    forall o | o in Targets(y.l, Pts(s, k.ref), k.off) ensures Pts(e, o) == Pts(s, o) {
      OldNode(y, s, temps, n, n', o);
    }
  }

  lemma EmittedSat(y: System, temps: map<Key, nat>, n: nat, n': nat, s: Sol, k: Key, c: Constraint)
    requires TempsFor(y.cs, temps, n, n') && Solves(y, s) && Within(y, s, n) && Group(y.cs, k) != {} && Emitted(y.cs, temps, k, c)
    ensures Sat(y.l, Extend(y.l, y.cs, s, temps), c)
  {
    hide Extend, TempPts, Targets, Group, Within, TempsFor, Solves;
    var some: nat :| some in Group(y.cs, k);
    OldTargets(y, temps, n, n', s, k, some);
    if k in temps && c == Complex(k, temps[k]) {
      BundleAt(y.l, y.cs, s, temps, n, n', k);
      forall o, z | o in Targets(y.l, Pts(s, k.ref), k.off) && z in Bundle(y.l, y.cs, s, k) && !k.load ensures z in Pts(s, o) {
        var x: nat :| x in Group(y.cs, k) && z in Pts(s, x);
        GroupMembers(y, n, s, k, x);
      }
    } else {
      var x: nat :| x in Group(y.cs, k) && c == if k in temps then CopyFor(k, temps[k], x) else Complex(k, x);
      GroupMembers(y, n, s, k, x);
      OldNode(y, s, temps, n, n', x);
      if k in temps {
        BundleAt(y.l, y.cs, s, temps, n, n', k);
      }
    }
  }

  // Factoring is a conservative extension: the least solution of the factored list is that of
  // the original one, with a bundle for each temporary node.
  lemma FactoringConservative(y: System, cs': seq<Constraint>, temps: map<Key, nat>, n: nat, n': nat, s: Sol)
    requires TempsFor(y.cs, temps, n, n') && Factored(y.cs, temps, cs') && IsLeast(y, s) && Within(y, s, n)
    ensures IsLeast(System(y.l, cs', y.rep), Extend(y.l, y.cs, s, temps))
    ensures forall m: nat :: m < n ==> Pts(Extend(y.l, y.cs, s, temps), m) == Pts(s, m)
  {
    var e := Extend(y.l, y.cs, s, temps);
    ExtendSolves(y, cs', temps, n, n', s);
    forall m: nat | m < n ensures Pts(e, m) == Pts(s, m) {
      OldNode(y, s, temps, n, n', m);
    }
    forall t | Solves(System(y.l, cs', y.rep), t) ensures Below(e, t) {
      FactoredSolves(y, cs', temps, n, n', t);
      forall m: nat ensures Pts(e, m) <= Pts(t, m) {
        if m in temps.Values {
          var k :| k in temps && temps[k] == m;
          BundleBelow(y, cs', temps, n, n', s, t, k);
        }
      }
    }
  }

  lemma BundleBelow(y: System, cs': seq<Constraint>, temps: map<Key, nat>, n: nat, n': nat, s: Sol, t: Sol, k: Key)
    requires TempsFor(y.cs, temps, n, n') && Factored(y.cs, temps, cs') && Below(s, t) && Solves(System(y.l, cs', y.rep), t) && k in temps
    ensures Pts(Extend(y.l, y.cs, s, temps), temps[k]) <= Pts(t, temps[k])
  {
    BundleAt(y.l, y.cs, s, temps, n, n', k);
    hide Extend;
    var d := Complex(k, temps[k]);
    assert |Group(y.cs, k)| >= 2;
    assert Group(y.cs, k) != {} && Emitted(y.cs, temps, k, d);
    hide Targets;
    assert d in cs' && Sat(y.l, t, d);
    hide Group, TempsFor;
    forall z | z in Bundle(y.l, y.cs, s, k) ensures z in Pts(t, temps[k]) {
      if k.load {
        var o :| o in Targets(y.l, Pts(s, k.ref), k.off) && z in Pts(s, o);
        assert Pts(s, k.ref) <= Pts(t, k.ref);
        TargetsGrow(y.l, Pts(s, k.ref), Pts(t, k.ref), k.off);
      } else {
        var x :| x in Group(y.cs, k) && z in Pts(s, x);
        var e := CopyFor(k, temps[k], x);
        assert Emitted(y.cs, temps, k, e);
        assert e in cs' && Sat(y.l, t, e);
      }
    }
  }

  // All nodes that the system speaks of lie below n.
  ghost predicate NodesBelow(y: System, n: nat) {
    && LayoutOk(y.l) && |y.l.objSz| <= n && |y.rep| <= n && (forall m: nat :: m < |y.rep| ==> y.rep[m] < n)
    && forall c :: c in y.cs ==> c.dest < n && c.src < n && (c.typ == AddrOf ==> c.src < |y.l.objSz|)
  }

  // In a least solution nothing leads beyond the nodes of the system.
  lemma LeastIsWithin(y: System, s: Sol, n: nat)
    requires IsLeast(y, s) && NodesBelow(y, n)
    ensures Within(y, s, n)
  {
    var objs := Objects(y.l);
    forall k: nat ensures Shift(y.l, objs, k) <= objs {
      forall x: nat | x in Shift(y.l, objs, k) ensures x in objs {
        var o: nat :| o in objs && Size(y.l, o) > k && x == o + k;
        assert o + y.l.objSz[o] <= |y.l.objSz|;
      }
    }
    LeastWithin(y, s, objs);
    forall m: nat, off: nat, o: nat | o in Targets(y.l, Pts(s, m), off) ensures o < n {
      if off > 0 {
        var x :| x in Pts(s, m) && Size(y.l, x) > off && o == x + off;
        assert x in objs && o in Shift(y.l, objs, off);
      } else {
        assert o in Pts(s, m) && o in objs;
      }
    }
  }

  // ---------- The algorithm ----------

  // The constraints cs, sorted into groups; rest has the others in order.
  ghost predicate Sorted(cs: seq<Constraint>, groups: map<Key, set<nat>>, rest: seq<Constraint>) {
    GroupsOf(cs, groups) && rest == Others(cs) && |groups| <= |cs|
  }

  ghost predicate GroupsOf(cs: seq<Constraint>, groups: map<Key, set<nat>>) {
    && (forall k :: k in groups <==> Group(cs, k) != {})
    && (forall k :: k in groups ==> groups[k] == Group(cs, k))
  }

  // The constraints that are neither loads nor stores, in order.
  function Others(cs: seq<Constraint>): (r: seq<Constraint>)
    ensures forall c :: c in r <==> c in cs && !IsComplex(c)
  {
    if cs == [] then [] else
      var c := cs[|cs| - 1];
      assert cs == cs[..|cs| - 1] + [c];
      Others(cs[..|cs| - 1]) + if IsComplex(c) then [] else [c]
  }

  function KeyOf(c: Constraint): Key {
    if c.typ == Load then Key(true, c.src, c.off) else Key(false, c.dest, c.off)
  }

  lemma GroupStep(cs: seq<Constraint>, c: Constraint, k: Key)
    ensures Group(cs + [c], k) == Group(cs, k) + if InGroup(k, c) then {Other(k, c)} else {}
  {
    var all := cs + [c];
    forall x | x in Group(cs, k) + (if InGroup(k, c) then {Other(k, c)} else {}) ensures x in Group(all, k) {
      if x in Group(cs, k) {
        var d :| d in cs && InGroup(k, d) && x == Other(k, d);
        assert d in all;
      } else {
        assert c in all;
      }
    }
  }

  // One more constraint goes to its group, or to the others.
  lemma SortedMore(cs: seq<Constraint>, groups: map<Key, set<nat>>, rest: seq<Constraint>, c: Constraint)
    requires Sorted(cs, groups, rest)
    ensures if IsComplex(c) then Sorted(cs + [c], WithMember(groups, c), rest) else Sorted(cs + [c], groups, rest + [c])
  {
    OthersMore(cs, c);
    GroupsMore(cs, groups, c);
    OneMoreKey(groups, KeyOf(c), WithMember(groups, c)[KeyOf(c)]);
    hide Group, Others, WithMember, IsComplex;
  }

  lemma GroupsMore(cs: seq<Constraint>, groups: map<Key, set<nat>>, c: Constraint)
    requires GroupsOf(cs, groups)
    ensures GroupsOf(cs + [c], if IsComplex(c) then WithMember(groups, c) else groups)
  {
    var all := cs + [c];
    forall k: Key ensures Group(all, k) == Group(cs, k) + if IsComplex(c) && k == KeyOf(c) then {Other(k, c)} else {} {
      GroupStep(cs, c, k);
      assert InGroup(k, c) <==> IsComplex(c) && k == KeyOf(c);
    }
    hide Group, IsComplex, KeyOf, InGroup;
    if IsComplex(c) {
      AddedMember(cs, groups, c, all);
    }
  }

  lemma AddedMember(cs: seq<Constraint>, groups: map<Key, set<nat>>, c: Constraint, all: seq<Constraint>)
    requires GroupsOf(cs, groups)
    requires forall k: Key :: Group(all, k) == Group(cs, k) + if k == KeyOf(c) then {Other(k, c)} else {}
    ensures GroupsOf(all, WithMember(groups, c))
  {
    hide Group, KeyOf;
  }

  // The groups when c has joined its own.
  function WithMember(groups: map<Key, set<nat>>, c: Constraint): map<Key, set<nat>> {
    var k := KeyOf(c);
    groups[k := (if k in groups then groups[k] else {}) + {Other(k, c)}]
  }

  lemma OthersMore(cs: seq<Constraint>, c: Constraint)
    ensures Others(cs + [c]) == Others(cs) + if IsComplex(c) then [] else [c]
  {
    assert (cs + [c])[..|cs|] == cs;
  }

  lemma OneMoreKey(m: map<Key, set<nat>>, k: Key, v: set<nat>)
    ensures |m[k := v]| <= |m| + 1
  {
    assert m[k := v].Keys == m.Keys + {k};
  }

  lemma NoneSorted()
    ensures Sorted([], map[], [])
  {
  }

  method SortConstraints(oldCons: seq<Constraint>) returns (groups: map<Key, set<nat>>, rest: seq<Constraint>)
    ensures Sorted(oldCons, groups, rest)
  {
    hide Sorted, WithMember, IsComplex;
    groups, rest := map[], [];
    NoneSorted();
    for i := 0 to |oldCons|
      invariant Sorted(oldCons[..i], groups, rest)
    {
      var c := oldCons[i];
      SortedMore(oldCons[..i], groups, rest, c);
      assert oldCons[..i + 1] == oldCons[..i] + [c];
      if IsComplex(c) {
        groups := WithMember(groups, c);
      } else {
        rest := rest + [c];
      }
    }
    assert oldCons[..|oldCons|] == oldCons;
  }

  // c is one of the constraints that the nodes of a group give.
  predicate FromGroup(k: Key, other: set<nat>, copies: bool, t: nat, c: Constraint) {
    exists x :: x in other && c == if copies then CopyFor(k, t, x) else Complex(k, x)
  }

  // Append one constraint for each node of the group.
  method AppendAll(constraints: seq<Constraint>, k: Key, other: set<nat>, copies: bool, t: nat) returns (out: seq<Constraint>)
    ensures |out| == |constraints| + |other| && out[..|constraints|] == constraints
    ensures forall c :: c in out[|constraints|..] <==> FromGroup(k, other, copies, t, c)
  {
    out := constraints;
    var todo := other;
    ghost var added: seq<Constraint>, done: set<nat> := [], {};
    while todo != {}
      invariant todo !! done && todo + done == other && out == constraints + added && |added| == |done|
      invariant forall c :: c in added <==> FromGroup(k, done, copies, t, c)
      decreases todo
    {
      var x :| x in todo;
      var c := if copies then CopyFor(k, t, x) else Complex(k, x);
      assert forall d :: FromGroup(k, done + {x}, copies, t, d) <==> FromGroup(k, done, copies, t, d) || d == c by {
        assert x in done + {x} && forall z :: z in done ==> z in done + {x};
      }
      out, added := out + [c], added + [c];
      todo, done := todo - {x}, done + {x};
    }
    assert done == other;
  }

  // What a group adds to the list: itself, or a complex constraint of the node t and copies.
  ghost predicate Replaces(k: Key, other: set<nat>, t: nat, tail: seq<Constraint>) {
    if t == 0 then |tail| == |other| && forall c :: c in tail <==> FromGroup(k, other, false, 0, c)
    else |tail| == 1 + |other| && forall c :: c in tail <==> c == Complex(k, t) || FromGroup(k, other, true, t, c)
  }

  // Factor the loads (stores) of one pointer at one offset.  Returns the temporary node, or 0
  // if there are too few.  n constraints become one complex one and n copies.
  method FactorGroup(constraints: seq<Constraint>, k: Key, other: set<nat>, nn: nat)
    returns (out: seq<Constraint>, t: nat, nn': nat)
    requires nn > 0
    ensures t == (if |other| < FACTOR_LS_MIN_SZ then 0 else nn) && nn' == if t == 0 then nn else nn + 1
    ensures |constraints| <= |out| && out[..|constraints|] == constraints && Replaces(k, other, t, out[|constraints|..])
  {
    hide FromGroup;
    if |other| < FACTOR_LS_MIN_SZ {
      // Return unfactored constraints to the list.
      out := AppendAll(constraints, k, other, false, 0);
      return out, 0, nn;
    }
    t := nn;
    var first := constraints + [Complex(k, t)];
    out := AppendAll(first, k, other, true, t);
    assert out == first + out[|first|..];
    assert out[|constraints|..] == [Complex(k, t)] + out[|first|..];
    nn' := nn + 1;
  }

  // The temporary nodes while the groups in done have been dealt with.
  ghost predicate TempsSoFar(cs: seq<Constraint>, done: set<Key>, temps: map<Key, nat>, n: nat, n': nat) {
    && (forall k :: k in temps <==> k in done && |Group(cs, k)| >= FACTOR_LS_MIN_SZ)
    && (forall k :: k in temps ==> n <= temps[k] < n')
    && (forall k, m :: k in temps && m in temps && temps[k] == temps[m] ==> k == m)
    && n' == n + |temps|
  }

  // The constraint list while the groups in done have been dealt with.
  ghost predicate ListSoFar(cs: seq<Constraint>, done: set<Key>, temps: map<Key, nat>, out: seq<Constraint>) {
    && (forall k :: k in temps ==> k in done)
    && forall c :: c in out <==> (c in cs && !IsComplex(c)) || EmittedBy(cs, done, temps, c)
  }

  ghost predicate EmittedBy(cs: seq<Constraint>, done: set<Key>, temps: map<Key, nat>, c: Constraint) {
    exists k: Key :: k in done && Emitted(cs, temps, k, c)
  }

  lemma NextTemp(cs: seq<Constraint>, done: set<Key>, temps: map<Key, nat>, n: nat, n': nat, k: Key)
    requires TempsSoFar(cs, done, temps, n, n') && k !in done
    ensures if |Group(cs, k)| < FACTOR_LS_MIN_SZ then TempsSoFar(cs, done + {k}, temps, n, n')
      else TempsSoFar(cs, done + {k}, temps[k := n'], n, n' + 1)
  {
    hide Group;
  }

  lemma TailEmitted(cs: seq<Constraint>, temps: map<Key, nat>, k: Key, t: nat, tail: seq<Constraint>)
    requires Replaces(k, Group(cs, k), t, tail) && (if t == 0 then k !in temps else k in temps && temps[k] == t)
    ensures forall c :: c in tail <==> Emitted(cs, temps, k, c)
  {
    hide Group;
  }

  lemma NextList(cs: seq<Constraint>, done: set<Key>, temps: map<Key, nat>, out: seq<Constraint>, k: Key, t: nat, tail: seq<Constraint>)
    requires ListSoFar(cs, done, temps, out) && k !in done && Replaces(k, Group(cs, k), t, tail)
    ensures ListSoFar(cs, done + {k}, if t == 0 then temps else temps[k := t], out + tail)
  {
    var temps' := if t == 0 then temps else temps[k := t];
    TailEmitted(cs, temps', k, t, tail);
    forall c ensures EmittedBy(cs, done + {k}, temps', c) <==> EmittedBy(cs, done, temps, c) || Emitted(cs, temps', k, c) {
      assert forall m :: m in done ==> (Emitted(cs, temps', m, c) <==> Emitted(cs, temps, m, c));
      hide Emitted;
      assert forall m :: m in done + {k} <==> m in done || m == k;
    }
    hide Emitted, EmittedBy, Replaces, Group;
  }

  // Factor all groups; new nodes are numbered from nn up.
  method FactorLs(ghost y: System, oldCons: seq<Constraint>, nn: nat) returns (constraints: seq<Constraint>, nn': nat, temps: map<Key, nat>)
    requires nn > 0 && oldCons == y.cs && NodesBelow(y, nn)
    ensures TempsFor(oldCons, temps, nn, nn') && nn' == nn + |temps| <= nn + |oldCons| && Factored(oldCons, temps, constraints)
    // The least solution is the same on the old nodes.
    ensures forall s :: IsLeast(y, s) ==> IsLeast(System(y.l, constraints, y.rep), Extend(y.l, oldCons, s, temps))
    ensures forall s, m: nat :: m < nn ==> Pts(Extend(y.l, oldCons, s, temps), m) == Pts(s, m)
  {
    var groups, rest := SortConstraints(oldCons);
    assert |groups| <= |oldCons|;
    constraints, nn', temps := FactorGroups(oldCons, groups, rest, nn);
    hide TempsFor, Factored, Extend, IsLeast, NodesBelow, Sorted;
    FactoredLeast(y, constraints, temps, nn, nn');
  }

  method FactorGroups(ghost oldCons: seq<Constraint>, groups: map<Key, set<nat>>, rest: seq<Constraint>, nn: nat)
    returns (constraints: seq<Constraint>, nn': nat, temps: map<Key, nat>)
    requires nn > 0 && Sorted(oldCons, groups, rest)
    ensures TempsFor(oldCons, temps, nn, nn') && nn' == nn + |temps| && Factored(oldCons, temps, constraints) && |temps| <= |groups|
  {
    hide Emitted, Group, Replaces, Sorted, TempsSoFar, ListSoFar;
    constraints, nn', temps := rest, nn, map[];
    NoGroups(oldCons, groups, rest, nn);
    var todo := groups.Keys;
    ghost var done: set<Key> := {};
    while todo != {}
      invariant todo !! done && todo + done == groups.Keys && nn' >= nn && |temps| <= |done|
      invariant TempsSoFar(oldCons, done, temps, nn, nn') && ListSoFar(oldCons, done, temps, constraints)
      decreases todo
    {
      var k :| k in todo;
      SortedGroup(oldCons, groups, rest, k);
      NextTemp(oldCons, done, temps, nn, nn', k);
      ghost var out := constraints;
      var t;
      constraints, t, nn' := FactorGroup(constraints, k, groups[k], nn');
      assert constraints == out + constraints[|out|..];
      NextList(oldCons, done, temps, out, k, t, constraints[|out|..]);
      temps := if t == 0 then temps else temps[k := t];
      todo, done := todo - {k}, done + {k};
    }
    assert done == groups.Keys;
    AllFactored(oldCons, groups, rest, done, temps, constraints, nn, nn');
  }

  lemma FactoredLeast(y: System, cs': seq<Constraint>, temps: map<Key, nat>, n: nat, n': nat)
    requires TempsFor(y.cs, temps, n, n') && Factored(y.cs, temps, cs') && NodesBelow(y, n)
    ensures forall s :: IsLeast(y, s) ==> IsLeast(System(y.l, cs', y.rep), Extend(y.l, y.cs, s, temps))
    ensures forall s, m: nat :: m < n ==> Pts(Extend(y.l, y.cs, s, temps), m) == Pts(s, m)
  {
    hide TempsFor, Factored, Extend, IsLeast, NodesBelow, Within;
    forall s | IsLeast(y, s) ensures IsLeast(System(y.l, cs', y.rep), Extend(y.l, y.cs, s, temps)) {
      LeastIsWithin(y, s, n);
      FactoringConservative(y, cs', temps, n, n', s);
    }
    forall s, m: nat | m < n ensures Pts(Extend(y.l, y.cs, s, temps), m) == Pts(s, m) {
      OldNode(y, s, temps, n, n', m);
    }
  }

  lemma NoGroups(cs: seq<Constraint>, groups: map<Key, set<nat>>, rest: seq<Constraint>, n: nat)
    requires Sorted(cs, groups, rest)
    ensures TempsSoFar(cs, {}, map[], n, n) && ListSoFar(cs, {}, map[], rest)
  {
    hide Emitted, Group;
  }

  lemma SortedGroup(cs: seq<Constraint>, groups: map<Key, set<nat>>, rest: seq<Constraint>, k: Key)
    requires Sorted(cs, groups, rest) && k in groups
    ensures groups[k] == Group(cs, k)
  {
  }

  lemma AllFactored(cs: seq<Constraint>, groups: map<Key, set<nat>>, rest: seq<Constraint>, done: set<Key>, temps: map<Key, nat>,
                    out: seq<Constraint>, n: nat, n': nat)
    requires Sorted(cs, groups, rest) && done == groups.Keys && TempsSoFar(cs, done, temps, n, n') && ListSoFar(cs, done, temps, out)
    ensures TempsFor(cs, temps, n, n') && n' == n + |temps| && Factored(cs, temps, out)
  {
    hide Emitted, Group;
    forall k: Key | |Group(cs, k)| >= FACTOR_LS_MIN_SZ ensures k in done {
      assert Group(cs, k) != {};
    }
  }
}
