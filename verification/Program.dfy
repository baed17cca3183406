/** The whole optimisation of a program's constraint list, and its solution: the nodes are
    renumbered, two passes of value numbering follow, loads and stores are factored, and the
    rest is solved. */
module Program {
  import opened Constraints
  import opened ConstraintGraph
  import opened Building
  import opened Offline
  import opened OfflineGraph
  import opened Rewriting
  import opened Optimizing = Optimizer
  import opened Passes
  import opened Clumping
  import opened Factoring
  import opened Analysis
  import OffsetMasks
  import SolverSteps
  import PtrEq
  import Sets = UnionFind

  // ---------- Two passes ----------

  // s is below r on the nodes below n, and equal to it there if all stores reach.
  ghost predicate Retained(cs: seq<Constraint>, s: Sol, r: Sol, n: nat) {
    forall m: nat :: m < n ==> Pts(s, m) <= Pts(r, m) && (StoresReach(cs, s) ==> Pts(r, m) == Pts(s, m))
  }

  // What the program's constraint list is like when its objects have been clumped.
  ghost predicate ClumpedInput(y: System, functions: set<nat>, n: nat) {
    && y.rep == seq(n, i => i) && Accepts(y, n) && OptInput(y, functions) && OffsetsOk(y.l, y.cs)
    && SetOnce(y.cs) && NoParamTaken(y.l, functions, y.cs) && n + |y.cs| <= Sets.NODE_RANK_MIN
  }

  // What a pass leaves: nothing of the least solution s is missing in y', and nothing has come
  // if all stores reach; in that case they still do.
  ghost predicate Follows(y: System, s: Sol, y': System) {
    && (forall t :: Solves(y', t) ==> Below(s, t))
    && (StoresReach(y.cs, s) ==> IsLeast(y', s) && StoresReach(y'.cs, s))
  }

  lemma FollowsPass(d: Done, s: Sol, nonptr: set<nat>, cs': seq<Constraint>)
    requires Rewritten(d.y.cs, d.root, nonptr, cs')
    requires forall t :: Solves(System(d.y.l, cs', d.root), t) ==> Below(s, t)
    requires IsLeast(System(d.y.l, cs', d.root), s) <==> Respects(d.root, s)
    requires StoresReach(d.y.cs, s) ==> IsLeast(System(d.y.l, cs', d.root), s)
    ensures Follows(d.y, s, System(d.y.l, cs', d.root))
  {
    if StoresReach(d.y.cs, s) {
      StoresStillReach(d.y.cs, d.root, nonptr, cs', s);
    }
  }

  // Two passes in a row.
  lemma FollowsTwice(y: System, s: Sol, y1: System, s1: Sol, y2: System, s2: Sol)
    requires IsLeast(y1, s1) && IsLeast(y2, s2) && Follows(y, s, y1) && Follows(y1, s1, y2)
    ensures Below(s, s2) && (StoresReach(y.cs, s) ==> forall m :: Pts(s2, m) == Pts(s, m))
  {
    hide StoresReach, IsLeast, Solves;
    LeastSolves(y1, s1);
    LeastSolves(y2, s2);
    if StoresReach(y.cs, s) {
      LeastUnique(y1, s, s1);
      ReachesSame(y1.cs, s, s1);
      LeastUnique(y2, s1, s2);
    }
  }

  // A list that is fit for the next step.
  ghost predicate Ready(y: System, functions: set<nat>, n: nat) {
    && |y.rep| == n && OptInput(y, functions) && SpecialApart(y.rep) && SolverSteps.LayoutOk(y.l)
    && NoParamTaken(y.l, functions, y.cs) && OffsetsOk(y.l, y.cs) && (forall c :: c in y.cs && c.typ == Gep ==> c.off > 0)
    && (forall c :: c in y.cs && c.typ == Copy ==> c.src != c.dest)
  }

  lemma ReadyFirst(y: System, functions: set<nat>, n: nat)
    requires ClumpedInput(y, functions, n)
    ensures Ready(y, functions, n) && Lowest(y.rep)
  {
    hide OptInput, OffsetsOk, NoParamTaken, SetOnce;
    forall c | c in y.cs ensures (c.typ == Gep ==> c.off > 0) && (c.typ == Copy ==> c.src != c.dest) {
      assert Accepted(y, c);
    }
  }

  lemma ReadyAfter(d: Done, nonptr: set<nat>, cs': seq<Constraint>, n: nat)
    requires Ready(d.y, d.functions, n) && DoneOk(d) && Rewritten(d.y.cs, d.root, nonptr, cs')
    requires OptInput(System(d.y.l, cs', d.root), d.functions)
    ensures Ready(System(d.y.l, cs', d.root), d.functions, n)
  {
    StillApart(d);
    CoarseRoots(d.y.rep, d.root);
    SourcesKept(d, nonptr, cs');
    OffsetsAfter(d.y.l, d.y.cs, d.root, nonptr, cs');
    hide OptInput, OffsetsOk, NoParamTaken, SpecialApart, DoneOk;
    forall c' | c' in cs' ensures (c'.typ == Gep ==> c'.off > 0) && (c'.typ == Copy ==> c'.src != c'.dest) {
      var c := Origin(d.y.cs, d.root, nonptr, cs', c');
    }
  }

  // ---------- Factoring ----------

  // The list after the last pass.
  ghost predicate Passed(y: System, n: nat) {
    && |y.rep| == n && Sets.IsRootMap(y.rep) && SpecialApart(y.rep) && FIRST_VAR_NODE <= n && |y.l.objSz| <= n
    && SolverSteps.LayoutOk(y.l) && SourcesStay(y.cs, y.rep) && OffsetsOk(y.l, y.cs)
    && forall c :: c in y.cs ==> PassedOne(y, c)
  }

  ghost predicate PassedOne(y: System, c: Constraint) {
    && Proper(y.rep, c.dest) && c.dest == Rt(y.rep, c.dest) && 0 < c.src < |y.rep| && (c.typ == Gep ==> c.off > 0)
    && (if c.typ == AddrOf then c.src < |y.l.objSz| else c.src == Rt(y.rep, c.src) && c.src != I2P)
    && (c.typ == Copy ==> c.src != c.dest)
  }

  lemma PassedAfter(d: Done, nonptr: set<nat>, cs': seq<Constraint>, n: nat)
    requires Ready(d.y, d.functions, n) && DoneOk(d) && Rewritten(d.y.cs, d.root, nonptr, cs')
    ensures Passed(System(d.y.l, cs', d.root), n)
  {
    var y' := System(d.y.l, cs', d.root);
    StillApart(d);
    CoarseRoots(d.y.rep, d.root);
    OptFacts(d.y, d.functions);
    SourcesKept(d, nonptr, cs');
    OffsetsAfter(d.y.l, d.y.cs, d.root, nonptr, cs');
    Optimizing.InRange(d.y, d.functions);
    forall c' | c' in cs' ensures PassedOne(y', c') {
      var c := Origin(d.y.cs, d.root, nonptr, cs', c');
      assert OptCons(d.y, d.functions, c);
      hide OptInput, OffsetsOk, NoParamTaken, DoneOk, Rewritten;
      ClumpedBelow(d.y.l, c);
    }
    hide OptInput, OffsetsOk, NoParamTaken, DoneOk, Rewritten, SpecialApart, PassedOne, SourcesStay;
  }

  lemma ClumpedBelow(l: Layout, c: Constraint)
    requires Clumped(l)
    ensures IsObject(l, c.src) ==> c.src < |l.objSz|
    ensures FIRST_VAR_NODE <= |l.objSz|
  {
  }

  lemma PassedBelow(y: System, n: nat)
    requires Passed(y, n)
    ensures NodesBelow(y, n) && 0 < n == |y.rep|
  {
    forall c | c in y.cs ensures c.dest < n && c.src < n && (c.typ == AddrOf ==> c.src < |y.l.objSz|) {
      assert PassedOne(y, c);
    }
    hide SpecialApart, PassedOne, OffsetsOk, SourcesStay;
  }

  // The members of a group come from the list.
  lemma GroupOrigin(cs: seq<Constraint>, k: Key, x: nat)
    requires x in Group(cs, k)
    ensures Complex(k, x) in cs
  {
    var c :| c in cs && InGroup(k, c) && x == Other(k, c);
    assert c == Complex(k, x);
  }

  ghost predicate IsNew(cs: seq<Constraint>, temps: map<Key, nat>, n: nat, n': nat, k: Key, x: nat, c: Constraint) {
    k in temps && n <= temps[k] < n' && Complex(k, x) in cs && (c == Complex(k, temps[k]) || c == CopyFor(k, temps[k], x))
  }

  // A constraint of the factored list is one of the old ones, or a load, store or copy of a new
  // node with the sides and the offset of old ones.
  lemma FactoredOrigin(cs: seq<Constraint>, temps: map<Key, nat>, n: nat, n': nat, cs': seq<Constraint>, c: Constraint)
    requires TempsFor(cs, temps, n, n') && Factored(cs, temps, cs') && c in cs'
    ensures c in cs || exists k: Key, x: nat :: IsNew(cs, temps, n, n', k, x, c)
  {
    if c !in cs {
      var k: Key :| Group(cs, k) != {} && Emitted(cs, temps, k, c);
      var some: nat :| some in Group(cs, k);
      GroupOrigin(cs, k, some);
      hide Group;
      if k in temps {
        if c == Complex(k, temps[k]) {
          assert IsNew(cs, temps, n, n', k, some, c);
        } else {
          var x: nat :| x in Group(cs, k) && c == CopyFor(k, temps[k], x);
          GroupOrigin(cs, k, x);
          assert IsNew(cs, temps, n, n', k, x, c);
        }
      } else {
        var x: nat :| x in Group(cs, k) && c == Complex(k, x);
        GroupOrigin(cs, k, x);
      }
    }
  }

  lemma FactoredOne(y: System, temps: map<Key, nat>, n: nat, n': nat, root: seq<nat>, cs': seq<Constraint>, c: Constraint)
    requires Passed(y, n) && TempsFor(y.cs, temps, n, n') && Factored(y.cs, temps, cs') && c in cs'
    requires |root| == n' >= n && forall m: nat :: Rt(root, m) == Rt(y.rep, m)
    ensures Accepted(System(y.l, cs', root), c) && (c.off == 0 || OffsetMasks.InRange(y.l, c.off)) && (c.typ == AddrOf ==> IsRep(root, c.src))
  {
    FactoredOrigin(y.cs, temps, n, n', cs', c);
    hide TempsFor, Factored, SpecialApart, OffsetMasks.InRange, Accepted, PassedOne;
    if c in y.cs {
      OldAccepted(y, n, root, cs', c);
    } else {
      var k: Key, x: nat :| IsNew(y.cs, temps, n, n', k, x, c);
      NewAccepted(y, n, root, cs', k, x, temps[k], c);
    }
  }

  lemma OldAccepted(y: System, n: nat, root: seq<nat>, cs': seq<Constraint>, c: Constraint)
    requires PassedOne(y, c) && |y.rep| == n <= |root| && forall m: nat :: Rt(root, m) == Rt(y.rep, m)
    requires c.typ == AddrOf ==> IsRep(y.rep, c.src)
    ensures Accepted(System(y.l, cs', root), c) && (c.typ == AddrOf ==> IsRep(root, c.src))
  {
    assert c.typ == AddrOf ==> Rt(root, c.src) == c.src;
    assert c.typ != AddrOf ==> Rt(root, c.src) == c.src && Rt(root, c.dest) == c.dest;
  }

  lemma NewAccepted(y: System, n: nat, root: seq<nat>, cs': seq<Constraint>, k: Key, x: nat, t: nat, c: Constraint)
    requires PassedOne(y, Complex(k, x)) && |y.rep| == n <= t < |root| && FIRST_VAR_NODE <= n && forall m: nat :: Rt(root, m) == Rt(y.rep, m)
    requires c == Complex(k, t) || c == CopyFor(k, t, x)
    ensures Accepted(System(y.l, cs', root), c) && c.typ != AddrOf && (c.off == 0 || c.off == k.off)
  {
    assert Rt(root, t) == t && Rt(root, x) == x;
  }

  // The factored list may be given to the solver.
  lemma FactoredAccepted(y: System, temps: map<Key, nat>, n: nat, n': nat, cs': seq<Constraint>)
    requires Passed(y, n) && TempsFor(y.cs, temps, n, n') && Factored(y.cs, temps, cs') && n <= n'
    ensures var root := Sets.WithSingles(y.rep, n');
      Accepts(System(y.l, Taken(root, cs'), root), n') && OffsetsOk(y.l, cs') && Taken(root, cs') == cs'
  {
    var root := Sets.WithSingles(y.rep, n');
    var y' := System(y.l, cs', root);
    assert forall m: nat :: Rt(root, m) == Rt(y.rep, m);
    hide Sets.WithSingles, Taken;
    forall c | c in cs' ensures Accepted(y', c) && (c.off == 0 || OffsetMasks.InRange(y.l, c.off)) && (c.typ == AddrOf ==> IsRep(root, c.src)) {
      FactoredOne(y, temps, n, n', root, cs', c);
    }
    assert Sets.IsRootMap(root) && SpecialApart(root);
    hide TempsFor, Factored, Accepted, SpecialApart;
    SourcesTaken(cs', root);
  }

  // Further nodes that are classes of their own change nothing.
  lemma SinglesLeast(l: Layout, cs: seq<Constraint>, root: seq<nat>, n: nat, s: Sol)
    requires |root| <= n
    ensures IsLeast(System(l, cs, Sets.WithSingles(root, n)), s) <==> IsLeast(System(l, cs, root), s)
  {
    var root' := Sets.WithSingles(root, n);
    forall t ensures Solves(System(l, cs, root'), t) <==> Solves(System(l, cs, root), t) {
      assert Respects(root', t) <==> Respects(root, t) by {
        forall m | 0 <= m < n && Respects(root, t) ensures Pts(t, m) == Pts(t, root'[m]) {
        }
        forall m | 0 <= m < |root| && Respects(root', t) ensures Pts(t, m) == Pts(t, root[m]) {
          assert root'[m] == root[m];
        }
      }
    }
  }

  // ---------- The algorithm ----------

  // What two passes did: the first left y1 and the non-pointers np1, the second np2.
  datatype Trail = Trail(first: Made, y1: System, np1: set<nat>, second: Made, np2: set<nat>)

  // A pass of HVN and one of HU take y to y2.
  ghost predicate TwiceMade(y: System, functions: set<nat>, w: Trail, y2: System) {
    PassMade(y, functions, {}, false, w.first, w.y1, w.np1) && PassMade(w.y1, functions, w.np1, true, w.second, y2, w.np2)
  }

  // A pass of HVN and one of HU; t is the least solution of what they leave.
  method TwoPasses(l: Layout, functions: set<nat>, cs: seq<Constraint>, n: nat)
    returns (classes: Sets.Classes, cs': seq<Constraint>, ghost t: Sol, ghost w: Trail)
    requires ClumpedInput(Unmerged(l, cs, n), functions, n)
    ensures fresh(classes) && classes.Valid() && |classes.rep| == n && |cs'| <= |cs|
    ensures Passed(System(l, cs', classes.root), n) && IsLeast(System(l, cs', classes.root), t)
    ensures Preserves(Unmerged(l, cs, n), t) && TwiceMade(Unmerged(l, cs, n), functions, w, System(l, cs', classes.root))
  {
    hide Accepts, OptInput, OffsetsOk, IsLeast, Sets.Classes.Valid, Sets.RankBounded, Sets.Linked, Below, StoresReach, Numbered, MergedByLabel,
      SameComponentSameLabel, Coarser, Rewritten, NonptrOk, Solves, NoParamTaken, Lowest, SpecialApart, Respects, SetOnce, ParamsApart,
      Ready, Follows, Passed, Preserves, PtrEq.Justified;
    ghost var y := Unmerged(l, cs, n);
    ReadyFirst(y, functions, n);
    ghost var s := LeastOf(y, functions, n);
    classes := new Sets.Classes(n);
    NoNonptr(y);
    var optimizer := new Optimizing.Optimizer(l, functions, classes, cs);
    ghost var m := optimizer.Hvn(false, s);
    ghost var y1, np1 := optimizer.Y(), optimizer.nonptr;
    ghost var d := Done(y, functions, m.ix, m.labs, classes.root);
    AfterFirst(d, s, n, optimizer.nonptr, optimizer.constraints);
    ghost var s1 := LeastOf(y1, functions, n);
    ghost var m1 := optimizer.Hvn(true, s1);
    ghost var y2 := optimizer.Y();
    w := Trail(m, y1, np1, m1, optimizer.nonptr);
    ghost var d1 := Done(y1, functions, m1.ix, m1.labs, classes.root);
    AfterSecond(d1, s1, n, optimizer.nonptr, optimizer.constraints);
    t := LeastOfPassed(y2, n);
    cs' := optimizer.constraints;
    FollowsTwice(y, s, y1, s1, y2, t);
    PreservesLeast(y, s, t);
  }

  ghost function LeastOf(y: System, functions: set<nat>, n: nat): (s: Sol)
    requires Ready(y, functions, n)
    ensures IsLeast(y, s)
  {
    LeastExists(y);
    var s :| IsLeast(y, s);
    s
  }

  ghost function LeastOfPassed(y: System, n: nat): (s: Sol)
    requires Passed(y, n)
    ensures IsLeast(y, s)
  {
    LeastExists(y);
    var s :| IsLeast(y, s);
    s
  }

  lemma AfterFirst(d: Done, s: Sol, n: nat, nonptr: set<nat>, cs': seq<Constraint>)
    requires Ready(d.y, d.functions, n) && Lowest(d.root) && SetOnce(d.y.cs) && ParamsApart(d.y.l, d.functions, d.ix, d.labs)
    requires Numbered(d.y.l, d.functions, d.y.rep, d.ix) && Coarser(d.y.rep, d.root) && PtrEq.Justified(d.y.rep, d.ix, d.labs, d.root)
    requires Rewritten(d.y.cs, d.root, nonptr, cs')
    requires var y' := System(d.y.l, cs', d.root);
      && (forall t :: Solves(y', t) ==> Below(s, t)) && (IsLeast(y', s) <==> Respects(d.root, s)) && (StoresReach(d.y.cs, s) ==> IsLeast(y', s))
    ensures var y' := System(d.y.l, cs', d.root); Ready(y', d.functions, n) && OptInput(y', d.functions) && Follows(d.y, s, y')
  {
    hide OptInput, OffsetsOk, NoParamTaken, SpecialApart, SetOnce, ParamsApart, Numbered, Coarser, PtrEq.Justified, Rewritten, Solves, IsLeast,
      StoresReach, Respects, Below, Lowest;
    InputAfter(d, nonptr, cs');
    ReadyAfter(d, nonptr, cs', n);
    FollowsPass(d, s, nonptr, cs');
  }

  lemma AfterSecond(d: Done, s: Sol, n: nat, nonptr: set<nat>, cs': seq<Constraint>)
    requires Ready(d.y, d.functions, n)
    requires Numbered(d.y.l, d.functions, d.y.rep, d.ix) && Coarser(d.y.rep, d.root) && PtrEq.Justified(d.y.rep, d.ix, d.labs, d.root)
    requires Rewritten(d.y.cs, d.root, nonptr, cs')
    requires var y' := System(d.y.l, cs', d.root);
      && (forall t :: Solves(y', t) ==> Below(s, t)) && (IsLeast(y', s) <==> Respects(d.root, s)) && (StoresReach(d.y.cs, s) ==> IsLeast(y', s))
    ensures var y' := System(d.y.l, cs', d.root); Passed(y', n) && Follows(d.y, s, y')
  {
    hide OptInput, OffsetsOk, NoParamTaken, SpecialApart, Numbered, Coarser, PtrEq.Justified, Rewritten, Solves, IsLeast,
      StoresReach, Respects, Below;
    PassedAfter(d, nonptr, cs', n);
    FollowsPass(d, s, nonptr, cs');
  }

  lemma PreservesLeast(y: System, s: Sol, r: Sol)
    requires IsLeast(y, s) && Below(s, r) && (StoresReach(y.cs, s) ==> forall m :: Pts(r, m) == Pts(s, m))
    ensures Preserves(y, r)
  {
    hide IsLeast, StoresReach, Below;
    forall t | IsLeast(y, t) ensures Below(t, r) && (StoresReach(y.cs, t) ==> forall m :: Pts(r, m) == Pts(t, m)) {
      LeastUnique(y, s, t);
      SameBelow(s, t, r);
      if StoresReach(y.cs, t) {
        ReachesSame(y.cs, t, s);
      }
    }
  }

  // What is done to a clumped program: two passes leave y2, and factoring leaves cs3.
  datatype Steps = Steps(trail: Trail, y2: System, temps: map<Key, nat>, cs3: seq<Constraint>)

  // r is the least solution of what these steps leave of y.
  ghost predicate Solved(y: System, functions: set<nat>, w: Steps, r: Sol) {
    && TwiceMade(y, functions, w.trail, w.y2) && Factored(w.y2.cs, w.temps, w.cs3)
    && IsLeast(System(y.l, w.cs3, w.y2.rep), r)
  }

  // The points-to sets of the nodes below n of a clumped program.
  method AnalyzeClumped(l: Layout, functions: set<nat>, cs: seq<Constraint>, n: nat) returns (r: Sol, ghost w: Steps)
    requires ClumpedInput(Unmerged(l, cs, n), functions, n)
    ensures Solved(Unmerged(l, cs, n), functions, w, r)
    ensures forall s :: IsLeast(Unmerged(l, cs, n), s) ==> Retained(cs, s, r, n)
  {
    hide Accepts, OptInput, OffsetsOk, IsLeast, Sets.Classes.Valid, Below, StoresReach, Passed, Preserves, TempsFor, Factored, NodesBelow, Extend, Taken,
      SetOnce, NoParamTaken, Retained, Sets.WithSingles;
    var classes, cs2, t, trail := TwoPasses(l, functions, cs, n);
    ghost var y2 := System(l, cs2, classes.root);
    PassedBelow(y2, n);
    var cs3, nn, temps := FactorLs(y2, cs2, n);
    FactoredAccepted(y2, temps, n, nn, cs3);
    classes.Add(nn);
    w := Steps(trail, y2, temps, cs3);
    r := SolveConstraints(l, cs3, classes);
    SinglesLeast(l, cs3, y2.rep, nn, r);
    LeastUnique(System(l, cs3, y2.rep), r, Extend(l, cs2, t, temps));
    forall s | IsLeast(Unmerged(l, cs, n), s) ensures Retained(cs, s, r, n) {
      RetainedBy(Unmerged(l, cs, n), s, t, r, n);
    }
  }

  lemma RetainedBy(y: System, s: Sol, t: Sol, r: Sol, n: nat)
    requires Preserves(y, t) && IsLeast(y, s) && forall m: nat :: m < n ==> Pts(r, m) == Pts(t, m)
    ensures Retained(y.cs, s, r, n)
  {
    hide IsLeast, StoresReach;
  }

  // ---------- The program before renumbering ----------

  // The first nodes of all objects from node i on.
  function Heads(sz: seq<nat>, i: nat): set<nat>
    decreases |sz| - i
  {
    if i >= |sz| then {} else if sz[i] == 0 then Heads(sz, i + 1) else {i} + Heads(sz, i + sz[i])
  }

  // n is the return value or a parameter of one of the functions.
  ghost predicate ParamIn(l: Layout, functions: set<nat>, n: nat) {
    exists b: nat :: b in Heads(l.objSz, FIRST_VAR_NODE) * functions && InFunction(l, b, n)
  }

  // What the constraints of a program look like: no side is null or I2P, but for the address of
  // I2P; addresses are taken of objects, not of parameters; P_I2P is only set to the address of
  // I2P; a load or store without offset dereferences, and stores, values and parameters.
  ghost predicate ProgramCons(l: Layout, functions: set<nat>, c: Constraint) {
    && 0 < c.dest && c.dest != I2P && 0 < c.src && (c.dest == P_I2P ==> c.typ == AddrOf && c.src == I2P)
    && (if c.typ == AddrOf then SizeAt(l.objSz, c.src) > 0 && !ParamIn(l, functions, c.src) else c.src != I2P)
    && (c.typ == Copy ==> c.src != c.dest) && (c.typ == Gep ==> c.off > 0) && (c.off == 0 || OffsetMasks.InRange(l, c.off))
    && ((c.typ == Load || c.typ == Store) && c.off == 0 ==> SizeAt(l.objSz, c.src) == 0 || ParamIn(l, functions, c.src))
  }

  ghost predicate ProgramOk(l: Layout, functions: set<nat>, cs: seq<Constraint>) {
    && InNodes(l, cs) && |l.objSz| <= MAX_NODES && |l.objSz| + |cs| <= Sets.NODE_RANK_MIN
    && forall c :: c in cs ==> ProgramCons(l, functions, c)
  }

  // The functions under their new numbers.
  function MovedFunctions(sz: seq<nat>, functions: set<nat>): set<nat> {
    set f | f in functions && f < |sz| :: Moved(sz, f)
  }

  // Objects start where they started before.
  lemma {:induction false} HeadsMoved(l: Layout, to: Layout, i: nat)
    requires Blocks(l.objSz) && MovedLayout(l, to) && FIRST_VAR_NODE <= i
    ensures Starts(to, FIRST_VAR_NODE + Objects(l.objSz, i)) == MovedSet(l.objSz, Heads(l.objSz, i))
    decreases |l.objSz| - i
  {
    hide Blocks, MovedLayout, MovedSet, Moved, Starts;
    var sz := l.objSz;
    if i >= |sz| {
      ObjectsEnd(sz, i);
      NoStarts(l, to);
    } else if sz[i] == 0 {
      HeadsMoved(l, to, i + 1);
    } else {
      HeadsMoved(l, to, i + sz[i]);
      FirstStart(l, to, i);
    }
  }

  lemma NoStarts(l: Layout, to: Layout)
    requires MovedLayout(l, to)
    ensures Starts(to, FIRST_VAR_NODE + Objects(l.objSz, |l.objSz|)) == {} == MovedSet(l.objSz, {})
  {
    LayoutSize(l, to);
    StartsEnd(to);
    hide MovedLayout, Objects, Starts, Moved;
  }

  lemma StartsEnd(l: Layout)
    ensures Starts(l, |l.objSz|) == {}
  {
  }

  lemma FirstStart(l: Layout, to: Layout, i: nat)
    requires Blocks(l.objSz) && MovedLayout(l, to) && FIRST_VAR_NODE <= i < |l.objSz| && l.objSz[i] > 0
    requires Starts(to, FIRST_VAR_NODE + Objects(l.objSz, i + l.objSz[i])) == MovedSet(l.objSz, Heads(l.objSz, i + l.objSz[i]))
    ensures Starts(to, FIRST_VAR_NODE + Objects(l.objSz, i)) == MovedSet(l.objSz, Heads(l.objSz, i))
  {
    hide Blocks, MovedLayout, Objects, Moved, Heads, MovedSet, Starts;
    var sz := l.objSz;
    BlockObjects(sz, i, sz[i]);
    SizeMoved(l, to, i);
    FirstHead(sz, i);
    StartsAt(to, Moved(sz, i));
    MovedWith(sz, i, Heads(sz, i + sz[i]));
  }

  lemma FirstHead(sz: seq<nat>, i: nat)
    requires FIRST_VAR_NODE <= i < |sz| && sz[i] > 0
    ensures Moved(sz, i) == FIRST_VAR_NODE + Objects(sz, i) && Heads(sz, i) == {i} + Heads(sz, i + sz[i])
  {
  }

  lemma StartsAt(l: Layout, k: nat)
    requires k < |l.objSz| && l.objSz[k] > 0
    ensures Starts(l, k) == {k} + Starts(l, k + l.objSz[k])
  {
  }

  lemma SizeMoved(l: Layout, to: Layout, o: nat)
    requires Blocks(l.objSz) && MovedLayout(l, to) && o < |l.objSz| && l.objSz[o] > 0
    ensures Moved(l.objSz, o) < |to.objSz| && to.objSz[Moved(l.objSz, o)] == l.objSz[o]
  {
    MovedSize(l, to, o);
  }

  lemma MovedWith(sz: seq<nat>, o: nat, p: set<nat>)
    ensures MovedSet(sz, {o} + p) == {Moved(sz, o)} + MovedSet(sz, p)
  {
    hide Moved;
  }

  lemma {:induction false} ObjectsEnd(sz: seq<nat>, i: nat)
    requires |sz| <= i
    ensures Objects(sz, i) == Objects(sz, |sz|)
  {
    if i > |sz| {
      ObjectsEnd(sz, i - 1);
    }
  }

  lemma {:induction false} BlockObjects(sz: seq<nat>, o: nat, k: nat)
    requires Blocks(sz) && FIRST_VAR_NODE <= o < |sz| && k <= sz[o]
    ensures Objects(sz, o + k) == Objects(sz, o) + k
  {
    if k > 0 {
      BlockObjects(sz, o, k - 1);
      assert BlockAt(sz, o);
    }
  }

  lemma {:induction false} HeadsIn(sz: seq<nat>, i: nat)
    ensures forall b: nat :: b in Heads(sz, i) ==> i <= b < |sz| && sz[b] > 0
    decreases |sz| - i
  {
    if i < |sz| {
      HeadsIn(sz, if sz[i] == 0 then i + 1 else i + sz[i]);
    }
  }

  lemma FunctionMoved(l: Layout, to: Layout, b: nat, n: nat)
    requires Blocks(l.objSz) && MovedLayout(l, to) && b < |l.objSz| && n < |l.objSz|
    ensures InFunction(to, Moved(l.objSz, b), Moved(l.objSz, n)) <==> InFunction(l, b, n)
  {
    hide Blocks, MovedLayout, Moved;
    var sz := l.objSz;
    MovedSize(l, to, b);
    hide Size;
    if InFunction(l, b, n) {
      FieldMoved(l, b, n);
    }
    if InFunction(to, Moved(sz, b), Moved(sz, n)) {
      FieldBefore(l, b, n);
    }
  }

  lemma FieldMoved(l: Layout, b: nat, n: nat)
    requires Blocks(l.objSz) && b <= n < b + Size(l, b)
    ensures Moved(l.objSz, n) == Moved(l.objSz, b) + (n - b)
  {
    hide Blocks, Moved;
    BlockContiguous(l.objSz, b, n - b);
  }

  lemma FieldBefore(l: Layout, b: nat, n: nat)
    requires Blocks(l.objSz) && b < |l.objSz| && n < |l.objSz| && Moved(l.objSz, b) <= Moved(l.objSz, n) < Moved(l.objSz, b) + Size(l, b)
    ensures Moved(l.objSz, n) == Moved(l.objSz, b) + (n - b) && b <= n
  {
    BlocksFacts(l.objSz);
    BlockWithin(l.objSz, b);
    hide Blocks, Moved;
    var k: nat := Moved(l.objSz, n) - Moved(l.objSz, b);
    BlockContiguous(l.objSz, b, k);
    MovedInjective(l.objSz, n, b + k);
  }

  lemma BlockWithin(sz: seq<nat>, b: nat)
    requires Blocks(sz) && b < |sz|
    ensures b + sz[b] <= |sz|
  {
    assert BlockAt(sz, b);
  }

  // Parameters stay parameters, and nothing else becomes one.
  lemma ParamMoved(l: Layout, to: Layout, functions: set<nat>, n: nat)
    requires Blocks(l.objSz) && MovedLayout(l, to) && n < |l.objSz|
    ensures IsParam(to, MovedFunctions(l.objSz, functions), Moved(l.objSz, n)) <==> ParamIn(l, functions, n)
  {
    hide Blocks, MovedLayout, Moved, Starts, Heads, InFunction, MovedFunctions;
    var sz := l.objSz;
    HeadsIn(sz, FIRST_VAR_NODE);
    if ParamIn(l, functions, n) {
      var b: nat :| b in Heads(sz, FIRST_VAR_NODE) * functions && InFunction(l, b, n);
      FunctionMoved(l, to, b, n);
      StartOf(l, to, functions, b);
    }
    if IsParam(to, MovedFunctions(sz, functions), Moved(sz, n)) {
      var c: nat :| c in Starts(to, FIRST_VAR_NODE) * MovedFunctions(sz, functions) && InFunction(to, c, Moved(sz, n));
      var b := HeadOf(l, to, functions, c);
      FunctionMoved(l, to, b, n);
    }
  }

  lemma StartOf(l: Layout, to: Layout, functions: set<nat>, b: nat)
    requires Blocks(l.objSz) && MovedLayout(l, to) && b in Heads(l.objSz, FIRST_VAR_NODE) * functions && b < |l.objSz|
    ensures Moved(l.objSz, b) in Starts(to, FIRST_VAR_NODE) * MovedFunctions(l.objSz, functions)
  {
    hide Blocks, MovedLayout, Moved, Starts, Heads;
    AllStarts(l, to);
  }

  lemma AllStarts(l: Layout, to: Layout)
    requires Blocks(l.objSz) && MovedLayout(l, to)
    ensures Starts(to, FIRST_VAR_NODE) == MovedSet(l.objSz, Heads(l.objSz, FIRST_VAR_NODE))
  {
    NoObjects(l.objSz);
    hide *;
    HeadsMoved(l, to, FIRST_VAR_NODE);
  }

  lemma NoObjects(sz: seq<nat>)
    ensures Objects(sz, FIRST_VAR_NODE) == 0
  {
  }

  lemma HeadOf(l: Layout, to: Layout, functions: set<nat>, c: nat) returns (b: nat)
    requires Blocks(l.objSz) && MovedLayout(l, to) && c in Starts(to, FIRST_VAR_NODE) * MovedFunctions(l.objSz, functions)
    ensures b in Heads(l.objSz, FIRST_VAR_NODE) * functions && b < |l.objSz| && Moved(l.objSz, b) == c
  {
    hide Blocks, MovedLayout, Moved, Starts, Heads, MovedSet, MovedFunctions;
    var sz := l.objSz;
    AllStarts(l, to);
    HeadsIn(sz, FIRST_VAR_NODE);
    BlocksFacts(sz);
    b := MovedFrom(sz, Heads(sz, FIRST_VAR_NODE), c);
    var f := FunctionFrom(sz, functions, c);
    MovedInjective(sz, b, f);
  }

  lemma MovedFrom(sz: seq<nat>, p: set<nat>, c: nat) returns (b: nat)
    requires c in MovedSet(sz, p)
    ensures b in p && Moved(sz, b) == c
  {
    b :| b in p && Moved(sz, b) == c;
  }

  lemma FunctionFrom(sz: seq<nat>, functions: set<nat>, c: nat) returns (f: nat)
    requires c in MovedFunctions(sz, functions)
    ensures f in functions && f < |sz| && Moved(sz, f) == c
  {
    f :| f in functions && f < |sz| && Moved(sz, f) == c;
  }

  // The renumbered system, of which no nodes are merged yet.
  lemma ClumpedOk(l: Layout, functions: set<nat>, cs: seq<Constraint>, to: Layout, cs': seq<Constraint>)
    requires ProgramOk(l, functions, cs) && MovedLayout(l, to) && MovedList(l.objSz, cs, cs') && Clumped(to)
    ensures ClumpedInput(Analysis.Unmerged(to, cs', |l.objSz|), MovedFunctions(l.objSz, functions), |l.objSz|)
  {
    var n, fs := |l.objSz|, MovedFunctions(l.objSz, functions);
    var y := Analysis.Unmerged(to, cs', n);
    CountsAll(l.objSz, n) by { BlocksFacts(l.objSz); }
    assert P_I2P < FIRST_VAR_NODE <= n by { BlocksFacts(l.objSz); }
    forall d | d in cs' ensures ConsOk(y, fs, n, d) {
      var i: nat :| i < |cs'| && cs'[i] == d;
      assert cs[i] in cs && d == MovedCons(l.objSz, cs[i]);
      ConsMoved(l, functions, to, cs[i], n);
    }
    assert |to.objSz| <= n <= MAX_NODES && n + |cs'| <= Sets.NODE_RANK_MIN;
    hide ProgramOk, MovedLayout, MovedList, MovedFunctions, ConsOk;
    AllOk(y, fs, n);
  }

  // A constraint of the renumbered system is fit for optimisation and solving.
  ghost predicate ConsOk(y: System, functions: set<nat>, n: nat, d: Constraint) {
    && Accepted(System(y.l, [], y.rep), d) && OptCons(System(y.l, [], y.rep), functions, d) && (d.off == 0 || OffsetMasks.InRange(y.l, d.off))
    && (d.dest == P_I2P ==> d.typ == AddrOf && d.src == I2P) && (d.typ == AddrOf ==> !IsParam(y.l, functions, d.src))
  }

  lemma AllOk(y: System, functions: set<nat>, n: nat)
    requires y.rep == seq(n, i => i) && Clumped(y.l) && P_I2P < |y.l.objSz| <= n <= MAX_NODES && n + |y.cs| <= Sets.NODE_RANK_MIN
    requires forall d :: d in y.cs ==> ConsOk(y, functions, n, d)
    ensures ClumpedInput(y, functions, n)
  {
    ClumpedSize(y.l);
    forall d | d in y.cs ensures Accepted(y, d) && OptCons(y, functions, d) {
      assert ConsOk(y, functions, n, d);
      hide IsParam, OffsetMasks.InRange;
    }
    hide Accepted, OptCons, IsParam, OffsetMasks.InRange, Clumped, SolverSteps.LayoutOk, IsObject;
    assert Accepts(y, n);
    assert OptInput(y, functions);
  }

  lemma ClumpedSize(l: Layout)
    requires Clumped(l)
    ensures SolverSteps.LayoutOk(l) && forall o: nat :: IsObject(l, o) ==> o < |l.objSz|
  {
  }

  lemma ConsMoved(l: Layout, functions: set<nat>, to: Layout, c: Constraint, n: nat)
    requires Blocks(l.objSz) && MovedLayout(l, to) && Clumped(to) && n == |l.objSz| && c.dest < n && c.src < n && ProgramCons(l, functions, c)
    requires |to.objSz| <= n
    ensures ConsOk(Analysis.Unmerged(to, [], n), MovedFunctions(l.objSz, functions), n, MovedCons(l.objSz, c))
  {
    hide Blocks, ParamIn, IsParam, MovedFunctions, MovedLayout, Moved, Clumped, SizeAt;
    ParamMoved(l, to, functions, c.src);
    NodeMoved(l, to, c.dest);
    NodeMoved(l, to, c.src);
    if c.off > 0 && OffsetMasks.InRange(l, c.off) {
      OffsetMoved(l, to, c.off);
    }
    hide OffsetMasks.InRange;
    if c.typ == Copy && Moved(l.objSz, c.src) == Moved(l.objSz, c.dest) {
      MovedInjective(l.objSz, c.src, c.dest) by { BlocksFacts(l.objSz); }
    }
  }

  // Special nodes stay themselves; objects come before values.
  lemma NodeMoved(l: Layout, to: Layout, i: nat)
    requires Blocks(l.objSz) && MovedLayout(l, to) && Clumped(to) && i < |l.objSz|
    ensures var m := Moved(l.objSz, i);
      && m < |l.objSz| && (m == 0 <==> i == 0) && (m == I2P <==> i == I2P) && (m == P_I2P <==> i == P_I2P)
      && (SizeAt(l.objSz, i) > 0 ==> IsObject(to, m) && 0 < m < |to.objSz|)
      && (SizeAt(l.objSz, i) == 0 && i > I2P ==> m == P_I2P || |to.objSz| <= m)
  {
    var sz := l.objSz;
    BlocksFacts(sz);
    MovedInRange(sz, i);
    Clumping.SpecialStays(sz);
    ClumpedFacts(to, i);
    LayoutSize(l, to);
    hide Blocks, MovedLayout, Moved, Clumped, Objects;
  }

  lemma OffsetMoved(l: Layout, to: Layout, off: nat)
    requires Blocks(l.objSz) && MovedLayout(l, to) && OffsetMasks.InRange(l, off)
    ensures OffsetMasks.InRange(to, off)
  {
    var o: nat :| o < |l.objSz| && l.objSz[o] > off;
    SizeMoved(l, to, o);
  }

  // ---------- The whole analysis ----------

  // r has, under the new numbers, everything that s has, and nothing else if all stores reach.
  ghost predicate Answers(sz: seq<nat>, cs: seq<Constraint>, s: Sol, r: Sol) {
    forall n: nat :: n < |sz| ==>
      MovedSet(sz, Pts(s, n)) <= Pts(r, Moved(sz, n)) && (StoresReach(cs, s) ==> Pts(r, Moved(sz, n)) == MovedSet(sz, Pts(s, n)))
  }

  // The points-to sets of all nodes of a program, under the numbers that moveTo gives them.
  method AnalyzeProgram(l: Layout, functions: set<nat>, cs: seq<Constraint>)
    returns (r: Sol, moveTo: seq<nat>, ghost to: Layout, ghost moved: seq<Constraint>, ghost w: Steps)
    requires ProgramOk(l, functions, cs)
    ensures |moveTo| == |l.objSz| && forall n: nat :: n < |moveTo| ==> moveTo[n] == Moved(l.objSz, n)
    ensures MovedLayout(l, to) && MovedList(l.objSz, cs, moved) && Solved(Unmerged(to, moved, |l.objSz|), MovedFunctions(l.objSz, functions), w, r)
    ensures forall s :: IsLeast(System(l, cs, []), s) ==> Answers(l.objSz, cs, s, r)
  {
    assert InNodes(l, cs) && forall c :: c in cs && c.typ == AddrOf ==> SizeAt(l.objSz, c.src) > 0;
    hide ProgramOk, InNodes, MovedLayout, MovedList, Clumped, IsLeast, ClumpedInput, Answers, SizeAt, Moved, IsObject, Rename, MovedFunctions;
    var layout, constraints;
    moveTo, layout, constraints := ClumpAddrTaken(l, cs);
    to, moved := layout, constraints;
    var n := |l.objSz|;
    var heads := set f | f in functions && f < n :: moveTo[f];
    assert heads == MovedFunctions(l.objSz, functions) by { HeadsAre(l.objSz, functions, moveTo); }
    ClumpedOk(l, functions, cs, to, constraints);
    r, w := AnalyzeClumped(layout, heads, constraints, n);
    forall s | IsLeast(System(l, cs, []), s) ensures Answers(l.objSz, cs, s, r) {
      UnmergedLeast(to, constraints, n, Rename(l.objSz, s));
      Answered(l, cs, to, constraints, s, r);
    }
  }

  lemma HeadsAre(sz: seq<nat>, functions: set<nat>, moveTo: seq<nat>)
    requires |moveTo| == |sz| && forall n: nat :: n < |moveTo| ==> moveTo[n] == Moved(sz, n)
    ensures (set f | f in functions && f < |sz| :: moveTo[f]) == MovedFunctions(sz, functions)
  {
    hide Moved;
  }

  lemma Answered(l: Layout, cs: seq<Constraint>, to: Layout, cs': seq<Constraint>, s: Sol, r: Sol)
    requires InNodes(l, cs) && MovedList(l.objSz, cs, cs')
    requires Retained(cs', Rename(l.objSz, s), r, |l.objSz|)
    ensures Answers(l.objSz, cs, s, r)
  {
    var sz, t := l.objSz, Rename(l.objSz, s);
    BlocksFacts(sz);
    hide Blocks, Moved, Rename;
    StoresMoved(l, cs, cs', s);
    hide StoresReach, MovedList;
    forall n: nat | n < |sz| ensures
      MovedSet(sz, Pts(s, n)) <= Pts(r, Moved(sz, n)) && (StoresReach(cs, s) ==> Pts(r, Moved(sz, n)) == MovedSet(sz, Pts(s, n))) {
      MovedInRange(sz, n);
      RenamedPts(sz, s, n);
    }
  }

  lemma StoresMoved(l: Layout, cs: seq<Constraint>, cs': seq<Constraint>, s: Sol)
    requires InNodes(l, cs) && MovedList(l.objSz, cs, cs')
    ensures StoresReach(cs, s) ==> StoresReach(cs', Rename(l.objSz, s))
  {
    if StoresReach(cs, s) {
      forall d | d in cs' && d.typ == Store && d.off == 0 ensures exists o: nat :: o in Pts(Rename(l.objSz, s), d.dest) && o != I2P {
        var i: nat :| i < |cs'| && cs'[i] == d;
        assert cs[i] in cs;
        var o: nat :| o in Pts(s, cs[i].dest) && o != I2P;
        BlocksFacts(l.objSz);
        RenamedPts(l.objSz, s, cs[i].dest);
        hide Blocks, Rename, MovedList, StoresReach;
        assert Moved(l.objSz, o) in MovedSet(l.objSz, Pts(s, cs[i].dest)) && Moved(l.objSz, o) != I2P;
      }
    }
  }
}
