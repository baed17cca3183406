/** What a pass of value numbering leaves to the next pass and to the solver. */
module Passes {
  import opened Constraints
  import opened ConstraintGraph
  import opened Building
  import opened Offline
  import opened OfflineGraph
  import opened Rewriting
  import opened PtrEq
  import opened Optimizing = Optimizer
  import SolverSteps
  import Sets = UnionFind

  // ---------- Nodes that a pass does not merge ----------

  // A representative without an offline node keeps its class.
  lemma StaysAlone(rep: seq<nat>, ix: Index, labs: seq<set<nat>>, root: seq<nat>, n: nat)
    requires Coarser(rep, root) && Justified(rep, ix, labs, root) && n < |rep| && IsRep(rep, n) && Off(ix, n) == 0
    ensures IsRep(root, n) && forall m: nat :: m < |root| ==> (Rt(root, m) == n <==> Rt(rep, m) == n)
  {
    var r := Rt(root, n);
    assert Rt(root, r) == r && IsRep(rep, r);
    assert r == n;
    forall m: nat | m < |root| ensures Rt(root, m) == n <==> Rt(rep, m) == n {
      assert Rt(root, Rt(rep, m)) == Rt(root, m);
    }
  }

  // A node that a pass merges has an offline node, and so has its new representative.
  lemma MergedNumbered(rep: seq<nat>, ix: Index, labs: seq<set<nat>>, root: seq<nat>, n: nat)
    requires Coarser(rep, root) && Justified(rep, ix, labs, root) && n < |rep| && IsRep(rep, n) && Rt(root, n) != n
    ensures var r := Rt(root, n); r < |rep| && SameLabel(ix, labs, r, n)
  {
    var r := Rt(root, n);
    assert Rt(root, r) == r && IsRep(rep, r);
  }

  lemma NoOffline(l: Layout, functions: set<nat>, rep: seq<nat>, ix: Index, n: nat)
    requires Clumped(l) && Numbered(l, functions, rep, ix) && n < |rep| && n < |l.objSz| && n != P_I2P && !IsParam(l, functions, n)
    ensures Off(ix, n) == 0
  {
    hide Clumped, IsParam, Indexed;
  }

  lemma SpecialNoParam(l: Layout, functions: set<nat>, n: nat)
    requires Clumped(l) && n < FIRST_VAR_NODE
    ensures !IsParam(l, functions, n) && P_I2P < |l.objSz|
  {
    if IsParam(l, functions, n) {
      ParamAbove(l, functions, n);
    }
  }

  lemma ParamAbove(l: Layout, functions: set<nat>, n: nat)
    requires IsParam(l, functions, n)
    ensures FIRST_VAR_NODE < n
  {
    var b: nat :| b in Starts(l, FIRST_VAR_NODE) * functions && InFunction(l, b, n);
  }

  // The classes of no node and of I2P are theirs alone.
  ghost predicate SpecialApart(root: seq<nat>) {
    forall m: nat :: m < |root| ==> (Rt(root, m) == 0 <==> m == 0) && (Rt(root, m) == I2P <==> m == I2P)
  }

  // What is left of a pass, with its input.
  datatype Done = Done(y: System, functions: set<nat>, ix: Index, labs: seq<set<nat>>, root: seq<nat>)

  ghost predicate DoneOk(d: Done) {
    && OptInput(d.y, d.functions) && Numbered(d.y.l, d.functions, d.y.rep, d.ix) && SpecialApart(d.y.rep)
    && Coarser(d.y.rep, d.root) && Justified(d.y.rep, d.ix, d.labs, d.root)
  }

  lemma StillApart(d: Done)
    requires DoneOk(d)
    ensures SpecialApart(d.root)
  {
    SpecialStays(d, 0);
    SpecialStays(d, I2P);
    assert |d.root| == |d.y.rep| by { assert Coarser(d.y.rep, d.root); }
    hide OptInput, Numbered, Justified, Coarser, IsParam;
  }

  lemma SpecialStays(d: Done, k: nat)
    requires DoneOk(d) && (k == 0 || k == I2P)
    ensures forall m: nat :: m < |d.root| ==> (Rt(d.root, m) == k <==> Rt(d.y.rep, m) == k)
  {
    OptFacts(d.y, d.functions);
    SpecialNoParam(d.y.l, d.functions, k);
    hide OptInput, IsParam, Numbered, Justified, Coarser;
    NoOffline(d.y.l, d.functions, d.y.rep, d.ix, k);
    assert k < |d.y.rep| && Rt(d.y.rep, k) == k;
    StaysAlone(d.y.rep, d.ix, d.labs, d.root, k);
  }

  // An object that is no parameter is still a representative.
  lemma ObjectStays(d: Done, o: nat)
    requires DoneOk(d) && IsObject(d.y.l, o) && IsRep(d.y.rep, o) && !IsParam(d.y.l, d.functions, o)
    ensures IsRep(d.root, o)
  {
    OptFacts(d.y, d.functions);
    ClumpedFacts(d.y.l, o);
    hide OptInput, IsParam, Numbered, Justified, Coarser;
    NoOffline(d.y.l, d.functions, d.y.rep, d.ix, o);
    StaysAlone(d.y.rep, d.ix, d.labs, d.root, o);
  }

  // ---------- Fit for the solver ----------

  // The constraint that c' was rewritten from.
  lemma Origin(cs: seq<Constraint>, root: seq<nat>, nonptr: set<nat>, cs': seq<Constraint>, c': Constraint) returns (c: Constraint)
    requires Rewritten(cs, root, nonptr, cs') && c' in cs'
    ensures c in cs && Kept(root, nonptr, c) && c' == Redirect(root, c)
  {
    c :| c in cs && Kept(root, nonptr, c) && c' == Redirect(root, c);
  }

  // No address of a parameter is taken.
  ghost predicate NoParamTaken(l: Layout, functions: set<nat>, cs: seq<Constraint>) {
    forall c :: c in cs && c.typ == AddrOf ==> !IsParam(l, functions, c.src)
  }

  // All sources of address-of constraints are representatives.
  ghost predicate SourcesStay(cs: seq<Constraint>, root: seq<nat>) {
    forall c :: c in cs && c.typ == AddrOf ==> IsRep(root, c.src)
  }

  lemma SourcesKept(d: Done, nonptr: set<nat>, cs': seq<Constraint>)
    requires DoneOk(d) && Rewritten(d.y.cs, d.root, nonptr, cs')
    ensures SourcesStay(d.y.cs, d.root) ==> SourcesStay(cs', d.root)
    ensures NoParamTaken(d.y.l, d.functions, d.y.cs) ==> SourcesStay(d.y.cs, d.root) && NoParamTaken(d.y.l, d.functions, cs')
  {
    forall c' | c' in cs' && c'.typ == AddrOf ensures exists c :: c in d.y.cs && c.typ == AddrOf && c.src == c'.src {
      var c := Origin(d.y.cs, d.root, nonptr, cs', c');
    }
    if NoParamTaken(d.y.l, d.functions, d.y.cs) {
      forall c | c in d.y.cs && c.typ == AddrOf ensures IsRep(d.root, c.src) {
        assert OptCons(d.y, d.functions, c);
        hide OptInput, IsParam;
        ObjectStays(d, c.src);
      }
    }
  }

  // The solver may be given the rewritten list if no source has become the member of a class
  // that is represented by no object.
  lemma AcceptedAfter(d: Done, nonptr: set<nat>, cs': seq<Constraint>)
    requires DoneOk(d) && Rewritten(d.y.cs, d.root, nonptr, cs') && SolverSteps.LayoutOk(d.y.l)
    requires forall c :: c in d.y.cs && c.typ == Gep ==> c.off > 0
    requires Lowest(d.root) || SourcesStay(d.y.cs, d.root)
    ensures Accepts(System(d.y.l, Taken(d.root, cs'), d.root), |d.y.rep|)
  {
    StillApart(d);
    OptFacts(d.y, d.functions);
    CoarseRoots(d.y.rep, d.root);
    var y' := System(d.y.l, Taken(d.root, cs'), d.root);
    forall e | e in y'.cs ensures Accepted(y', e) {
      var i: nat :| i < |cs'| && e == TakenOne(d.root, cs'[i]);
      var c := Origin(d.y.cs, d.root, nonptr, cs', cs'[i]);
      assert OptCons(d.y, d.functions, c);
      Optimizing.InRange(d.y, d.functions);
      hide OptInput, IsParam, Clumped, Numbered, Justified, Rewritten, Taken;
      AcceptedOne(d, nonptr, c);
    }
    hide OptInput, IsParam, Clumped, Numbered, Justified, Rewritten, Taken, Accepted;
  }

  lemma AcceptedOne(d: Done, nonptr: set<nat>, c: Constraint)
    requires SpecialApart(d.root) && Sets.IsRootMap(d.root) && |d.root| == |d.y.rep| && |d.y.l.objSz| <= |d.y.rep|
    requires c in d.y.cs && OptCons(d.y, d.functions, c) && Clumped(d.y.l) && Kept(d.root, nonptr, c) && (c.typ == Gep ==> c.off > 0)
    requires c.dest < |d.y.rep| && c.src < |d.y.rep| && (Lowest(d.root) || SourcesStay(d.y.cs, d.root))
    ensures Accepted(System(d.y.l, [], d.root), TakenOne(d.root, Redirect(d.root, c)))
  {
    hide IsParam;
    var s := Rt(d.root, c.src);
    assert Rt(d.root, s) == s && Rt(d.root, Rt(d.root, c.dest)) == Rt(d.root, c.dest);
    if c.typ == AddrOf {
      assert s <= c.src < |d.y.l.objSz| by { ClumpedFacts(d.y.l, c.src); hide Clumped; }
    }
  }

  lemma CoarseRoots(rep: seq<nat>, root: seq<nat>)
    requires Coarser(rep, root)
    ensures Sets.IsRootMap(root) && |root| == |rep|
  {
  }

  // ---------- Fit for another pass ----------

  // If every class is still represented by its first node, as it is after the first pass, the
  // rewritten list is an input for the next one: objects come before values, and no parameter
  // is merged with P_I2P.
  lemma InputAfter(d: Done, nonptr: set<nat>, cs': seq<Constraint>)
    requires DoneOk(d) && Rewritten(d.y.cs, d.root, nonptr, cs') && Lowest(d.root)
    requires ParamsApart(d.y.l, d.functions, d.ix, d.labs) && NoParamTaken(d.y.l, d.functions, d.y.cs)
    ensures OptInput(System(d.y.l, cs', d.root), d.functions)
  {
    var y' := System(d.y.l, cs', d.root);
    StillApart(d);
    OptFacts(d.y, d.functions);
    CoarseRoots(d.y.rep, d.root);
    Optimizing.InRange(d.y, d.functions);
    SourcesKept(d, nonptr, cs');
    PointerStays(d);
    forall o: nat | IsObject(d.y.l, o) ensures IsObject(d.y.l, Rt(d.root, o)) {
      ObjectFirst(d, o);
    }
    forall c' | c' in cs' ensures OptCons(y', d.functions, c') {
      var c := Origin(d.y.cs, d.root, nonptr, cs', c');
      assert OptCons(d.y, d.functions, c);
      hide OptInput, Rewritten;
      InputOne(d, nonptr, c);
    }
    hide OptCons, DoneOk, Rewritten, IsParam;
  }

  lemma PointerStays(d: Done)
    requires DoneOk(d) && Lowest(d.root)
    ensures IsRep(d.root, P_I2P)
  {
    StillApart(d);
    OptFacts(d.y, d.functions);
    SpecialNoParam(d.y.l, d.functions, 0);
    hide OptInput, Numbered, Justified, IsParam;
    var r := Rt(d.root, P_I2P);
    assert r <= P_I2P;
  }

  lemma ObjectFirst(d: Done, o: nat)
    requires DoneOk(d) && Lowest(d.root) && ParamsApart(d.y.l, d.functions, d.ix, d.labs) && IsObject(d.y.l, o)
    ensures IsObject(d.y.l, Rt(d.root, o))
  {
    StillApart(d);
    OptFacts(d.y, d.functions);
    ClumpedFacts(d.y.l, o);
    SpecialNoParam(d.y.l, d.functions, 0);
    var x, r := Rt(d.y.rep, o), Rt(d.root, o);
    assert IsObject(d.y.l, x) && x < |d.y.rep| && Rt(d.root, x) == r && r <= o;
    if o != I2P && r == P_I2P {
      assert x != P_I2P && IsRep(d.y.rep, x);
      MergedNumbered(d.y.rep, d.ix, d.labs, d.root, x);
      assert false;
    }
  }

  // An object with an offline node is a parameter.
  lemma ParamOrValue(d: Done, n: nat)
    requires DoneOk(d) && n < |d.y.rep| && Off(d.ix, n) > 0
    ensures n == P_I2P || |d.y.l.objSz| <= n || IsParam(d.y.l, d.functions, n)
  {
    hide OptInput, IsParam, Justified, Coarser, SpecialApart, Indexed;
  }

  lemma InputOne(d: Done, nonptr: set<nat>, c: Constraint)
    requires DoneOk(d) && SpecialApart(d.root) && Sets.IsRootMap(d.root) && |d.root| == |d.y.rep| && OptCons(d.y, d.functions, c)
    requires c.dest < |d.y.rep| && c.src < |d.y.rep| && (c.typ == AddrOf ==> IsRep(d.root, c.src))
    ensures OptCons(System(d.y.l, [], d.root), d.functions, Redirect(d.root, c))
  {
    var s := Rt(d.root, c.src);
    assert Rt(d.root, s) == s && Rt(d.root, Rt(d.root, c.dest)) == Rt(d.root, c.dest);
    if s != c.src && c.typ != AddrOf {
      MergedNumbered(d.y.rep, d.ix, d.labs, d.root, c.src);
      ParamOrValue(d, s);
    }
    hide DoneOk, IsParam;
  }

  // ---------- Stores still reach ----------

  // If merged nodes have equal sets, what is stored through has as many members as before.
  lemma StoresStillReach(cs: seq<Constraint>, root: seq<nat>, nonptr: set<nat>, cs': seq<Constraint>, s: Sol)
    requires Rewritten(cs, root, nonptr, cs') && Respects(root, s) && StoresReach(cs, s)
    ensures StoresReach(cs', s)
  {
    forall c' | c' in cs' && c'.typ == Store && c'.off == 0 ensures exists o: nat :: o in Pts(s, c'.dest) && o != I2P {
      var c := Origin(cs, root, nonptr, cs', c');
      RespectsRt(root, s, c.dest);
    }
  }

  lemma ReachesSame(cs: seq<Constraint>, s: Sol, t: Sol)
    requires StoresReach(cs, s) && forall m :: Pts(t, m) == Pts(s, m)
    ensures StoresReach(cs, t)
  {
  }
}
