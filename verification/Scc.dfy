/** Nuutila's version of Tarjan's algorithm, as steps on an abstract depth-first search.
    The three searches of the program (lcd_dfs, hvn_dfs, hcd_dfs) all take these steps. */
module Scc {
  import opened Graphs

  // num: the order of first visits.  low: the current DFS id of each visited node.
  // path: the nodes whose calls are active.  stk: finished nodes whose component is open.
  // comp: finished components, numbered in the order they were closed.
  datatype Dfs = Dfs(num: map<nat, nat>, low: map<nat, nat>, path: seq<nat>, stk: seq<nat>,
                     comp: map<nat, nat>, clock: nat, ncomp: nat)

  const Start := Dfs(map[], map[], [], [], map[], 1, 0)

  function Num(t: Dfs, x: nat): nat { if x in t.num then t.num[x] else 0 }

  function Low(t: Dfs, x: nat): nat { if x in t.low then t.low[x] else 0 }

  function Comp(t: Dfs, x: nat): nat { if x in t.comp then t.comp[x] else 0 }

  predicate Visited(t: Dfs, x: nat) { x in t.num }

  predicate Closed(t: Dfs, x: nat) { x in t.comp }

  predicate Open(t: Dfs, x: nat) { Visited(t, x) && !Closed(t, x) }

  // ---------- The steps ----------

  function Enter(t: Dfs, n: nat): (r: Dfs)
    ensures forall x: nat :: Visited(r, x) <==> Visited(t, x) || x == n
    ensures forall x: nat :: Closed(r, x) <==> Closed(t, x)
    ensures forall x: nat :: Num(r, x) == if x == n then t.clock else Num(t, x)
    ensures forall x: nat :: Low(r, x) == if x == n then t.clock else Low(t, x)
    ensures forall x: nat :: Comp(r, x) == Comp(t, x)
    ensures forall x: nat :: x in r.path <==> x in t.path || x == n
    ensures r.comp == t.comp
  {
    t.(num := t.num[n := t.clock], low := t.low[n := t.clock], path := t.path + [n], clock := t.clock + 1)
  }

  // Account for the edge from n to the already visited node y.
  function Seen(t: Dfs, n: nat, y: nat): (r: Dfs)
    ensures forall x: nat :: Low(r, x) == if x == n && !Closed(t, y) && Low(t, y) < Low(t, n) then Low(t, y) else Low(t, x)
    ensures forall x: nat :: Visited(r, x) == Visited(t, x) && Closed(r, x) == Closed(t, x)
    ensures forall x: nat :: Num(r, x) == Num(t, x) && Comp(r, x) == Comp(t, x)
    ensures r.comp == t.comp
  {
    if Closed(t, y) || Low(t, n) <= Low(t, y) then t else t.(low := t.low[n := Low(t, y)])
  }

  // n is no root: keep it until its root is finished.
  function Shelve(t: Dfs, path0: seq<nat>, n: nat): (r: Dfs)
    ensures forall x: nat :: Visited(r, x) == Visited(t, x) && Closed(r, x) == Closed(t, x)
    ensures forall x: nat :: Num(r, x) == Num(t, x) && Low(r, x) == Low(t, x) && Comp(r, x) == Comp(t, x)
    ensures forall x: nat :: x in r.stk <==> x in t.stk || x == n
    ensures r.path == path0 && r.comp == t.comp
  {
    t.(path := path0, stk := t.stk + [n])
  }

  function Members(t: Dfs, base: nat, n: nat): set<nat> {
    {n} + if base <= |t.stk| then set x | x in t.stk[base..] else {}
  }

  // n is the root of a component: close it.
  function Close(t: Dfs, path0: seq<nat>, base: nat, n: nat): (r: Dfs)
    requires base <= |t.stk|
    ensures forall x: nat :: Visited(r, x) == Visited(t, x)
    ensures forall x: nat :: Closed(r, x) <==> Closed(t, x) || x in Members(t, base, n)
    ensures forall x: nat :: Num(r, x) == Num(t, x) && Low(r, x) == Low(t, x)
    ensures forall x: nat :: Comp(r, x) == if x in Members(t, base, n) then t.ncomp else Comp(t, x)
    ensures r.path == path0 && r.stk == t.stk[..base] && r.ncomp == t.ncomp + 1 && r.clock == t.clock && r.low == t.low
    ensures r.comp.Keys == t.comp.Keys + Members(t, base, n)
  {
    t.(path := path0, stk := t.stk[..base],
       comp := t.comp + map x | x in Members(t, base, n) :: t.ncomp, ncomp := t.ncomp + 1)
  }

  // ---------- The invariant ----------

  ghost predicate Numbered(E: Digraph, t: Dfs) {
    && WellFormed(E) && 0 < t.clock
    && t.low.Keys == t.num.Keys && t.comp.Keys <= t.num.Keys
    && (forall x: nat :: Visited(t, x) ==> x < |E| && 0 < Low(t, x) <= Num(t, x) < t.clock)
    && (forall x: nat, y: nat :: Visited(t, x) && Visited(t, y) && Num(t, x) == Num(t, y) ==> x == y)
    && (forall x: nat :: Closed(t, x) ==> Comp(t, x) < t.ncomp)
  }

  ghost predicate Listed(t: Dfs) {
    && (forall x: nat :: Open(t, x) <==> x in t.path || x in t.stk)
    && (forall i, j :: 0 <= i < j < |t.path| ==> Num(t, t.path[i]) < Num(t, t.path[j]))
    && (forall i, j :: 0 <= i < j < |t.stk| ==> t.stk[i] != t.stk[j])
    && (forall x: nat :: x in t.stk ==> x !in t.path && Low(t, x) < Num(t, x))
  }

  // Every open node reaches the open node numbered by its DFS id.
  ghost predicate LowReached(E: Digraph, t: Dfs) {
    forall x: nat :: Open(t, x) ==> exists y: nat :: IsLow(E, t, x, y)
  }

  ghost predicate IsLow(E: Digraph, t: Dfs, x: nat, y: nat) {
    Open(t, y) && Num(t, y) == Low(t, x) && Reach(E, x, y)
  }

  // An active node reaches every open node visited after it.
  ghost predicate PathReaches(E: Digraph, t: Dfs) {
    forall p: nat, x: nat :: p in t.path && Open(t, x) && Num(t, p) <= Num(t, x) ==> Reach(E, p, x)
  }

  // A DFS id takes every edge of a finished node into account.
  ghost predicate LowCovers(E: Digraph, t: Dfs) {
    forall x: nat, y: nat :: x in t.stk && y in Succ(E, x) ==> Visited(t, y) && (Closed(t, y) || Low(t, x) <= Num(t, y))
  }

  // Closed components have edges only to themselves and to components closed before.
  ghost predicate Ordered(E: Digraph, t: Dfs) {
    forall x: nat, y: nat :: Closed(t, x) && y in Succ(E, x) ==> Closed(t, y) && Comp(t, y) <= Comp(t, x)
  }

  // Closed components are exactly the strongly connected components.
  ghost predicate Components(E: Digraph, t: Dfs) {
    forall x: nat, y: nat :: Closed(t, x) && Closed(t, y) ==> (Comp(t, x) == Comp(t, y) <==> Mutual(E, x, y))
  }

  ghost predicate Inv(E: Digraph, t: Dfs) {
    && Numbered(E, t) && Listed(t) && LowReached(E, t) && PathReaches(E, t)
    && LowCovers(E, t) && Ordered(E, t) && Components(E, t)
  }

  // What a call may do to the rest of the search.
  ghost predicate Extends(t0: Dfs, t: Dfs) {
    && t0.clock <= t.clock && t0.ncomp <= t.ncomp && t0.stk <= t.stk
    && (forall x: nat :: Visited(t0, x) ==> Visited(t, x) && Num(t, x) == Num(t0, x) && Low(t, x) == Low(t0, x))
    && (forall x: nat :: Visited(t, x) && !Visited(t0, x) ==> Num(t, x) >= t0.clock)
    && (forall x: nat :: Closed(t0, x) ==> Closed(t, x) && Comp(t, x) == Comp(t0, x))
    && (forall x: nat :: Closed(t, x) && !Closed(t0, x) ==> !Visited(t0, x) && Comp(t, x) >= t0.ncomp)
  }

  // The DFS id of n is the least among the nodes visited since t0.
  ghost predicate LeastLow(t0: Dfs, t: Dfs, n: nat) {
    forall x: nat :: Visited(t, x) && !Visited(t0, x) ==> Low(t, n) <= Low(t, x)
  }

  ghost predicate Handled(t: Dfs, n: nat, done: set<nat>) {
    forall y: nat :: y in done ==> Visited(t, y) && (Closed(t, y) || Low(t, n) <= Num(t, y))
  }

  // The call for n, made in state t0, has handled the edges to the nodes in done.
  ghost predicate Working(E: Digraph, t0: Dfs, t: Dfs, n: nat, done: set<nat>) {
    && Inv(E, t) && Extends(t0, t) && LeastLow(t0, t, n) && Handled(t, n, done)
    && !Visited(t0, n) && Visited(t, n) && Num(t, n) == t0.clock && t.path == t0.path + [n]
  }

  // The call for n, made in state t0, has returned in state t.
  ghost predicate Returned(E: Digraph, t0: Dfs, t: Dfs, n: nat) {
    && Inv(E, t) && Extends(t0, t) && LeastLow(t0, t, n)
    && !Visited(t0, n) && Visited(t, n) && t.path == t0.path
    && (Closed(t, n) ==> Low(t, n) == Num(t, n))
  }

  lemma StartInv(E: Digraph)
    requires WellFormed(E)
    ensures Inv(E, Start)
  {
  }

  lemma EnterLow(E: Digraph, t0: Dfs, n: nat)
    requires LowReached(E, t0) && n < |E| && !Visited(t0, n) && !Closed(t0, n)
    ensures LowReached(E, Enter(t0, n))
  {
    var t := Enter(t0, n);
    hide Reach;
    ReachRefl(E, n);
    assert IsLow(E, t, n, n);
    forall x: nat | Open(t, x) ensures exists y: nat :: IsLow(E, t, x, y) {
      if x != n {
        assert Open(t0, x);
        var y: nat :| IsLow(E, t0, x, y);
        assert IsLow(E, t, x, y);
      }
    }
  }

  lemma EnterPath(E: Digraph, t0: Dfs, n: nat)
    requires Listed(t0) && PathReaches(E, t0) && Numbered(E, t0) && !Visited(t0, n) && n < |E|
    requires |t0.path| > 0 ==> n in Succ(E, t0.path[|t0.path| - 1])
    ensures PathReaches(E, Enter(t0, n))
  {
    var t := Enter(t0, n);
    hide Reach;
    ReachRefl(E, n);
    forall p: nat, x: nat | p in t.path && Open(t, x) && Num(t, p) <= Num(t, x) ensures Reach(E, p, x) {
      if p != n {
        assert p in t0.path;
        if x == n {
          var q := t0.path[|t0.path| - 1];
          assert q in t0.path && Open(t0, q) && Num(t0, p) <= Num(t0, q);
          ReachEdge(E, q, n);
          ReachTrans(E, p, q, n);
        } else {
          assert Open(t0, x);
        }
      }
    }
  }

  lemma EnterShape(E: Digraph, t0: Dfs, n: nat)
    requires Numbered(E, t0) && Listed(t0) && n < |E| && !Visited(t0, n)
    ensures Numbered(E, Enter(t0, n)) && Listed(Enter(t0, n))
  {
    var t := Enter(t0, n);
    assert forall x: nat :: x in t.path <==> x in t0.path || x == n;
    assert forall x: nat :: Open(t, x) <==> Open(t0, x) || x == n;
  }

  lemma EnterRest(E: Digraph, t0: Dfs, n: nat)
    requires Numbered(E, t0) && Listed(t0) && LowCovers(E, t0) && Ordered(E, t0) && Components(E, t0)
    requires n < |E| && !Visited(t0, n)
    ensures LowCovers(E, Enter(t0, n)) && Ordered(E, Enter(t0, n)) && Components(E, Enter(t0, n))
  {
    hide Mutual;
    assert forall x: nat :: x in t0.stk ==> Open(t0, x);
  }

  lemma EnterExtends(E: Digraph, t0: Dfs, n: nat)
    requires Numbered(E, t0) && n < |E| && !Visited(t0, n)
    ensures Extends(t0, Enter(t0, n)) && LeastLow(t0, Enter(t0, n), n) && Handled(Enter(t0, n), n, {})
  {
  }

  lemma EnterWorking(E: Digraph, t0: Dfs, n: nat)
    requires Inv(E, t0) && n < |E| && !Visited(t0, n)
    requires |t0.path| > 0 ==> n in Succ(E, t0.path[|t0.path| - 1])
    ensures Working(E, t0, Enter(t0, n), n, {})
  {
    hide Listed, LowReached, PathReaches, LowCovers, Ordered, Components, Extends, LeastLow, Handled;
    EnterShape(E, t0, n);
    EnterLow(E, t0, n);
    EnterPath(E, t0, n);
    EnterRest(E, t0, n);
    EnterExtends(E, t0, n);
  }

  // ---------- An edge to a visited node ----------

  lemma SeenShape(E: Digraph, t: Dfs, n: nat, y: nat)
    requires Numbered(E, t) && Listed(t) && Visited(t, n) && Visited(t, y) && n in t.path
    ensures Numbered(E, Seen(t, n, y)) && Listed(Seen(t, n, y))
  {
    var r := Seen(t, n, y);
    assert r.low.Keys == t.low.Keys;
    assert forall x: nat :: Open(r, x) <==> Open(t, x);
  }

  lemma SeenLow(E: Digraph, t: Dfs, n: nat, y: nat)
    requires Numbered(E, t) && LowReached(E, t) && Visited(t, n) && Visited(t, y) && y in Succ(E, n)
    ensures LowReached(E, Seen(t, n, y))
  {
    hide Reach, Seen;
    var r := Seen(t, n, y);
    forall x: nat | Open(r, x) ensures exists z: nat :: IsLow(E, r, x, z) {
      assert Open(t, x);
      if Low(r, x) != Low(t, x) {
        assert Open(t, y);
        var z: nat :| IsLow(E, t, y, z);
        ReachEdge(E, n, y);
        ReachTrans(E, n, y, z);
        assert IsLow(E, r, n, z);
      } else {
        var z: nat :| IsLow(E, t, x, z);
        assert IsLow(E, r, x, z);
      }
    }
  }

  lemma SeenPath(E: Digraph, t: Dfs, n: nat, y: nat)
    requires Visited(t, n) && Visited(t, y) && PathReaches(E, t)
    ensures PathReaches(E, Seen(t, n, y))
  {
    hide Reach;
    var t' := Seen(t, n, y);
    assert forall x: nat :: Open(t', x) <==> Open(t, x);
  }

  lemma SeenRest(E: Digraph, t: Dfs, n: nat, y: nat)
    requires Listed(t) && LowCovers(E, t) && Ordered(E, t) && Components(E, t)
    requires n in t.path
    ensures LowCovers(E, Seen(t, n, y)) && Ordered(E, Seen(t, n, y)) && Components(E, Seen(t, n, y))
  {
    hide Mutual;
    var r := Seen(t, n, y);
    assert r.stk == t.stk;
  }

  // What is known of the search before the edge from n to y is taken into account.
  ghost predicate Reported(t0: Dfs, t: Dfs, n: nat, y: nat) {
    forall x: nat :: Visited(t, x) && !Visited(t0, x) ==> Low(t, n) <= Low(t, x) || (!Closed(t, y) && Low(t, y) <= Low(t, x))
  }

  lemma SeenExtends(E: Digraph, t0: Dfs, t: Dfs, n: nat, done: set<nat>, y: nat)
    requires Numbered(E, t) && Extends(t0, t) && Reported(t0, t, n, y) && Handled(t, n, done)
    requires !Visited(t0, n) && Visited(t, n) && Visited(t, y)
    ensures Extends(t0, Seen(t, n, y)) && LeastLow(t0, Seen(t, n, y), n) && Handled(Seen(t, n, y), n, done + {y})
  {
  }

  lemma Recount(E: Digraph, t0: Dfs, t: Dfs, n: nat, done: set<nat>, y: nat)
    requires Inv(E, t) && Extends(t0, t) && Reported(t0, t, n, y) && Handled(t, n, done)
    requires !Visited(t0, n) && Visited(t, n) && Num(t, n) == t0.clock && t.path == t0.path + [n]
    requires y in Succ(E, n) && Visited(t, y)
    ensures Working(E, t0, Seen(t, n, y), n, done + {y})
  {
    hide Numbered, Listed, LowReached, PathReaches, LowCovers, Ordered, Components, Extends, LeastLow, Handled, Reported, Succ;
    assert n in t.path;
    SeenShape(E, t, n, y);
    SeenLow(E, t, n, y);
    SeenPath(E, t, n, y);
    SeenRest(E, t, n, y);
    SeenExtends(E, t0, t, n, done, y);
  }

  lemma SeenWorking(E: Digraph, t0: Dfs, t: Dfs, n: nat, done: set<nat>, y: nat)
    requires Working(E, t0, t, n, done) && y in Succ(E, n) && Visited(t, y)
    ensures Working(E, t0, Seen(t, n, y), n, done + {y})
  {
    hide Inv, Extends, Handled, Succ;
    Recount(E, t0, t, n, done, y);
  }

  // ---------- An edge to a node whose call has just returned ----------

  lemma ReturnExtends(E: Digraph, t0: Dfs, t: Dfs, n: nat, done: set<nat>, y: nat, t1: Dfs)
    requires Numbered(E, t) && Numbered(E, t1) && Extends(t0, t) && Extends(t, t1)
    requires LeastLow(t0, t, n) && LeastLow(t, t1, y) && Handled(t, n, done)
    requires Visited(t, n) && Visited(t1, y) && !Visited(t, y) && (Closed(t1, y) ==> Low(t1, y) == Num(t1, y))
    ensures Extends(t0, t1) && Reported(t0, t1, n, y) && Handled(t1, n, done)
    ensures Visited(t1, n) && Num(t1, n) == Num(t, n)
  {
    assert Low(t1, n) == Low(t, n) <= Num(t, n) < t.clock <= Num(t1, y);
    forall x: nat | Visited(t1, x) && !Visited(t0, x)
      ensures Low(t1, n) <= Low(t1, x) || (!Closed(t1, y) && Low(t1, y) <= Low(t1, x))
    {
      if Visited(t, x) {
        assert Low(t1, x) == Low(t, x);
      }
    }
  }

  lemma ReturnedWorking(E: Digraph, t0: Dfs, t: Dfs, n: nat, done: set<nat>, y: nat, t1: Dfs)
    requires Working(E, t0, t, n, done) && y in Succ(E, n) && Returned(E, t, t1, y)
    ensures Working(E, t0, Seen(t1, n, y), n, done + {y})
  {
    hide Numbered, Listed, LowReached, PathReaches, LowCovers, Ordered, Components, Extends, LeastLow, Handled, Reported, Succ;
    ReturnExtends(E, t0, t, n, done, y, t1);
    Recount(E, t0, t1, n, done, y);
  }

  // ---------- The call returns ----------

  lemma ShelveShape(E: Digraph, t0: Dfs, t: Dfs, n: nat)
    requires Numbered(E, t) && Listed(t) && t.path == t0.path + [n] && Low(t, n) < Num(t, n)
    ensures Numbered(E, Shelve(t, t0.path, n)) && Listed(Shelve(t, t0.path, n))
  {
    ShelveListed(t0, t, n);
    hide Listed;
  }

  lemma ShelveListed(t0: Dfs, t: Dfs, n: nat)
    requires Listed(t) && t.path == t0.path + [n] && Low(t, n) < Num(t, n)
    ensures Listed(Shelve(t, t0.path, n))
  {
    var r := Shelve(t, t0.path, n);
    assert t.path[|t0.path|] == n && n in t.path;
    assert forall i :: 0 <= i < |t0.path| ==> t0.path[i] == t.path[i];
    assert n !in t0.path;
    assert forall x: nat :: x in t.path <==> x in t0.path || x == n;
    assert r.stk == t.stk + [n];
    hide Shelve;
  }

  lemma ShelveReaches(E: Digraph, t0: Dfs, t: Dfs, n: nat)
    requires LowReached(E, t) && PathReaches(E, t) && t.path == t0.path + [n]
    ensures LowReached(E, Shelve(t, t0.path, n)) && PathReaches(E, Shelve(t, t0.path, n))
  {
    hide Reach, Shelve;
    var r := Shelve(t, t0.path, n);
    forall x: nat | Open(r, x) ensures exists z: nat :: IsLow(E, r, x, z) {
      assert Open(t, x);
      var z: nat :| IsLow(E, t, x, z);
      assert IsLow(E, r, x, z);
    }
    forall p: nat, x: nat | p in r.path && Open(r, x) && Num(r, p) <= Num(r, x) ensures Reach(E, p, x) {
      assert p in t.path && Open(t, x);
    }
  }

  lemma ShelveRest(E: Digraph, t0: Dfs, t: Dfs, n: nat)
    requires LowCovers(E, t) && Handled(t, n, Succ(E, n)) && Ordered(E, t) && Components(E, t)
    ensures LowCovers(E, Shelve(t, t0.path, n)) && Ordered(E, Shelve(t, t0.path, n)) && Components(E, Shelve(t, t0.path, n))
  {
    hide Mutual, Succ, Shelve;
  }

  lemma ShelveExtends(t0: Dfs, t: Dfs, n: nat)
    requires Extends(t0, t) && LeastLow(t0, t, n)
    ensures Extends(t0, Shelve(t, t0.path, n)) && LeastLow(t0, Shelve(t, t0.path, n), n)
  {
  }

  lemma ShelveReturned(E: Digraph, t0: Dfs, t: Dfs, n: nat)
    requires Working(E, t0, t, n, Succ(E, n)) && Low(t, n) < Num(t, n)
    ensures Returned(E, t0, Shelve(t, t0.path, n), n)
  {
    hide LowReached, PathReaches, LowCovers, Ordered, Components, Extends, LeastLow, Handled, Succ;
    assert !Closed(t, n) by { assert n in t.path; }
    hide Numbered, Listed;
    ShelveShape(E, t0, t, n);
    ShelveReaches(E, t0, t, n);
    ShelveRest(E, t0, t, n);
    ShelveExtends(t0, t, n);
  }

  // The call for n, made in state t0, has handled all edges and n is a root.
  ghost predicate AtRoot(E: Digraph, t0: Dfs, t: Dfs, n: nat) {
    Numbered(E, t0) && Listed(t0) && Working(E, t0, t, n, Succ(E, n)) && Low(t, n) == Num(t, n)
  }

  // The component of a root is what was visited since its call began and is still open.
  lemma CloseMembers(E: Digraph, t0: Dfs, t: Dfs, n: nat)
    requires AtRoot(E, t0, t, n)
    ensures forall x: nat :: x in Members(t, |t0.stk|, n) <==> Open(t, x) && !Visited(t0, x)
    ensures forall x: nat :: x in Members(t, |t0.stk|, n) ==> Num(t, n) <= Low(t, x) && (x != n ==> x in t.stk)
    ensures forall x: nat :: Open(t, x) && Num(t, n) <= Num(t, x) ==> x in Members(t, |t0.stk|, n)
  {
    hide LowReached, PathReaches, LowCovers, Ordered, Components, Handled, Succ;
    var base := |t0.stk|;
    assert t.stk == t0.stk + t.stk[base..];
    assert n in t.path && Open(t, n);
    forall x: nat | Open(t, x) && !Visited(t0, x) ensures x in Members(t, base, n) {
      if x in t.path {
        assert x == n || x in t0.path;
        assert x in t0.path ==> Open(t0, x);
      } else {
        assert x in t.stk;
        assert x in t0.stk ==> Open(t0, x);
      }
    }
    forall i | base <= i < |t.stk| ensures Open(t, t.stk[i]) && !Visited(t0, t.stk[i]) {
      var x := t.stk[i];
      assert x in t.stk && Open(t, x);
      assert Visited(t0, x) ==> Open(t0, x);
    }
  }

  lemma {:induction false} MemberReachesRoot(E: Digraph, t0: Dfs, t: Dfs, n: nat, x: nat)
    requires AtRoot(E, t0, t, n) && x in Members(t, |t0.stk|, n)
    ensures Reach(E, x, n)
    decreases Num(t, x)
  {
    hide Reach, PathReaches, LowCovers, Ordered, Components, Handled, Succ, Extends, LeastLow, Members;
    CloseMembers(E, t0, t, n);
    if x == n {
      ReachRefl(E, n);
    } else {
      var z: nat :| IsLow(E, t, x, z);
      MemberReachesRoot(E, t0, t, n, z);
      ReachTrans(E, x, z, n);
    }
  }

  lemma CloseComponent(E: Digraph, t0: Dfs, t: Dfs, n: nat, x: nat, y: nat)
    requires AtRoot(E, t0, t, n) && x in Members(t, |t0.stk|, n) && y in Members(t, |t0.stk|, n)
    ensures Reach(E, x, y)
  {
    hide Reach, LowReached, LowCovers, Ordered, Components, Handled, Succ, Extends, LeastLow, Members;
    CloseMembers(E, t0, t, n);
    MemberReachesRoot(E, t0, t, n, x);
    assert n in t.path && Num(t, n) <= Num(t, y);
    ReachTrans(E, x, n, y);
  }

  // The edges of a component lead to itself or to closed components.
  lemma MemberEdges(E: Digraph, t0: Dfs, t: Dfs, n: nat, x: nat, y: nat)
    requires AtRoot(E, t0, t, n) && x in Members(t, |t0.stk|, n) && y in Succ(E, x)
    ensures Closed(t, y) || y in Members(t, |t0.stk|, n)
  {
    hide Reach, LowReached, PathReaches, Ordered, Components, Succ, Extends, LeastLow, Members;
    CloseMembers(E, t0, t, n);
  }

  lemma ClosedApart(E: Digraph, t: Dfs, x: nat, y: nat)
    requires Ordered(E, t) && Closed(t, x) && !Closed(t, y)
    ensures !Reach(E, x, y)
  {
    if Reach(E, x, y) {
      var S := t.comp.Keys;
      forall a, b | a in S && b in Succ(E, a) ensures b in S {
        assert Closed(t, a) && Closed(t, b);
      }
      ReachClosed(E, S, x, y);
    }
  }

  lemma CloseNumbered(E: Digraph, t0: Dfs, t: Dfs, n: nat)
    requires Numbered(E, t) && |t0.stk| <= |t.stk| && Listed(t) && Visited(t, n)
    ensures Numbered(E, Close(t, t0.path, |t0.stk|, n))
  {
    var base := |t0.stk|;
    forall x: nat | x in Members(t, base, n) ensures Visited(t, x) {
      if x != n {
        assert x in t.stk;
        assert Open(t, x);
      }
    }
  }

  lemma CloseOpen(E: Digraph, t0: Dfs, t: Dfs, n: nat)
    requires AtRoot(E, t0, t, n)
    ensures forall x: nat :: Open(Close(t, t0.path, |t0.stk|, n), x) <==> Open(t0, x)
  {
    CloseMembers(E, t0, t, n);
    hide LowReached, PathReaches, LowCovers, Ordered, Components, Handled, Succ, LeastLow, Members, Numbered;
    var r := Close(t, t0.path, |t0.stk|, n);
    forall x: nat ensures Open(r, x) <==> Open(t0, x) {
      if Open(t0, x) {
        assert x in t0.path || x in t0.stk;
        assert x in t0.path ==> x in t.path;
        assert x in t0.stk ==> x in t.stk;
        assert Open(t, x);
      }
    }
  }

  lemma CloseListed(E: Digraph, t0: Dfs, t: Dfs, n: nat)
    requires Listed(t0) && Listed(t) && Extends(t0, t)
    requires forall x: nat :: Open(Close(t, t0.path, |t0.stk|, n), x) <==> Open(t0, x)
    ensures var r := Close(t, t0.path, |t0.stk|, n); Listed(r) && r.stk == t0.stk
  {
    var r := Close(t, t0.path, |t0.stk|, n);
    assert r.stk == t0.stk && r.path == t0.path;
    hide Close;
    assert forall x: nat :: Open(t0, x) ==> Num(r, x) == Num(t0, x) && Low(r, x) == Low(t0, x);
    hide Open;
  }

  lemma CloseKeeps(E: Digraph, t0: Dfs, t: Dfs, n: nat)
    requires AtRoot(E, t0, t, n)
    ensures forall x: nat :: Open(Close(t, t0.path, |t0.stk|, n), x) <==> Open(t, x) && Num(t, x) < t0.clock
    ensures forall x: nat :: Open(t, x) ==> Low(t, x) <= Num(t, x)
  {
    hide Reach, LowReached, PathReaches, LowCovers, Ordered, Components, Handled, Succ, LeastLow, Listed, WellFormed, Close, Members;
    CloseMembers(E, t0, t, n);
    CloseOpen(E, t0, t, n);
  }

  lemma CloseReaches(E: Digraph, t0: Dfs, t: Dfs, n: nat)
    requires LowReached(E, t) && PathReaches(E, t) && t.path == t0.path + [n] && |t0.stk| <= |t.stk|
    requires forall x: nat :: Open(Close(t, t0.path, |t0.stk|, n), x) <==> Open(t, x) && Num(t, x) < t0.clock
    requires forall x: nat :: Open(t, x) ==> Low(t, x) <= Num(t, x)
    ensures LowReached(E, Close(t, t0.path, |t0.stk|, n)) && PathReaches(E, Close(t, t0.path, |t0.stk|, n))
  {
    var r := Close(t, t0.path, |t0.stk|, n);
    hide Reach, Close, Members, Open;
    forall x: nat | Open(r, x) ensures exists z: nat :: IsLow(E, r, x, z) {
      var z: nat :| IsLow(E, t, x, z);
      assert Num(t, z) == Low(t, x) <= Num(t, x) < t0.clock;
      assert IsLow(E, r, x, z);
    }
    forall p: nat, x: nat | p in r.path && Open(r, x) && Num(r, p) <= Num(r, x) ensures Reach(E, p, x) {
      assert p in t.path && Open(t, x);
    }
  }

  lemma CloseLowCovers(E: Digraph, t0: Dfs, t: Dfs, n: nat)
    requires LowCovers(E, t) && t0.stk <= t.stk
    ensures LowCovers(E, Close(t, t0.path, |t0.stk|, n))
  {
    var r := Close(t, t0.path, |t0.stk|, n);
    hide Succ, Members, Close;
    forall x: nat, y: nat | x in r.stk && y in Succ(E, x)
      ensures Visited(r, y) && (Closed(r, y) || Low(r, x) <= Num(r, y)) {
      assert x in t.stk;
    }
  }

  lemma CloseOrdered(E: Digraph, t0: Dfs, t: Dfs, n: nat)
    requires AtRoot(E, t0, t, n)
    ensures Ordered(E, Close(t, t0.path, |t0.stk|, n))
  {
    CloseMembers(E, t0, t, n);
    hide Reach, LowReached, PathReaches, Components, Handled, Succ, LeastLow, Members, Listed, Close, LowCovers, Ordered;
    forall x: nat, y: nat | x in Members(t, |t0.stk|, n) && y in Succ(E, x) ensures Closed(t, y) || y in Members(t, |t0.stk|, n) {
      MemberEdges(E, t0, t, n, x, y);
    }
    CloseKeepsOrder(E, t, t0.path, |t0.stk|, n);
  }

  lemma CloseKeepsOrder(E: Digraph, t: Dfs, path0: seq<nat>, base: nat, n: nat)
    requires base <= |t.stk| && Ordered(E, t) && forall x: nat :: Closed(t, x) ==> Comp(t, x) < t.ncomp
    requires forall x: nat, y: nat :: x in Members(t, base, n) && y in Succ(E, x) ==> Closed(t, y) || y in Members(t, base, n)
    requires forall x: nat :: x in Members(t, base, n) ==> !Closed(t, x)
    ensures Ordered(E, Close(t, path0, base, n))
  {
    hide Succ, Members, Close;
  }

  lemma CloseMutual(E: Digraph, t0: Dfs, t: Dfs, n: nat)
    requires AtRoot(E, t0, t, n)
    ensures forall x: nat, y: nat :: x in Members(t, |t0.stk|, n) && y in Members(t, |t0.stk|, n) ==> Mutual(E, x, y)
  {
    hide Inv, Extends, LeastLow, Handled, Numbered, Listed, Members, Reach, Succ;
    forall x: nat, y: nat | x in Members(t, |t0.stk|, n) && y in Members(t, |t0.stk|, n) ensures Mutual(E, x, y) {
      CloseComponent(E, t0, t, n, x, y);
      CloseComponent(E, t0, t, n, y, x);
    }
  }

  lemma CloseComponents(E: Digraph, t: Dfs, path0: seq<nat>, base: nat, n: nat)
    requires base <= |t.stk| && Components(E, t) && Ordered(E, t)
    requires forall x: nat :: Closed(t, x) ==> Comp(t, x) < t.ncomp
    requires forall x: nat :: x in Members(t, base, n) ==> !Closed(t, x)
    requires forall x: nat, y: nat :: x in Members(t, base, n) && y in Members(t, base, n) ==> Mutual(E, x, y)
    ensures Components(E, Close(t, path0, base, n))
  {
    var r := Close(t, path0, base, n);
    hide Reach, Close, Ordered, Members;
    forall x: nat, y: nat | Closed(r, x) && Closed(r, y) ensures Comp(r, x) == Comp(r, y) <==> Mutual(E, x, y) {
      if x in Members(t, base, n) && y !in Members(t, base, n) {
        ClosedApart(E, t, y, x);
      } else if y in Members(t, base, n) && x !in Members(t, base, n) {
        ClosedApart(E, t, x, y);
      }
    }
  }

  lemma CloseExtends(t0: Dfs, t: Dfs, n: nat)
    requires Extends(t0, t) && LeastLow(t0, t, n)
    requires forall x: nat :: x in Members(t, |t0.stk|, n) ==> !Closed(t, x) && !Visited(t0, x)
    requires forall x: nat :: Closed(t0, x) ==> Visited(t0, x)
    ensures var r := Close(t, t0.path, |t0.stk|, n); Extends(t0, r) && LeastLow(t0, r, n)
  {
    var r := Close(t, t0.path, |t0.stk|, n);
    assert r.stk == t0.stk;
    hide Close, Members;
  }

  lemma CloseReturned(E: Digraph, t0: Dfs, t: Dfs, n: nat)
    requires AtRoot(E, t0, t, n)
    ensures Returned(E, t0, Close(t, t0.path, |t0.stk|, n), n)
  {
    hide LowReached, PathReaches, LowCovers, Ordered, Components, LeastLow, Handled, Succ, Listed, Close, Members, Reach;
    CloseMembers(E, t0, t, n);
    CloseNumbered(E, t0, t, n);
    CloseOpen(E, t0, t, n);
    CloseListed(E, t0, t, n);
    CloseKeeps(E, t0, t, n);
    CloseReaches(E, t0, t, n);
    CloseLowCovers(E, t0, t, n);
    CloseOrdered(E, t0, t, n);
    CloseMutual(E, t0, t, n);
    CloseComponents(E, t, t0.path, |t0.stk|, n);
    CloseExtends(t0, t, n);
    hide Numbered, Extends;
  }

  // ---------- The end of a search ----------

  // Every open node leads back to an active one.
  lemma {:induction false} OpenReachesPath(E: Digraph, t: Dfs, x: nat)
    requires Inv(E, t) && Open(t, x)
    ensures exists p: nat :: p in t.path && Reach(E, x, p)
    decreases Num(t, x)
  {
    hide PathReaches, LowCovers, Ordered, Components, Reach;
    if x in t.path {
      assert x < |E| by { assert Visited(t, x); }
      ReachRefl(E, x);
    } else {
      var z: nat :| IsLow(E, t, x, z);
      OpenReachesPath(E, t, z);
      var p: nat :| p in t.path && Reach(E, z, p);
      ReachTrans(E, x, z, p);
    }
  }

  // When no call is active, every visited node is in a closed component.
  lemma SearchComplete(E: Digraph, t: Dfs)
    requires Inv(E, t) && t.path == []
    ensures t.stk == [] && forall x: nat :: Visited(t, x) <==> Closed(t, x)
  {
    forall x: nat ensures !Open(t, x) {
      if Open(t, x) {
        OpenReachesPath(E, t, x);
      }
    }
    if t.stk != [] {
      assert Open(t, t.stk[0]) by { assert t.stk[0] in t.stk; }
    }
    assert forall x: nat :: Closed(t, x) ==> x in t.num.Keys;
  }

  // A closed node has all it reaches closed.
  lemma ClosedReach(E: Digraph, t: Dfs, x: nat, y: nat)
    requires Inv(E, t) && Closed(t, x) && Reach(E, x, y)
    ensures Closed(t, y)
  {
    if !Closed(t, y) {
      ClosedApart(E, t, x, y);
    }
  }

  // ---------- The stack below and above a root, and what remains to be visited ----------

  function Part(t: Dfs, t0: Dfs, n: nat): set<nat> { Members(t, |t0.stk|, n) }

  // The stack when a root is reached: the nodes of its component lie on top.
  ghost predicate StackOf(t0: Dfs, t: Dfs, n: nat) {
    && |t0.stk| <= |t.stk| && t.stk[..|t0.stk|] == t0.stk
    && (forall i :: 0 <= i < |t.stk| ==> t.stk[i] in t.low && t.stk[i] != n)
    && (forall i :: 0 <= i < |t0.stk| ==> t.low[t.stk[i]] < Num(t, n))
    && (forall i :: |t0.stk| <= i < |t.stk| ==> t.low[t.stk[i]] >= Num(t, n))
    && (forall i, j :: 0 <= i < j < |t.stk| ==> t.stk[i] != t.stk[j])
  }

  lemma InMembers(t: Dfs, base: nat, n: nat, x: nat)
    requires base <= |t.stk| && (x == n || x in t.stk[base..])
    ensures x in Members(t, base, n)
  {
  }

  lemma RootStack(E: Digraph, t0: Dfs, t: Dfs, n: nat)
    requires AtRoot(E, t0, t, n)
    ensures StackOf(t0, t, n)
  {
    hide LowReached, PathReaches, LowCovers, Ordered, Components, Handled, LeastLow;
    CloseMembers(E, t0, t, n);
    hide Members;
    assert t.stk[..|t0.stk|] == t0.stk;
    forall i | 0 <= i < |t.stk| ensures t.stk[i] in t.low && t.stk[i] != n {
      assert t.stk[i] in t.stk && n in t.path;
    }
    forall i | 0 <= i < |t0.stk| ensures t.low[t.stk[i]] < Num(t, n) {
      assert t.stk[i] == t0.stk[i] && t0.stk[i] in t0.stk;
    }
    forall i | |t0.stk| <= i < |t.stk| ensures t.low[t.stk[i]] >= Num(t, n) {
      assert t.stk[i] in t.stk[|t0.stk|..];
      assert t.stk[i] in Members(t, |t0.stk|, n) by { InMembers(t, |t0.stk|, n, t.stk[i]); }
    }
  }

  // The nodes popped so far, with k nodes left on the stack.
  function Popped(t: Dfs, n: nat, k: nat): set<nat>
    requires k <= |t.stk|
  {
    {n} + set x | x in t.stk[k..]
  }

  lemma PopOne(t0: Dfs, t: Dfs, n: nat, k: nat)
    requires StackOf(t0, t, n) && |t0.stk| < k <= |t.stk|
    ensures t.stk[k - 1] in Part(t, t0, n) && t.stk[k - 1] !in Popped(t, n, k)
    ensures Popped(t, n, k - 1) == Popped(t, n, k) + {t.stk[k - 1]}
  {
    var x := t.stk[k - 1];
    assert x in t.stk[|t0.stk|..];
    assert t.stk[k - 1..] == [x] + t.stk[k..];
  }

  // What the test on the top of the stack tells.
  lemma TopOfStack(t0: Dfs, t: Dfs, n: nat, k: nat)
    requires StackOf(t0, t, n) && |t0.stk| <= k <= |t.stk|
    ensures k > 0 ==> t.stk[k - 1] in t.low && (t.low[t.stk[k - 1]] >= Num(t, n) <==> |t0.stk| < k)
  {
  }

  lemma StackBase(t0: Dfs, t: Dfs, n: nat)
    requires StackOf(t0, t, n)
    ensures |t0.stk| <= |t.stk| && t.stk[..|t0.stk|] == t0.stk
  {
  }

  function Unvisited(E: Digraph, t: Dfs): (r: set<nat>)
    ensures forall x: nat :: x in r <==> x < |E| && !Visited(t, x)
  {
    set x: nat | x < |E| && !Visited(t, x)
  }

  lemma UnvisitedShrinks(E: Digraph, t0: Dfs, t: Dfs, n: nat, handled: set<nat>)
    requires Working(E, t0, t, n, handled) && n < |E|
    ensures Unvisited(E, t) < Unvisited(E, t0)
  {
    hide Inv, LeastLow, Handled, Visited;
    assert n in Unvisited(E, t0) && n !in Unvisited(E, t);
  }
}
