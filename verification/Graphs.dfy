/** Finite directed graphs and reachability. */
module Graphs {

  // E[n] is the set of successors of node n.
  type Digraph = seq<set<nat>>

  function Succ(E: Digraph, n: nat): set<nat> {
    if n < |E| then E[n] else {}
  }

  ghost predicate WellFormed(E: Digraph) {
    forall n, m :: m in Succ(E, n) ==> m < |E|
  }

  ghost predicate IsPath(E: Digraph, p: seq<nat>, x: nat, y: nat) {
    && |p| > 0 && p[0] == x && p[|p| - 1] == y
    && (forall i :: 0 <= i < |p| ==> p[i] < |E|)
    && (forall i :: 0 < i < |p| ==> p[i] in Succ(E, p[i - 1]))
  }

  ghost predicate Reach(E: Digraph, x: nat, y: nat) {
    exists p :: IsPath(E, p, x, y)
  }

  ghost predicate Mutual(E: Digraph, x: nat, y: nat) {
    Reach(E, x, y) && Reach(E, y, x)
  }

  lemma ReachRefl(E: Digraph, x: nat)
    requires x < |E|
    ensures Reach(E, x, x)
  {
    assert IsPath(E, [x], x, x);
  }

  lemma ReachEdge(E: Digraph, x: nat, y: nat)
    requires x < |E| && y < |E| && y in Succ(E, x)
    ensures Reach(E, x, y)
  {
    assert IsPath(E, [x, y], x, y);
  }

  lemma ReachTrans(E: Digraph, x: nat, y: nat, z: nat)
    requires Reach(E, x, y) && Reach(E, y, z)
    ensures Reach(E, x, z)
  {
    var p :| IsPath(E, p, x, y);
    var q :| IsPath(E, q, y, z);
    assert IsPath(E, p + q[1..], x, z);
  }

  // A set closed under successors contains everything reachable from it.
  lemma ReachClosed(E: Digraph, S: set<nat>, x: nat, y: nat)
    requires x in S && Reach(E, x, y)
    requires forall a, b :: a in S && b in Succ(E, a) ==> b in S
    ensures y in S
  {
    var p :| IsPath(E, p, x, y);
    PathClosed(E, S, p, |p| - 1);
  }

  lemma {:induction false} PathClosed(E: Digraph, S: set<nat>, p: seq<nat>, i: nat)
    requires i < |p| && p[0] in S && IsPath(E, p, p[0], p[|p| - 1])
    requires forall a, b :: a in S && b in Succ(E, a) ==> b in S
    ensures p[i] in S
  {
    if i > 0 {
      PathClosed(E, S, p, i - 1);
    }
  }
}
