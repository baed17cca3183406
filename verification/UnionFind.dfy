/** Union-find whose rank and parent share one 32-bit word per node. */
module UnionFind {
  import opened SetFacts

  // A word at or above this is a rank (plus NODE_RANK_MIN), a word below it a parent.
  const NODE_RANK_MIN: nat := 0xf000_0000
  const U32_LIMIT: nat := 0x1_0000_0000

  function Pow2(k: nat): nat {
    if k == 0 then 1 else 2 * Pow2(k - 1)
  }

  lemma {:induction false} Pow2Grows(a: nat, b: nat)
    requires a <= b
    ensures Pow2(a) <= Pow2(b)
    decreases b
  {
    if a < b {
      Pow2Grows(a, b - 1);
    }
  }

  lemma Pow2Of32()
    ensures Pow2(32) == U32_LIMIT
  {
    assert Pow2(8) == 0x100;
    assert Pow2(16) == 0x1_0000;
    assert Pow2(24) == 0x100_0000;
  }

  // The members of the class represented by r.
  function Class(root: seq<nat>, r: nat): set<nat> {
    set m | 0 <= m < |root| && root[m] == r
  }

  // The representatives of a root map.
  function Reps(root: seq<nat>): set<nat> {
    set m | 0 <= m < |root| && root[m] == m
  }

  // The class of c joins the class of p.
  function Merged(root: seq<nat>, p: nat, c: nat): (r: seq<nat>)
    ensures |r| == |root|
    ensures forall m :: 0 <= m < |root| ==> r[m] == if root[m] == c then p else root[m]
  {
    seq(|root|, m requires 0 <= m < |root| => if root[m] == c then p else root[m])
  }

  ghost predicate IsRootMap(root: seq<nat>) {
    forall n :: 0 <= n < |root| ==> root[n] < |root| && root[root[n]] == root[n]
  }

  lemma MergedIsRootMap(root: seq<nat>, p: nat, c: nat)
    requires IsRootMap(root) && p < |root| && root[p] == p && c < |root| && root[c] == c && p != c
    ensures IsRootMap(Merged(root, p, c))
    ensures Reps(Merged(root, p, c)) == Reps(root) - {c}
    ensures |Reps(Merged(root, p, c))| < |Reps(root)|
  {
  }

  // A parent chain climbs in rank to the root; the rank of a root bounds its class from below.
  ghost predicate Linked(rep: seq<nat>, root: seq<nat>, rank: seq<nat>) {
    && |root| == |rank| == |rep| && IsRootMap(root)
    && (forall n :: 0 <= n < |rep| ==>
          if rep[n] < NODE_RANK_MIN
          then rep[n] < |rep| && rank[n] < rank[rep[n]] && root[rep[n]] == root[n] && root[n] != n && rank[n] < rank[root[n]]
          else rep[n] == NODE_RANK_MIN + rank[n] && root[n] == n)
  }

  ghost predicate RankBounded(root: seq<nat>, rank: seq<nat>) {
    |root| == |rank| && forall n :: 0 <= n < |root| && root[n] == n ==> Pow2(rank[n]) <= |Class(root, n)|
  }

  // Ranks stay far below the room left above NODE_RANK_MIN.
  lemma RankSmall(root: seq<nat>, rank: seq<nat>, n: nat)
    requires RankBounded(root, rank) && n < |root| <= NODE_RANK_MIN && root[n] == n
    ensures rank[n] < 32 && NODE_RANK_MIN + rank[n] + 1 < U32_LIMIT
  {
    CountBelow(Class(root, n), |root|);
    Pow2Of32();
    if rank[n] >= 32 {
      Pow2Grows(32, rank[n]);
    }
  }

  lemma MergedRanks(root: seq<nat>, rank: seq<nat>, p: nat, c: nat, rank': seq<nat>)
    requires RankBounded(root, rank) && p < |root| && root[p] == p && c < |root| && root[c] == c && p != c
    requires rank[c] <= rank[p] && rank' == rank[p := if rank[c] == rank[p] then rank[p] + 1 else rank[p]]
    ensures RankBounded(Merged(root, p, c), rank')
  {
    var r := Merged(root, p, c);
    assert Class(r, p) == Class(root, p) + Class(root, c);
    assert Class(root, p) !! Class(root, c);
    assert |Class(r, p)| == |Class(root, p)| + |Class(root, c)|;
    forall n | 0 <= n < |r| && r[n] == n ensures Pow2(rank'[n]) <= |Class(r, n)| {
      if n != p {
        assert Class(r, n) == Class(root, n);
      }
    }
  }

  lemma MergedLinked(rep: seq<nat>, root: seq<nat>, rank: seq<nat>, p: nat, c: nat, rep': seq<nat>, rank': seq<nat>)
    requires Linked(rep, root, rank) && |rep| <= NODE_RANK_MIN
    requires p < |rep| && root[p] == p && c < |rep| && root[c] == c && p != c && rank[c] <= rank[p]
    requires rank' == rank[p := if rank[c] == rank[p] then rank[p] + 1 else rank[p]]
    requires rep' == rep[p := NODE_RANK_MIN + rank'[p]][c := p]
    ensures Linked(rep', Merged(root, p, c), rank')
  {
  }

  // The words after c was linked to p.
  function Joined(rep: seq<nat>, p: nat, c: nat): (r: seq<nat>)
    requires p < |rep| && c < |rep|
    ensures |r| == |rep|
  {
    rep[p := if rep[c] == rep[p] then rep[p] + 1 else rep[p]][c := p]
  }

  function Raised(rank: seq<nat>, p: nat, c: nat): seq<nat>
    requires p < |rank| && c < |rank|
  {
    rank[p := if rank[c] == rank[p] then rank[p] + 1 else rank[p]]
  }

  lemma RankWord(rep: seq<nat>, root: seq<nat>, rank: seq<nat>, n: nat)
    requires Linked(rep, root, rank) && n < |rep| <= NODE_RANK_MIN && root[n] == n
    ensures |root| == |rank| == |rep| && rep[n] == NODE_RANK_MIN + rank[n]
  {
  }

  lemma JoinedForest(rep: seq<nat>, root: seq<nat>, rank: seq<nat>, p: nat, c: nat)
    requires |root| == |rank| == |rep| <= NODE_RANK_MIN && Linked(rep, root, rank) && RankBounded(root, rank)
    requires p < |rep| && root[p] == p && c < |rep| && root[c] == c && p != c && rep[c] <= rep[p]
    ensures Linked(Joined(rep, p, c), Merged(root, p, c), Raised(rank, p, c))
    ensures RankBounded(Merged(root, p, c), Raised(rank, p, c))
  {
    hide Linked, RankBounded, Merged;
    RankWord(rep, root, rank, p);
    RankWord(rep, root, rank, c);
    MergedLinked(rep, root, rank, p, c, Joined(rep, p, c), Raised(rank, p, c));
    MergedRanks(root, rank, p, c, Raised(rank, p, c));
  }

  // The root map with further nodes, each of them a class of its own.
  function WithSingles(root: seq<nat>, n: nat): (r: seq<nat>)
    requires |root| <= n
    ensures |r| == n && forall m :: 0 <= m < n ==> r[m] == if m < |root| then root[m] else m
  {
    root + seq(n - |root|, i requires 0 <= i < n - |root| => |root| + i)
  }

  lemma AddedForest(rep: seq<nat>, root: seq<nat>, rank: seq<nat>, n: nat)
    requires |root| == |rank| == |rep| <= n <= NODE_RANK_MIN && Linked(rep, root, rank) && RankBounded(root, rank)
    ensures var k, t := n - |rep|, WithSingles(root, n);
      Linked(rep + seq(k, _ => NODE_RANK_MIN), t, rank + seq(k, _ => 0)) && RankBounded(t, rank + seq(k, _ => 0))
  {
    var t, a := WithSingles(root, n), rank + seq(n - |rep|, _ => 0);
    hide WithSingles;
    forall n | 0 <= n < |t| && t[n] == n ensures Pow2(a[n]) <= |Class(t, n)| {
      if n < |root| {
        assert Class(root, n) == Class(t, n);
      } else {
        assert n in Class(t, n);
        assert Class(t, n) == {n};
      }
    }
  }

  class Classes {
    var rep: seq<nat>
    ghost var root: seq<nat>
    ghost var rank: seq<nat>

    ghost predicate Valid()
      reads this
    {
      |rep| <= NODE_RANK_MIN && Linked(rep, root, rank) && RankBounded(root, rank)
    }

    // n nodes, each its own class of rank 0.
    // Nothing has been merged yet.
    ghost predicate Untouched()
      reads this
    {
      forall n :: 0 <= n < |rep| ==> rep[n] == NODE_RANK_MIN
    }

    constructor (n: nat)
      requires n <= NODE_RANK_MIN
      ensures Valid() && root == seq(n, i => i) && Untouched()
    {
      rep := seq(n, _ => NODE_RANK_MIN);
      root := seq(n, i => i);
      rank := seq(n, _ => 0);
      new;
      forall i | 0 <= i < n ensures 1 <= |Class(root, i)| {
        assert Class(root, i) == {i};
      }
    }

    // Every word fits 32 bits, and no parent can be mistaken for a rank.
    lemma WordsFit()
      requires Valid()
      ensures forall n :: 0 <= n < |rep| ==> rep[n] < U32_LIMIT && (rep[n] < NODE_RANK_MIN <==> root[n] != n)
    {
      forall n | 0 <= n < |rep| && root[n] == n ensures rep[n] < U32_LIMIT {
        RankSmall(root, rank, n);
      }
    }

    predicate IsRep(n: nat)
      requires n < |rep|
      reads this
    {
      rep[n] >= NODE_RANK_MIN
    }

    // Make room for n nodes; the new ones are classes of their own.
    method Add(n: nat)
      requires Valid() && |rep| <= n <= NODE_RANK_MIN
      modifies this
      ensures Valid() && |rep| == n && root == old(WithSingles(root, n))
    {
      AddedForest(rep, root, rank, n);
      hide Linked, RankBounded, WithSingles;
      var k := n - |rep|;
      rep, root, rank := rep + seq(k, _ => NODE_RANK_MIN), WithSingles(root, n), rank + seq(k, _ => 0);
    }

    // The representative of n; every node on the way is linked to it directly.
    method Find(n: nat) returns (r: nat)
      requires Valid() && n < |rep|
      modifies this
      ensures Valid() && |rep| == old(|rep|) && root == old(root) && rank == old(rank) && r == root[n]
      ensures forall m :: 0 <= m < |rep| && root[m] == m ==> rep[m] == old(rep[m])
      ensures root[n] != n ==> rep[n] == root[n]
      ensures forall m :: 0 <= m < |rep| ==> rep[m] == old(rep[m]) || rep[m] == root[m]
      decreases rank[root[n]] - rank[n]
    {
      if rep[n] >= NODE_RANK_MIN {
        return n;
      }
      r := Find(rep[n]);
      rep := rep[n := r];
    }

    // The same without changing any link.
    method Peek(n: nat) returns (r: nat)
      requires Valid() && n < |rep|
      ensures r == root[n]
    {
      r := n;
      while rep[r] < NODE_RANK_MIN
        invariant r < |rep| && root[r] == root[n]
        decreases rank[root[n]] - rank[r]
      {
        r := rep[r];
      }
    }

    // Make c a child of p.
    method Link(p: nat, c: nat)
      requires Valid() && p < |rep| && c < |rep| && p != c && root[p] == p && root[c] == c && rep[c] <= rep[p]
      modifies this
      ensures Valid() && root == Merged(old(root), p, c) && rep == Joined(old(rep), p, c)
    {
      JoinedForest(rep, root, rank, p, c);
      hide Linked, RankBounded, Merged, Joined, Raised;
      rep, root, rank := Joined(rep, p, c), Merged(root, p, c), Raised(rank, p, c);
    }

    // Join two classes; the representative of higher rank (n1 on a tie) stays one.
    method Union(n1: nat, n2: nat) returns (p: nat)
      requires Valid() && n1 < |rep| && n2 < |rep| && n1 != n2 && root[n1] == n1 && root[n2] == n2
      modifies this
      ensures Valid() && |rep| == old(|rep|) && p == (if old(rep[n1]) < old(rep[n2]) then n2 else n1)
      ensures root == Merged(old(root), p, n1 + n2 - p)
      ensures rep[p] == old(rep[p]) + if old(rep[n1] == rep[n2]) then 1 else 0
      ensures forall m :: 0 <= m < |rep| && m != n1 && m != n2 ==> rep[m] == old(rep[m])
    {
      if rep[n1] < rep[n2] {
        p := n2;
        Link(n2, n1);
      } else {
        p := n1;
        Link(n1, n2);
      }
    }
  }
}
