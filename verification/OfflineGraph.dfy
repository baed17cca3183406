/** Building the offline graph: its nodes, and its edges and labels from the constraint list. */
module OfflineGraph {
  import opened Constraints
  import opened ConstraintGraph
  import opened Offline
  import Sets = UnionFind

  // The return value is the second node of a function object; parameters follow.
  const FUNC_NODE_OFF_RET: nat := 1

  // The first nodes of all objects from node i on.
  function Starts(l: Layout, i: nat): (r: set<nat>)
    ensures forall b: nat :: b in r ==> i <= b < |l.objSz|
    decreases |l.objSz| - i
  {
    if i < |l.objSz| && l.objSz[i] > 0 then {i} + Starts(l, i + l.objSz[i]) else {}
  }

  predicate InFunction(l: Layout, b: nat, n: nat) { b + FUNC_NODE_OFF_RET <= n < b + Size(l, b) }

  // n is the return value or a parameter of one of the functions that start at blocks.
  ghost predicate ParamOf(l: Layout, blocks: set<nat>, n: nat) {
    exists b: nat :: b in blocks && InFunction(l, b, n)
  }

  ghost predicate IsParam(l: Layout, functions: set<nat>, n: nat) {
    ParamOf(l, Starts(l, FIRST_VAR_NODE) * functions, n)
  }

  // ---------- Offline nodes ----------

  ghost predicate Indexed(root: seq<nat>, ix: Index) {
    && |ix.main2off| == |root| && 1 <= |ix.mainOf|
    && (forall i: nat :: i < |root| && Off(ix, i) > 0 ==> Off(ix, i) < |ix.mainOf| && Main(ix, Off(ix, i)) == i && IsRep(root, i))
    && (forall x: nat :: 0 < x < |ix.mainOf| ==> Main(ix, x) < |root| && Off(ix, Main(ix, x)) == x)
  }

  // Parameters that are representatives have the first offline nodes, values that are
  // representatives the others.
  ghost predicate Numbered(l: Layout, functions: set<nat>, root: seq<nat>, ix: Index) {
    && Indexed(root, ix) && 1 <= ix.firstVal <= ix.firstRef == |ix.mainOf|
    && (forall n: nat :: n < |root| ==> (0 < Off(ix, n) < ix.firstVal <==> IsParam(l, functions, n) && IsRep(root, n)))
    && (forall n: nat :: n < |root| ==> (Off(ix, n) >= ix.firstVal <==> (n == P_I2P || |l.objSz| <= n) && IsRep(root, n)))
  }

  lemma NumberedIndexOk(y: System, functions: set<nat>, ix: Index)
    requires Clumped(y.l) && Numbered(y.l, functions, y.rep, ix)
    ensures IndexOk(y, ix)
  {
    hide Clumped;
    forall i: nat | i < |y.rep| && 0 < Off(ix, i) < ix.firstVal ensures FIRST_VAR_NODE <= i < |y.l.objSz| {
      assert IsParam(y.l, functions, i);
      var b: nat :| b in Starts(y.l, FIRST_VAR_NODE) * functions && InFunction(y.l, b, i);
      ClumpedFacts(y.l, b);
    }
  }

  lemma ClumpedFacts(l: Layout, o: nat)
    requires Clumped(l)
    ensures P_I2P < FIRST_VAR_NODE <= |l.objSz| && l.objSz[P_I2P] == 0
    ensures FIRST_VAR_NODE <= o < |l.objSz| ==> 0 < l.objSz[o] && o + l.objSz[o] <= |l.objSz|
  {
  }

  // Main node i gets the next offline node.
  function AddNode(ix: Index, i: nat): (h: Index)
    requires i < |ix.main2off|
    ensures h.firstVal == ix.firstVal && h.firstRef == ix.firstRef && |h.main2off| == |ix.main2off|
  {
    ix.(main2off := ix.main2off[i := |ix.mainOf|], mainOf := ix.mainOf + [i])
  }

  lemma NodeAdded(root: seq<nat>, ix: Index, i: nat)
    requires Indexed(root, ix) && i < |root| && Off(ix, i) == 0 && IsRep(root, i)
    ensures Indexed(root, AddNode(ix, i)) && |AddNode(ix, i).mainOf| == |ix.mainOf| + 1
    ensures forall n: nat :: Off(AddNode(ix, i), n) == if n == i then |ix.mainOf| else Off(ix, n)
  {
    var h := AddNode(ix, i);
    forall x: nat | 0 < x < |h.mainOf| ensures Main(h, x) < |root| && Off(h, Main(h, x)) == x {
      if x < |ix.mainOf| {
        assert Main(h, x) == Main(ix, x);
      }
    }
    forall n: nat | n < |root| && Off(h, n) > 0 ensures Off(h, n) < |h.mainOf| && Main(h, Off(h, n)) == n && IsRep(root, n) {
      if n != i {
        assert Main(h, Off(ix, n)) == Main(ix, Off(ix, n));
      }
    }
  }

  lemma NoNodes(root: seq<nat>, ix: Index)
    requires ix.main2off == seq(|root|, _ => 0) && |ix.mainOf| == 1
    ensures Indexed(root, ix) && forall n: nat :: Off(ix, n) == 0
  {
  }

  // The nodes below i that are parameters of functions in blocks, and nothing else, are numbered.
  ghost predicate ParamsBelow(l: Layout, root: seq<nat>, ix: Index, blocks: set<nat>, i: nat) {
    && Indexed(root, ix)
    && (forall n: nat :: n < |root| ==> (Off(ix, n) > 0 <==> ParamOf(l, blocks, n) && IsRep(root, n) && n < i))
  }

  lemma NextBlock(l: Layout, root: seq<nat>, ix: Index, blocks: set<nat>, b: nat)
    requires ParamsBelow(l, root, ix, blocks, b) && forall a: nat :: a in blocks ==> a + Size(l, a) <= b
    ensures ParamsBelow(l, root, ix, blocks + {b}, b + FUNC_NODE_OFF_RET)
    ensures ParamsBelow(l, root, ix, blocks, b + Size(l, b))
  {
  }

  // Number the return value and the parameters of the function object b.
  method AddParams(l: Layout, classes: Sets.Classes, ix0: Index, b: nat, ghost blocks: set<nat>) returns (ix: Index)
    requires classes.Valid() && ParamsBelow(l, classes.root, ix0, blocks, b) && 0 < b + Size(l, b) <= |classes.rep|
    requires Size(l, b) > 0 && forall a: nat :: a in blocks ==> a + Size(l, a) <= b
    ensures ParamsBelow(l, classes.root, ix, blocks + {b}, b + Size(l, b)) && ix.firstVal == ix0.firstVal && ix.firstRef == ix0.firstRef
  {
    hide Sets.Linked, Sets.RankBounded, Indexed, ParamOf;
    classes.WordsFit();
    RootCount(classes.rep, classes.root, classes.rank);
    NextBlock(l, classes.root, ix0, blocks, b);
    IndexedBound(classes.root, ix0);
    ix := ix0;
    var n := b + FUNC_NODE_OFF_RET;
    while n < b + Size(l, b)
      invariant b + FUNC_NODE_OFF_RET <= n <= b + Size(l, b) && ParamsBelow(l, classes.root, ix, blocks + {b}, n)
      invariant ix.firstVal == ix0.firstVal && ix.firstRef == ix0.firstRef && |ix.main2off| == |classes.root|
    {
      BlockParam(l, blocks + {b}, b, n);
      IndexedBound(classes.root, ix);
      // Parameters that are not representatives are in no constraint.
      if classes.rep[n] >= Sets.NODE_RANK_MIN {
        NodeAdded(classes.root, ix, n);
        ix := AddNode(ix, n);
      }
      n := n + 1;
    }
  }

  lemma BlockParam(l: Layout, blocks: set<nat>, b: nat, n: nat)
    requires b in blocks && InFunction(l, b, n)
    ensures ParamOf(l, blocks, n)
  {
  }

  lemma RootCount(rep: seq<nat>, root: seq<nat>, rank: seq<nat>)
    requires Sets.Linked(rep, root, rank)
    ensures |root| == |rep|
  {
  }

  // Number the offline nodes: first the parameters of functions, then P_I2P and the values.
  method MakeOffNodes(l: Layout, functions: set<nat>, classes: Sets.Classes) returns (ix: Index)
    requires classes.Valid() && Clumped(l) && |l.objSz| <= |classes.rep| && IsRep(classes.root, P_I2P)
    ensures Numbered(l, functions, classes.root, ix)
  {
    hide Sets.Linked, Sets.RankBounded, Clumped, Indexed, ParamOf;
    RootCount(classes.rep, classes.root, classes.rank);
    ix := Index(seq(|classes.rep|, _ => 0), [0], 0, 0);
    NoNodes(classes.root, ix);
    ClumpedFacts(l, FIRST_VAR_NODE);
    var i := FIRST_VAR_NODE;
    ghost var blocks: set<nat> := {};
    ParamsStart(l, classes.root, ix, i);
    while i < |l.objSz|
      invariant FIRST_VAR_NODE <= i <= |l.objSz| && ParamsBelow(l, classes.root, ix, blocks, i)
      invariant Starts(l, FIRST_VAR_NODE) * functions == blocks + Starts(l, i) * functions
      invariant forall a: nat :: a in blocks ==> a + Size(l, a) <= i
      decreases |l.objSz| - i
    {
      ClumpedFacts(l, i);
      var sz := l.objSz[i];
      if i in functions {
        ix := AddParams(l, classes, ix, i, blocks);
        blocks := blocks + {i};
      } else {
        NextBlock(l, classes.root, ix, blocks, i);
      }
      i := i + sz;
    }
    assert Starts(l, i) == {};
    ix := AddValues(l, functions, classes, ix, i, blocks);
  }

  lemma ParamsStart(l: Layout, root: seq<nat>, ix: Index, i: nat)
    requires Indexed(root, ix) && forall n: nat :: Off(ix, n) == 0
    ensures ParamsBelow(l, root, ix, {}, i)
  {
  }

  method AddValues(l: Layout, functions: set<nat>, classes: Sets.Classes, ix0: Index, k: nat, ghost blocks: set<nat>) returns (ix: Index)
    requires classes.Valid() && P_I2P < |l.objSz| <= |classes.rep| && IsRep(classes.root, P_I2P) && l.objSz[P_I2P] == 0
    requires ParamsBelow(l, classes.root, ix0, blocks, k) && k <= |l.objSz| && blocks == Starts(l, FIRST_VAR_NODE) * functions
    requires forall a: nat :: a in blocks ==> a + Size(l, a) <= k
    ensures Numbered(l, functions, classes.root, ix)
  {
    hide Sets.Linked, Sets.RankBounded, Indexed, ParamOf, Starts, AddNode;
    classes.WordsFit();
    RootCount(classes.rep, classes.root, classes.rank);
    ParamRange(l, functions, blocks, k);
    ix := ix0.(firstVal := |ix0.mainOf|);
    assert Indexed(classes.root, ix) by { Renamed(classes.root, ix0, ix); }
    IndexedBound(classes.root, ix);
    NodeAdded(classes.root, ix, P_I2P);
    ix := AddNode(ix, P_I2P);
    var i := |l.objSz|;
    while i < |classes.rep|
      invariant |l.objSz| <= i <= |classes.rep| && Indexed(classes.root, ix) && ix.firstVal == |ix0.mainOf| < |ix.mainOf| && |ix.main2off| == |classes.root|
      invariant forall n: nat :: n < |classes.root| && n < |l.objSz| && n != P_I2P ==> Off(ix, n) == Off(ix0, n)
      invariant forall n: nat :: n < |classes.root| && (n == P_I2P || |l.objSz| <= n < i) ==>
        (Off(ix, n) >= ix.firstVal <==> IsRep(classes.root, n)) && (Off(ix, n) < ix.firstVal ==> Off(ix, n) == 0)
      invariant forall n: nat :: i <= n ==> Off(ix, n) == 0
    {
      if classes.rep[i] >= Sets.NODE_RANK_MIN {
        NodeAdded(classes.root, ix, i);
        ix := AddNode(ix, i);
      }
      i := i + 1;
    }
    Renamed(classes.root, ix, ix.(firstRef := |ix.mainOf|));
    ix := ix.(firstRef := |ix.mainOf|);
  }

  lemma ParamRange(l: Layout, functions: set<nat>, blocks: set<nat>, k: nat)
    requires blocks == Starts(l, FIRST_VAR_NODE) * functions && forall a: nat :: a in blocks ==> a + Size(l, a) <= k
    ensures forall n: nat :: ParamOf(l, blocks, n) ==> FIRST_VAR_NODE <= n < k
  {
  }

  lemma IndexedBound(root: seq<nat>, ix: Index)
    requires Indexed(root, ix)
    ensures |ix.main2off| == |root| && |ix.mainOf| >= 1 && forall n: nat :: Off(ix, n) < |ix.mainOf|
  {
  }

  lemma Renamed(root: seq<nat>, ix: Index, h: Index)
    requires Indexed(root, ix) && h.main2off == ix.main2off && h.mainOf == ix.mainOf
    ensures Indexed(root, h)
  {
    assert forall x: nat :: Main(h, x) == Main(ix, x) && Off(h, x) == Off(ix, x);
  }
}
