/** Expansion of a satisfying assignment with don't-cares into the integers it stands for. */
module SatVector {
  import opened Powers = UnionFind

  // An assignment bit of -1 is a don't-care; any value but -1 and 1 counts as 0.
  const DONT_CARE: int := -1

  // The even positions of v below 2 * n - 1, which hold bits 0 .. n - 1 of the integers.
  function Pattern(v: seq<int>, n: nat): (p: seq<int>)
    requires 2 * n <= |v| + 1
    ensures |p| == n && forall k :: 0 <= k < n ==> p[k] == v[2 * k]
  {
    seq(n, k requires 0 <= k < n => v[2 * k])
  }

  // Bit k of x.
  predicate BitOf(x: nat, k: nat)
    decreases k
  {
    if k == 0 then x % 2 == 1 else BitOf(x / 2, k - 1)
  }

  // x agrees with every bit of the pattern that is not a don't-care, and has no further bits.
  predicate Matches(p: seq<int>, x: nat) {
    x < Pow2(|p|) && forall k: nat :: k < |p| && p[k] != DONT_CARE ==> (BitOf(x, k) <==> p[k] == 1)
  }

  function DontCares(p: seq<int>): nat {
    if p == [] then 0 else DontCares(p[1..]) + if p[0] == DONT_CARE then 1 else 0
  }

  // The integer that matches p and has the bits of i at its don't-cares.
  function Nth(p: seq<int>, i: nat): nat {
    if p == [] then 0
    else if p[0] == DONT_CARE then i % 2 + 2 * Nth(p[1..], i / 2)
    else (if p[0] == 1 then 1 else 0) + 2 * Nth(p[1..], i)
  }

  lemma MatchesStep(p: seq<int>, x: nat)
    requires p != []
    ensures Matches(p, x) <==> (p[0] != DONT_CARE ==> (x % 2 == 1 <==> p[0] == 1)) && Matches(p[1..], x / 2)
  {
  }

  lemma {:induction false} NthMatches(p: seq<int>, i: nat)
    ensures Matches(p, Nth(p, i))
  {
    if p != [] {
      var j := if p[0] == DONT_CARE then i / 2 else i;
      NthMatches(p[1..], j);
      assert Nth(p, i) / 2 == Nth(p[1..], j);
      MatchesStep(p, Nth(p, i));
    }
  }

  // Every match has an index.
  lemma {:induction false} MatchIndex(p: seq<int>, x: nat) returns (i: nat)
    requires Matches(p, x)
    ensures i < Pow2(DontCares(p)) && Nth(p, i) == x
  {
    if p == [] {
      i := 0;
    } else {
      MatchesStep(p, x);
      var j := MatchIndex(p[1..], x / 2);
      i := if p[0] == DONT_CARE then x % 2 + 2 * j else j;
      assert p[0] == DONT_CARE ==> i / 2 == j && i % 2 == x % 2;
    }
  }

  lemma NthParts(p: seq<int>, i: nat)
    requires p != [] && p[0] == DONT_CARE && i < Pow2(DontCares(p))
    ensures Nth(p, i) % 2 == i % 2 && Nth(p, i) / 2 == Nth(p[1..], i / 2) && i / 2 < Pow2(DontCares(p[1..]))
  {
  }

  lemma SameParts(i: nat, j: nat)
    requires i % 2 == j % 2 && i / 2 == j / 2
    ensures i == j
  {
  }

  lemma {:induction false} NthInjective(p: seq<int>, i: nat, j: nat)
    requires i < Pow2(DontCares(p)) && j < Pow2(DontCares(p)) && Nth(p, i) == Nth(p, j)
    ensures i == j
  {
    if p != [] {
      if p[0] == DONT_CARE {
        NthParts(p, i);
        NthParts(p, j);
        hide Nth, Pow2, DontCares;
        NthInjective(p[1..], i / 2, j / 2);
        SameParts(i, j);
      } else {
        NthInjective(p[1..], i, j);
      }
    }
  }

  // ---------- What the loops compute ----------

  // The value of the fixed bits, and the masks of the don't-cares, if bit 0 of p has mask m.
  function Base(p: seq<int>, m: nat): nat {
    if p == [] then 0 else (if p[0] == 1 then m else 0) + Base(p[1..], 2 * m)
  }

  function Masks(p: seq<int>, m: nat): (r: seq<nat>)
    ensures |r| == DontCares(p)
  {
    if p == [] then [] else (if p[0] == DONT_CARE then [m] else []) + Masks(p[1..], 2 * m)
  }

  // The sum of the masks selected by the bits of i.
  function Selected(dc: seq<nat>, i: nat): nat {
    if dc == [] then 0 else (if i % 2 == 1 then dc[0] else 0) + Selected(dc[1..], i / 2)
  }

  // A product, which proofs need not look into.
  function Times(m: nat, x: nat): nat { m * x }

  lemma Scale(m: nat, b: nat, x: nat)
    requires b == 0 || b == 1
    ensures Times(m, b + 2 * x) == (if b == 1 then m else 0) + Times(2 * m, x)
  {
  }

  lemma {:induction false} NthSum(p: seq<int>, m: nat, i: nat)
    ensures Times(m, Nth(p, i)) == Base(p, m) + Selected(Masks(p, m), i)
  {
    if p == [] {
      return;
    }
    hide Times, Selected, Base, Masks, Nth;
    FirstPosition(p, m, i);
    var rest := p[1..];
    if p[0] == DONT_CARE {
      NthSum(rest, 2 * m, i / 2);
      SelectedFirst(m, Masks(rest, 2 * m), i);
      Scale(m, i % 2, Nth(rest, i / 2));
    } else {
      NthSum(rest, 2 * m, i);
      assert [] + Masks(rest, 2 * m) == Masks(rest, 2 * m);
      Scale(m, if p[0] == 1 then 1 else 0, Nth(rest, i));
    }
  }

  lemma SelectedFirst(m: nat, dc: seq<nat>, i: nat)
    ensures Selected([m] + dc, i) == (if i % 2 == 1 then m else 0) + Selected(dc, i / 2)
  {
    assert ([m] + dc)[1..] == dc;
  }

  // What the lowest position of a pattern contributes.
  lemma FirstPosition(p: seq<int>, m: nat, i: nat)
    requires p != []
    ensures Base(p, m) == (if p[0] == 1 then m else 0) + Base(p[1..], 2 * m)
    ensures Masks(p, m) == (if p[0] == DONT_CARE then [m] else []) + Masks(p[1..], 2 * m)
    ensures Nth(p, i) == if p[0] == DONT_CARE then i % 2 + 2 * Nth(p[1..], i / 2) else (if p[0] == 1 then 1 else 0) + 2 * Nth(p[1..], i)
  {
  }

  // The loop over the bits goes from the low end.
  lemma {:induction false} OneMoreBit(p: seq<int>, b: int, m: nat)
    ensures Base(p + [b], m) == Base(p, m) + if b == 1 then Pow2(|p|) * m else 0
    ensures Masks(p + [b], m) == Masks(p, m) + if b == DONT_CARE then [Pow2(|p|) * m] else []
  {
    if p == [] {
      assert p + [b] == [b] && [b][1..] == [];
      assert Base([b], m) == (if b == 1 then m else 0) + Base([], 2 * m);
    } else {
      OneMoreBit(p[1..], b, 2 * m);
      PowScale(|p|, m);
      hide Pow2;
      assert (p + [b])[1..] == p[1..] + [b] && (p + [b])[0] == p[0];
      var x := Pow2(|p|) * m;
      assert Base(p + [b], m) == (if p[0] == 1 then m else 0) + Base(p[1..] + [b], 2 * m);
      assert Masks(p + [b], m) == (if p[0] == DONT_CARE then [m] else []) + Masks(p[1..] + [b], 2 * m);
    }
  }

  lemma PowScale(n: nat, m: nat)
    requires n > 0
    ensures Pow2(n - 1) * (2 * m) == Pow2(n) * m
  {
  }

  // The loop over the don't-cares goes from the low end, too.
  lemma {:induction false} OneMoreMask(dc: seq<nat>, i: nat, j: nat)
    requires j < |dc|
    ensures Selected(dc[..j + 1], i) == Selected(dc[..j], i) + if BitOf(i, j) then dc[j] else 0
  {
    if j > 0 {
      OneMoreMask(dc[1..], i / 2, j - 1);
      assert dc[..j + 1][1..] == dc[1..][..j] && dc[..j][1..] == dc[1..][..j - 1];
    } else {
      assert dc[..1][1..] == [] && dc[..0] == [];
    }
  }

  lemma SmallSelections(dc: seq<nat>)
    ensures Selected(dc, 0) == 0
    ensures |dc| == 1 ==> Selected(dc, 1) == dc[0]
    ensures |dc| == 2 ==> Selected(dc, 1) == dc[0] && Selected(dc, 2) == dc[1] && Selected(dc, 3) == dc[0] + dc[1]
  {
  }

  lemma {:induction false} NoneSelected(dc: seq<nat>)
    ensures Selected(dc, 0) == 0
  {
    if dc != [] {
      NoneSelected(dc[1..]);
    }
  }

  // ---------- The expansion ----------

  // out lists exactly the integers that match p, once each; there are 2 to the number of don't-cares.
  ghost predicate Expands(p: seq<int>, out: seq<nat>) {
    && (forall x: nat :: x in out <==> Matches(p, x))
    && (forall i, j :: 0 <= i < j < |out| ==> out[i] != out[j])
    && |out| == Pow2(DontCares(p))
  }

  // The indices in the order in which the expansion visits them.
  ghost predicate Visits(order: seq<nat>, n: nat) {
    && |order| == n && (forall i: nat :: i in order <==> i < n)
    && (forall i, j :: 0 <= i < j < |order| ==> order[i] != order[j])
  }

  lemma VisitedExpands(p: seq<int>, order: seq<nat>, out: seq<nat>)
    requires Visits(order, Pow2(DontCares(p))) && |out| == |order| && forall i :: 0 <= i < |out| ==> out[i] == Nth(p, order[i])
    ensures Expands(p, out)
  {
    forall x: nat ensures x in out <==> Matches(p, x) {
      if x in out {
        var i :| 0 <= i < |out| && out[i] == x;
        NthMatches(p, order[i]);
      }
      if Matches(p, x) {
        var i := MatchIndex(p, x);
        assert i in order;
      }
    }
    forall i, j | 0 <= i < j < |out| ensures out[i] != out[j] {
      assert order[i] in order && order[j] in order;
      if out[i] == out[j] {
        NthInjective(p, order[i], order[j]);
      }
    }
  }

  // The result with all don't-cares at 0, and the list of their masks.
  method ReadBits(v: seq<int>, n: nat) returns (base: nat, dc: seq<nat>)
    requires 2 * n <= |v| + 1
    ensures base == Base(Pattern(v, n), 1) && dc == Masks(Pattern(v, n), 1)
  {
    ghost var p := Pattern(v, n);
    base, dc := 0, [];
    var m: nat := 1;
    var i := 0;
    assert p[..0] == [];
    while i < n
      invariant i <= n && m == Pow2(i) && base == Base(p[..i], 1) && dc == Masks(p[..i], 1)
    {
      OneMoreBit(p[..i], p[i], 1);
      assert p[..i + 1] == p[..i] + [p[i]];
      hide Base, Masks;
      if v[2 * i] == DONT_CARE {
        dc := dc + [m];
      } else if v[2 * i] == 1 {
        base := base + m;
      }
      m := 2 * m;
      i := i + 1;
    }
    assert p[..n] == p;
  }

  // Append all integers that v stands for; bit k of the integer is at position 2 * k of v.
  // Masks are distinct bits, so that adding them is the same as or-ing them.
  method Sat2Vec(v: seq<int>, n: nat, bddexp: seq<nat>) returns (out: seq<nat>)
    requires 2 * n <= |v| + 1 && n <= 32
    ensures |bddexp| <= |out| && out[..|bddexp|] == bddexp && Expands(Pattern(v, n), out[|bddexp|..])
  {
    ghost var p := Pattern(v, n);
    var base, dc := ReadBits(v, n);
    hide Base, Masks, Selected, Nth, Expands;
    forall k: nat ensures Nth(p, k) == base + Selected(dc, k) {
      NthSum(p, 1, k);
    }
    ghost var added, order: seq<nat> := [], [];
    out := bddexp;
    // Up to two don't-cares are handled without a loop.
    if |dc| <= 2 {
      SmallSelections(dc);
      assert Pow2(1) == 2 && Pow2(2) == 4;
      if |dc| == 2 {
        var x := base + dc[1];
        out, added, order := out + [x, x + dc[0]], [x, x + dc[0]], [2, 3];
      }
      if |dc| >= 1 {
        out, added, order := out + [base + dc[0]], added + [base + dc[0]], order + [1];
      }
      out, added, order := out + [base], added + [base], order + [0];
    } else {
      var subsets := AllSubsets(p, base, dc);
      out, added, order := out + subsets, subsets, seq(|subsets|, i => i);
      InOrder(|subsets|);
    }
    VisitedExpands(p, order, added);
    assert out == bddexp + added;
  }

  lemma InOrder(n: nat)
    ensures Visits(seq(n, i => i), n)
  {
    var order := seq(n, i => i);
    forall i: nat ensures i in order <==> i < n {
      if i < n {
        assert order[i] == i;
      }
    }
  }

  // Use all subsets of the don't-cares.
  method AllSubsets(ghost p: seq<int>, base: nat, dc: seq<nat>) returns (added: seq<nat>)
    requires |dc| == DontCares(p) && forall k: nat :: Nth(p, k) == base + Selected(dc, k)
    ensures |added| == Pow2(DontCares(p)) && forall k: nat :: k < |added| ==> added[k] == Nth(p, k)
  {
    added := [];
    var i := 0;
    var ie := Shifted(|dc|);
    while i < ie
      invariant i <= ie && |added| == i
      invariant forall k: nat :: k < i ==> added[k] == Nth(p, k)
    {
      var x := base;
      var j := 0;
      while j < |dc|
        invariant j <= |dc| && x == base + Selected(dc[..j], i)
      {
        OneMoreMask(dc, i, j);
        if BitOf(i, j) {
          x := x + dc[j];
        }
        j := j + 1;
      }
      assert dc[..|dc|] == dc;
      added := added + [x];
      i := i + 1;
    }
  }

  // 1 << n.
  method Shifted(n: nat) returns (x: nat)
    ensures x == Pow2(n)
  {
    x := 1;
    for i := 0 to n
      invariant x == Pow2(i)
    {
      x := 2 * x;
    }
  }
}
