/** A binary min-heap that also knows the position of every value. */
module Heap {
  import opened SetFacts

  // The position of a value that is not in the heap.
  const NONE: nat := 0xffff_ffff

  // hk and hv hold the keys and values, from position 1; idx holds the positions of the values.
  ghost predicate Inverse(hk: seq<nat>, hv: seq<nat>, idx: seq<nat>) {
    && |hk| == |hv| && 1 <= |hv| <= NONE
    && (forall i :: 1 <= i < |hv| ==> hv[i] < |idx| && idx[hv[i]] == i)
    && (forall v :: 0 <= v < |idx| ==> idx[v] == NONE || (1 <= idx[v] < |hv| && hv[idx[v]] == v))
  }

  // The finite map from values to keys that the heap stands for.
  ghost function Items(hk: seq<nat>, hv: seq<nat>, idx: seq<nat>): (m: map<nat, nat>)
    requires Inverse(hk, hv, idx)
    ensures forall v: nat :: v in m <==> v < |idx| && idx[v] != NONE
    ensures forall v: nat :: v in m ==> m[v] == hk[idx[v]]
  {
    map v: nat | v < |idx| && idx[v] != NONE :: hk[idx[v]]
  }

  // The heap order holds at every position except between the parent of i and i (up)
  // or between i and its children (dn); what lies above i is no greater than what lies below.
  ghost predicate OrderedUp(hk: seq<nat>, i: nat) {
    && (forall j :: 2 <= j < |hk| && j != i ==> hk[j / 2] <= hk[j])
    && (forall j :: 2 <= j < |hk| && j / 2 == i && 1 <= i / 2 ==> hk[i / 2] <= hk[j])
  }

  ghost predicate OrderedDn(hk: seq<nat>, i: nat) {
    && (forall j :: 2 <= j < |hk| && j / 2 != i ==> hk[j / 2] <= hk[j])
    && (forall j :: 2 <= j < |hk| && j / 2 == i && 1 <= i / 2 ==> hk[i / 2] <= hk[j])
  }

  ghost predicate Ordered(hk: seq<nat>) {
    forall j :: 2 <= j < |hk| ==> hk[j / 2] <= hk[j]
  }

  lemma {:induction false} TopIsLeast(hk: seq<nat>, i: nat)
    requires Ordered(hk) && 1 <= i < |hk|
    ensures hk[1] <= hk[i]
    decreases i
  {
    if i > 1 {
      TopIsLeast(hk, i / 2);
    }
  }

  function Swapped<T>(s: seq<T>, i: nat, j: nat): seq<T>
    requires i < |s| && j < |s|
  {
    s[i := s[j]][j := s[i]]
  }

  // Exchanging two positions in all three tables changes no item.
  lemma SwapItems(hk: seq<nat>, hv: seq<nat>, idx: seq<nat>, i: nat, j: nat)
    requires Inverse(hk, hv, idx) && 1 <= i < |hv| && 1 <= j < |hv| && i != j
    ensures Inverse(Swapped(hk, i, j), Swapped(hv, i, j), idx[hv[i] := j][hv[j] := i])
    ensures Items(Swapped(hk, i, j), Swapped(hv, i, j), idx[hv[i] := j][hv[j] := i]) == Items(hk, hv, idx)
  {
  }

  lemma SwapUp(hk: seq<nat>, i: nat)
    requires OrderedUp(hk, i) && 2 <= i < |hk| && hk[i] < hk[i / 2]
    ensures OrderedUp(Swapped(hk, i / 2, i), i / 2)
  {
  }

  lemma SwapDn(hk: seq<nat>, i: nat, c: nat)
    requires OrderedDn(hk, i) && 1 <= i && 2 <= c < |hk| && c / 2 == i && hk[c] < hk[i]
    requires forall j :: 2 <= j < |hk| && j / 2 == i ==> hk[c] <= hk[j]
    ensures OrderedDn(Swapped(hk, i, c), c)
  {
  }

  lemma {:induction false} ItemsCount(hk: seq<nat>, hv: seq<nat>, idx: seq<nat>)
    requires Inverse(hk, hv, idx)
    ensures |Items(hk, hv, idx)| == |hv| - 1 <= |idx|
  {
    var n := |hv| - 1;
    var m := Items(hk, hv, idx);
    if n == 0 {
      assert m == map[];
    } else {
      var v := hv[n];
      var m' := Items(hk[..n], hv[..n], idx[v := NONE]);
      ItemsCount(hk[..n], hv[..n], idx[v := NONE]);
      assert m == m'[v := hk[n]];
      assert m.Keys == m'.Keys + {v};
    }
    CountBelow(m.Keys, |idx|);
  }

  lemma AppendItem(hk: seq<nat>, hv: seq<nat>, idx: seq<nat>, v: nat, k: nat)
    requires Inverse(hk, hv, idx) && Ordered(hk) && v < |idx| < NONE - 1 && idx[v] == NONE
    ensures Inverse(hk + [k], hv + [v], idx[v := |hv|]) && OrderedUp(hk + [k], |hk|)
    ensures Items(hk + [k], hv + [v], idx[v := |hv|]) == Items(hk, hv, idx)[v := k]
  {
    ItemsCount(hk, hv, idx);
  }

  lemma RekeyItem(hk: seq<nat>, hv: seq<nat>, idx: seq<nat>, v: nat, k: nat)
    requires Inverse(hk, hv, idx) && Ordered(hk) && v < |idx| && idx[v] != NONE
    ensures var i := idx[v];
      && Inverse(hk[i := k], hv, idx) && Items(hk[i := k], hv, idx) == Items(hk, hv, idx)[v := k]
      && (k < hk[i] ==> OrderedUp(hk[i := k], i)) && (k >= hk[i] ==> OrderedDn(hk[i := k], i))
  {
  }

  lemma InRange(hk: seq<nat>, hv: seq<nat>, idx: seq<nat>, v: nat)
    requires Inverse(hk, hv, idx) && v < |idx|
    ensures |hk| == |hv| && |hv| >= 1 && (idx[v] != NONE ==> 1 <= idx[v] < |hk|)
  {
  }

  lemma SameKey(hk: seq<nat>, hv: seq<nat>, idx: seq<nat>, v: nat, k: nat)
    requires Inverse(hk, hv, idx) && v < |idx| && idx[v] != NONE && hk[idx[v]] == k
    ensures Items(hk, hv, idx)[v := k] == Items(hk, hv, idx)
  {
  }

  function WithoutTop(hv: seq<nat>, idx: seq<nat>): seq<nat>
    requires |hv| > 1 && forall i :: 1 <= i < |hv| ==> hv[i] < |idx|
  {
    if |hv| == 2 then idx[hv[1] := NONE] else idx[hv[1] := NONE][hv[|hv| - 1] := 1]
  }

  lemma RemoveTop(hk: seq<nat>, hv: seq<nat>, idx: seq<nat>)
    requires Inverse(hk, hv, idx) && Ordered(hk) && |hv| > 1
    ensures var n := |hv| - 1;
      var hk', hv', idx' := hk[1 := hk[n]][..n], hv[1 := hv[n]][..n], WithoutTop(hv, idx);
      Inverse(hk', hv', idx') && Items(hk', hv', idx') == Items(hk, hv, idx) - {hv[1]} && OrderedDn(hk', 1)
  {
    var n := |hv| - 1;
    var hk', hv', idx' := hk[1 := hk[n]][..n], hv[1 := hv[n]][..n], WithoutTop(hv, idx);
    RemoveTopInverse(hk, hv, idx);
    assert OrderedDn(hk', 1);
    hide Ordered, OrderedDn;
    var m, m' := Items(hk, hv, idx) - {hv[1]}, Items(hk', hv', idx');
    hide Items;
    assert forall v: nat :: v in m <==> v in m';
    assert forall v: nat :: v in m ==> m[v] == m'[v];
  }

  lemma RemoveTopInverse(hk: seq<nat>, hv: seq<nat>, idx: seq<nat>)
    requires Inverse(hk, hv, idx) && |hv| > 1
    ensures var n := |hv| - 1;
      Inverse(hk[1 := hk[n]][..n], hv[1 := hv[n]][..n], WithoutTop(hv, idx))
  {
  }

  class Heap {
    var hk: seq<nat>
    var hv: seq<nat>
    var idxv: array<nat>

    ghost predicate Valid()
      reads this, idxv
    {
      Inverse(hk, hv, idxv[..]) && Ordered(hk) && idxv.Length < NONE - 1
    }

    ghost function Contents(): map<nat, nat>
      reads this, idxv
      requires Valid()
    {
      Items(hk, hv, idxv[..])
    }

    // An empty heap for values up to mv.
    constructor (mv: nat)
      requires mv < NONE - 2
      ensures Valid() && fresh(idxv) && idxv.Length == mv + 1
      ensures Contents() == map[]
    {
      hk, hv := [0], [0];
      idxv := new nat[mv + 1](_ => NONE);
    }

    method PercUp(i0: nat)
      requires Inverse(hk, hv, idxv[..]) && idxv.Length < NONE - 1 && 1 <= i0 < |hk| && OrderedUp(hk, i0)
      modifies this, idxv
      ensures Valid() && Contents() == old(Items(hk, hv, idxv[..])) && idxv == old(idxv)
    {
      var i := i0;
      while i / 2 != 0 && hk[i] < hk[i / 2]
        invariant Inverse(hk, hv, idxv[..]) && 1 <= i < |hk| && OrderedUp(hk, i) && idxv == old(idxv)
        invariant Items(hk, hv, idxv[..]) == old(Items(hk, hv, idxv[..]))
        decreases i
      {
        hide Inverse, OrderedUp, Items;
        var ip := i / 2;
        SwapUp(hk, i);
        Exchange(ip, i);
        i := ip;
      }
    }

    method Exchange(i: nat, j: nat)
      requires Inverse(hk, hv, idxv[..]) && 1 <= i < |hv| && 1 <= j < |hv| && i != j
      modifies this, idxv
      ensures Inverse(hk, hv, idxv[..]) && Items(hk, hv, idxv[..]) == old(Items(hk, hv, idxv[..]))
      ensures hk == old(Swapped(hk, i, j)) && idxv == old(idxv)
    {
      SwapItems(hk, hv, idxv[..], i, j);
      var v, w := hv[i], hv[j];
      hk := hk[i := hk[j]][j := hk[i]];
      hv := hv[i := w][j := v];
      idxv[v] := j;
      idxv[w] := i;
      assert idxv[..] == old(idxv[..][hv[i] := j][hv[j] := i]);
    }

    method PercDn(i0: nat)
      requires Inverse(hk, hv, idxv[..]) && idxv.Length < NONE - 1 && 1 <= i0 && OrderedDn(hk, i0)
      modifies this, idxv
      ensures Valid() && Contents() == old(Items(hk, hv, idxv[..])) && idxv == old(idxv)
    {
      var i := i0;
      while 2 * i < |hk|
        invariant Inverse(hk, hv, idxv[..]) && 1 <= i && OrderedDn(hk, i) && idxv == old(idxv)
        invariant Items(hk, hv, idxv[..]) == old(Items(hk, hv, idxv[..]))
        decreases |hk| - i
      {
        var ic := 2 * i;
        if ic + 1 < |hk| && hk[ic + 1] < hk[ic] {
          ic := ic + 1;
        }
        if hk[ic] >= hk[i] {
          return;
        }
        SwapDn(hk, i, ic);
        hide Inverse, OrderedDn, Items;
        Exchange(i, ic);
        i := ic;
      }
    }

    // Insert v with key k, or give v the key k; returns whether v was there before.
    method Push(v: nat, k: nat) returns (had: bool)
      requires Valid() && v < idxv.Length
      modifies this, idxv
      ensures Valid() && Contents() == old(Contents())[v := k] && had == (v in old(Contents()))
      ensures idxv == old(idxv)
    {
      var i := idxv[v];
      had := i != NONE;
      InRange(hk, hv, idxv[..], v);
      hide Inverse, OrderedUp, OrderedDn, Ordered;
      if i == NONE {
        AppendItem(hk, hv, idxv[..], v, k);
        hk, hv := hk + [k], hv + [v];
        idxv[v] := |hv| - 1;
        assert idxv[..] == old(idxv[..])[v := |hv| - 1];
        PercUp(|hk| - 1);
      } else {
        RekeyItem(hk, hv, idxv[..], v, k);
        var pk := hk[i];
        if k == pk {
          SameKey(hk, hv, idxv[..], v, k);
          return;
        }
        hk := hk[i := k];
        if k < pk {
          PercUp(i);
        } else {
          PercDn(i);
        }
      }
    }

    // Remove a value of least key.  The last item takes its place and moves down.
    method Pop() returns (v: nat, k: nat)
      requires Valid() && |Contents()| > 0
      modifies this, idxv
      ensures Valid() && v in old(Contents()) && k == old(Contents())[v]
      ensures Contents() == old(Contents()) - {v}
      ensures forall w :: w in old(Contents()) ==> k <= old(Contents())[w]
      ensures idxv == old(idxv)
    {
      ItemsCount(hk, hv, idxv[..]);
      forall w | w in Contents() ensures hk[1] <= Contents()[w] {
        TopIsLeast(hk, idxv[w]);
      }
      k, v := hk[1], hv[1];
      var n := |hv| - 1;
      RemoveTop(hk, hv, idxv[..]);
      idxv[v] := NONE;
      if n > 1 {
        hk := hk[1 := hk[n]];
        hv := hv[1 := hv[n]];
        idxv[hv[1]] := 1;
      }
      hk, hv := hk[..n], hv[..n];
      assert idxv[..] == WithoutTop(old(hv), old(idxv[..]));
      if n > 1 {
        PercDn(1);
      }
    }

    method Empty() returns (e: bool)
      requires Valid()
      ensures e == (Contents() == map[])
    {
      ItemsCount(hk, hv, idxv[..]);
      e := |hv| == 1;
    }

    // Exchange the contents of two heaps.
    method Swap(b: Heap)
      requires Valid() && b.Valid() && b != this && idxv != b.idxv
      modifies this, b
      ensures Valid() && b.Valid() && Contents() == old(b.Contents()) && b.Contents() == old(Contents())
      ensures idxv == old(b.idxv) && b.idxv == old(idxv)
    {
      hk, b.hk := b.hk, hk;
      hv, b.hv := b.hv, hv;
      idxv, b.idxv := b.idxv, idxv;
    }
  }
}
