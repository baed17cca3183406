/** The solver's worklist: nodes are pushed onto the next heap and popped, least priority
    first, from the current one; the heaps trade places when the current one is empty. */
module Worklist {
  import Heaps = Heap

  class Worklist {
    const curr: Heaps.Heap
    const next: Heaps.Heap
    // The highest node the list accepts, and the objects that make up the list.
    ghost const limit: nat
    ghost const repr: set<object>

    ghost predicate Valid()
      reads this, repr
    {
      && {curr, next} <= repr && {curr.idxv, next.idxv} <= repr
      && curr != next && curr.idxv != next.idxv
      && curr.idxv.Length == limit + 1 && next.idxv.Length == limit + 1
      && curr.Valid() && next.Valid()
    }

    ghost function Curr(): map<nat, nat>
      reads this, repr
      requires Valid()
    {
      curr.Contents()
    }

    ghost function Next(): map<nat, nat>
      reads this, repr
      requires Valid()
    {
      next.Contents()
    }

    constructor (nn: nat)
      requires nn < Heaps.NONE - 2
      ensures Valid() && limit == nn && fresh(repr) && this !in repr
      ensures Curr() == map[] && Next() == map[]
    {
      var c := new Heaps.Heap(nn);
      var n := new Heaps.Heap(nn);
      curr, next, limit := c, n, nn;
      repr := {c, n, c.idxv, n.idxv};
    }

    method Empty() returns (e: bool)
      requires Valid()
      ensures e == (Curr() == map[])
    {
      e := curr.Empty();
    }

    // When the current list is used up, the next one takes its place; returns whether it was.
    method SwapIfEmpty() returns (b: bool)
      requires Valid()
      modifies repr
      ensures Valid() && b == (old(Curr()) == map[])
      ensures b ==> Curr() == old(Next()) && Next() == map[]
      ensures !b ==> Curr() == old(Curr()) && Next() == old(Next())
    {
      b := curr.Empty();
      if b {
        curr.Swap(next);
      }
    }

    method Push(n: nat, p: nat)
      requires Valid() && n <= limit
      modifies repr
      ensures Valid() && Next() == old(Next())[n := p] && Curr() == old(Curr())
    {
      var had := next.Push(n, p);
    }

    method Pop() returns (n: nat, p: nat)
      requires Valid() && Curr() != map[]
      modifies repr
      ensures Valid() && n in old(Curr()) && p == old(Curr())[n]
      ensures Curr() == old(Curr()) - {n} && Next() == old(Next())
      ensures forall w :: w in old(Curr()) ==> p <= old(Curr())[w]
    {
      n, p := curr.Pop();
    }
  }
}
