/** Rewriting a constraint list after nodes have been merged: what the new list has in common
    with the old one. */
module Rewriting {
  import opened Constraints
  import opened ConstraintGraph
  import Sets = UnionFind

  // The constraint in terms of representatives.  The source of an address-of stays as it is,
  // since it may still be pointed to.
  function Redirect(root: seq<nat>, c: Constraint): Constraint {
    c.(dest := Rt(root, c.dest), src := if c.typ == AddrOf then c.src else Rt(root, c.src))
  }

  predicate Kept(root: seq<nat>, nonptr: set<nat>, c: Constraint) {
    c.dest !in nonptr && c.src !in nonptr && (c.typ == Copy ==> Rt(root, c.dest) != Rt(root, c.src))
  }

  // cs' holds every kept constraint of cs, redirected, once, and nothing else.
  ghost predicate Rewritten(cs: seq<Constraint>, root: seq<nat>, nonptr: set<nat>, cs': seq<Constraint>) {
    && (forall c :: c in cs && Kept(root, nonptr, c) ==> Redirect(root, c) in cs')
    && (forall d :: d in cs' ==> exists c :: c in cs && Kept(root, nonptr, c) && d == Redirect(root, c))
    && (forall i, j :: 0 <= i < j < |cs'| ==> cs'[i] != cs'[j])
  }

  // root merges at least what rep merges.
  ghost predicate Coarser(rep: seq<nat>, root: seq<nat>) {
    && |root| == |rep| && Sets.IsRootMap(root) && (forall n: nat :: Rt(root, Rt(rep, n)) == Rt(root, n))
    && (forall n: nat :: IsRep(root, n) ==> IsRep(rep, n))
  }

  lemma MergedRt(root: seq<nat>, p: nat, c: nat)
    requires p < |root| && c < |root|
    ensures forall m: nat :: Rt(Sets.Merged(root, p, c), m) == if m < |root| && Rt(root, m) == c then p else Rt(root, m)
  {
  }

  lemma MergeCoarser(rep: seq<nat>, root: seq<nat>, p: nat, c: nat)
    requires Coarser(rep, root) && p < |root| && c < |root| && Rt(root, p) == p && Rt(root, c) == c && p != c
    ensures Coarser(rep, Sets.Merged(root, p, c))
  {
  }

  // Non-pointers point to nothing in s, and no address of one is taken.
  ghost predicate NoPointers(cs: seq<Constraint>, nonptr: set<nat>, s: Sol) {
    && (forall n :: n in nonptr ==> Pts(s, n) == {})
    && (forall c :: c in cs && c.typ == AddrOf ==> c.src !in nonptr)
  }

  lemma RespectsRt(root: seq<nat>, t: Sol, n: nat)
    requires Respects(root, t)
    ensures Pts(t, Rt(root, n)) == Pts(t, n)
  {
  }

  // A constraint one of whose sides is a non-pointer holds of everything below s.
  lemma DroppedSat(l: Layout, s: Sol, t: Sol, c: Constraint, nonptr: set<nat>)
    requires Sat(l, s, c) && (c.dest in nonptr || c.src in nonptr) && (c.typ == AddrOf ==> c.src !in nonptr)
    requires forall n :: n in nonptr ==> Pts(s, n) == {}
    ensures Sat(l, Meet(s, t), c)
  {
  }

  lemma RedirectSat(l: Layout, root: seq<nat>, t: Sol, c: Constraint)
    requires Respects(root, t)
    ensures Sat(l, t, Redirect(root, c)) <==> Sat(l, t, c)
  {
  }

  lemma SelfCopySat(l: Layout, root: seq<nat>, t: Sol, c: Constraint)
    requires Respects(root, t) && c.typ == Copy && Rt(root, c.dest) == Rt(root, c.src)
    ensures Sat(l, t, c)
  {
  }

  // Nothing is lost: any solution of the new system covers the least solution of the old one.
  lemma RewriteCovers(y: System, s: Sol, root: seq<nat>, nonptr: set<nat>, cs': seq<Constraint>, t: Sol)
    requires IsLeast(y, s) && Coarser(y.rep, root) && NoPointers(y.cs, nonptr, s) && Rewritten(y.cs, root, nonptr, cs')
    requires Solves(System(y.l, cs', root), t)
    ensures Below(s, t)
  {
    var m := Meet(s, t);
    forall c | c in y.cs ensures Sat(y.l, m, c) {
      hide Sat, IsLeast;
      if c.dest in nonptr || c.src in nonptr {
        DroppedSat(y.l, s, t, c, nonptr) by { LeastSat(y, s, c); }
      } else {
        if c.typ == Copy && Rt(root, c.dest) == Rt(root, c.src) {
          SelfCopySat(y.l, root, t, c);
        } else {
          RedirectSat(y.l, root, t, c);
        }
        MeetSat(y.l, s, t, c) by { LeastSat(y, s, c); }
      }
    }
    forall n: nat | n < |y.rep| ensures Pts(m, n) == Pts(m, y.rep[n]) {
      assert Respects(y.rep, s);
      RespectsRt(root, t, n);
      RespectsRt(root, t, y.rep[n]);
      assert Rt(root, Rt(y.rep, n)) == Rt(root, n);
    }
    assert Below(s, m);
  }

  lemma LeastSat(y: System, s: Sol, c: Constraint)
    requires IsLeast(y, s) && c in y.cs
    ensures Sat(y.l, s, c)
  {
  }

  // Nothing is gained: if merged nodes have equal sets, the old solution solves the new system.
  lemma RewriteSolved(y: System, s: Sol, root: seq<nat>, nonptr: set<nat>, cs': seq<Constraint>)
    requires Solves(y, s) && Respects(root, s) && Rewritten(y.cs, root, nonptr, cs')
    ensures Solves(System(y.l, cs', root), s)
  {
  }

  // The least solution is the same, read through representatives, exactly when merged nodes
  // have equal sets in it.
  lemma RewritePreserves(y: System, s: Sol, root: seq<nat>, nonptr: set<nat>, cs': seq<Constraint>)
    requires IsLeast(y, s) && Coarser(y.rep, root) && NoPointers(y.cs, nonptr, s) && Rewritten(y.cs, root, nonptr, cs')
    ensures IsLeast(System(y.l, cs', root), s) <==> Respects(root, s)
  {
    if Respects(root, s) {
      RewriteSolved(y, s, root, nonptr, cs');
      forall t | Solves(System(y.l, cs', root), t) ensures Below(s, t) {
        RewriteCovers(y, s, root, nonptr, cs', t);
      }
    }
  }
}
