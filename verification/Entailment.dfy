/** Facts that hold in every solution of a constraint system. */
module Entailment {
  import opened Constraints
  import opened Graphs

  ghost predicate Member(y: System, o: nat, n: nat) {
    forall s :: Solves(y, s) ==> o in Pts(s, n)
  }

  ghost predicate Le(y: System, a: nat, b: nat) {
    forall s :: Solves(y, s) ==> Pts(s, a) <= Pts(s, b)
  }

  ghost predicate Eq(y: System, a: nat, b: nat) {
    Le(y, a, b) && Le(y, b, a)
  }

  ghost predicate Holds(y: System, c: Constraint) {
    forall s :: Solves(y, s) ==> Sat(y.l, s, c)
  }

  lemma LeRefl(y: System, a: nat)
    ensures Le(y, a, a)
  {
  }

  lemma LeTrans(y: System, a: nat, b: nat, c: nat)
    requires Le(y, a, b) && Le(y, b, c)
    ensures Le(y, a, c)
  {
  }

  lemma MemberLe(y: System, o: nat, a: nat, b: nat)
    requires Member(y, o, a) && Le(y, a, b)
    ensures Member(y, o, b)
  {
  }

  lemma HoldsModulo(y: System, c: Constraint, d: Constraint)
    requires Holds(y, c) && c.typ != AddrOf
    requires d.typ == c.typ && d.off == c.off && Eq(y, c.dest, d.dest) && Eq(y, c.src, d.src)
    ensures Holds(y, d)
  {
  }

  // A dereferenced member of a points-to set gives an inclusion.
  lemma LoadLe(y: System, c: Constraint, members: set<nat>, o: nat)
    requires Holds(y, c) && c.typ == Load && o in Targets(y.l, members, c.off)
    requires forall x :: x in members ==> Member(y, x, c.src)
    ensures Le(y, o, c.dest)
  {
  }

  lemma StoreLe(y: System, c: Constraint, members: set<nat>, o: nat)
    requires Holds(y, c) && c.typ == Store && o in Targets(y.l, members, c.off)
    requires forall x :: x in members ==> Member(y, x, c.dest)
    ensures Le(y, c.src, o)
  {
  }

  lemma GepMember(y: System, c: Constraint, members: set<nat>, o: nat)
    requires Holds(y, c) && c.typ == Gep && o in Shift(y.l, members, c.off)
    requires forall x :: x in members ==> Member(y, x, c.src)
    ensures Member(y, o, c.dest)
  {
  }

  // Inclusion along every edge of a graph gives inclusion along every path.
  lemma LeAlongPath(y: System, E: Digraph, a: nat, b: nat)
    requires forall m: nat, n: nat :: n in Succ(E, m) ==> Le(y, m, n)
    requires Reach(E, a, b)
    ensures Le(y, a, b)
  {
    var p :| IsPath(E, p, a, b);
    LeAlongPrefix(y, E, p, |p| - 1);
  }

  lemma {:induction false} LeAlongPrefix(y: System, E: Digraph, p: seq<nat>, i: nat)
    requires forall m: nat, n: nat :: n in Succ(E, m) ==> Le(y, m, n)
    requires i < |p| && IsPath(E, p, p[0], p[|p| - 1])
    ensures Le(y, p[0], p[i])
  {
    hide Le;
    if i == 0 {
      LeRefl(y, p[0]);
    } else {
      LeAlongPrefix(y, E, p, i - 1);
      LeTrans(y, p[0], p[i - 1], p[i]);
    }
  }
}
