/** Which labels value numbering (HVN) and its variant with sets of labels (HU) give to the
    components of the offline graph. */
module Naming {
  import opened Graphs
  import opened Offline
  import opened SetFacts

  // ---------- The choice for one component ----------

  // The label chosen, the next unused number afterwards, and the numbers of sets of labels.
  datatype Pick = Pick(labels: set<nat>, next: nat, number: map<set<nat>, nat>)

  // HVN gives a new label to an indirect component; otherwise that of non-pointers if pe, the labels
  // it collects, is empty, a single label as it is, and a number for a set of several labels.
  function HvnPick(indirect: bool, pe: set<nat>, next: nat, number: map<set<nat>, nat>): Pick {
    if indirect then Pick({next}, next + 1, number)
    else if pe == {} then Pick({0}, next, number)
    else if |pe| == 1 then Pick(pe, next, number)
    else if pe in number then Pick({number[pe]}, next, number)
    else Pick({next}, next + 1, number[pe := next])
  }

  // HU keeps all labels, and adds a new one if the component is indirect.
  function HuPick(indirect: bool, pe: set<nat>, next: nat, number: map<set<nat>, nat>): Pick {
    if indirect then Pick(pe + {next}, next + 1, number) else Pick(if pe == {} then {0} else pe, next, number)
  }

  // ---------- What a component collects ----------

  // The nodes that x reaches and that reach x.
  ghost function Mates(e0: seq<OffNode>, x: nat): set<nat> {
    set m: nat | m < |e0| && Mutual(Arcs(e0), x, m)
  }

  ghost predicate AnyIndirect(e0: seq<OffNode>, M: set<nat>) {
    exists x: nat :: x in M && x < |e0| && e0[x].indirect
  }

  function OwnLabels(e0: seq<OffNode>, M: set<nat>): set<nat> {
    set x: nat, a | x in M && x < |e0| && a in e0[x].ptrEq :: a
  }

  // The nodes outside M that edges from M lead to.
  function Outside(e0: seq<OffNode>, M: set<nat>): set<nat> {
    set x: nat, z | x in M && x < |e0| && z in e0[x].edges && z !in M :: z
  }

  // The labels that M was given when the graph was built, and those of its neighbours that are
  // not labelled as non-pointers.
  function Gathered(e0: seq<OffNode>, M: set<nat>, lab: seq<set<nat>>): set<nat> {
    OwnLabels(e0, M) + set z: nat, a | z in Outside(e0, M) && z < |lab| && 0 !in lab[z] && a in lab[z] :: a
  }

  // ---------- The labels of a finished search ----------

  // Labels from first up to next are new: own has that of each indirect component, number those of
  // sets of labels.
  datatype Names = Names(first: nat, next: nat, own: seq<nat>, number: map<set<nat>, nat>)

  // The label v that HVN gives to a component with the own label own that collects G.
  predicate HvnName(indirect: bool, G: set<nat>, v: set<nat>, own: nat, number: map<set<nat>, nat>) {
    if indirect then v == {own}
    else if G == {} then v == {0}
    else if |G| == 1 then v == G
    else G in number && v == {number[G]}
  }

  predicate HuName(indirect: bool, G: set<nat>, v: set<nat>, own: nat) {
    v == if indirect then G + {own} else if G == {} then {0} else G
  }

  ghost predicate NamedAs(e0: seq<OffNode>, union: bool, lab: seq<set<nat>>, w: Names, x: nat) {
    var M := Mates(e0, x);
    && x < |lab| && x < |w.own|
    && if union then HuName(AnyIndirect(e0, M), Gathered(e0, M, lab), lab[x], w.own[x])
       else HvnName(AnyIndirect(e0, M), Gathered(e0, M, lab), lab[x], w.own[x], w.number)
  }

  // New labels differ from those given before the search, and from each other.
  ghost predicate NewApart(e0: seq<OffNode>, w: Names, done: set<nat>)
    requires |w.own| == |e0| && forall x: nat :: x in done ==> x < |e0|
  {
    && (forall x: nat :: x < |e0| ==> forall a: nat :: a in e0[x].ptrEq ==> 0 < a < w.first)
    && (forall x: nat :: x in done && AnyIndirect(e0, Mates(e0, x)) ==> w.first <= w.own[x] < w.next && w.own[x] !in w.number.Values)
    && (forall x: nat, z: nat :: x in done && z in done && AnyIndirect(e0, Mates(e0, x)) && AnyIndirect(e0, Mates(e0, z)) ==>
          (w.own[x] == w.own[z] <==> Mutual(Arcs(e0), x, z)))
    && (forall G :: G in w.number ==> w.first <= w.number[G] < w.next)
    && (forall G, H :: G in w.number && H in w.number && w.number[G] == w.number[H] ==> G == H)
  }

  // The nodes in done have the labels that the mode asks for, and no other node has any.
  ghost predicate Named(e0: seq<OffNode>, union: bool, lab: seq<set<nat>>, w: Names, done: set<nat>) {
    && |lab| == |w.own| == |e0| && 0 < w.first <= w.next && (forall x: nat :: x in done ==> x < |e0|)
    && NewApart(e0, w, done)
    && (forall x: nat :: x in done ==> NamedAs(e0, union, lab, w, x))
    && (forall x: nat :: x < |e0| && x !in done ==> lab[x] == {})
    && (forall x: nat :: x in done ==> Mates(e0, x) + Outside(e0, Mates(e0, x)) <= done)
  }

  lemma NoneNamed(e0: seq<OffNode>, union: bool, w: Names)
    requires |w.own| == |e0| && 0 < w.first == w.next && w.number == map[]
    requires forall x: nat :: x < |e0| ==> forall a: nat :: a in e0[x].ptrEq ==> 0 < a < w.first
    ensures Named(e0, union, seq(|e0|, _ => {}), w, {})
  {
  }

  // ---------- Closing a component ----------

  function Assign<T>(s: seq<T>, M: set<nat>, v: T): (r: seq<T>)
    ensures |r| == |s| && forall x: nat :: x < |s| ==> r[x] == if x in M then v else s[x]
  {
    seq(|s|, x requires 0 <= x < |s| => if x in M then v else s[x])
  }

  // M is a whole component without labels; its edges lead to itself and to labelled nodes.
  ghost predicate Closing(e0: seq<OffNode>, M: set<nat>, done: set<nat>) {
    && M != {} && (forall x: nat :: x in M ==> x < |e0| && x !in done && Mates(e0, x) == M)
    && Outside(e0, M) <= done
  }

  // Labels given later change nothing in what a component has collected.
  lemma GatheredKept(e0: seq<OffNode>, M: set<nat>, lab: seq<set<nat>>, N: set<nat>, v: set<nat>)
    requires Outside(e0, M) !! N
    ensures Gathered(e0, M, Assign(lab, N, v)) == Gathered(e0, M, lab)
  {
  }

  // What closing M with the label chosen leaves.
  function After(w: Names, M: set<nat>, p: Pick): Names {
    Names(w.first, p.next, Assign(w.own, M, w.next), p.number)
  }

  lemma CloseApart(e0: seq<OffNode>, union: bool, lab: seq<set<nat>>, w: Names, done: set<nat>, M: set<nat>, p: Pick)
    requires Named(e0, union, lab, w, done) && Closing(e0, M, done)
    requires var pe := Gathered(e0, M, lab);
      p == if union then HuPick(AnyIndirect(e0, M), pe, w.next, w.number) else HvnPick(AnyIndirect(e0, M), pe, w.next, w.number)
    ensures NewApart(e0, After(w, M, p), done + M)
  {
    hide AnyIndirect, Gathered, Mutual, Arcs, Outside, NamedAs;
    forall x: nat, z: nat | x in done + M && z in done + M && AnyIndirect(e0, Mates(e0, x)) && AnyIndirect(e0, Mates(e0, z))
      ensures After(w, M, p).own[x] == After(w, M, p).own[z] <==> Mutual(Arcs(e0), x, z) {
      if x in M {
        MatesApart(e0, done, M, x, z);
      } else if z in M {
        MatesApart(e0, done, M, z, x);
      }
    }
  }

  // Nodes inside and outside of M are in no common component.
  lemma MatesApart(e0: seq<OffNode>, done: set<nat>, M: set<nat>, x: nat, z: nat)
    requires Closing(e0, M, done) && x in M && z < |e0|
    ensures Mutual(Arcs(e0), x, z) <==> z in M
    ensures Mutual(Arcs(e0), z, x) <==> z in M
  {
    assert z in Mates(e0, x) <==> Mutual(Arcs(e0), x, z);
  }

  lemma CloseNamed(e0: seq<OffNode>, union: bool, lab: seq<set<nat>>, w: Names, done: set<nat>, M: set<nat>, p: Pick)
    requires Named(e0, union, lab, w, done) && Closing(e0, M, done)
    requires var pe := Gathered(e0, M, lab);
      p == if union then HuPick(AnyIndirect(e0, M), pe, w.next, w.number) else HvnPick(AnyIndirect(e0, M), pe, w.next, w.number)
    ensures Named(e0, union, Assign(lab, M, p.labels), After(w, M, p), done + M)
  {
    CloseApart(e0, union, lab, w, done, M, p);
    CloseWithin(e0, union, lab, w, done, M);
    CloseNames(e0, union, lab, w, done, M, p);
    CloseSizes(e0, union, lab, w, done, M, p);
    hide NewApart, AnyIndirect, Gathered, Mates, Outside, NamedAs, Closing, HvnPick, HuPick, After;
  }

  lemma CloseSizes(e0: seq<OffNode>, union: bool, lab: seq<set<nat>>, w: Names, done: set<nat>, M: set<nat>, p: Pick)
    requires Named(e0, union, lab, w, done) && (p == HuPick(AnyIndirect(e0, M), Gathered(e0, M, lab), w.next, w.number)
      || p == HvnPick(AnyIndirect(e0, M), Gathered(e0, M, lab), w.next, w.number))
    ensures var w' := After(w, M, p); |lab| == |w'.own| == |e0| && 0 < w'.first <= w'.next
  {
    hide NewApart, AnyIndirect, Gathered, Mates, Outside, NamedAs;
  }

  lemma CloseNames(e0: seq<OffNode>, union: bool, lab: seq<set<nat>>, w: Names, done: set<nat>, M: set<nat>, p: Pick)
    requires Named(e0, union, lab, w, done) && Closing(e0, M, done)
    requires var pe := Gathered(e0, M, lab);
      p == if union then HuPick(AnyIndirect(e0, M), pe, w.next, w.number) else HvnPick(AnyIndirect(e0, M), pe, w.next, w.number)
    ensures forall x: nat :: x in done + M ==> NamedAs(e0, union, Assign(lab, M, p.labels), After(w, M, p), x)
  {
    PickFits(union, AnyIndirect(e0, M), Gathered(e0, M, lab), w.next, w.number, p);
    assert |lab| == |w.own| == |e0| by { hide NewApart, NamedAs, Mates, Outside; }
    hide NewApart, AnyIndirect, Gathered, Mutual, Arcs, Outside, Mates, NamedAs, HvnPick, HuPick, HvnName, HuName, Named, Closing;
    forall x: nat | x in done + M ensures NamedAs(e0, union, Assign(lab, M, p.labels), After(w, M, p), x) {
      if x in M {
        NewName(e0, union, lab, w, done, M, p, x);
      } else {
        OldName(e0, union, lab, w, done, M, p, x);
      }
    }
  }

  lemma CloseWithin(e0: seq<OffNode>, union: bool, lab: seq<set<nat>>, w: Names, done: set<nat>, M: set<nat>)
    requires Named(e0, union, lab, w, done) && Closing(e0, M, done)
    ensures forall x: nat :: x in done + M ==> x < |e0| && Mates(e0, x) + Outside(e0, Mates(e0, x)) <= done + M
    ensures forall x: nat :: x < |e0| && x !in done + M ==> lab[x] == {}
  {
    hide Outside, Mates, NamedAs, NewApart;
  }

  lemma OldName(e0: seq<OffNode>, union: bool, lab: seq<set<nat>>, w: Names, done: set<nat>, M: set<nat>, p: Pick, x: nat)
    requires Named(e0, union, lab, w, done) && Closing(e0, M, done) && x in done
    requires forall G :: G in w.number ==> G in p.number && p.number[G] == w.number[G]
    ensures NamedAs(e0, union, Assign(lab, M, p.labels), After(w, M, p), x)
  {
    hide AnyIndirect, Gathered, Outside, Mates, NewApart, HvnName, HuName;
    assert NamedAs(e0, union, lab, w, x) && Outside(e0, Mates(e0, x)) <= done && x !in M;
    hide Named, Closing;
    GatheredKept(e0, Mates(e0, x), lab, M, p.labels);
    MoreNumbers(AnyIndirect(e0, Mates(e0, x)), Gathered(e0, Mates(e0, x), lab), lab[x], w.own[x], w.number, p.number);
  }

  lemma MoreNumbers(indirect: bool, G: set<nat>, v: set<nat>, own: nat, number: map<set<nat>, nat>, number': map<set<nat>, nat>)
    requires forall H :: H in number ==> H in number' && number'[H] == number[H]
    ensures HvnName(indirect, G, v, own, number) ==> HvnName(indirect, G, v, own, number')
  {
  }

  lemma NewName(e0: seq<OffNode>, union: bool, lab: seq<set<nat>>, w: Names, done: set<nat>, M: set<nat>, p: Pick, x: nat)
    requires |lab| == |w.own| == |e0| && Closing(e0, M, done) && x in M
    requires var pe := Gathered(e0, M, lab);
      p == if union then HuPick(AnyIndirect(e0, M), pe, w.next, w.number) else HvnPick(AnyIndirect(e0, M), pe, w.next, w.number)
    ensures NamedAs(e0, union, Assign(lab, M, p.labels), After(w, M, p), x)
  {
    assert Mates(e0, x) == M && Outside(e0, M) !! M;
    hide AnyIndirect, Gathered, Outside, Mates;
    GatheredKept(e0, M, lab, M, p.labels);
    PickFits(union, AnyIndirect(e0, M), Gathered(e0, M, lab), w.next, w.number, p);
    hide HvnPick, HuPick, HvnName, HuName;
  }

  lemma PickFits(union: bool, indirect: bool, pe: set<nat>, next: nat, number: map<set<nat>, nat>, p: Pick)
    requires p == if union then HuPick(indirect, pe, next, number) else HvnPick(indirect, pe, next, number)
    ensures if union then HuName(indirect, pe, p.labels, next) else HvnName(indirect, pe, p.labels, next, p.number)
    ensures forall G :: G in number ==> G in p.number && p.number[G] == number[G]
  {
  }

  // ---------- What the labels tell apart ----------

  // A component that collects just the number of the set H.
  ghost predicate NumberOf(w: Names, G: set<nat>, H: set<nat>) {
    |H| > 1 && H in w.number && G == {w.number[H]}
  }

  // HVN gives two direct components one label if and only if they collect the same, or one of them
  // collects just the number of what the other collects; two sets of several labels only share one
  // if they are equal.
  lemma HvnShared(e0: seq<OffNode>, lab: seq<set<nat>>, w: Names, done: set<nat>, x: nat, z: nat)
    requires Named(e0, false, lab, w, done) && x in done && z in done
    requires !AnyIndirect(e0, Mates(e0, x)) && !AnyIndirect(e0, Mates(e0, z))
    ensures var G, H := Gathered(e0, Mates(e0, x), lab), Gathered(e0, Mates(e0, z), lab);
      lab[x] == lab[z] <==> G == H || NumberOf(w, G, H) || NumberOf(w, H, G)
  {
    assert NamedAs(e0, false, lab, w, x) && NamedAs(e0, false, lab, w, z);
    var G, H := Gathered(e0, Mates(e0, x), lab), Gathered(e0, Mates(e0, z), lab);
    NoZero(e0, false, lab, w, done, Mates(e0, x));
    NoZero(e0, false, lab, w, done, Mates(e0, z));
    NumbersApart(e0, false, lab, w, done, G, H);
    hide Gathered, AnyIndirect, Mates, Named;
    SharedName(G, H, lab[x], lab[z], w);
  }

  lemma NumbersApart(e0: seq<OffNode>, union: bool, lab: seq<set<nat>>, w: Names, done: set<nat>, G: set<nat>, H: set<nat>)
    requires Named(e0, union, lab, w, done)
    ensures G in w.number && H in w.number && w.number[G] == w.number[H] ==> G == H
    ensures G in w.number ==> w.number[G] > 0
    ensures H in w.number ==> w.number[H] > 0
  {
    hide AnyIndirect, Mates, Mutual, NamedAs, Outside;
  }

  lemma SharedName(G: set<nat>, H: set<nat>, v: set<nat>, u: set<nat>, w: Names)
    requires HvnName(false, G, v, 0, w.number) && HvnName(false, H, u, 0, w.number) && 0 !in G && 0 !in H
    requires G in w.number && H in w.number && w.number[G] == w.number[H] ==> G == H
    requires (G in w.number ==> w.number[G] > 0) && (H in w.number ==> w.number[H] > 0)
    ensures v == u <==> G == H || NumberOf(w, G, H) || NumberOf(w, H, G)
  {
    assert 0 in {0};
    if |G| > 1 {
      assert w.number[G] in v;
    }
    if |H| > 1 {
      assert w.number[H] in u;
    }
  }

  // HU gives two direct components one label if and only if they collect the same.
  lemma HuShared(e0: seq<OffNode>, lab: seq<set<nat>>, w: Names, done: set<nat>, x: nat, z: nat)
    requires Named(e0, true, lab, w, done) && x in done && z in done
    requires !AnyIndirect(e0, Mates(e0, x)) && !AnyIndirect(e0, Mates(e0, z))
    ensures lab[x] == lab[z] <==> Gathered(e0, Mates(e0, x), lab) == Gathered(e0, Mates(e0, z), lab)
  {
    assert NamedAs(e0, true, lab, w, x) && NamedAs(e0, true, lab, w, z);
    NoZero(e0, true, lab, w, done, Mates(e0, x));
    NoZero(e0, true, lab, w, done, Mates(e0, z));
    hide Gathered, AnyIndirect, Mates, Named;
    assert 0 in {0};
  }

  lemma NoZero(e0: seq<OffNode>, union: bool, lab: seq<set<nat>>, w: Names, done: set<nat>, M: set<nat>)
    requires Named(e0, union, lab, w, done)
    ensures 0 !in Gathered(e0, M, lab)
  {
    hide AnyIndirect, Mates, Mutual, NamedAs;
  }

  // ---------- Which nodes are labelled as non-pointers ----------

  lemma ZeroChoice(e0: seq<OffNode>, union: bool, lab: seq<set<nat>>, w: Names, done: set<nat>, x: nat)
    requires Named(e0, union, lab, w, done) && x in done
    ensures x < |e0| == |lab| && lab[x] != {}
    ensures 0 in lab[x] <==> !AnyIndirect(e0, Mates(e0, x)) && Gathered(e0, Mates(e0, x), lab) == {}
  {
    assert NamedAs(e0, union, lab, w, x);
    NoZero(e0, union, lab, w, done, Mates(e0, x));
    hide AnyIndirect, Mates, Gathered, Mutual;
  }

  // Nothing that x reaches is indirect or was given a label.
  ghost predicate Barren(e0: seq<OffNode>, x: nat) {
    forall z: nat :: z < |e0| && Reach(Arcs(e0), x, z) ==> !e0[z].indirect && e0[z].ptrEq == {}
  }

  // When all nodes are labelled, exactly those are labelled 0 that reach no indirect and no
  // labelled node.  Implicit edges start at indirect nodes only.
  lemma {:induction false} ZeroExactly(e0: seq<OffNode>, union: bool, lab: seq<set<nat>>, w: Names, done: set<nat>, x: nat)
    requires Named(e0, union, lab, w, done) && WellFormed(Arcs(e0)) && x in done
    requires forall z: nat :: z < |e0| && e0[z].implEdges != {} ==> e0[z].indirect
    requires forall z: nat, y: nat :: z in done && y in Succ(Arcs(e0), z) ==> y in done
    ensures 0 in lab[x] <==> Barren(e0, x)
  {
    if 0 in lab[x] {
      ZeroBarren(e0, union, lab, w, done, x);
    }
    if Barren(e0, x) {
      BarrenZero(e0, union, lab, w, done, x);
    }
  }

  lemma ZeroBarren(e0: seq<OffNode>, union: bool, lab: seq<set<nat>>, w: Names, done: set<nat>, x: nat)
    requires Named(e0, union, lab, w, done) && WellFormed(Arcs(e0)) && x in done && x < |lab| && 0 in lab[x]
    requires forall z: nat :: z < |e0| && e0[z].implEdges != {} ==> e0[z].indirect
    requires forall z: nat, y: nat :: z in done && y in Succ(Arcs(e0), z) ==> y in done
    ensures Barren(e0, x)
  {
    var C := set z | z in done && z < |lab| && 0 in lab[z];
    forall z: nat, y: nat | z in C && y in Succ(Arcs(e0), z) ensures y in C {
      ZeroEdge(e0, union, lab, w, done, z, y);
    }
    forall z: nat | z < |e0| && Reach(Arcs(e0), x, z) ensures !e0[z].indirect && e0[z].ptrEq == {} {
      ReachClosed(Arcs(e0), C, x, z);
      ZeroNode(e0, union, lab, w, done, z);
    }
  }

  // A node labelled 0 is direct, was given no label, and is its own mate.
  lemma ZeroNode(e0: seq<OffNode>, union: bool, lab: seq<set<nat>>, w: Names, done: set<nat>, x: nat)
    requires Named(e0, union, lab, w, done) && x in done && x < |lab| && 0 in lab[x]
    ensures x < |e0| && !e0[x].indirect && e0[x].ptrEq == {} && x in Mates(e0, x)
  {
    ZeroChoice(e0, union, lab, w, done, x);
    assert x in Mates(e0, x) by { ReachRefl(Arcs(e0), x); }
    hide Mates, NamedAs, NewApart, Named;
    assert forall a: nat :: a in e0[x].ptrEq ==> a in OwnLabels(e0, Mates(e0, x));
  }

  lemma ZeroEdge(e0: seq<OffNode>, union: bool, lab: seq<set<nat>>, w: Names, done: set<nat>, x: nat, z: nat)
    requires Named(e0, union, lab, w, done) && x in done && z in done && x < |lab| && 0 in lab[x] && z in Succ(Arcs(e0), x)
    requires forall y: nat :: y < |e0| && e0[y].implEdges != {} ==> e0[y].indirect
    ensures z < |lab| && 0 in lab[z]
  {
    ZeroNode(e0, union, lab, w, done, x);
    assert z in e0[x].edges;
    ZeroChoice(e0, union, lab, w, done, x);
    ZeroChoice(e0, union, lab, w, done, z);
    if z in Mates(e0, x) {
      MatesSame(e0, x, z);
    } else {
      hide Mates, NamedAs, NewApart, Named;
      assert z in Outside(e0, Mates(e0, x));
      var a :| a in lab[z];
      assert 0 !in lab[z] ==> a in Gathered(e0, Mates(e0, x), lab);
    }
  }

  lemma MatesSame(e0: seq<OffNode>, x: nat, z: nat)
    requires z in Mates(e0, x)
    ensures Mates(e0, z) == Mates(e0, x)
  {
    var E := Arcs(e0);
    forall m: nat | m < |e0| ensures m in Mates(e0, x) <==> m in Mates(e0, z) {
      if m in Mates(e0, x) {
        ReachTrans(E, z, x, m);
        ReachTrans(E, m, x, z);
      }
      if m in Mates(e0, z) {
        ReachTrans(E, x, z, m);
        ReachTrans(E, m, z, x);
      }
    }
  }

  ghost function Reached(e0: seq<OffNode>, x: nat): set<nat> {
    set z: nat | z < |e0| && Reach(Arcs(e0), x, z)
  }

  lemma {:induction false} BarrenZero(e0: seq<OffNode>, union: bool, lab: seq<set<nat>>, w: Names, done: set<nat>, x: nat)
    requires Named(e0, union, lab, w, done) && WellFormed(Arcs(e0)) && x in done && Barren(e0, x)
    requires forall z: nat, y: nat :: z in done && y in Succ(Arcs(e0), z) ==> y in done
    ensures x < |lab| && 0 in lab[x]
    decreases |Reached(e0, x)|
  {
    ZeroChoice(e0, union, lab, w, done, x);
    var M := Mates(e0, x);
    assert !AnyIndirect(e0, M) && OwnLabels(e0, M) == {};
    forall z: nat | z in Outside(e0, M) ensures z < |lab| && 0 in lab[z] {
      OutsideLess(e0, x, z);
      assert z in done by { assert Named(e0, union, lab, w, done); }
      BarrenZero(e0, union, lab, w, done, z);
    }
  }

  // What lies outside of the component reaches less.
  lemma OutsideLess(e0: seq<OffNode>, x: nat, z: nat)
    requires z in Outside(e0, Mates(e0, x)) && WellFormed(Arcs(e0)) && x < |e0|
    ensures |Reached(e0, z)| < |Reached(e0, x)| && (Barren(e0, x) ==> Barren(e0, z))
  {
    var E := Arcs(e0);
    var m: nat :| m in Mates(e0, x) && m < |e0| && z in e0[m].edges;
    assert z in Succ(E, m) && z < |E|;
    ReachEdge(E, m, z);
    ReachTrans(E, x, m, z);
    forall y: nat | Reach(E, z, y) ensures Reach(E, x, y) {
      ReachTrans(E, x, z, y);
    }
    ReachRefl(E, x);
    assert !Reach(E, z, x);
    assert Reached(e0, z) <= Reached(e0, x) - {x};
    SubsetSize(Reached(e0, z), Reached(e0, x) - {x});
  }

  // ---------- What HU labels say ----------

  // The edges along which labels are collected: plain edges, and from a node to its mates.
  ghost function Flow(e0: seq<OffNode>): (r: Digraph)
    ensures |r| == |e0|
    ensures forall x: nat, z: nat :: x < |e0| ==> (z in Succ(r, x) <==> z in e0[x].edges || z in Mates(e0, x))
  {
    seq(|e0|, x requires 0 <= x < |e0| => e0[x].edges + Mates(e0, x))
  }

  // Node z was given label a, or a is the own label of its component.
  ghost predicate Source(e0: seq<OffNode>, w: Names, z: nat, a: nat) {
    z < |e0| && (a in e0[z].ptrEq || (AnyIndirect(e0, Mates(e0, z)) && z < |w.own| && a == w.own[z]))
  }

  ghost predicate Sourced(e0: seq<OffNode>, w: Names, x: nat, a: nat) {
    exists z: nat :: Reach(Flow(e0), x, z) && Source(e0, w, z, a)
  }

  // The HU labels of a node are exactly the labels that it can reach.
  lemma {:induction false} HuExactly(e0: seq<OffNode>, lab: seq<set<nat>>, w: Names, done: set<nat>, x: nat, a: nat)
    requires Named(e0, true, lab, w, done) && WellFormed(Arcs(e0)) && x in done && x < |lab|
    ensures a in lab[x] && a != 0 <==> Sourced(e0, w, x, a)
  {
    if a in lab[x] && a != 0 {
      HuSourced(e0, lab, w, done, x, a);
    }
    if Sourced(e0, w, x, a) {
      SourcedHu(e0, lab, w, done, x, a);
    }
  }

  lemma SourcedHu(e0: seq<OffNode>, lab: seq<set<nat>>, w: Names, done: set<nat>, x: nat, a: nat)
    requires Named(e0, true, lab, w, done) && x in done && x < |lab| && Sourced(e0, w, x, a)
    ensures a in lab[x] && a != 0
  {
    var z: nat :| Reach(Flow(e0), x, z) && Source(e0, w, z, a);
    if a == 0 || a !in lab[x] {
      var C := set y | y in done && y < |lab| && (a == 0 || a !in lab[y]);
      forall y: nat, v: nat | y in C && v in Succ(Flow(e0), y) ensures v in C {
        WithoutLabel(e0, lab, w, done, y, v, a);
      }
      ReachClosed(Flow(e0), C, x, z);
      SourceLabel(e0, lab, w, done, z, a);
    }
  }

  lemma SourceLabel(e0: seq<OffNode>, lab: seq<set<nat>>, w: Names, done: set<nat>, z: nat, a: nat)
    requires Named(e0, true, lab, w, done) && z in done && Source(e0, w, z, a)
    ensures z < |lab| && a in lab[z] && a != 0
  {
    assert NamedAs(e0, true, lab, w, z) && z in Mates(e0, z) by { ReachRefl(Arcs(e0), z); }
    NewPositive(e0, lab, w, done, z);
    hide Named, NewApart, Mates, AnyIndirect, Outside;
    if a in e0[z].ptrEq {
      assert a in OwnLabels(e0, Mates(e0, z));
    }
  }

  lemma NewPositive(e0: seq<OffNode>, lab: seq<set<nat>>, w: Names, done: set<nat>, z: nat)
    requires Named(e0, true, lab, w, done) && z in done
    ensures z < |e0| == |w.own| && 0 < w.first && (forall a: nat :: a in e0[z].ptrEq ==> 0 < a < w.first)
    ensures AnyIndirect(e0, Mates(e0, z)) ==> w.first <= w.own[z]
  {
    hide Mates, AnyIndirect, NamedAs, Outside;
  }

  lemma WithoutLabel(e0: seq<OffNode>, lab: seq<set<nat>>, w: Names, done: set<nat>, y: nat, v: nat, a: nat)
    requires Named(e0, true, lab, w, done) && y in done && y < |lab| && (a == 0 || a !in lab[y]) && v in Succ(Flow(e0), y)
    ensures v in done && v < |lab| && (a == 0 || a !in lab[v])
  {
    NamedFacts(e0, lab, w, done, y);
    if v in Mates(e0, y) {
      MatesLabel(e0, lab, w, done, y, v);
    } else {
      assert v in Outside(e0, Mates(e0, y)) by { hide Named, Mates; }
      ZeroAlone(e0, lab, w, done, v);
      hide Named, Mates, NewApart, AnyIndirect, Outside, NamedAs;
      if a != 0 && a in lab[v] {
        GatheredFrom(e0, Mates(e0, y), lab, v, a);
      }
    }
  }

  lemma GatheredFrom(e0: seq<OffNode>, M: set<nat>, lab: seq<set<nat>>, v: nat, a: nat)
    requires v in Outside(e0, M) && v < |lab| && 0 !in lab[v] && a in lab[v]
    ensures a in Gathered(e0, M, lab)
  {
  }

  lemma NamedFacts(e0: seq<OffNode>, lab: seq<set<nat>>, w: Names, done: set<nat>, y: nat)
    requires Named(e0, true, lab, w, done) && y in done
    ensures y < |e0| == |lab| && y in Mates(e0, y) && Mates(e0, y) + Outside(e0, Mates(e0, y)) <= done
    ensures Gathered(e0, Mates(e0, y), lab) <= lab[y] + {0}
  {
    hide NewApart, Gathered, AnyIndirect;
    assert NamedAs(e0, true, lab, w, y);
    ReachRefl(Arcs(e0), y);
  }

  lemma ZeroAlone(e0: seq<OffNode>, lab: seq<set<nat>>, w: Names, done: set<nat>, v: nat)
    requires Named(e0, true, lab, w, done) && v in done
    ensures v < |lab| && (0 in lab[v] ==> lab[v] == {0})
  {
    ZeroChoice(e0, true, lab, w, done, v);
    assert NamedAs(e0, true, lab, w, v);
    hide Named, Mates, NewApart, AnyIndirect, Gathered;
  }

  // Mates have one label.
  lemma MatesLabel(e0: seq<OffNode>, lab: seq<set<nat>>, w: Names, done: set<nat>, x: nat, z: nat)
    requires Named(e0, true, lab, w, done) && x in done && z in Mates(e0, x)
    ensures z in done && x < |lab| && z < |lab| && lab[z] == lab[x]
  {
    MatesSame(e0, x, z);
    assert z in done && NamedAs(e0, true, lab, w, x) && NamedAs(e0, true, lab, w, z);
    assert Mutual(Arcs(e0), x, z);
    assert AnyIndirect(e0, Mates(e0, x)) ==> w.own[x] == w.own[z] by { hide NamedAs, Outside; }
    hide Named, Mates, NewApart, AnyIndirect, Gathered;
  }

  lemma {:induction false} HuSourced(e0: seq<OffNode>, lab: seq<set<nat>>, w: Names, done: set<nat>, x: nat, a: nat)
    requires Named(e0, true, lab, w, done) && WellFormed(Arcs(e0)) && x in done && x < |lab| && a in lab[x] && a != 0
    ensures Sourced(e0, w, x, a)
    decreases |Reached(e0, x)|
  {
    assert NamedAs(e0, true, lab, w, x) && x < |e0|;
    ReachRefl(Flow(e0), x);
    var M := Mates(e0, x);
    if AnyIndirect(e0, M) && a == w.own[x] {
      assert Source(e0, w, x, a);
    } else if a in OwnLabels(e0, M) {
      var m: nat :| m in M && m < |e0| && a in e0[m].ptrEq;
      ReachEdge(Flow(e0), x, m);
      assert Source(e0, w, m, a);
    } else {
      var z: nat :| z in Outside(e0, M) && z < |lab| && 0 !in lab[z] && a in lab[z];
      OutsideLess(e0, x, z);
      assert z in done by { assert M + Outside(e0, M) <= done; }
      HuSourced(e0, lab, w, done, z, a);
      FlowOut(e0, x, z);
      var y: nat :| Reach(Flow(e0), z, y) && Source(e0, w, y, a);
      ReachTrans(Flow(e0), x, z, y);
    }
  }

  lemma FlowOut(e0: seq<OffNode>, x: nat, z: nat)
    requires x < |e0| && z < |e0| && z in Outside(e0, Mates(e0, x))
    ensures Reach(Flow(e0), x, z)
  {
    var m: nat :| m in Mates(e0, x) && m < |e0| && z in e0[m].edges;
    ReachEdge(Flow(e0), x, m);
    ReachEdge(Flow(e0), m, z);
    ReachTrans(Flow(e0), x, m, z);
  }

  // Two indirect nodes have the same HU labels only if they are in one component.
  lemma IndirectApart(e0: seq<OffNode>, lab: seq<set<nat>>, w: Names, done: set<nat>, x: nat, z: nat)
    requires Named(e0, true, lab, w, done) && WellFormed(Arcs(e0)) && x in done && z in done && x < |lab| && z < |lab|
    requires AnyIndirect(e0, Mates(e0, x)) && AnyIndirect(e0, Mates(e0, z)) && lab[x] == lab[z]
    ensures Mutual(Arcs(e0), x, z)
  {
    OwnReached(e0, lab, w, done, x, z);
    OwnReached(e0, lab, w, done, z, x);
  }

  lemma OwnReached(e0: seq<OffNode>, lab: seq<set<nat>>, w: Names, done: set<nat>, x: nat, z: nat)
    requires Named(e0, true, lab, w, done) && WellFormed(Arcs(e0)) && x in done && z in done && x < |lab| && z < |lab|
    requires AnyIndirect(e0, Mates(e0, x)) && lab[x] <= lab[z]
    ensures Reach(Arcs(e0), z, x)
  {
    assert Source(e0, w, x, w.own[x]) by { NewPositive(e0, lab, w, done, x); }
    SourceLabel(e0, lab, w, done, x, w.own[x]);
    HuSourced(e0, lab, w, done, z, w.own[x]);
    var y: nat :| Reach(Flow(e0), z, y) && Source(e0, w, y, w.own[x]);
    FlowReach(e0, z, y);
    FlowStays(e0, lab, w, done, z, y);
    NewPositive(e0, lab, w, done, x);
    NewPositive(e0, lab, w, done, y);
    assert Mutual(Arcs(e0), x, y) by { hide NamedAs, Outside, Mates, AnyIndirect; }
    ReachTrans(Arcs(e0), z, y, x);
  }

  lemma FlowReach(e0: seq<OffNode>, x: nat, y: nat)
    requires WellFormed(Arcs(e0)) && x < |e0| && Reach(Flow(e0), x, y)
    ensures Reach(Arcs(e0), x, y)
  {
    var E := Arcs(e0);
    var C := set v: nat | v < |e0| && Reach(E, x, v);
    ReachRefl(E, x);
    forall v: nat, u: nat | v in C && u in Succ(Flow(e0), v) ensures u in C {
      if u in e0[v].edges {
        assert u in Succ(E, v);
        ReachEdge(E, v, u);
      }
      ReachTrans(E, x, v, u);
    }
    ReachClosed(Flow(e0), C, x, y);
  }

  lemma FlowStays(e0: seq<OffNode>, lab: seq<set<nat>>, w: Names, done: set<nat>, x: nat, y: nat)
    requires Named(e0, true, lab, w, done) && x in done && Reach(Flow(e0), x, y)
    ensures y in done
  {
    forall v: nat, u: nat | v in done && u in Succ(Flow(e0), v) ensures u in done {
      assert Mates(e0, v) + Outside(e0, Mates(e0, v)) <= done && v in Mates(e0, v) by {
        hide NewApart, NamedAs;
        ReachRefl(Arcs(e0), v);
      }
      assert u in Mates(e0, v) || u in Outside(e0, Mates(e0, v));
    }
    ReachClosed(Flow(e0), done, x, y);
  }
}
