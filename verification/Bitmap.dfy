/** Sparse bitmaps: sorted lists of elements of a fixed number of words, none of them zero. */
module Bitmap {

  const BITWORD_SIZE: nat := 64
  const BITWORDS_PER_ELEMENT: nat := 2
  const ELEMENT_SIZE: nat := 128

  // A word is the set of its one bits, so that or, and and and-not are the set operations.
  type Word = set<nat>

  datatype Element = Element(index: nat, words: seq<Word>)

  // ---------- Elements ----------

  ghost predicate ElementOk(e: Element) {
    |e.words| == BITWORDS_PER_ELEMENT && forall w, b :: 0 <= w < |e.words| && b in e.words[w] ==> b < BITWORD_SIZE
  }

  predicate Bit(e: Element, k: nat) {
    k / BITWORD_SIZE < |e.words| && k % BITWORD_SIZE in e.words[k / BITWORD_SIZE]
  }

  predicate Zero(e: Element) { forall w | 0 <= w < |e.words| :: e.words[w] == {} }

  // The three word-wise operations.
  datatype Op = Or | And | AndNot

  function Apply(op: Op, a: Word, b: Word): Word {
    match op
    case Or => a + b
    case And => a * b
    case AndNot => a - b
  }

  predicate Holds(op: Op, a: bool, b: bool) {
    match op
    case Or => a || b
    case And => a && b
    case AndNot => a && !b
  }

  function Combine(op: Op, e: Element, f: Element): (r: Element)
    requires |e.words| == |f.words|
    ensures r.index == e.index && |r.words| == |e.words|
    ensures forall w :: 0 <= w < |e.words| ==> r.words[w] == Apply(op, e.words[w], f.words[w])
  {
    Element(e.index, seq(|e.words|, w requires 0 <= w < |e.words| => Apply(op, e.words[w], f.words[w])))
  }

  lemma CombineBits(op: Op, e: Element, f: Element)
    requires ElementOk(e) && ElementOk(f)
    ensures ElementOk(Combine(op, e, f))
    ensures forall k: nat :: Bit(Combine(op, e, f), k) <==> Holds(op, Bit(e, k), Bit(f, k))
  {
  }

  lemma ZeroBits(e: Element)
    requires ElementOk(e)
    ensures Zero(e) <==> forall k: nat :: !Bit(e, k)
  {
    if !Zero(e) {
      var w: nat :| w < |e.words| && e.words[w] != {};
      var b :| b in e.words[w];
      assert (w * BITWORD_SIZE + b) / BITWORD_SIZE == w && (w * BITWORD_SIZE + b) % BITWORD_SIZE == b;
      assert Bit(e, w * BITWORD_SIZE + b);
    }
  }

  lemma SameBits(e: Element, f: Element)
    requires ElementOk(e) && ElementOk(f) && e.index == f.index && forall k: nat :: Bit(e, k) <==> Bit(f, k)
    ensures e == f
  {
    forall w: nat | w < BITWORDS_PER_ELEMENT ensures e.words[w] == f.words[w] {
      forall b: nat ensures b in e.words[w] <==> b in f.words[w] {
        if b < BITWORD_SIZE {
          assert (w * BITWORD_SIZE + b) / BITWORD_SIZE == w && (w * BITWORD_SIZE + b) % BITWORD_SIZE == b;
          assert Bit(e, w * BITWORD_SIZE + b) <==> Bit(f, w * BITWORD_SIZE + b);
        }
      }
    }
  }

  // Combine word by word; tells whether the first operand changed, and whether it became zero.
  method CombineWith(op: Op, e: Element, f: Element) returns (r: Element, changed: bool, becameZero: bool)
    requires |e.words| == |f.words|
    ensures r == Combine(op, e, f) && (changed <==> r != e) && (becameZero <==> Zero(r))
  {
    var words: seq<Word> := [];
    changed, becameZero := false, true;
    var i := 0;
    while i < |e.words|
      invariant i <= |e.words| && |words| == i
      invariant forall w :: 0 <= w < i ==> words[w] == Apply(op, e.words[w], f.words[w])
      invariant changed <==> exists w :: 0 <= w < i && words[w] != e.words[w]
      invariant becameZero <==> forall w :: 0 <= w < i ==> words[w] == {}
    {
      var bits := Apply(op, e.words[i], f.words[i]);
      words := words + [bits];
      if bits != {} {
        becameZero := false;
      }
      if !changed && bits != e.words[i] {
        changed := true;
      }
      i := i + 1;
    }
    r := Element(e.index, words);
    assert r == Combine(op, e, f);
  }

  // ---------- Lists of elements ----------

  // Sorted by index, with no zero element.
  ghost predicate Canonical(s: seq<Element>) {
    && (forall i :: 0 <= i < |s| ==> ElementOk(s[i]) && !Zero(s[i]))
    && (forall i, j :: 0 <= i < j < |s| ==> s[i].index < s[j].index)
  }

  // n is in the set that the list stands for.
  ghost predicate Has(s: seq<Element>, n: nat) {
    exists i :: 0 <= i < |s| && s[i].index == n / ELEMENT_SIZE && Bit(s[i], n % ELEMENT_SIZE)
  }

  ghost predicate InElement(e: Element, n: nat) {
    e.index == n / ELEMENT_SIZE && Bit(e, n % ELEMENT_SIZE)
  }

  lemma HasParts(s: seq<Element>, n: nat)
    requires s != []
    ensures Has(s, n) <==> InElement(s[0], n) || Has(s[1..], n)
  {
    if Has(s, n) && !InElement(s[0], n) {
      var i :| 0 <= i < |s| && s[i].index == n / ELEMENT_SIZE && Bit(s[i], n % ELEMENT_SIZE);
      assert s[1..][i - 1] == s[i];
    }
    if Has(s[1..], n) {
      var i :| 0 <= i < |s[1..]| && s[1..][i].index == n / ELEMENT_SIZE && Bit(s[1..][i], n % ELEMENT_SIZE);
      assert s[i + 1] == s[1..][i];
    }
  }

  lemma CanonicalRest(s: seq<Element>)
    requires Canonical(s) && s != []
    ensures Canonical(s[1..]) && ElementOk(s[0]) && !Zero(s[0])
    ensures forall n: nat :: Has(s[1..], n) ==> s[0].index < n / ELEMENT_SIZE
  {
  }

  // A list with a smaller element in front.
  lemma CanonicalCons(e: Element, s: seq<Element>)
    requires Canonical(s) && ElementOk(e) && !Zero(e) && (s != [] ==> e.index < s[0].index)
    ensures Canonical([e] + s)
  {
  }

  // Members of an element, as numbers.
  lemma BitNumber(e: Element, k: nat)
    requires ElementOk(e) && Bit(e, k)
    ensures k < ELEMENT_SIZE && InElement(e, e.index * ELEMENT_SIZE + k)
  {
    assert k / BITWORD_SIZE < 2;
    assert (e.index * ELEMENT_SIZE + k) / ELEMENT_SIZE == e.index && (e.index * ELEMENT_SIZE + k) % ELEMENT_SIZE == k;
  }

  lemma FirstHas(s: seq<Element>)
    requires Canonical(s) && s != []
    ensures exists n: nat :: Has(s, n) && n / ELEMENT_SIZE == s[0].index
  {
    ZeroBits(s[0]);
    var k: nat :| Bit(s[0], k);
    BitNumber(s[0], k);
    HasParts(s, s[0].index * ELEMENT_SIZE + k);
  }

  // Equality of lists is equality of sets.
  lemma {:induction false} CanonicalUnique(s: seq<Element>, t: seq<Element>)
    requires Canonical(s) && Canonical(t) && forall n: nat :: Has(s, n) <==> Has(t, n)
    ensures s == t
  {
    if s == [] {
      if t != [] {
        FirstHas(t);
      }
    } else if t == [] {
      FirstHas(s);
    } else {
      SameFirst(s, t);
      CanonicalRest(s);
      CanonicalRest(t);
      forall n: nat ensures Has(s[1..], n) <==> Has(t[1..], n) {
        HasParts(s, n);
        HasParts(t, n);
      }
      CanonicalUnique(s[1..], t[1..]);
      assert s == [s[0]] + s[1..] && t == [t[0]] + t[1..];
    }
  }

  lemma SameFirst(s: seq<Element>, t: seq<Element>)
    requires Canonical(s) && Canonical(t) && s != [] && t != [] && forall n: nat :: Has(s, n) <==> Has(t, n)
    ensures s[0] == t[0]
  {
    FirstHas(s);
    FirstHas(t);
    CanonicalRest(s);
    CanonicalRest(t);
    IndexBound(s);
    IndexBound(t);
    forall k: nat ensures Bit(s[0], k) <==> Bit(t[0], k) {
      if Bit(s[0], k) {
        BitNumber(s[0], k);
        HasParts(s, s[0].index * ELEMENT_SIZE + k);
        HasParts(t, s[0].index * ELEMENT_SIZE + k);
      }
      if Bit(t[0], k) {
        BitNumber(t[0], k);
        HasParts(s, t[0].index * ELEMENT_SIZE + k);
        HasParts(t, t[0].index * ELEMENT_SIZE + k);
      }
    }
    SameBits(s[0], t[0]);
  }

  lemma IndexBound(s: seq<Element>)
    requires Canonical(s) && s != []
    ensures forall n: nat :: Has(s, n) ==> s[0].index <= n / ELEMENT_SIZE
  {
  }

  // ---------- The operations on lists ----------

  // What the loops of |=, &= and intersectWithComplement make of the rest of the two lists.
  function Merge(op: Op, a: seq<Element>, b: seq<Element>): seq<Element>
    requires Shaped(a) && Shaped(b)
    decreases |a| + |b|
  {
    if b == [] then (if op == And then [] else a)
    else if a == [] then (if op == Or then b else [])
    else if a[0].index > b[0].index then (if op == Or then [b[0]] else []) + Merge(op, a, b[1..])
    else if a[0].index == b[0].index then
      var e := Combine(op, a[0], b[0]);
      (if Zero(e) then [] else [e]) + Merge(op, a[1..], b[1..])
    else (if op == And then [] else [a[0]]) + Merge(op, a[1..], b)
  }

  predicate Shaped(a: seq<Element>) { forall i :: 0 <= i < |a| ==> |a[i].words| == BITWORDS_PER_ELEMENT }

  // The flag that these loops compute.
  predicate Flag(op: Op, a: seq<Element>, b: seq<Element>)
    requires Shaped(a) && Shaped(b)
    decreases |a| + |b|
  {
    if b == [] then false
    else if a == [] then op == Or
    else if a[0].index > b[0].index then op == Or || Flag(op, a, b[1..])
    else if a[0].index == b[0].index then Combine(op, a[0], b[0]) != a[0] || Flag(op, a[1..], b[1..])
    else Flag(op, a[1..], b)
  }

  lemma CanonicalShaped(a: seq<Element>)
    requires Canonical(a)
    ensures Shaped(a)
  {
  }

  // r with at most one element of a smaller index in front.
  lemma PutFirst(head: seq<Element>, r: seq<Element>, m: nat)
    requires Canonical(r) && forall n: nat :: Has(r, n) ==> m < n / ELEMENT_SIZE
    requires head == [] || (|head| == 1 && head[0].index == m && ElementOk(head[0]) && !Zero(head[0]))
    ensures Canonical(head + r)
    ensures forall n: nat :: Has(head + r, n) <==> (head != [] && InElement(head[0], n)) || Has(r, n)
  {
    hide ElementOk, Zero, Bit;
    if head == [] {
      assert head + r == r;
    } else {
      if r != [] {
        FirstHas(r);
      }
      assert head + r == [head[0]] + r;
      CanonicalCons(head[0], r);
      forall n: nat ensures Has(head + r, n) <==> InElement(head[0], n) || Has(r, n) {
        HasParts(head + r, n);
        assert (head + r)[1..] == r;
      }
    }
  }

  // The case b[0] < a[0].
  lemma MergeAbove(op: Op, a: seq<Element>, b: seq<Element>, r: seq<Element>)
    requires Canonical(a) && Canonical(b) && a != [] && b != [] && a[0].index > b[0].index && Canonical(r)
    requires forall n: nat :: Has(r, n) <==> Holds(op, Has(a, n), Has(b[1..], n))
    ensures var head := if op == Or then [b[0]] else [];
      Canonical(head + r) && forall n: nat :: Has(head + r, n) <==> Holds(op, Has(a, n), Has(b, n))
  {
    CanonicalRest(b);
    IndexBound(a);
    hide Canonical, ElementOk, Zero, Bit, Has;
    PutFirst(if op == Or then [b[0]] else [], r, b[0].index);
    forall n: nat ensures Has(b, n) <==> InElement(b[0], n) || Has(b[1..], n) {
      HasParts(b, n);
    }
  }

  // The case b[0] == a[0].
  lemma MergeEqual(op: Op, a: seq<Element>, b: seq<Element>, r: seq<Element>)
    requires Canonical(a) && Canonical(b) && a != [] && b != [] && a[0].index == b[0].index && Canonical(r)
    requires |a[0].words| == |b[0].words|
    requires forall n: nat :: Has(r, n) <==> Holds(op, Has(a[1..], n), Has(b[1..], n))
    ensures var e := Combine(op, a[0], b[0]);
      var head := if Zero(e) then [] else [e];
      Canonical(head + r) && forall n: nat :: Has(head + r, n) <==> Holds(op, Has(a, n), Has(b, n))
  {
    CanonicalRest(a);
    CanonicalRest(b);
    var e := Combine(op, a[0], b[0]);
    CombineBits(op, a[0], b[0]);
    ZeroBits(e);
    hide Canonical, ElementOk, Zero, Bit, Has, Combine;
    PutFirst(if Zero(e) then [] else [e], r, e.index);
    forall n: nat ensures (Has(a, n) <==> InElement(a[0], n) || Has(a[1..], n)) && (Has(b, n) <==> InElement(b[0], n) || Has(b[1..], n)) {
      HasParts(a, n);
      HasParts(b, n);
    }
    forall n: nat | n / ELEMENT_SIZE == e.index ensures InElement(e, n) <==> Holds(op, InElement(a[0], n), InElement(b[0], n)) {
    }
  }

  // The case b[0] > a[0].
  lemma MergeBelow(op: Op, a: seq<Element>, b: seq<Element>, r: seq<Element>)
    requires Canonical(a) && Canonical(b) && a != [] && b != [] && a[0].index < b[0].index && Canonical(r)
    requires forall n: nat :: Has(r, n) <==> Holds(op, Has(a[1..], n), Has(b, n))
    ensures var head := if op == And then [] else [a[0]];
      Canonical(head + r) && forall n: nat :: Has(head + r, n) <==> Holds(op, Has(a, n), Has(b, n))
  {
    CanonicalRest(a);
    IndexBound(b);
    hide Canonical, ElementOk, Zero, Bit, Has;
    PutFirst(if op == And then [] else [a[0]], r, a[0].index);
    forall n: nat ensures Has(a, n) <==> InElement(a[0], n) || Has(a[1..], n) {
      HasParts(a, n);
    }
  }

  // Every operation computes the set operation, and yields a sorted list without zero elements.
  lemma {:induction false} MergeCorrect(op: Op, a: seq<Element>, b: seq<Element>)
    requires Canonical(a) && Canonical(b)
    ensures Shaped(a) && Shaped(b) && Canonical(Merge(op, a, b))
    ensures forall n: nat :: Has(Merge(op, a, b), n) <==> Holds(op, Has(a, n), Has(b, n))
    decreases |a| + |b|
  {
    CanonicalShaped(a);
    CanonicalShaped(b);
    if b == [] || a == [] {
      assert forall n: nat :: !Has([], n);
    } else {
      CanonicalRest(a);
      CanonicalRest(b);
      hide Canonical, Has, Zero, Combine, Bit;
      if a[0].index > b[0].index {
        MergeCorrect(op, a, b[1..]);
        MergeAbove(op, a, b, Merge(op, a, b[1..]));
      } else if a[0].index == b[0].index {
        MergeCorrect(op, a[1..], b[1..]);
        MergeEqual(op, a, b, Merge(op, a[1..], b[1..]));
      } else {
        MergeCorrect(op, a[1..], b);
        MergeBelow(op, a, b, Merge(op, a[1..], b));
      }
    }
  }

  // ---------- The flag ----------

  // The flag of |= and intersectWithComplement says whether the list has changed.
  lemma {:induction false} FlagExact(op: Op, a: seq<Element>, b: seq<Element>)
    requires Canonical(a) && Canonical(b) && op != And
    ensures Shaped(a) && Shaped(b) && (Flag(op, a, b) <==> Merge(op, a, b) != a)
    decreases |a| + |b|
  {
    CanonicalShaped(a);
    CanonicalShaped(b);
    if b == [] || a == [] {
    } else {
      CanonicalRest(a);
      CanonicalRest(b);
      hide Canonical, Has, Zero, Bit, ElementOk, Apply;
      assert a == [a[0]] + a[1..];
      if a[0].index > b[0].index {
        FlagExact(op, a, b[1..]);
        assert ([b[0]] + Merge(op, a, b[1..]))[0] == b[0];
      } else if a[0].index == b[0].index {
        FlagExact(op, a[1..], b[1..]);
        var e := Combine(op, a[0], b[0]);
        var r := Merge(op, a[1..], b[1..]);
        if Zero(e) {
          MergeCorrect(op, a[1..], b[1..]);
          NotFirst(op, a, b, r);
        } else {
          assert ([e] + r)[0] == e && ([e] + r)[1..] == r;
        }
      } else {
        FlagExact(op, a[1..], b);
        var r := Merge(op, a[1..], b);
        assert ([a[0]] + r)[1..] == r;
      }
    }
  }

  // Without its first element a list is another one.
  lemma NotFirst(op: Op, a: seq<Element>, b: seq<Element>, r: seq<Element>)
    requires Canonical(a) && Canonical(b) && a != [] && b != [] && Canonical(r) && op != And
    requires forall n: nat :: Has(r, n) <==> Holds(op, Has(a[1..], n), Has(b[1..], n))
    requires a[0].index == b[0].index
    ensures r != a
  {
    CanonicalRest(a);
    CanonicalRest(b);
    if r == a {
      FirstHas(a);
    }
  }

  // Every element of a has a partner of the same index in b.
  ghost predicate Shared(a: seq<Element>, b: seq<Element>) {
    forall i :: 0 <= i < |a| ==> Partner(b, a[i].index)
  }

  lemma {:induction false} AndFlag(a: seq<Element>, b: seq<Element>)
    requires Canonical(a) && Canonical(b)
    ensures Shaped(a) && Shaped(b)
    ensures Flag(And, a, b) ==> Merge(And, a, b) != a
    ensures !Flag(And, a, b) ==> (Merge(And, a, b) == a <==> Shared(a, b))
    decreases |a| + |b|
  {
    CanonicalShaped(a);
    CanonicalShaped(b);
    if b == [] || a == [] {
      if a != [] {
        assert !Shared(a, b) by { assert 0 <= 0 < |a|; }
      }
    } else {
      CanonicalRest(a);
      CanonicalRest(b);
      hide Canonical, Has, Zero, Bit, ElementOk, Shared;
      assert a == [a[0]] + a[1..] && b == [b[0]] + b[1..];
      if a[0].index > b[0].index {
        AndFlag(a, b[1..]);
        SharedAbove(a, b);
      } else if a[0].index == b[0].index {
        AndFlag(a[1..], b[1..]);
        var e := Combine(And, a[0], b[0]);
        var r := Merge(And, a[1..], b[1..]);
        MergeCorrect(And, a[1..], b[1..]);
        AndLoses(a, b, r);
        SharedEqual(a, b);
        assert ([e] + r)[0] == e && ([e] + r)[1..] == r;
      } else {
        MergeCorrect(And, a[1..], b);
        FirstLost(a, b, Merge(And, a[1..], b));
      }
    }
  }

  ghost predicate Partner(b: seq<Element>, index: nat) {
    exists j :: 0 <= j < |b| && b[j].index == index
  }

  lemma PartnerRest(b: seq<Element>, index: nat)
    requires b != []
    ensures Partner(b, index) <==> b[0].index == index || Partner(b[1..], index)
  {
    if Partner(b, index) {
      var j :| 0 <= j < |b| && b[j].index == index;
      assert j > 0 ==> b[1..][j - 1] == b[j];
    }
    if Partner(b[1..], index) {
      var j :| 0 <= j < |b[1..]| && b[1..][j].index == index;
      assert b[j + 1] == b[1..][j];
    }
  }

  lemma SharedAbove(a: seq<Element>, b: seq<Element>)
    requires Canonical(a) && b != [] && a != [] && a[0].index > b[0].index
    ensures Shared(a, b) <==> Shared(a, b[1..])
  {
    SortedIndices(a);
    hide Canonical, Partner;
    forall i | 0 <= i < |a| ensures Partner(b, a[i].index) <==> Partner(b[1..], a[i].index) {
      PartnerRest(b, a[i].index);
    }
  }

  lemma SharedEqual(a: seq<Element>, b: seq<Element>)
    requires Canonical(a) && b != [] && a != [] && a[0].index == b[0].index
    ensures Shared(a, b) <==> Shared(a[1..], b[1..])
  {
    SortedIndices(a);
    hide Canonical, Partner;
    PartnerRest(b, a[0].index);
    forall i | 0 <= i < |a[1..]| ensures Partner(b, a[1..][i].index) <==> Partner(b[1..], a[1..][i].index) {
      assert a[1..][i] == a[i + 1];
      PartnerRest(b, a[i + 1].index);
    }
    assert forall i :: 0 < i < |a| ==> a[i] == a[1..][i - 1];
  }

  // An element that has become zero is missing from the result.
  lemma AndLoses(a: seq<Element>, b: seq<Element>, r: seq<Element>)
    requires Canonical(a) && Canonical(b) && a != [] && b != [] && a[0].index == b[0].index && Canonical(r)
    requires forall n: nat :: Has(r, n) <==> Holds(And, Has(a[1..], n), Has(b[1..], n))
    ensures r != a
  {
    CanonicalRest(a);
    if r == a {
      FirstHas(a);
    }
  }

  lemma FirstLost(a: seq<Element>, b: seq<Element>, r: seq<Element>)
    requires Canonical(a) && Canonical(b) && a != [] && b != [] && a[0].index < b[0].index
    requires forall n: nat :: Has(r, n) <==> Holds(And, Has(a[1..], n), Has(b, n))
    ensures r != a && !Shared(a, b)
  {
    CanonicalRest(a);
    FirstHas(a);
    assert forall j :: 0 <= j < |b| ==> b[j].index >= b[0].index;
    assert 0 <= 0 < |a|;
  }

  // f has the index of e and lacks one of its bits.
  ghost predicate Touches(e: Element, f: Element) {
    e.index == f.index && |e.words| == |f.words| && Combine(And, e, f) != e
  }

  // Some element of a is changed by its partner in b.
  ghost predicate Touched(a: seq<Element>, b: seq<Element>) {
    exists i, j :: 0 <= i < |a| && 0 <= j < |b| && Touches(a[i], b[j])
  }

  lemma {:induction false} FlagTouched(a: seq<Element>, b: seq<Element>)
    requires Canonical(a) && Canonical(b)
    ensures Shaped(a) && Shaped(b) && (Flag(And, a, b) <==> Touched(a, b))
    decreases |a| + |b|
  {
    CanonicalShaped(a);
    CanonicalShaped(b);
    if b != [] && a != [] {
      CanonicalRest(a);
      CanonicalRest(b);
      TouchedFirst(a, b);
      hide Canonical, Touched, Touches, ElementOk;
      if a[0].index > b[0].index {
        FlagTouched(a, b[1..]);
      } else if a[0].index == b[0].index {
        FlagTouched(a[1..], b[1..]);
        assert Touches(a[0], b[0]) <==> Combine(And, a[0], b[0]) != a[0] by { TouchesPartner(a[0], b[0]); }
      } else {
        FlagTouched(a[1..], b);
      }
    }
  }

  lemma TouchesPartner(e: Element, f: Element)
    requires e.index == f.index && |e.words| == |f.words|
    ensures Touches(e, f) <==> Combine(And, e, f) != e
  {
  }

  lemma TouchedFirst(a: seq<Element>, b: seq<Element>)
    requires Canonical(a) && Canonical(b) && a != [] && b != []
    ensures a[0].index > b[0].index ==> (Touched(a, b) <==> Touched(a, b[1..]))
    ensures a[0].index < b[0].index ==> (Touched(a, b) <==> Touched(a[1..], b))
    ensures a[0].index == b[0].index ==> (Touched(a, b) <==> Touches(a[0], b[0]) || Touched(a[1..], b[1..]))
  {
    SortedIndices(a);
    SortedIndices(b);
    hide Canonical;
    assert forall i :: 0 <= i < |a[1..]| ==> a[1..][i] == a[i + 1];
    assert forall j :: 0 <= j < |b[1..]| ==> b[1..][j] == b[j + 1];
    if Touched(a, b) {
      var i, j :| 0 <= i < |a| && 0 <= j < |b| && Touches(a[i], b[j]);
      assert i > 0 ==> a[1..][i - 1] == a[i];
      assert j > 0 ==> b[1..][j - 1] == b[j];
    }
  }

  // The flag of &= misses elements that are deleted because the other list has none of their
  // index: it is exact if and only if there is no such element, or another one is changed.
  lemma AndFlagExact(a: seq<Element>, b: seq<Element>)
    requires Canonical(a) && Canonical(b)
    ensures Shaped(a) && Shaped(b) && ((Flag(And, a, b) <==> Merge(And, a, b) != a) <==> Shared(a, b) || Touched(a, b))
  {
    AndFlag(a, b);
    FlagTouched(a, b);
  }

  // The flag is not set although the only member is lost.
  lemma LostUnseen()
    ensures var a, b := [Element(0, [{0}, {}])], [Element(1, [{0}, {}])];
      Canonical(a) && Canonical(b) && !Flag(And, a, b) && Merge(And, a, b) == [] && Has(a, 0)
  {
    var e, f := Element(0, [{0}, {}]), Element(1, [{0}, {}]);
    assert !Zero(e) && !Zero(f) by { assert e.words[0] == {0} && f.words[0] == {0}; }
    assert [e][1..] == [];
    BitNumber(e, 0);
    assert Bit(e, 0);
  }

  // ---------- The bitmap ----------

  class Bitmap {
    var elements: seq<Element>
    // Where the last search ended.
    var cursor: nat

    ghost predicate Valid()
      reads this
    {
      Canonical(elements) && cursor <= |elements|
    }

    constructor ()
      ensures Valid() && elements == []
    {
      elements, cursor := [], 0;
    }

    // An element with the given index, if there is one; else one before which, or right after
    // which, it would have to be inserted.
    method FindLowerBound(index: nat) returns (i: nat)
      requires Valid()
      modifies this`cursor
      ensures Valid() && i <= |elements| && cursor == i
      ensures (i < |elements| && elements[i].index == index) || Between(elements, i, index)
    {
      SortedIndices(elements);
      hide Canonical;
      if elements == [] {
        cursor := 0;
        return 0;
      }
      if cursor == |elements| {
        cursor := cursor - 1;
      }
      // Search from the cursor, either backwards or forwards.
      if elements[cursor].index == index {
        return cursor;
      } else if elements[cursor].index > index {
        i := SearchBackwards(elements, cursor, index);
      } else {
        i := SearchForwards(elements, cursor, index);
      }
      cursor := i;
    }

    method Test(n: nat) returns (b: bool)
      requires Valid()
      modifies this`cursor
      ensures Valid() && (b <==> Has(elements, n))
    {
      if elements == [] {
        return false;
      }
      var index := n / ELEMENT_SIZE;
      var i := FindLowerBound(index);
      if i == |elements| || elements[i].index != index {
        Absent(elements, i, index);
        return false;
      }
      b := Bit(elements[i], n % ELEMENT_SIZE);
      Present(elements, i);
    }

    method Reset(n: nat)
      requires Valid()
      modifies this
      ensures Valid() && forall m: nat :: Has(elements, m) <==> Has(old(elements), m) && m != n
    {
      if elements == [] {
        return;
      }
      var index, k := n / ELEMENT_SIZE, n % ELEMENT_SIZE;
      var i := FindLowerBound(index);
      if i == |elements| || elements[i].index != index {
        Absent(elements, i, index);
        return;
      }
      Present(elements, i);
      hide Canonical, Has, Zero, Bit, ElementOk, With, Without;
      ElementsOk(elements, i);
      WithoutBit(elements[i], k);
      elements := elements[i := Without(elements[i], k)];
      // An element without bits left is deleted.
      if Zero(elements[i]) {
        ZeroBits(elements[i]);
        Deleted(old(elements), i);
        assert elements[..i] + elements[i + 1..] == old(elements)[..i] + old(elements)[i + 1..];
        elements := elements[..i] + elements[i + 1..];
      } else {
        Replaced(old(elements), i, elements[i]);
      }
    }

    method Set(n: nat)
      requires Valid()
      modifies this
      ensures Valid() && forall m: nat :: Has(elements, m) <==> Has(old(elements), m) || m == n
    {
      hide Canonical, Has, Zero, Bit, ElementOk, With;
      var index, k := n / ELEMENT_SIZE, n % ELEMENT_SIZE;
      var i := 0;
      FreshBit(index, k);
      var found := false;
      if elements != [] {
        i := FindLowerBound(index);
        found := i < |elements| && elements[i].index == index;
      }
      if !found {
        // The search may have ended right before the place.
        if i != |elements| && elements[i].index < index {
          i := i + 1;
        }
        Inserted(elements, i, With(Fresh(index), k));
        elements := elements[..i] + [Fresh(index)] + elements[i..];
      } else {
        ElementsOk(elements, i);
        WithBit(elements[i], k);
        Present(elements, i);
        Replaced(elements, i, With(elements[i], k));
      }
      cursor := i;
      elements := elements[i := With(elements[i], k)];
      if !found {
        assert elements == old(elements)[..i] + [With(Fresh(index), k)] + old(elements)[i..];
      }
    }

    // Take the union with the other bitmap; returns whether this one has changed.
    method UnionWith(other: Bitmap) returns (changed: bool)
      requires Valid() && other.Valid()
      modifies this
      ensures Valid() && forall n: nat :: Has(elements, n) <==> Has(old(elements), n) || Has(old(other.elements), n)
      ensures changed <==> exists n: nat :: Has(old(other.elements), n) && !Has(old(elements), n)
    {
      Correct(Or, elements, other.elements);
      hide Canonical, Has, Merge, Flag, Underway;
      elements, changed := UnionLoop(elements, other.elements);
      cursor := 0;
    }

    // Intersect with the other bitmap.  The flag misses deleted elements.
    method IntersectWith(other: Bitmap) returns (changed: bool)
      requires Valid() && other.Valid()
      modifies this
      ensures Valid() && forall n: nat :: Has(elements, n) <==> Has(old(elements), n) && Has(old(other.elements), n)
      ensures changed <==> Touched(old(elements), old(other.elements))
      ensures (changed <==> elements != old(elements)) <==> Shared(old(elements), old(other.elements)) || changed
    {
      Correct(And, elements, other.elements);
      AndFlagExact(elements, other.elements);
      FlagTouched(elements, other.elements);
      hide Canonical, Has, Merge, Flag, Underway, Shared, Touched;
      elements, changed := IntersectLoop(elements, other.elements);
      cursor := 0;
    }

    // Remove the members of the other bitmap; returns whether this one has changed.
    method IntersectWithComplement(other: Bitmap) returns (changed: bool)
      requires Valid() && other.Valid()
      modifies this
      ensures Valid() && forall n: nat :: Has(elements, n) <==> Has(old(elements), n) && !Has(old(other.elements), n)
      ensures changed <==> exists n: nat :: Has(old(other.elements), n) && Has(old(elements), n)
    {
      Correct(AndNot, elements, other.elements);
      hide Canonical, Has, Merge, Flag, Underway;
      elements, changed := ComplementLoop(elements, other.elements);
      cursor := 0;
    }

    // Two bitmaps are equal if their lists are.
    method Equals(other: Bitmap) returns (eq: bool)
      requires Valid() && other.Valid()
      ensures eq <==> forall n: nat :: Has(elements, n) <==> Has(other.elements, n)
    {
      var i := 0;
      while i < |elements| && i < |other.elements|
        invariant i <= |elements| && i <= |other.elements| && elements[..i] == other.elements[..i]
      {
        if elements[i] != other.elements[i] {
          EqualSets(elements, other.elements);
          return false;
        }
        i := i + 1;
      }
      EqualSets(elements, other.elements);
      eq := i == |elements| && i == |other.elements|;
      assert eq ==> elements[..i] == elements && other.elements[..i] == other.elements;
    }
  }

  lemma EqualSets(s: seq<Element>, t: seq<Element>)
    requires Canonical(s) && Canonical(t)
    ensures s == t <==> forall n: nat :: Has(s, n) <==> Has(t, n)
  {
    if forall n: nat :: Has(s, n) <==> Has(t, n) {
      CanonicalUnique(s, t);
    }
  }

  // ---------- Single bits ----------

  function With(e: Element, k: nat): (r: Element)
    ensures r.index == e.index && |r.words| == |e.words|
  {
    if k / BITWORD_SIZE < |e.words|
    then e.(words := e.words[k / BITWORD_SIZE := e.words[k / BITWORD_SIZE] + {k % BITWORD_SIZE}]) else e
  }

  function Without(e: Element, k: nat): (r: Element)
    ensures r.index == e.index && |r.words| == |e.words|
  {
    if k / BITWORD_SIZE < |e.words|
    then e.(words := e.words[k / BITWORD_SIZE := e.words[k / BITWORD_SIZE] - {k % BITWORD_SIZE}]) else e
  }

  function Fresh(index: nat): Element { Element(index, [{}, {}]) }

  lemma WithBit(e: Element, k: nat)
    requires ElementOk(e) && k < ELEMENT_SIZE
    ensures ElementOk(With(e, k)) && !Zero(With(e, k)) && forall j: nat :: j < ELEMENT_SIZE ==> (Bit(With(e, k), j) <==> Bit(e, j) || j == k)
  {
    var r := With(e, k);
    assert k / BITWORD_SIZE < 2;
    assert r.words[k / BITWORD_SIZE] != {};
    forall j: nat | j < ELEMENT_SIZE ensures Bit(r, j) <==> Bit(e, j) || j == k {
      SamePlace(j, k);
    }
  }

  lemma WithoutBit(e: Element, k: nat)
    requires ElementOk(e) && k < ELEMENT_SIZE
    ensures ElementOk(Without(e, k)) && forall j: nat :: j < ELEMENT_SIZE ==> (Bit(Without(e, k), j) <==> Bit(e, j) && j != k)
  {
    var r := Without(e, k);
    assert k / BITWORD_SIZE < 2;
    forall j: nat | j < ELEMENT_SIZE ensures Bit(r, j) <==> Bit(e, j) && j != k {
      SamePlace(j, k);
    }
  }

  lemma SamePlace(j: nat, k: nat)
    ensures j == k <==> j / BITWORD_SIZE == k / BITWORD_SIZE && j % BITWORD_SIZE == k % BITWORD_SIZE
  {
  }

  lemma FreshBit(index: nat, k: nat)
    requires k < ELEMENT_SIZE
    ensures ElementOk(With(Fresh(index), k)) && !Zero(With(Fresh(index), k))
    ensures forall j: nat :: j < ELEMENT_SIZE ==> (Bit(With(Fresh(index), k), j) <==> j == k)
  {
    WithBit(Fresh(index), k);
  }

  lemma ElementsOk(s: seq<Element>, i: nat)
    requires Canonical(s) && i < |s|
    ensures ElementOk(s[i]) && !Zero(s[i])
  {
  }

  lemma InsertedCanonical(s: seq<Element>, i: nat, e: Element)
    requires Canonical(s) && i <= |s| && ElementOk(e) && !Zero(e)
    requires (forall j :: 0 <= j < i ==> s[j].index < e.index) && (forall j :: i <= j < |s| ==> e.index < s[j].index)
    ensures Canonical(s[..i] + [e] + s[i..])
  {
    hide Zero, ElementOk;
  }

  lemma Inserted(s: seq<Element>, i: nat, e: Element)
    requires Canonical(s) && i <= |s| && ElementOk(e) && !Zero(e)
    requires (forall j :: 0 <= j < i ==> s[j].index < e.index) && (forall j :: i <= j < |s| ==> e.index < s[j].index)
    ensures var t := s[..i] + [e] + s[i..];
      Canonical(t) && forall n: nat :: Has(t, n) <==> Has(s, n) || InElement(e, n)
  {
    InsertedCanonical(s, i, e);
    hide Zero, ElementOk, Bit, Canonical;
    var t := s[..i] + [e] + s[i..];
    assert forall j :: 0 <= j < |t| ==> t[j] == if j < i then s[j] else if j == i then e else s[j - 1];
    forall n: nat ensures Has(t, n) <==> Has(s, n) || InElement(e, n) {
      if Has(s, n) {
        var j :| 0 <= j < |s| && s[j].index == n / ELEMENT_SIZE && Bit(s[j], n % ELEMENT_SIZE);
        assert t[if j < i then j else j + 1] == s[j];
      }
      if InElement(e, n) {
        assert t[i] == e;
      }
    }
  }

  lemma Replaced(s: seq<Element>, i: nat, e: Element)
    requires Canonical(s) && i < |s| && ElementOk(e) && !Zero(e) && e.index == s[i].index
    ensures Canonical(s[i := e])
    ensures forall n: nat :: Has(s[i := e], n) <==> if n / ELEMENT_SIZE == e.index then Bit(e, n % ELEMENT_SIZE) else Has(s, n)
  {
    hide Zero, ElementOk, Bit;
    var t := s[i := e];
    forall n: nat ensures Has(t, n) <==> if n / ELEMENT_SIZE == e.index then Bit(e, n % ELEMENT_SIZE) else Has(s, n) {
      if Has(s, n) && n / ELEMENT_SIZE != e.index {
        var j :| 0 <= j < |s| && s[j].index == n / ELEMENT_SIZE && Bit(s[j], n % ELEMENT_SIZE);
        assert t[j] == s[j];
      }
      assert t[i] == e;
    }
  }

  lemma DeletedCanonical(s: seq<Element>, i: nat)
    requires Canonical(s) && i < |s|
    ensures Canonical(s[..i] + s[i + 1..])
  {
    hide Zero, ElementOk;
  }

  lemma Deleted(s: seq<Element>, i: nat)
    requires Canonical(s) && i < |s|
    ensures Canonical(s[..i] + s[i + 1..])
    ensures forall n: nat :: Has(s[..i] + s[i + 1..], n) <==> Has(s, n) && n / ELEMENT_SIZE != s[i].index
  {
    DeletedCanonical(s, i);
    hide Zero, ElementOk, Bit;
    var t := s[..i] + s[i + 1..];
    assert forall j :: 0 <= j < |t| ==> t[j] == if j < i then s[j] else s[j + 1];
    assert forall j :: 0 <= j < |s| && s[j].index == s[i].index ==> j == i;
    hide Canonical;
    forall n: nat ensures Has(t, n) <==> Has(s, n) && n / ELEMENT_SIZE != s[i].index {
      if Has(s, n) && n / ELEMENT_SIZE != s[i].index {
        var j :| 0 <= j < |s| && s[j].index == n / ELEMENT_SIZE && Bit(s[j], n % ELEMENT_SIZE);
        assert t[if j < i then j else j - 1] == s[j];
      }
    }
  }

  // ---------- The loops over two lists ----------

  // What is done of the list s, up to i1, followed by what remains to be done, gives the result;
  // and so does the flag.
  ghost predicate Underway(op: Op, a: seq<Element>, b: seq<Element>, s: seq<Element>, i1: nat, i2: nat, changed: bool) {
    && Shaped(a) && Shaped(b) && Shaped(s) && i1 <= |s| && i2 <= |b|
    && s[..i1] + Merge(op, s[i1..], b[i2..]) == Merge(op, a, b)
    && (changed || Flag(op, s[i1..], b[i2..]) <==> Flag(op, a, b))
  }

  ghost predicate NonZero(s: seq<Element>) { forall i :: 0 <= i < |s| ==> !Zero(s[i]) }
  // The place for the index is at i or right after it.
  ghost predicate Between(s: seq<Element>, i: nat, index: nat) {
    && i <= |s| && (forall j :: 0 <= j < |s| ==> s[j].index != index)
    && (forall j :: 0 <= j < i ==> s[j].index < index) && (forall j :: i < j < |s| ==> s[j].index > index)
  }

  method SearchBackwards(s: seq<Element>, cursor: nat, index: nat) returns (i: nat)
    requires (forall i, j :: 0 <= i < j < |s| ==> s[i].index < s[j].index) && cursor < |s| && s[cursor].index > index
    ensures i < |s| && (s[i].index == index || Between(s, i, index))
  {
    i := cursor;
    while i != 0 && s[i].index > index
      invariant i < |s| && forall j :: i < j < |s| ==> s[j].index > index
    {
      i := i - 1;
    }
  }

  method SearchForwards(s: seq<Element>, cursor: nat, index: nat) returns (i: nat)
    requires (forall i, j :: 0 <= i < j < |s| ==> s[i].index < s[j].index) && cursor < |s| && s[cursor].index < index
    ensures i <= |s| && ((i < |s| && s[i].index == index) || Between(s, i, index))
  {
    i := cursor;
    while i != |s| && s[i].index < index
      invariant i <= |s| && forall j :: 0 <= j < i ==> s[j].index < index
    {
      i := i + 1;
    }
  }

  lemma SortedIndices(s: seq<Element>)
    requires Canonical(s)
    ensures forall i, j :: 0 <= i < j < |s| ==> s[i].index < s[j].index
  {
  }

  lemma Absent(s: seq<Element>, i: nat, index: nat)
    requires Between(s, i, index)
    ensures forall n: nat :: n / ELEMENT_SIZE == index ==> !Has(s, n)
  {
  }

  lemma Present(s: seq<Element>, i: nat)
    requires Canonical(s) && i < |s|
    ensures forall n: nat :: n / ELEMENT_SIZE == s[i].index ==> (Has(s, n) <==> Bit(s[i], n % ELEMENT_SIZE))
  {
  }

  lemma Correct(op: Op, a: seq<Element>, b: seq<Element>)
    requires Canonical(a) && Canonical(b)
    ensures Underway(op, a, b, a, 0, 0, false) && NonZero(a[0..]) && Canonical(Merge(op, a, b))
    ensures forall n: nat :: Has(Merge(op, a, b), n) <==> Holds(op, Has(a, n), Has(b, n))
    ensures op == Or ==> (Flag(op, a, b) <==> exists n: nat :: Has(b, n) && !Has(a, n))
    ensures op == AndNot ==> (Flag(op, a, b) <==> exists n: nat :: Has(b, n) && Has(a, n))
    ensures op == And ==> (Flag(op, a, b) ==> Merge(op, a, b) != a) && (!Flag(op, a, b) ==> (Merge(op, a, b) == a <==> Shared(a, b)))
  {
    MergeCorrect(op, a, b);
    assert a[0..] == a && b[0..] == b && a[..0] == [];
    if op == And {
      AndFlag(a, b);
    } else {
      FlagExact(op, a, b);
      hide Canonical, Merge, Flag, Has;
      EqualSets(Merge(op, a, b), a);
    }
  }

  lemma StepInsert(a: seq<Element>, b: seq<Element>, s: seq<Element>, i1: nat, i2: nat, changed: bool)
    requires Underway(Or, a, b, s, i1, i2, changed) && NonZero(s[i1..]) && i2 < |b| && (i1 == |s| || s[i1].index > b[i2].index)
    ensures var t := s[..i1] + [b[i2]] + s[i1..];
      Underway(Or, a, b, t, i1 + 1, i2 + 1, true) && NonZero(t[i1 + 1..])
  {
    hide Zero;
    var t := s[..i1] + [b[i2]] + s[i1..];
    assert t[..i1 + 1] == s[..i1] + [b[i2]] && t[i1 + 1..] == s[i1..];
    assert b[i2..][1..] == b[i2 + 1..] && b[i2..] == [b[i2]] + b[i2 + 1..];
    assert Merge(Or, s[i1..], b[i2..]) == [b[i2]] + Merge(Or, s[i1..], b[i2 + 1..]);
  }

  lemma StepCombine(op: Op, a: seq<Element>, b: seq<Element>, s: seq<Element>, i1: nat, i2: nat, changed: bool)
    requires Underway(op, a, b, s, i1, i2, changed) && i1 < |s| && i2 < |b| && s[i1].index == b[i2].index
    ensures |s[i1].words| == |b[i2].words|
    ensures var e := Combine(op, s[i1], b[i2]);
      if Zero(e) then Underway(op, a, b, s[..i1] + s[i1 + 1..], i1, i2 + 1, changed || e != s[i1])
      else Underway(op, a, b, s[i1 := e], i1 + 1, i2 + 1, changed || e != s[i1])
    ensures NonZero(s[i1..]) ==> NonZero(s[i1 + 1..]) && s[i1 := Combine(op, s[i1], b[i2])][i1 + 1..] == s[i1 + 1..]
  {
    hide Zero;
    var e := Combine(op, s[i1], b[i2]);
    assert s[i1..][1..] == s[i1 + 1..] && b[i2..][1..] == b[i2 + 1..] && s[i1..][0] == s[i1] && b[i2..][0] == b[i2];
    var rest := Merge(op, s[i1 + 1..], b[i2 + 1..]);
    assert Merge(op, s[i1..], b[i2..]) == (if Zero(e) then [] else [e]) + rest;
    if Zero(e) {
      var t := s[..i1] + s[i1 + 1..];
      assert t[..i1] == s[..i1] && t[i1..] == s[i1 + 1..];
    } else {
      var t := s[i1 := e];
      assert t[..i1 + 1] == s[..i1] + [e] && t[i1 + 1..] == s[i1 + 1..];
    }
    RestNonZero(s, i1);
  }

  lemma RestNonZero(s: seq<Element>, i: nat)
    requires i < |s|
    ensures NonZero(s[i..]) ==> NonZero(s[i + 1..])
  {
    hide Zero;
    var u, v := s[i..], s[i + 1..];
    assert forall j :: 0 <= j < |v| ==> v[j] == u[j + 1];
  }

  lemma OrNonZero(s: seq<Element>, i1: nat, f: Element)
    requires i1 < |s| && NonZero(s[i1..]) && |s[i1].words| == |f.words|
    ensures !Zero(Combine(Or, s[i1], f))
  {
    assert s[i1..][0] == s[i1];
    var w: nat :| w < |s[i1].words| && s[i1].words[w] != {};
    assert Combine(Or, s[i1], f).words[w] != {};
  }

  lemma StepKeep(op: Op, a: seq<Element>, b: seq<Element>, s: seq<Element>, i1: nat, i2: nat, changed: bool)
    requires op != And && Underway(op, a, b, s, i1, i2, changed) && i1 < |s| && i2 < |b| && s[i1].index < b[i2].index
    ensures Underway(op, a, b, s, i1 + 1, i2, changed) && (NonZero(s[i1..]) ==> NonZero(s[i1 + 1..]))
  {
    hide Zero, Combine;
    assert s[i1..][1..] == s[i1 + 1..] && s[i1..][0] == s[i1] && b[i2..][0] == b[i2];
    assert s[..i1 + 1] == s[..i1] + [s[i1]];
    RestNonZero(s, i1);
  }

  lemma StepSkip(op: Op, a: seq<Element>, b: seq<Element>, s: seq<Element>, i1: nat, i2: nat, changed: bool)
    requires op != Or && Underway(op, a, b, s, i1, i2, changed) && i1 < |s| && i2 < |b| && s[i1].index > b[i2].index
    ensures Underway(op, a, b, s, i1, i2 + 1, changed)
  {
    hide Zero, Combine;
    assert b[i2..][1..] == b[i2 + 1..] && s[i1..][0] == s[i1] && b[i2..][0] == b[i2];
  }

  lemma StepErase(a: seq<Element>, b: seq<Element>, s: seq<Element>, i1: nat, i2: nat, changed: bool)
    requires Underway(And, a, b, s, i1, i2, changed) && i1 < |s| && i2 < |b| && s[i1].index < b[i2].index
    ensures Underway(And, a, b, s[..i1] + s[i1 + 1..], i1, i2, changed)
  {
    hide Zero, Combine;
    var t := s[..i1] + s[i1 + 1..];
    assert t[..i1] == s[..i1] && t[i1..] == s[i1 + 1..];
    assert s[i1..][1..] == s[i1 + 1..] && s[i1..][0] == s[i1] && b[i2..][0] == b[i2];
  }

  lemma Finished(op: Op, a: seq<Element>, b: seq<Element>, s: seq<Element>, i1: nat, i2: nat, changed: bool)
    requires Underway(op, a, b, s, i1, i2, changed) && (i2 == |b| || (i1 == |s| && op != Or))
    ensures Merge(op, a, b) == if op == And then s[..i1] else s
    ensures changed <==> Flag(op, a, b)
  {
    assert s == s[..i1] + s[i1..];
  }

  // The loop of |=.
  method UnionLoop(a: seq<Element>, rhs: seq<Element>) returns (s: seq<Element>, changed: bool)
    requires Underway(Or, a, rhs, a, 0, 0, false) && NonZero(a[0..])
    ensures s == Merge(Or, a, rhs) && (changed <==> Flag(Or, a, rhs))
  {
    s, changed := a, false;
    hide Canonical, Has, Zero, Bit, ElementOk, Combine, Merge, Flag, Underway, NonZero;
    var i1, i2 := 0, 0;
    while i2 < |rhs|
      invariant i1 <= |s| && i2 <= |rhs| && Underway(Or, a, rhs, s, i1, i2, changed) && NonZero(s[i1..])
      decreases |rhs| - i2, |s| - i1
    {
      if i1 == |s| || s[i1].index > rhs[i2].index {
        StepInsert(a, rhs, s, i1, i2, changed);
        s := s[..i1] + [rhs[i2]] + s[i1..];
        i1, i2 := i1 + 1, i2 + 1;
        changed := true;
      } else if s[i1].index == rhs[i2].index {
        StepCombine(Or, a, rhs, s, i1, i2, changed);
        OrNonZero(s, i1, rhs[i2]);
        var e, chg, becameZero := CombineWith(Or, s[i1], rhs[i2]);
        s := s[i1 := e];
        changed := changed || chg;
        i1, i2 := i1 + 1, i2 + 1;
      } else {
        StepKeep(Or, a, rhs, s, i1, i2, changed);
        i1 := i1 + 1;
      }
    }
    Finished(Or, a, rhs, s, i1, i2, changed);
  }

  // The loop of &=.
  method IntersectLoop(a: seq<Element>, rhs: seq<Element>) returns (s: seq<Element>, changed: bool)
    requires Underway(And, a, rhs, a, 0, 0, false) && NonZero(a[0..])
    ensures s == Merge(And, a, rhs) && (changed <==> Flag(And, a, rhs))
  {
    s, changed := a, false;
    hide Canonical, Has, Zero, Bit, ElementOk, Combine, Merge, Flag, Shared, Underway, NonZero;
    var i1, i2 := 0, 0;
    while i2 < |rhs| && i1 < |s|
      invariant i1 <= |s| && i2 <= |rhs| && Underway(And, a, rhs, s, i1, i2, changed)
      decreases |rhs| - i2 + |s| - i1
    {
      if s[i1].index > rhs[i2].index {
        StepSkip(And, a, rhs, s, i1, i2, changed);
        i2 := i2 + 1;
      } else if s[i1].index == rhs[i2].index {
        StepCombine(And, a, rhs, s, i1, i2, changed);
        var e, chg, becameZero := CombineWith(And, s[i1], rhs[i2]);
        changed := changed || chg;
        if becameZero {
          s := s[..i1] + s[i1 + 1..];
        } else {
          s := s[i1 := e];
          i1 := i1 + 1;
        }
        i2 := i2 + 1;
      } else {
        StepErase(a, rhs, s, i1, i2, changed);
        s := s[..i1] + s[i1 + 1..];
      }
    }
    Finished(And, a, rhs, s, i1, i2, changed);
    s := s[..i1];
  }

  // The loop of intersectWithComplement.
  method ComplementLoop(a: seq<Element>, rhs: seq<Element>) returns (s: seq<Element>, changed: bool)
    requires Underway(AndNot, a, rhs, a, 0, 0, false) && NonZero(a[0..])
    ensures s == Merge(AndNot, a, rhs) && (changed <==> Flag(AndNot, a, rhs))
  {
    s, changed := a, false;
    hide Canonical, Has, Zero, Bit, ElementOk, Combine, Merge, Flag, Underway, NonZero;
    var i1, i2 := 0, 0;
    while i2 < |rhs| && i1 < |s|
      invariant i1 <= |s| && i2 <= |rhs| && Underway(AndNot, a, rhs, s, i1, i2, changed)
      decreases |rhs| - i2 + |s| - i1
    {
      if s[i1].index > rhs[i2].index {
        StepSkip(AndNot, a, rhs, s, i1, i2, changed);
        i2 := i2 + 1;
      } else if s[i1].index == rhs[i2].index {
        StepCombine(AndNot, a, rhs, s, i1, i2, changed);
        var e, chg, becameZero := CombineWith(AndNot, s[i1], rhs[i2]);
        changed := changed || chg;
        if becameZero {
          s := s[..i1] + s[i1 + 1..];
        } else {
          s := s[i1 := e];
          i1 := i1 + 1;
        }
        i2 := i2 + 1;
      } else {
        StepKeep(AndNot, a, rhs, s, i1, i2, changed);
        i1 := i1 + 1;
      }
    }
    Finished(AndNot, a, rhs, s, i1, i2, changed);
  }
}
