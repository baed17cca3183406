/** Iteration over a sparse bitmap: every member once, in increasing order. */
module BitIterator {
  import opened Bitmap

  // The word w shifted right by k.
  function Shr(w: Word, k: nat): Word { set b | b in w && b >= k :: b - k }

  lemma ShrIn(w: Word, k: nat, j: nat)
    ensures j in Shr(w, k) <==> j + k in w
  {
    if j + k in w {
      assert j + k >= k && j == j + k - k;
    }
  }

  lemma ShrTwice(w: Word, k: nat)
    ensures Shr(Shr(w, k), 1) == Shr(w, k + 1)
  {
    forall j: nat ensures j in Shr(Shr(w, k), 1) <==> j in Shr(w, k + 1) {
      ShrIn(Shr(w, k), 1, j);
      ShrIn(w, k, j + 1);
      ShrIn(w, k + 1, j);
    }
  }

  // The number of trailing zeros of a word that is not zero: its least bit.
  method CountTrailingZeros(w: Word) returns (b: nat)
    requires w != {}
    ensures b in w && forall c: nat :: c in w ==> b <= c
  {
    b := 0;
    var some :| some in w;
    while b !in w
      invariant b <= some && forall c: nat :: c in w ==> b <= c
      decreases some - b
    {
      b := b + 1;
    }
  }

  // k is the least bit of e from curr on.
  ghost predicate NextBit(e: Element, curr: nat, k: nat) {
    curr <= k && Bit(e, k) && forall j: nat :: curr <= j && Bit(e, j) ==> k <= j
  }

  // The words from i up to w hold no bit from curr on.
  ghost predicate NoneFrom(e: Element, curr: nat, w: nat) {
    forall j: nat :: curr <= j && j < w * BITWORD_SIZE ==> !Bit(e, j)
  }

  // The first bit in words i and up, given that none lies between curr and word i.
  method FirstFrom(e: Element, curr: nat, i0: nat) returns (k: int)
    requires ElementOk(e) && curr <= i0 * BITWORD_SIZE && i0 <= BITWORDS_PER_ELEMENT && NoneFrom(e, curr, i0)
    ensures k == -1 || (0 <= k && NextBit(e, curr, k))
    ensures k == -1 ==> forall j: nat :: curr <= j ==> !Bit(e, j)
  {
    var i := i0;
    while i < BITWORDS_PER_ELEMENT
      invariant i0 <= i <= BITWORDS_PER_ELEMENT && NoneFrom(e, curr, i)
    {
      if e.words[i] != {} {
        var b := CountTrailingZeros(e.words[i]);
        k := i * BITWORD_SIZE + b;
        FirstInWord(e, curr, i, b);
        return;
      }
      EmptyWord(e, curr, i);
      i := i + 1;
    }
    k := -1;
    NoMoreWords(e);
  }

  lemma FirstInWord(e: Element, curr: nat, i: nat, b: nat)
    requires ElementOk(e) && i < |e.words| && curr <= i * BITWORD_SIZE && NoneFrom(e, curr, i)
    requires b in e.words[i] && forall c: nat :: c in e.words[i] ==> b <= c
    ensures NextBit(e, curr, i * BITWORD_SIZE + b)
  {
    var k := i * BITWORD_SIZE + b;
    assert k / BITWORD_SIZE == i && k % BITWORD_SIZE == b;
    forall j: nat | curr <= j < k ensures !Bit(e, j) {
      if j >= i * BITWORD_SIZE {
        assert j / BITWORD_SIZE == i && j % BITWORD_SIZE == j - i * BITWORD_SIZE;
      }
    }
  }

  lemma EmptyWord(e: Element, curr: nat, i: nat)
    requires i < |e.words| && e.words[i] == {} && NoneFrom(e, curr, i)
    ensures NoneFrom(e, curr, i + 1)
  {
    forall j: nat | curr <= j < (i + 1) * BITWORD_SIZE ensures !Bit(e, j) {
      if j >= i * BITWORD_SIZE {
        assert j / BITWORD_SIZE == i;
      }
    }
  }

  lemma NoMoreWords(e: Element)
    requires |e.words| == BITWORDS_PER_ELEMENT
    ensures forall j: nat :: j >= ELEMENT_SIZE ==> !Bit(e, j)
  {
  }

  method FindFirst(e: Element) returns (k: nat)
    requires ElementOk(e) && !Zero(e)
    ensures NextBit(e, 0, k)
  {
    ZeroBits(e);
    var r := FirstFrom(e, 0, 0);
    k := r;
  }

  // The first bit from curr on, or -1.
  method FindNext(e: Element, curr: nat) returns (k: int)
    requires ElementOk(e)
    ensures k == -1 || (0 <= k && NextBit(e, curr, k))
    ensures k == -1 ==> forall j: nat :: curr <= j ==> !Bit(e, j)
  {
    if curr >= ELEMENT_SIZE {
      NoMoreWords(e);
      return -1;
    }
    var wordPos, bitPos := curr / BITWORD_SIZE, curr % BITWORD_SIZE;
    // Mask off previous bits.
    var copy := set b | b in e.words[wordPos] && b >= bitPos;
    if copy != {} {
      var b := CountTrailingZeros(copy);
      k := wordPos * BITWORD_SIZE + b;
      MaskedWord(e, curr, b, copy);
      return;
    }
    // Check subsequent words.
    assert forall c :: c in e.words[wordPos] && c >= bitPos ==> c in copy;
    NothingMasked(e, curr);
    k := FirstFrom(e, curr, wordPos + 1);
  }

  lemma MaskedWord(e: Element, curr: nat, b: nat, copy: Word)
    requires ElementOk(e) && curr < ELEMENT_SIZE && copy == set c | c in e.words[curr / BITWORD_SIZE] && c >= curr % BITWORD_SIZE
    requires b in copy && forall c: nat :: c in copy ==> b <= c
    ensures NextBit(e, curr, curr / BITWORD_SIZE * BITWORD_SIZE + b)
  {
    var w := curr / BITWORD_SIZE;
    var k := w * BITWORD_SIZE + b;
    assert k / BITWORD_SIZE == w && k % BITWORD_SIZE == b;
    forall j: nat | curr <= j && Bit(e, j) ensures k <= j {
      if j / BITWORD_SIZE == w {
        assert j % BITWORD_SIZE in copy;
      }
    }
  }

  lemma NothingMasked(e: Element, curr: nat)
    requires ElementOk(e) && curr < ELEMENT_SIZE && forall c :: c in e.words[curr / BITWORD_SIZE] ==> c < curr % BITWORD_SIZE
    ensures NoneFrom(e, curr, curr / BITWORD_SIZE + 1) && curr <= (curr / BITWORD_SIZE + 1) * BITWORD_SIZE
  {
    forall j: nat | curr <= j < (curr / BITWORD_SIZE + 1) * BITWORD_SIZE ensures !Bit(e, j) {
      assert j / BITWORD_SIZE == curr / BITWORD_SIZE;
    }
  }

  // m is the least member from n on.
  ghost predicate NextMember(s: seq<Element>, n: nat, m: nat) {
    n <= m && Has(s, m) && forall x: nat :: n <= x && Has(s, x) ==> m <= x
  }

  ghost predicate NoMember(s: seq<Element>, n: nat) {
    forall x: nat :: n <= x ==> !Has(s, x)
  }

  // The bits left in the current word from the current member on.
  ghost predicate Position(s: seq<Element>, iter: nat, bitNumber: nat, wordNumber: nat, bits: Word) {
    && iter < |s| && s[iter].index == bitNumber / ELEMENT_SIZE && ElementOk(s[iter])
    && wordNumber == bitNumber % ELEMENT_SIZE / BITWORD_SIZE && wordNumber < |s[iter].words|
    && bits == Shr(s[iter].words[wordNumber], bitNumber % BITWORD_SIZE)
  }

  class Iterator {
    const elements: seq<Element>
    var atEnd: bool
    var iter: nat
    var bitNumber: nat
    var wordNumber: nat
    var bits: Word

    ghost predicate Valid()
      reads this
    {
      && Canonical(elements)
      && (!atEnd ==> Position(elements, iter, bitNumber, wordNumber, bits) && Has(elements, bitNumber))
    }

    // At the first member, or at the end if there is none.
    constructor (s: seq<Element>)
      requires Canonical(s)
      ensures Valid() && elements == s
      ensures if atEnd then NoMember(s, 0) else NextMember(s, 0, bitNumber)
    {
      elements, iter, bitNumber, wordNumber, bits := s, 0, 0, 0, {};
      atEnd := s == [];
      new;
      if s != [] {
        hide Canonical, ElementOk, Zero, Bit, Has, NextBit, Position;
        ToElement();
        FirstMember(s, bitNumber);
      }
    }

    // Go to the first bit of the element at iter.
    method ToElement()
      requires Canonical(elements) && iter < |elements|
      modifies this`bitNumber, this`wordNumber, this`bits
      ensures Position(elements, iter, bitNumber, wordNumber, bits)
      ensures bitNumber / ELEMENT_SIZE == elements[iter].index && NextBit(elements[iter], 0, bitNumber % ELEMENT_SIZE)
    {
      ElementsOk(elements, iter);
      hide Canonical, Zero, Bit, NextBit;
      var k := FindFirst(elements[iter]);
      NextBelow(elements[iter], 0, k);
      AtBit(elements, iter, k);
      bitNumber := elements[iter].index * ELEMENT_SIZE + k;
      wordNumber := bitNumber % ELEMENT_SIZE / BITWORD_SIZE;
      bits := Shr(elements[iter].words[wordNumber], k % BITWORD_SIZE);
    }

    // Go to the next member.
    method Next()
      requires Valid() && !atEnd
      modifies this
      ensures Valid() && if atEnd then NoMember(elements, old(bitNumber) + 1) else NextMember(elements, old(bitNumber) + 1, bitNumber)
    {
      hide Canonical, ElementOk, Zero, Bit, Has, NextBit;
      ghost var n := bitNumber;
      ElementsOk(elements, iter);
      StepBits(elements, iter, bitNumber, wordNumber, bits);
      bitNumber := bitNumber + 1;
      bits := Shr(bits, 1);
      if bits != {} {
        SkipZeros(n);
        return;
      }
      // The current word has no more bits.
      var curr := bitNumber % ELEMENT_SIZE;
      var k := FindNext(elements[iter], curr);
      if k == -1 || curr == 0 {
        // The current element has no more bits.
        ElementDone(elements, iter, n, k);
        iter := iter + 1;
        wordNumber := 0;
        if iter == |elements| {
          atEnd := true;
          LastElement(elements, iter, n);
          return;
        }
        ToElement();
        NextElement(elements, iter, n, bitNumber);
      } else {
        NextBelow(elements[iter], curr, k);
        AtBit(elements, iter, k);
        SameElement(elements, iter, n, k);
        wordNumber := k % ELEMENT_SIZE / BITWORD_SIZE;
        bits := Shr(elements[iter].words[wordNumber], k % BITWORD_SIZE);
        bitNumber := elements[iter].index * ELEMENT_SIZE + k;
      }
    }

    // The current word has more bits: go to the first of them.
    method SkipZeros(ghost n: nat)
      requires Canonical(elements) && iter < |elements| && ElementOk(elements[iter]) && bits != {} && bitNumber == n + 1
      requires elements[iter].index == n / ELEMENT_SIZE && wordNumber == n % ELEMENT_SIZE / BITWORD_SIZE && wordNumber < |elements[iter].words|
      requires bits == Shr(elements[iter].words[wordNumber], n % BITWORD_SIZE + 1)
      modifies this`bitNumber, this`bits
      ensures Position(elements, iter, bitNumber, wordNumber, bits) && NextMember(elements, n + 1, bitNumber)
    {
      hide Canonical, ElementOk, Bit, Has;
      ghost var w, p := elements[iter].words[wordNumber], n % BITWORD_SIZE + 1;
      var some :| some in bits;
      while 0 !in bits
        invariant bitNumber > n && bits == Shr(w, p + (bitNumber - n - 1)) && bits != {}
        invariant forall j: nat :: p <= j < p + (bitNumber - n - 1) ==> j !in w
        invariant some + p in w && p + (bitNumber - n - 1) <= some + p
        decreases some + n + 1 - bitNumber
      {
        OneSkipped(w, p + (bitNumber - n - 1), some + p);
        bits := Shr(bits, 1);
        bitNumber := bitNumber + 1;
      }
      WordMember(elements, iter, n, wordNumber, bitNumber, bits);
    }
  }

  // ---------- Numbers, words and elements ----------

  lemma Places(i: nat, k: nat)
    requires k < ELEMENT_SIZE
    ensures (i * ELEMENT_SIZE + k) / ELEMENT_SIZE == i && (i * ELEMENT_SIZE + k) % ELEMENT_SIZE == k
    ensures (i * ELEMENT_SIZE + k) % BITWORD_SIZE == k % BITWORD_SIZE && k / BITWORD_SIZE < BITWORDS_PER_ELEMENT
  {
    var a, b := k / BITWORD_SIZE, k % BITWORD_SIZE;
    assert i * ELEMENT_SIZE + k == BITWORD_SIZE * (2 * i + a) + b;
    WordPlace(2 * i + a, b);
  }

  lemma WordPlace(q: nat, b: nat)
    requires b < BITWORD_SIZE
    ensures (BITWORD_SIZE * q + b) % BITWORD_SIZE == b
  {
  }

  lemma Split(n: nat)
    ensures n == n / ELEMENT_SIZE * ELEMENT_SIZE + n % ELEMENT_SIZE && n % ELEMENT_SIZE < ELEMENT_SIZE
    ensures n % ELEMENT_SIZE % BITWORD_SIZE == n % BITWORD_SIZE
  {
    Places(n / ELEMENT_SIZE, n % ELEMENT_SIZE);
  }

  lemma NextBelow(e: Element, curr: nat, k: nat)
    requires ElementOk(e) && NextBit(e, curr, k)
    ensures k < ELEMENT_SIZE && Bit(e, k)
  {
  }

  lemma AtBit(s: seq<Element>, i: nat, k: nat)
    requires i < |s| && ElementOk(s[i]) && k < ELEMENT_SIZE && Bit(s[i], k)
    ensures var n := s[i].index * ELEMENT_SIZE + k;
      && n / ELEMENT_SIZE == s[i].index && n % ELEMENT_SIZE == k && k / BITWORD_SIZE < |s[i].words|
      && Position(s, i, n, k / BITWORD_SIZE, Shr(s[i].words[k / BITWORD_SIZE], k % BITWORD_SIZE))
  {
    Places(s[i].index, k);
  }

  lemma FirstMember(s: seq<Element>, m: nat)
    requires Canonical(s) && s != [] && m / ELEMENT_SIZE == s[0].index && NextBit(s[0], 0, m % ELEMENT_SIZE)
    ensures NextMember(s, 0, m)
  {
    IndexBound(s);
    Present(s, 0);
    hide Canonical, Zero, ElementOk, Bit;
    forall x: nat | Has(s, x) ensures m <= x {
      Split(x);
      Split(m);
      if x / ELEMENT_SIZE == s[0].index {
        assert Bit(s[0], x % ELEMENT_SIZE);
      }
    }
  }

  lemma StepBits(s: seq<Element>, iter: nat, n: nat, wordNumber: nat, bits: Word)
    requires Position(s, iter, n, wordNumber, bits)
    ensures iter < |s| && ElementOk(s[iter]) && s[iter].index == n / ELEMENT_SIZE
    ensures wordNumber == n % ELEMENT_SIZE / BITWORD_SIZE && wordNumber < |s[iter].words|
    ensures Shr(bits, 1) == Shr(s[iter].words[wordNumber], n % BITWORD_SIZE + 1)
  {
    ShrTwice(s[iter].words[wordNumber], n % BITWORD_SIZE);
  }

  lemma OneSkipped(w: Word, q: nat, some: nat)
    requires 0 !in Shr(w, q) && some in w && q <= some
    ensures Shr(Shr(w, q), 1) == Shr(w, q + 1) && q !in w && q + 1 <= some && Shr(w, q + 1) != {}
  {
    ShrTwice(w, q);
    ShrIn(w, q, 0);
    ShrIn(w, q + 1, some - q - 1);
  }

  lemma WordMember(s: seq<Element>, iter: nat, n: nat, wordNumber: nat, m: nat, bits: Word)
    requires Canonical(s) && iter < |s| && ElementOk(s[iter]) && s[iter].index == n / ELEMENT_SIZE
    requires wordNumber == n % ELEMENT_SIZE / BITWORD_SIZE && wordNumber < |s[iter].words| && n < m && 0 in bits
    requires var w, q := s[iter].words[wordNumber], n % BITWORD_SIZE + (m - n);
      bits == Shr(w, q) && forall j: nat :: n % BITWORD_SIZE < j < q ==> j !in w
    ensures Position(s, iter, m, wordNumber, bits) && NextMember(s, n + 1, m)
  {
    var w, q := s[iter].words[wordNumber], n % BITWORD_SIZE + (m - n);
    ShrIn(w, q, 0);
    assert q in w && q < BITWORD_SIZE;
    Present(s, iter);
    hide Canonical, Zero, ElementOk;
    forall x: nat | n < x <= m ensures x / ELEMENT_SIZE == n / ELEMENT_SIZE && x % ELEMENT_SIZE / BITWORD_SIZE == wordNumber
      && x % ELEMENT_SIZE % BITWORD_SIZE == n % BITWORD_SIZE + (x - n) == x % BITWORD_SIZE {
      SameWord(n, x);
    }
    assert Bit(s[iter], m % ELEMENT_SIZE);
    forall x: nat | n + 1 <= x < m ensures !Has(s, x) {
      assert x % ELEMENT_SIZE % BITWORD_SIZE !in w;
    }
  }

  // Numbers up to the end of the word are in the same word.
  lemma SameWord(n: nat, x: nat)
    requires n < x && n % BITWORD_SIZE + (x - n) < BITWORD_SIZE
    ensures x / ELEMENT_SIZE == n / ELEMENT_SIZE && x % ELEMENT_SIZE / BITWORD_SIZE == n % ELEMENT_SIZE / BITWORD_SIZE
    ensures x % ELEMENT_SIZE % BITWORD_SIZE == n % BITWORD_SIZE + (x - n) && x % BITWORD_SIZE == n % BITWORD_SIZE + (x - n)
  {
    var i, k := n / ELEMENT_SIZE, n % ELEMENT_SIZE;
    Split(n);
    var l := k + (x - n);
    assert l == k / BITWORD_SIZE * BITWORD_SIZE + k % BITWORD_SIZE + (x - n);
    assert k / BITWORD_SIZE <= 1;
    assert l < ELEMENT_SIZE && l / BITWORD_SIZE == k / BITWORD_SIZE && l % BITWORD_SIZE == k % BITWORD_SIZE + (x - n);
    Places(i, l);
    assert x == i * ELEMENT_SIZE + l;
  }

  // No member after n lies in the element of n.
  ghost predicate NoneAfter(s: seq<Element>, iter: nat, n: nat) {
    iter < |s| && forall x: nat :: n < x && x / ELEMENT_SIZE == s[iter].index ==> !Has(s, x)
  }

  lemma ElementDone(s: seq<Element>, iter: nat, n: nat, k: int)
    requires Canonical(s) && iter < |s| && s[iter].index == n / ELEMENT_SIZE && (k == -1 || (n + 1) % ELEMENT_SIZE == 0)
    requires k == -1 ==> forall j: nat :: (n + 1) % ELEMENT_SIZE <= j ==> !Bit(s[iter], j)
    ensures NoneAfter(s, iter, n)
  {
    Present(s, iter);
    hide Canonical, Zero, ElementOk, Bit, Has;
    Split(n);
    forall x: nat | n < x && x / ELEMENT_SIZE == s[iter].index ensures !Has(s, x) {
      Split(x);
      NextInElement(n, x);
    }
  }

  // A later number of the same element.
  lemma NextInElement(n: nat, x: nat)
    requires n < x && x / ELEMENT_SIZE == n / ELEMENT_SIZE
    ensures (n + 1) % ELEMENT_SIZE == n % ELEMENT_SIZE + 1 <= x % ELEMENT_SIZE && (n + 1) / ELEMENT_SIZE == n / ELEMENT_SIZE
  {
    var i, k := n / ELEMENT_SIZE, n % ELEMENT_SIZE;
    Split(n);
    Split(x);
    Places(i, k + 1);
    assert n + 1 == i * ELEMENT_SIZE + (k + 1);
  }

  lemma LastElement(s: seq<Element>, iter: nat, n: nat)
    requires Canonical(s) && iter == |s| && iter > 0 && NoneAfter(s, iter - 1, n) && s[iter - 1].index == n / ELEMENT_SIZE
    ensures NoMember(s, n + 1)
  {
    hide Zero, ElementOk, Bit;
    assert forall i :: 0 <= i < |s| ==> s[i].index <= s[iter - 1].index;
    hide Canonical;
    forall x: nat | n + 1 <= x ensures !Has(s, x) {
      Split(x);
      Split(n);
    }
  }

  lemma NextElement(s: seq<Element>, iter: nat, n: nat, m: nat)
    requires Canonical(s) && 0 < iter < |s| && NoneAfter(s, iter - 1, n) && s[iter - 1].index == n / ELEMENT_SIZE
    requires m / ELEMENT_SIZE == s[iter].index && NextBit(s[iter], 0, m % ELEMENT_SIZE)
    ensures NextMember(s, n + 1, m)
  {
    Present(s, iter);
    hide Zero, ElementOk, Bit;
    assert forall i :: 0 <= i < iter ==> s[i].index <= s[iter - 1].index;
    assert forall i :: iter < i < |s| ==> s[iter].index < s[i].index;
    assert s[iter - 1].index < s[iter].index;
    hide Canonical;
    Split(n);
    Split(m);
    forall x: nat | n + 1 <= x && Has(s, x) ensures m <= x {
      Split(x);
      var i :| 0 <= i < |s| && s[i].index == x / ELEMENT_SIZE && Bit(s[i], x % ELEMENT_SIZE);
      if i == iter {
        assert Bit(s[iter], x % ELEMENT_SIZE);
      }
    }
  }

  lemma NotLast(n: nat)
    requires (n + 1) % ELEMENT_SIZE != 0
    ensures n % ELEMENT_SIZE + 1 < ELEMENT_SIZE
  {
  }

  lemma SameElement(s: seq<Element>, iter: nat, n: nat, k: nat)
    requires Canonical(s) && iter < |s| && s[iter].index == n / ELEMENT_SIZE && (n + 1) % ELEMENT_SIZE != 0
    requires NextBit(s[iter], (n + 1) % ELEMENT_SIZE, k) && k < ELEMENT_SIZE
    ensures NextMember(s, n + 1, s[iter].index * ELEMENT_SIZE + k)
  {
    Present(s, iter);
    IndexAbove(s, iter);
    hide Canonical, Zero, ElementOk, Bit, Has;
    var i, m := s[iter].index, s[iter].index * ELEMENT_SIZE + k;
    Places(i, k);
    Split(n);
    var j := n % ELEMENT_SIZE;
    NotLast(n);
    Places(i, j + 1);
    assert n + 1 == i * ELEMENT_SIZE + (j + 1);
    forall x: nat | n + 1 <= x && Has(s, x) ensures m <= x {
      Split(x);
      if x / ELEMENT_SIZE == i {
        assert Bit(s[iter], x % ELEMENT_SIZE);
      }
    }
  }

  lemma IndexAbove(s: seq<Element>, iter: nat)
    requires iter < |s|
    ensures forall x: nat :: x / ELEMENT_SIZE > s[iter].index ==> x >= (s[iter].index + 1) * ELEMENT_SIZE
  {
  }

  // ---------- Whole runs ----------

  // All members, by iteration from the beginning to the end.
  method Members(s: seq<Element>) returns (out: seq<nat>)
    requires Canonical(s)
    ensures forall i, j :: 0 <= i < j < |out| ==> out[i] < out[j]
    ensures forall n: nat :: n in out <==> Has(s, n)
  {
    hide Canonical, Has, Position;
    out := [];
    var it := new Iterator(s);
    ghost var n: nat := 0;
    ghost var bound := Bound(s);
    while !it.atEnd
      invariant it.Valid() && it.elements == s && (forall i :: 0 <= i < |out| ==> out[i] < n) && bound == Bound(s)
      invariant forall i, j :: 0 <= i < j < |out| ==> out[i] < out[j]
      invariant forall m: nat :: m < n ==> (m in out <==> Has(s, m))
      invariant if it.atEnd then NoMember(s, n) else NextMember(s, n, it.bitNumber)
      decreases !it.atEnd, bound - n
    {
      BoundHolds(s, it.bitNumber);
      ghost var m := it.bitNumber;
      assert forall x: nat :: n <= x < m ==> !Has(s, x);
      out := out + [it.bitNumber];
      n := it.bitNumber + 1;
      it.Next();
    }
  }

  // A number above all members.
  ghost function Bound(s: seq<Element>): nat {
    if s == [] then 0 else (s[|s| - 1].index + 1) * ELEMENT_SIZE
  }

  lemma BoundHolds(s: seq<Element>, n: nat)
    requires Canonical(s) && Has(s, n)
    ensures n < Bound(s)
  {
    hide Zero, ElementOk, Bit;
    var i :| 0 <= i < |s| && s[i].index == n / ELEMENT_SIZE && Bit(s[i], n % ELEMENT_SIZE);
    assert s[i].index <= s[|s| - 1].index;
    Split(n);
  }
}
