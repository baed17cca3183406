/** Preparation of the points-to sets: for every offset that occurs, the nodes with more
    fields than that. */
module OffsetMasks {
  import opened Constraints
  import opened SolverSteps

  // The largest valid offset that is allowed for an object of sz nodes, or 0.
  function Largest(valid: set<nat>, sz: nat): (r: nat)
    ensures r == 0 || (r in valid && r < sz)
    ensures forall off: nat :: off in valid && off < sz ==> off <= r
  {
    if sz < 2 then 0
    else if sz - 1 in valid then sz - 1
    else Largest(valid, sz - 1)
  }

  // The nodes below n whose largest valid offset is off.
  function Sized(l: Layout, valid: set<nat>, n: nat, off: nat): set<nat> {
    set i: nat | i < n && Largest(valid, Size(l, i)) == off
  }

  // Some object has more than off fields.
  ghost predicate InRange(l: Layout, off: nat) {
    exists o: nat :: o < |l.objSz| && l.objSz[o] > off
  }

  // The GEP function: each node with more than off fields, and the node off further.
  function GepFunction(domain: set<nat>, off: nat): map<nat, nat> {
    map x | x in domain :: x + off
  }

  method ValidOffsets(cs: seq<Constraint>) returns (valid: set<nat>)
    ensures forall off: nat :: off in valid <==> off > 0 && exists c :: c in cs && c.off == off
  {
    valid := {};
    for i := 0 to |cs|
      invariant forall off: nat :: off in valid <==> off > 0 && exists k: nat :: k < i && cs[k].off == off
    {
      if cs[i].off > 0 {
        valid := valid + {cs[i].off};
      }
    }
    forall off: nat ensures off in valid <==> off > 0 && exists c :: c in cs && c.off == off {
      if exists k: nat :: k < |cs| && cs[k].off == off {
        var k: nat :| k < |cs| && cs[k].off == off;
        assert cs[k] in cs;
      }
    }
  }

  method LargestOffset(valid: set<nat>, sz: nat) returns (off: nat)
    requires sz >= 2
    ensures off == Largest(valid, sz)
  {
    off := sz - 1;
    while off > 0 && off !in valid
      invariant off < sz && Largest(valid, sz) == Largest(valid, off + 1)
    {
      off := off - 1;
    }
  }

  // The nodes recorded so far, by largest valid offset.
  ghost predicate Recorded(l: Layout, valid: set<nat>, offNodes: seq<set<nat>>, i: nat) {
    && (forall off: nat :: 0 < off < |offNodes| ==> offNodes[off] == Sized(l, valid, i, off))
    && (forall o: nat :: o < i && Size(l, o) > 1 ==> Size(l, o) <= |offNodes|)
  }

  lemma WidenRecorded(l: Layout, valid: set<nat>, a: seq<set<nat>>, b: seq<set<nat>>, i: nat)
    requires Recorded(l, valid, a, i) && a <= b && forall k :: |a| <= k < |b| ==> b[k] == {}
    ensures Recorded(l, valid, b, i)
  {
  }

  lemma RecordOne(l: Layout, valid: set<nat>, a: seq<set<nat>>, b: seq<set<nat>>, i: nat)
    requires Recorded(l, valid, a, i) && i < |l.objSz| && (l.objSz[i] > 1 ==> l.objSz[i] <= |a|)
    requires var k := Largest(valid, l.objSz[i]);
      if 0 < k < |a| then b == a[k := a[k] + {i}] else k == 0 && b == a
    ensures Recorded(l, valid, b, i + 1)
  {
  }

  // For each offset, the nodes for which it is the largest valid one.
  method SortBySize(l: Layout, valid: set<nat>) returns (offNodes: seq<set<nat>>)
    ensures Recorded(l, valid, offNodes, |l.objSz|)
  {
    hide Largest, Recorded;
    offNodes := [];
    NoneRecorded(l, valid);
    for i := 0 to |l.objSz|
      invariant Recorded(l, valid, offNodes, i)
    {
      var sz := l.objSz[i];
      ghost var before := offNodes;
      if sz >= 2 {
        if |offNodes| < sz {
          offNodes := offNodes + seq(sz - |offNodes|, _ => {});
          WidenRecorded(l, valid, before, offNodes, i);
        }
        ghost var wide := offNodes;
        // The node goes with the largest offset that fits.
        var off := LargestOffset(valid, sz);
        if off > 0 {
          offNodes := offNodes[off := offNodes[off] + {i}];
        }
        RecordOne(l, valid, wide, offNodes, i);
      } else {
        SmallObject(valid, sz);
        RecordOne(l, valid, before, offNodes, i);
      }
    }
  }

  lemma SmallObject(valid: set<nat>, sz: nat)
    requires sz < 2
    ensures Largest(valid, sz) == 0
  {
  }

  lemma NoneRecorded(l: Layout, valid: set<nat>)
    ensures Recorded(l, valid, [], 0)
  {
  }

  lemma {:induction false} Greatest(s: set<nat>)
    requires s != {}
    ensures exists m: nat :: m in s && forall x: nat :: x in s ==> x <= m
  {
    var a: nat :| a in s;
    var t := s - {a};
    if t != {} {
      Greatest(t);
      var m: nat :| m in t && forall x: nat :: x in t ==> x <= m;
      var top := if a > m then a else m;
      forall x: nat | x in s ensures x <= top {
        if x != a {
          assert x in t;
        }
      }
      assert top in s;
    } else {
      forall x: nat | x in s ensures x <= a {
        assert x == a || x in t;
      }
    }
  }

  // From the largest offset down, accumulate the nodes that allow it.
  method PtsInit(l: Layout, cs: seq<Constraint>) returns (offMask: seq<set<nat>>, geps: seq<map<nat, nat>>)
    requires forall c :: c in cs ==> c.off == 0 || InRange(l, c.off)
    ensures forall c :: c in cs ==> MaskFor(l, offMask, c.off) && GepFor(l, geps, c.off)
  {
    hide Largest, Recorded, Allowed, Sized, InRange;
    var valid := ValidOffsets(cs);
    var offNodes := SortBySize(l, valid);
    offMask := seq(|offNodes|, _ => {});
    geps := seq(|offNodes|, _ => map[]);
    var om: set<nat> := {};
    NoneAllowed(l, valid);
    var todo := valid;
    while todo != {}
      invariant |offMask| == |geps| == |offNodes| && todo <= valid
      invariant forall a: nat, b: nat :: a in valid && a !in todo && b in todo ==> b < a
      invariant om == Allowed(l, valid, todo)
      invariant forall off: nat :: off in valid && off !in todo ==> Prepared(l, offMask, geps, off)
      decreases todo
    {
      Greatest(todo);
      var off: nat :| off in todo && forall x: nat :: x in todo ==> x <= off;
      OffsetFits(l, cs, valid, off, offNodes);
      om := om + offNodes[off];
      AllowedBy(l, valid, todo, off);
      geps := geps[off := GepFunction(om, off)];
      offMask := offMask[off := om];
      todo := todo - {off};
    }
    forall c | c in cs ensures c.off == 0 || Prepared(l, offMask, geps, c.off) {
      assert c.off == 0 || c.off in valid;
    }
  }

  ghost predicate Prepared(l: Layout, offMask: seq<set<nat>>, geps: seq<map<nat, nat>>, off: nat) {
    off > 0 && MaskFor(l, offMask, off) && GepFor(l, geps, off)
  }

  lemma OffsetFits(l: Layout, cs: seq<Constraint>, valid: set<nat>, off: nat, offNodes: seq<set<nat>>)
    requires forall c :: c in cs ==> c.off == 0 || InRange(l, c.off)
    requires forall off: nat :: off in valid <==> off > 0 && exists c :: c in cs && c.off == off
    requires Recorded(l, valid, offNodes, |l.objSz|) && off in valid
    ensures 0 < off < |offNodes| && offNodes[off] == Sized(l, valid, |l.objSz|, off)
  {
    hide Sized;
    var c :| c in cs && c.off == off;
    var o: nat :| o < |l.objSz| && l.objSz[o] > off;
    assert Size(l, o) > 1;
  }

  // The nodes below the range limit whose largest valid offset is no longer to do.
  function Allowed(l: Layout, valid: set<nat>, todo: set<nat>): set<nat> {
    set i: nat | i < |l.objSz| && Largest(valid, Size(l, i)) > 0 && Largest(valid, Size(l, i)) !in todo
  }

  // The nodes recorded for the offsets from off up are those that allow off.
  lemma AllowedBy(l: Layout, valid: set<nat>, todo: set<nat>, off: nat)
    requires off in todo && todo <= valid && off > 0
    requires forall x: nat :: x in todo ==> x <= off
    requires forall a: nat, b: nat :: a in valid && a !in todo && b in todo ==> b < a
    ensures Allowed(l, valid, todo) + Sized(l, valid, |l.objSz|, off) == set i: nat | i < |l.objSz| && l.objSz[i] > off
    ensures Allowed(l, valid, todo) + Sized(l, valid, |l.objSz|, off) == Allowed(l, valid, todo - {off})
  {
  }

  lemma NoneAllowed(l: Layout, valid: set<nat>)
    ensures Allowed(l, valid, valid) == {}
  {
  }
}
