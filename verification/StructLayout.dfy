/** Flattened struct layouts: the size and offset tables of a struct type, and the offset that
    a chain of field indices adds up to. */
module StructLayout {
  import opened Constraints
  import opened SolverSteps

  // A type is a scalar, an array of elements, or a struct of one field or more.
  datatype Ty = Scalar | Array(elem: Ty) | Struct(fields: seq<Ty>)

  // sz[i]: the number of fields in the largest struct that begins at flattened field i, or 1;
  // off[j]: the flattened index of field j.
  datatype Info = Info(sz: seq<nat>, off: seq<nat>)

  ghost predicate NonEmpty(t: Ty) {
    match t
    case Scalar => true
    case Array(e) => NonEmpty(e)
    case Struct(fs) => fs != [] && forall i :: 0 <= i < |fs| ==> NonEmpty(fs[i])
  }

  // Arrays are treated as a single element.
  function Strip(t: Ty): (r: Ty)
    ensures !r.Array? && (r == t || r < t)
  {
    match t
    case Array(e) => Strip(e)
    case _ => t
  }

  // ---------- What the tables are for ----------

  // The number of fields of the flattened type.
  function FlatSize(t: Ty): nat
    decreases t, 0
  {
    match t
    case Scalar => 1
    case Array(e) => FlatSize(e)
    case Struct(fs) => TotalSize(fs)
  }

  function TotalSize(fs: seq<Ty>): nat
    decreases fs, 1
  {
    if fs == [] then 0 else
      TotalSize(fs[..|fs| - 1]) + FlatSize(fs[|fs| - 1])
  }

  lemma {:induction false} SizePositive(t: Ty)
    requires NonEmpty(t)
    ensures FlatSize(t) > 0
  {
    match t
    case Scalar =>
    case Array(e) => SizePositive(e);
    case Struct(fs) => SizePositive(fs[|fs| - 1]);
  }

  // The field of a struct that contains flattened index i.
  function FieldAt(fs: seq<Ty>, i: nat): (j: nat)
    requires i < TotalSize(fs)
    ensures j < |fs| && TotalSize(fs[..j]) <= i < TotalSize(fs[..j]) + FlatSize(fs[j])
  {
    var k := |fs| - 1;
    if i < TotalSize(fs[..k]) then
      var j := FieldAt(fs[..k], i);
      assert fs[..k][..j] == fs[..j];
      j
    else k
  }

  // The number of fields in the largest struct that begins at flattened index i of t, or 1.
  ghost function LargestAt(t: Ty, i: nat): nat
    requires i < FlatSize(t)
    decreases t
  {
    match t
    case Scalar => 1
    case Array(e) => LargestAt(e, i)
    case Struct(fs) =>
      if i == 0 then FlatSize(t) else
        var j := FieldAt(fs, i);
        LargestAt(fs[j], i - TotalSize(fs[..j]))
  }

  // ---------- The tables ----------

  // The sizes for the flattened fields of fs, one after the other.
  function Sizes(fs: seq<Ty>): (sz: seq<nat>)
    ensures |sz| == TotalSize(fs)
    decreases fs, 1
  {
    if fs == [] then [] else
      Sizes(fs[..|fs| - 1]) + FieldSizes(fs[|fs| - 1])
  }

  function FieldSizes(t: Ty): (sz: seq<nat>)
    ensures |sz| == FlatSize(t)
    decreases t, 0
  {
    match t
    case Scalar => [1]
    case Array(e) => FieldSizes(e)
    case Struct(fs) => WithTotal(Sizes(fs))
  }

  // The first entry is the size of the complete struct.
  function WithTotal(sz: seq<nat>): (r: seq<nat>)
    ensures |r| == |sz|
  {
    if sz == [] then [] else sz[0 := |sz|]
  }

  function Offsets(fs: seq<Ty>): (off: seq<nat>)
    ensures |off| == |fs| && forall j :: 0 <= j < |fs| ==> off[j] == TotalSize(fs[..j])
  {
    seq(|fs|, j requires 0 <= j < |fs| => TotalSize(fs[..j]))
  }

  function InfoOf(fs: seq<Ty>): Info {
    Info(WithTotal(Sizes(fs)), Offsets(fs))
  }

  lemma StripSame(t: Ty)
    ensures FlatSize(Strip(t)) == FlatSize(t) && FieldSizes(Strip(t)) == FieldSizes(t) && (NonEmpty(t) ==> NonEmpty(Strip(t)))
  {
  }

  lemma {:induction false} SizesAt(fs: seq<Ty>, j: nat, k: nat)
    requires j < |fs| && k < FlatSize(fs[j])
    ensures TotalSize(fs[..j]) + FlatSize(fs[j]) <= TotalSize(fs)
    ensures Sizes(fs)[TotalSize(fs[..j]) + k] == FieldSizes(fs[j])[k]
  {
    var n := |fs| - 1;
    if j < n {
      SizesAt(fs[..n], j, k);
      assert fs[..n][..j] == fs[..j];
    }
  }

  // The size table says what it is documented to say.
  lemma {:induction false} SizeTable(t: Ty, i: nat)
    requires i < FlatSize(t)
    ensures FieldSizes(t)[i] == LargestAt(t, i)
  {
    match t
    case Scalar =>
    case Array(e) => SizeTable(e, i);
    case Struct(fs) =>
      if i > 0 {
        var j := FieldAt(fs, i);
        var k := i - TotalSize(fs[..j]);
        SizesAt(fs, j, k);
        SizeTable(fs[j], k);
      }
  }

  // ---------- Chains of field indices ----------

  // Every index into a struct is that of a field; indices into arrays do not matter.
  predicate ValidPath(t: Ty, path: seq<nat>) {
    path == [] || match t
      case Scalar => false
      case Array(e) => ValidPath(e, path[1..])
      case Struct(fs) => path[0] < |fs| && ValidPath(fs[path[0]], path[1..])
  }

  function TypeAt(t: Ty, path: seq<nat>): Ty
    requires ValidPath(t, path)
  {
    if path == [] then t else match t
      case Array(e) => TypeAt(e, path[1..])
      case Struct(fs) => TypeAt(fs[path[0]], path[1..])
  }

  function GepOff(t: Ty, path: seq<nat>): nat
    requires ValidPath(t, path)
  {
    if path == [] then 0 else match t
      case Array(e) => GepOff(e, path[1..])
      case Struct(fs) => TotalSize(fs[..path[0]]) + GepOff(fs[path[0]], path[1..])
  }

  // Offsets add up along a chain.
  lemma {:induction false} OffsetsAdd(t: Ty, p: seq<nat>, q: seq<nat>)
    requires ValidPath(t, p) && ValidPath(TypeAt(t, p), q)
    ensures ValidPath(t, p + q) && TypeAt(t, p + q) == TypeAt(TypeAt(t, p), q)
    ensures GepOff(t, p + q) == GepOff(t, p) + GepOff(TypeAt(t, p), q)
  {
    if p == [] {
      assert p + q == q;
    } else {
      assert (p + q)[1..] == p[1..] + q && (p + q)[0] == p[0];
      match t
      case Array(e) => OffsetsAdd(e, p[1..], q);
      case Struct(fs) => OffsetsAdd(fs[p[0]], p[1..], q);
    }
  }

  // One step on a type: the fields of a struct lie one after the other, and an index into an
  // array does not move.
  lemma OneStep(t: Ty, j: nat)
    requires ValidPath(t, [j])
    ensures t.Array? ==> TypeAt(t, [j]) == t.elem && GepOff(t, [j]) == 0
    ensures t.Struct? ==> TypeAt(t, [j]) == t.fields[j] && GepOff(t, [j]) == Offsets(t.fields)[j]
    ensures t.Struct? && j == 0 ==> GepOff(t, [j]) == 0
    ensures t.Struct? && j > 0 ==> ValidPath(t, [j - 1]) && GepOff(t, [j]) == GepOff(t, [j - 1]) + FlatSize(t.fields[j - 1])
  {
    assert [j][1..] == [];
    if t.Struct? && j > 0 {
      assert [j - 1][1..] == [];
      assert t.fields[..j][..j - 1] == t.fields[..j - 1];
    }
  }

  // The first field of a struct is where the struct is, and every other one follows the field
  // before it; the offset table has the offsets from the start of the struct.
  lemma FieldAfterField(t: Ty, p: seq<nat>, j: nat)
    requires ValidPath(t, p) && TypeAt(t, p).Struct? && j < |TypeAt(t, p).fields|
    ensures var fs := TypeAt(t, p).fields;
      && ValidPath(t, p + [j]) && TypeAt(t, p + [j]) == fs[j] && GepOff(t, p + [j]) == GepOff(t, p) + Offsets(fs)[j]
      && (j == 0 ==> GepOff(t, p + [j]) == GepOff(t, p))
      && (j > 0 ==> ValidPath(t, p + [j - 1]) && GepOff(t, p + [j]) == GepOff(t, p + [j - 1]) + FlatSize(fs[j - 1]))
  {
    var u := TypeAt(t, p);
    assert [j][1..] == [] && [j - 1][1..] == [];
    assert ValidPath(u, [j]) && (j > 0 ==> ValidPath(u, [j - 1]));
    hide TypeAt, GepOff, ValidPath, FlatSize, Offsets;
    OneStep(u, j);
    OffsetsAdd(t, p, [j]);
    if j > 0 {
      OffsetsAdd(t, p, [j - 1]);
    }
  }

  // An index into an array does not move.
  lemma ElementOfArray(t: Ty, p: seq<nat>, j: nat)
    requires ValidPath(t, p) && TypeAt(t, p).Array?
    ensures ValidPath(t, p + [j]) && TypeAt(t, p + [j]) == TypeAt(t, p).elem && GepOff(t, p + [j]) == GepOff(t, p)
  {
    assert [j][1..] == [] && ValidPath(TypeAt(t, p), [j]);
    OneStep(TypeAt(t, p), j);
    OffsetsAdd(t, p, [j]);
  }

  // Paths that part at a struct have different offsets, in the order of its fields.
  lemma Apart(t: Ty, p: seq<nat>, a: nat, q: seq<nat>, b: nat, r: seq<nat>)
    requires NonEmpty(t) && ValidPath(t, p) && TypeAt(t, p).Struct? && a < b < |TypeAt(t, p).fields|
    requires ValidPath(TypeAt(t, p).fields[a], q) && ValidPath(TypeAt(t, p).fields[b], r)
    ensures ValidPath(t, p + ([a] + q)) && ValidPath(t, p + ([b] + r)) && GepOff(t, p + ([a] + q)) < GepOff(t, p + ([b] + r))
  {
    NonEmptyAt(t, p);
    var u := TypeAt(t, p);
    FieldPath(u, a, q);
    FieldPath(u, b, r);
    OffsetsAdd(t, p, [a] + q);
    OffsetsAdd(t, p, [b] + r);
    StepFits(u.fields[a], q);
    assert u.fields[..b][..a] == u.fields[..a];
    SizesAt(u.fields[..b], a, 0) by { SizePositive(u.fields[a]); }
  }

  lemma FieldPath(t: Ty, j: nat, q: seq<nat>)
    requires t.Struct? && j < |t.fields| && ValidPath(t.fields[j], q)
    ensures ValidPath(t, [j] + q) && GepOff(t, [j] + q) == TotalSize(t.fields[..j]) + GepOff(t.fields[j], q)
    ensures TypeAt(t, [j] + q) == TypeAt(t.fields[j], q)
  {
    assert ([j] + q)[1..] == q;
  }

  // Every flattened field is a scalar that some path leads to.
  lemma {:induction false} PathTo(t: Ty, i: nat) returns (p: seq<nat>)
    requires i < FlatSize(t)
    ensures ValidPath(t, p) && TypeAt(t, p).Scalar? && GepOff(t, p) == i
  {
    match t
    case Scalar => p := [];
    case Array(e) =>
      var q := PathTo(e, i);
      p := [0] + q;
      assert p[1..] == q;
    case Struct(fs) =>
      var j := FieldAt(fs, i);
      var q := PathTo(fs[j], i - TotalSize(fs[..j]));
      p := [j] + q;
      FieldPath(t, j, q);
  }

  // The size entry of a flattened field is the size of something that begins there; by StepFits
  // nothing larger does.
  lemma {:induction false} SizeAttained(t: Ty, i: nat) returns (p: seq<nat>)
    requires NonEmpty(t) && i < FlatSize(t)
    ensures ValidPath(t, p) && GepOff(t, p) == i && FlatSize(TypeAt(t, p)) == FieldSizes(t)[i]
  {
    if i == 0 {
      p := [];
      WholeType(t);
    } else {
      match t
      case Array(e) =>
        var q := SizeAttained(e, i);
        p := [0] + q;
        assert p[1..] == q;
      case Struct(fs) =>
        var j := FieldAt(fs, i);
        var q := SizeAttained(fs[j], i - TotalSize(fs[..j]));
        p := [j] + q;
        FieldPath(t, j, q);
        SizesAt(fs, j, i - TotalSize(fs[..j]));
    }
  }

  // What a chain leads to lies within the type, and the size table has room for all of it.
  lemma {:induction false} StepFits(t: Ty, p: seq<nat>)
    requires NonEmpty(t) && ValidPath(t, p)
    ensures GepOff(t, p) + FlatSize(TypeAt(t, p)) <= FlatSize(t) && 0 < FlatSize(TypeAt(t, p))
    ensures var sz := FieldSizes(t)[GepOff(t, p)];
      FlatSize(TypeAt(t, p)) <= sz && GepOff(t, p) + sz <= FlatSize(t)
  {
    SizePositive(t);
    if p == [] {
      WholeType(t);
    } else {
      match t
      case Array(e) => StepFits(e, p[1..]);
      case Struct(fs) =>
        StepFits(fs[p[0]], p[1..]);
        var k := GepOff(fs[p[0]], p[1..]);
        SizesAt(fs, p[0], k);
    }
  }

  // Entry 0 is the size of the type.
  lemma {:induction false} WholeType(t: Ty)
    requires NonEmpty(t)
    ensures FlatSize(t) > 0 && FieldSizes(t)[0] == FlatSize(t)
  {
    SizePositive(t);
    match t
    case Scalar =>
    case Array(e) => WholeType(e);
    case Struct(fs) =>
  }

  // Node o starts an object of type t: its nodes have the sizes of the flattened fields.
  ghost predicate ObjectOf(l: Layout, o: nat, t: Ty) {
    forall i: nat :: i < FlatSize(t) ==> Size(l, o + i) == FieldSizes(t)[i]
  }

  // No step of a GEP chain within an object is dropped: neither by the rule for offsets nor
  // by the mask that is made for the offset.
  lemma ChainKept(l: Layout, o: nat, t: Ty, p: seq<nat>, q: seq<nat>, mask: seq<set<nat>>)
    requires NonEmpty(t) && ObjectOf(l, o, t) && ValidPath(t, p) && ValidPath(TypeAt(t, p), q)
    requires MaskFor(l, mask, GepOff(TypeAt(t, p), q))
    ensures var x, k := o + GepOff(t, p), GepOff(TypeAt(t, p), q);
      && Shift(l, {x}, k) == {x + k} && ValidPath(t, p + q) && x + k == o + GepOff(t, p + q) && (k > 0 ==> k < |mask| && x in mask[k])
  {
    hide NonEmpty, FlatSize, FieldSizes, GepOff, TypeAt, ValidPath, ObjectOf, Shift, MaskFor;
    var u := TypeAt(t, p);
    StepFits(t, p);
    NonEmptyAt(t, p);
    StepFits(u, q);
    OffsetsAdd(t, p, q);
    NodeSize(l, o, t, GepOff(t, p));
    OneShifted(l, o + GepOff(t, p), GepOff(u, q), mask);
  }

  lemma NodeSize(l: Layout, o: nat, t: Ty, i: nat)
    requires ObjectOf(l, o, t) && i < FlatSize(t)
    ensures Size(l, o + i) == FieldSizes(t)[i]
  {
  }

  lemma OneShifted(l: Layout, x: nat, k: nat, mask: seq<set<nat>>)
    requires Size(l, x) > k && MaskFor(l, mask, k)
    ensures Shift(l, {x}, k) == {x + k} && (k > 0 ==> k < |mask| && x in mask[k])
  {
  }

  lemma {:induction false} NonEmptyAt(t: Ty, p: seq<nat>)
    requires NonEmpty(t) && ValidPath(t, p)
    ensures NonEmpty(TypeAt(t, p))
  {
    if p != [] {
      match t
      case Array(e) => NonEmptyAt(e, p[1..]);
      case Struct(fs) => NonEmptyAt(fs[p[0]], p[1..]);
    }
  }

  // ---------- The tables, filled in as needed ----------

  // All structs within t, and t itself, are in keys.
  ghost predicate Known(t: Ty, keys: set<Ty>) {
    match t
    case Scalar => true
    case Array(e) => Known(e, keys)
    case Struct(fs) => t in keys && forall i :: 0 <= i < |fs| ==> Known(fs[i], keys)
  }

  lemma {:induction false} KnownMore(t: Ty, keys: set<Ty>, more: set<Ty>)
    requires Known(t, keys) && keys <= more
    ensures Known(t, more)
  {
    match t
    case Scalar =>
    case Array(e) => KnownMore(e, keys, more);
    case Struct(fs) =>
      forall i | 0 <= i < |fs| ensures Known(fs[i], more) {
        KnownMore(fs[i], keys, more);
      }
  }

  lemma {:induction false} KnownStrip(t: Ty, keys: set<Ty>)
    ensures Known(Strip(t), keys) <==> Known(t, keys)
  {
    if t.Array? {
      KnownStrip(t.elem, keys);
    }
  }

  // All tables are right, those of structs within a struct are there as well, and the largest
  // struct is known.
  ghost predicate Tables(info: map<Ty, Info>, largest: Ty, size: nat) {
    && (forall t :: t in info ==> t.Struct? && NonEmpty(t) && info[t] == InfoOf(t.fields) && FlatSize(t) <= size && Known(t, info.Keys))
    && (if size == 0 then largest == Scalar && info == map[] else largest in info && FlatSize(largest) == size)
  }

  lemma TableAdded(info: map<Ty, Info>, largest: Ty, size: nat, t: Ty)
    requires Tables(info, largest, size) && t.Struct? && NonEmpty(t) && forall i :: 0 <= i < |t.fields| ==> Known(t.fields[i], info.Keys)
    ensures var n := FlatSize(t);
      Tables(info[t := InfoOf(t.fields)], if n > size then t else largest, if n > size then n else size)
  {
    SizePositive(t);
    hide NonEmpty, FlatSize, InfoOf;
    var info' := info[t := InfoOf(t.fields)];
    assert info'.Keys == info.Keys + {t};
    forall i | 0 <= i < |t.fields| ensures Known(t.fields[i], info'.Keys) {
      KnownMore(t.fields[i], info.Keys, info'.Keys);
    }
    assert Known(t, info'.Keys);
    hide Known;
    forall u | u in info ensures Known(u, info'.Keys) {
      KnownMore(u, info.Keys, info'.Keys);
    }
  }

  lemma TableEntry(info: map<Ty, Info>, largest: Ty, size: nat, t: Ty)
    requires Tables(info, largest, size) && t in info
    ensures t.Struct? && info[t].sz == FieldSizes(t) && info[t].off == Offsets(t.fields) && Known(t, info.Keys)
  {
  }

  class Layouts {
    var structInfo: map<Ty, Info>
    // The struct with the most fields, and their number (0 if there is none).
    var maxStruct: Ty
    var maxStructSz: nat

    ghost predicate Valid()
      reads this
    {
      Tables(structInfo, maxStruct, maxStructSz)
    }

    constructor ()
      ensures Valid() && structInfo == map[]
    {
      structInfo, maxStruct, maxStructSz := map[], Scalar, 0;
    }

    // The largest struct is replaced by a larger one only.
    ghost predicate Larger(t: Ty, sz: nat)
      reads this
    {
      sz <= maxStructSz && (sz == maxStructSz ==> maxStruct == t)
    }

    // Fill in the tables for t and all structs within it, unless they are there.
    method AnalyzeStruct(t: Ty)
      requires Valid() && t.Struct? && NonEmpty(t)
      modifies this
      ensures Valid() && t in structInfo && Known(t, structInfo.Keys) && old(structInfo.Keys) <= structInfo.Keys
      ensures Larger(old(maxStruct), old(maxStructSz)) && (t in old(structInfo) ==> structInfo == old(structInfo))
      decreases t, 1
    {
      if t in structInfo {
        return;
      }
      hide NonEmpty, FlatSize, Offsets, Sizes, TotalSize, FieldSizes, InfoOf, WithTotal, Tables, Known;
      var sz, off, nf := PlaceFields(t);
      TablesDone(t, sz);
      TableAdded(structInfo, maxStruct, maxStructSz, t);
      // A pointer to the first field can mean the whole struct.
      sz := sz[0 := nf];
      if nf > maxStructSz {
        maxStruct, maxStructSz := t, nf;
      }
      structInfo := structInfo[t := Info(sz, off)];
      TableEntry(structInfo, maxStruct, maxStructSz, t);
    }

    // The tables before the total is recorded, and the number of fields in the expanded struct.
    method PlaceFields(t: Ty) returns (sz: seq<nat>, off: seq<nat>, nf: nat)
      requires Valid() && t.Struct? && NonEmpty(t)
      modifies this
      ensures Valid() && old(structInfo.Keys) <= structInfo.Keys
      ensures sz == Sizes(t.fields) && off == Offsets(t.fields) && nf == TotalSize(t.fields)
      ensures forall i :: 0 <= i < |t.fields| ==> Known(t.fields[i], structInfo.Keys)
      ensures Larger(old(maxStruct), old(maxStructSz))
      decreases t, 0
    {
      hide Known, NonEmpty, FlatSize, Offsets, Sizes, TotalSize, FieldSizes, InfoOf, Strip, Tables;
      var fs := t.fields;
      FieldsNonEmpty(t);
      sz, off, nf := [], [], 0;
      NoFields(fs);
      var i := 0;
      while i < |fs|
        invariant i <= |fs| && Valid() && old(structInfo.Keys) <= structInfo.Keys
        invariant sz == Sizes(fs[..i]) && nf == TotalSize(fs[..i]) && off == Offsets(fs[..i])
        invariant forall j :: 0 <= j < i ==> Known(fs[j], structInfo.Keys)
        invariant Larger(old(maxStruct), old(maxStructSz))
      {
        // Treat an array as a single element of its type.
        var et := Strip(fs[i]);
        StripSame(fs[i]);
        OneMoreField(fs, i);
        off := off + [nf];
        if et.Struct? {
          ghost var keys := structInfo.Keys;
          var szE := GetStructSz(et);
          forall j | 0 <= j < i ensures Known(fs[j], structInfo.Keys) {
            KnownMore(fs[j], keys, structInfo.Keys);
          }
          sz := sz + szE;
          nf := nf + |szE|;
        } else {
          ScalarField(et);
          assert Known(et, structInfo.Keys) by { KnownScalar(structInfo.Keys); }
          sz := sz + [1];
          nf := nf + 1;
        }
        KnownStrip(fs[i], structInfo.Keys);
        i := i + 1;
      }
      assert fs[..|fs|] == fs;
    }

    method GetStructSz(t: Ty) returns (sz: seq<nat>)
      requires Valid() && t.Struct? && NonEmpty(t)
      modifies this
      ensures Valid() && sz == FieldSizes(t) && Known(t, structInfo.Keys) && old(structInfo.Keys) <= structInfo.Keys
      ensures Larger(old(maxStruct), old(maxStructSz)) && (t in old(structInfo) ==> structInfo == old(structInfo))
      decreases t, 2
    {
      hide Tables;
      AnalyzeStruct(t);
      TableEntry(structInfo, maxStruct, maxStructSz, t);
      sz := structInfo[t].sz;
    }

    method GetStructOff(t: Ty) returns (off: seq<nat>)
      requires Valid() && t.Struct? && NonEmpty(t)
      modifies this
      ensures Valid() && off == Offsets(t.fields) && old(structInfo.Keys) <= structInfo.Keys
      ensures Larger(old(maxStruct), old(maxStructSz)) && (t in old(structInfo) ==> structInfo == old(structInfo))
    {
      hide Tables;
      AnalyzeStruct(t);
      TableEntry(structInfo, maxStruct, maxStructSz, t);
      off := structInfo[t].off;
    }

    // The offset for the indices after the first one, which steps over whole objects.
    method ComputeGepOff(t: Ty, path: seq<nat>) returns (off: nat)
      requires Valid() && NonEmpty(t) && ValidPath(t, path)
      modifies this
      ensures Valid() && off == GepOff(t, path)
    {
      hide NonEmpty, FlatSize, FieldSizes, Tables;
      off := 0;
      var ty, i := t, 0;
      assert path[0..] == path;
      while i < |path|
        invariant i <= |path| && Valid() && NonEmpty(ty) && ValidPath(ty, path[i..])
        invariant GepOff(t, path) == off + GepOff(ty, path[i..])
        decreases |path| - i
      {
        var idx := path[i];
        assert path[i..][1..] == path[i + 1..] && path[i..][0] == idx;
        if ty.Struct? {
          var so := GetStructOff(ty);
          FieldsNonEmpty(ty);
          // Add the translated offset.
          off := off + so[idx];
          ty := ty.fields[idx];
        } else {
          // Skip array offsets.
          ElemNonEmpty(ty);
          ty := ty.elem;
        }
        i := i + 1;
      }
      assert path[|path|..] == [];
    }
  }

  lemma FieldsNonEmpty(t: Ty)
    requires t.Struct? && NonEmpty(t)
    ensures t.fields != [] && forall i :: 0 <= i < |t.fields| ==> NonEmpty(t.fields[i])
  {
  }

  lemma ElemNonEmpty(t: Ty)
    requires t.Array? && NonEmpty(t)
    ensures NonEmpty(t.elem)
  {
  }

  lemma NoFields(fs: seq<Ty>)
    ensures Sizes(fs[..0]) == [] && TotalSize(fs[..0]) == 0 && Offsets(fs[..0]) == []
  {
  }

  lemma OneMoreField(fs: seq<Ty>, i: nat)
    requires i < |fs|
    ensures Sizes(fs[..i + 1]) == Sizes(fs[..i]) + FieldSizes(fs[i])
    ensures TotalSize(fs[..i + 1]) == TotalSize(fs[..i]) + |FieldSizes(fs[i])|
    ensures Offsets(fs[..i + 1]) == Offsets(fs[..i]) + [TotalSize(fs[..i])]
  {
    assert fs[..i + 1][..i] == fs[..i];
    forall j | 0 <= j < i ensures fs[..i + 1][..j] == fs[..i][..j] {
    }
  }

  lemma KnownScalar(keys: set<Ty>)
    ensures Known(Scalar, keys)
  {
  }

  lemma ScalarField(t: Ty)
    requires t.Scalar?
    ensures FieldSizes(t) == [1]
  {
  }

  lemma TablesDone(t: Ty, sz: seq<nat>)
    requires t.Struct? && NonEmpty(t) && sz == Sizes(t.fields)
    ensures FlatSize(t) == TotalSize(t.fields) == |sz| > 0
    ensures Info(sz[0 := TotalSize(t.fields)], Offsets(t.fields)) == InfoOf(t.fields)
  {
    SizePositive(t);
  }
}
