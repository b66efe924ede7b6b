/** Field layouts: recursive sizes, alignments and offsets (FLManager). */
module Layouts {
  import opened Wrappers
  import opened Alignment

  const POINTER_SIZE := 8
  const MAX_ALIGN := 16

  /** Sizes of primitives; UNIT has none. */
  type PrimSize = n: nat | n == 0 || n == 1 || n == 2 || n == 4 || n == 8

  /** Types as far as layout distinguishes them. `Opt` is an option without a null representation,
      `Unknown` a type without a size. */
  datatype Ty =
    | Ref
    | Prim(bytes: PrimSize)
    | Unknown
    | Tuple(kids: seq<Ty>)
    | Record(kids: seq<Ty>)
    | Packed(kids: seq<Ty>)
    | Union(kids: seq<Ty>)
    | Opt(some: Ty)
    | VArray(elem: Ty, length: nat)

  function Kids(t: Ty): seq<Ty> {
    match t
    case Tuple(kids) => kids
    case Record(kids) => kids
    case Packed(kids) => kids
    case Union(kids) => kids
    case Opt(some) => [some]
    case _ => []
  }

  /** FieldLayout::SizeDesc; also the state of SizeAlignmentAccumulator. */
  datatype SizeDesc = SizeDesc(size: Option<nat>, alignment: nat)

  function Max(a: nat, b: nat): nat { if a < b then b else a }

  /** SizeAlignmentAccumulator::AddField for a field of size and alignment `f`. */
  function AddField(acc: SizeDesc, f: SizeDesc): SizeDesc {
    var size := if acc.size.Some? && f.size.Some? then Some(OffsetAfter(acc, f).value + f.size.value) else None;
    SizeDesc(size, Max(if f.size.None? then MAX_ALIGN else acc.alignment, f.alignment))
  }

  /** The offset that the field gets: present as long as the size so far is known. */
  function OffsetAfter(acc: SizeDesc, f: SizeDesc): (offset: Option<nat>)
    ensures offset.Some? <==> acc.size.Some?
  {
    if acc.size.None? then None
    else if f.alignment == 0 then acc.size
    else Some(AlignUp(acc.size.value, f.alignment))
  }

  /** An option starts with its flag byte. */
  function Start(t: Ty): SizeDesc {
    var empty := SizeDesc(Some(0), 1);
    if t.Opt? then AddField(empty, SizeDesc(Some(1), 1)) else empty
  }

  function Padded(acc: SizeDesc): SizeDesc {
    if acc.size.None? || acc.alignment == 0 then acc else acc.(size := Some(AlignUp(acc.size.value, acc.alignment)))
  }

  /** GetFlatSize and GetFlatAlignment. */
  function ShapeOf(t: Ty): SizeDesc
    decreases t, |Kids(t)| + 1
  {
    match t
    case Ref => SizeDesc(Some(POINTER_SIZE), POINTER_SIZE)
    case Prim(bytes) => SizeDesc(Some(bytes), Max(bytes, 1))
    case Unknown => SizeDesc(None, MAX_ALIGN)
    case Tuple(_) => Padded(Fold(t, |Kids(t)|))
    case Record(_) => Padded(Fold(t, |Kids(t)|))
    case Opt(_) => Padded(Fold(t, |Kids(t)|))
    case Packed(_) => SizeDesc(Fold(t, |Kids(t)|).size, 1)
    case Union(_) => var s := UnionSize(t, |Kids(t)|); SizeDesc(s, if s.Some? then 1 else MAX_ALIGN)
    case VArray(elem, length) =>
      var e := Padded(ShapeOf(elem));
      SizeDesc(if e.size.None? then None else Some(e.size.value * length), e.alignment)
  }

  /** The accumulator after the first `n` fields. */
  function Fold(t: Ty, n: nat): SizeDesc
    requires n <= |Kids(t)|
    decreases t, n
  {
    if n == 0 then Start(t) else AddField(Fold(t, n - 1), FieldShape(t, ShapeOf(Kids(t)[n - 1])))
  }

  /** Fields of a packed tuple are not aligned. */
  function FieldShape(t: Ty, s: SizeDesc): SizeDesc { if t.Packed? then s.(alignment := 1) else s }

  function UnionSize(t: Ty, n: nat): Option<nat>
    requires n <= |Kids(t)|
    decreases t, n
  {
    if n == 0 then Some(0) else
      var s := ShapeOf(Kids(t)[n - 1]).size;
      var r := UnionSize(t, n - 1);
      if s.None? || r.None? then None else Some(Max(r.value, s.value))
  }

  function KidShape(t: Ty, i: nat): SizeDesc
    requires i < |Kids(t)|
  {
    FieldShape(t, ShapeOf(Kids(t)[i]))
  }

  /** The offset of field `i`, absent after a field of unknown size. */
  function OffsetOf(t: Ty, i: nat): Option<nat>
    requires i < |Kids(t)|
  {
    OffsetAfter(Fold(t, i), KidShape(t, i))
  }

  predicate HasFields(t: Ty) { t.Tuple? || t.Record? || t.Packed? || t.Opt? }

  predicate Known(t: Ty) { ShapeOf(t).size.Some? }

  /** What a type is made of: an option has one field, its payload. */
  lemma KidsAre(t: Ty)
    ensures t.Tuple? ==> Kids(t) == t.kids
    ensures t.Record? ==> Kids(t) == t.kids
    ensures t.Packed? ==> Kids(t) == t.kids
    ensures t.Union? ==> Kids(t) == t.kids
    ensures t.Opt? ==> Kids(t) == [t.some]
  {
  }

  // ---- Alignments ----

  predicate IsAlign(a: nat) { a == 1 || a == 2 || a == 4 || a == 8 || a == 16 }

  predicate Aligned(x: nat, a: nat) { a > 0 && x % a == 0 }

  /** Alignments divide each other in order, and sizes that are known are not over-aligned. */
  ghost predicate ShapeOk(s: SizeDesc) {
    IsAlign(s.alignment) && (s.size.Some? ==> s.alignment <= 8)
  }

  lemma AlignDivides(a: nat, b: nat, x: nat)
    requires IsAlign(a) && IsAlign(b) && a <= b && x % b == 0
    ensures x % a == 0
  {
    var m, q := b / a, x / b;
    assert b == m * a;
    Product(x, q, m, a, b);
    MultipleMod(q * m, a);
  }

  lemma Product(x: nat, q: nat, m: nat, a: nat, b: nat)
    requires x == q * b && b == m * a
    ensures x == (q * m) * a
  {
  }

  lemma AddFieldOk(acc: SizeDesc, f: SizeDesc)
    requires ShapeOk(acc) && ShapeOk(f)
    ensures ShapeOk(AddField(acc, f)) && AddField(acc, f).alignment >= f.alignment
    ensures AddField(acc, f).alignment >= acc.alignment || AddField(acc, f).alignment == MAX_ALIGN
  {
    hide AlignUp;
  }

  lemma PaddedOk(s: SizeDesc)
    requires ShapeOk(s)
    ensures ShapeOk(Padded(s)) && Padded(s).alignment == s.alignment && (Padded(s).size.Some? <==> s.size.Some?)
    ensures s.size.Some? ==> Padded(s).size.value % s.alignment == 0 && s.size.value <= Padded(s).size.value
  {
    if s.size.Some? { AlignUpMeaning(s.size.value, s.alignment); }
    hide AlignUp;
  }

  /** Every type has a proper alignment, and a known size is a multiple of it. */
  lemma {:induction false} SizeIsAligned(t: Ty)
    ensures ShapeOk(ShapeOf(t))
    ensures Known(t) ==> Aligned(ShapeOf(t).size.value, ShapeOf(t).alignment)
    decreases t, |Kids(t)| + 1
  {
    hide AlignUp, Fold, AddField, Padded, UnionSize;
    match t
    case Ref =>
    case Prim(_) =>
    case Unknown =>
    case Tuple(_) => FoldOk(t, |Kids(t)|); PaddedOk(Fold(t, |Kids(t)|));
    case Record(_) => FoldOk(t, |Kids(t)|); PaddedOk(Fold(t, |Kids(t)|));
    case Opt(_) => FoldOk(t, |Kids(t)|); PaddedOk(Fold(t, |Kids(t)|));
    case Packed(_) =>
    case Union(_) =>
    case VArray(elem, length) =>
      SizeIsAligned(elem);
      PaddedOk(ShapeOf(elem));
      var e := Padded(ShapeOf(elem));
      if e.size.Some? { ProductMod(e.size.value, length, e.alignment); }
  }

  lemma ProductMod(x: nat, n: nat, a: nat)
    requires a > 0 && x % a == 0
    ensures (x * n) % a == 0
  {
    var q := x / a;
    assert x == q * a;
    assert x * n == (q * n) * a;
    MultipleMod(q * n, a);
  }

  lemma {:induction false} FoldOk(t: Ty, n: nat)
    requires n <= |Kids(t)| && !t.Packed?
    ensures ShapeOk(Fold(t, n))
    decreases t, n
  {
    hide AlignUp;
    if n > 0 {
      FoldOk(t, n - 1);
      SizeIsAligned(Kids(t)[n - 1]);
      hide AddField;
      AddFieldOk(Fold(t, n - 1), ShapeOf(Kids(t)[n - 1]));
    } else {
      StartOk(t);
    }
  }

  lemma StartOk(t: Ty)
    ensures ShapeOk(Start(t)) && Start(t).size == Some(if t.Opt? then 1 else 0) && Start(t).alignment == 1
  {
    AlignUpMeaning(0, 1);
  }

  // ---- Offsets ----

  /** A field has an offset exactly when all fields before it have a known size. */
  lemma {:induction false} OffsetPresent(t: Ty, i: nat)
    requires i <= |Kids(t)|
    ensures Fold(t, i).size.Some? <==> forall j :: 0 <= j < i ==> Known(Kids(t)[j])
    ensures i < |Kids(t)| ==> (OffsetOf(t, i).Some? <==> forall j :: 0 <= j < i ==> Known(Kids(t)[j]))
  {
    hide AlignUp;
    if i == 0 { StartOk(t); } else { OffsetPresent(t, i - 1); }
  }

  /** A field's offset depends on the fields before it and its own type only. */
  lemma {:induction false} OffsetsStable(t: Ty, u: Ty, i: nat)
    requires i <= |Kids(t)| && i <= |Kids(u)| && (t.Opt? <==> u.Opt?) && (t.Packed? <==> u.Packed?)
    requires Kids(t)[..i] == Kids(u)[..i]
    ensures Fold(t, i) == Fold(u, i)
    ensures i < |Kids(t)| && i < |Kids(u)| && Kids(t)[i] == Kids(u)[i] ==> OffsetOf(t, i) == OffsetOf(u, i)
  {
    hide AddField, ShapeOf;
    if i > 0 {
      assert Kids(t)[..i][..i - 1] == Kids(t)[..i - 1] && Kids(u)[..i][..i - 1] == Kids(u)[..i - 1];
      assert Kids(t)[..i][i - 1] == Kids(u)[..i][i - 1];
      OffsetsStable(t, u, i - 1);
    }
  }

  /** Where a field ends is where the accumulator goes on. */
  lemma FieldEnds(t: Ty, i: nat)
    requires i < |Kids(t)| && Fold(t, i + 1).size.Some?
    ensures OffsetOf(t, i).Some? && Known(Kids(t)[i]) && Fold(t, i).size.Some?
    ensures OffsetOf(t, i).value + ShapeOf(Kids(t)[i]).size.value == Fold(t, i + 1).size.value
    ensures Fold(t, i).size.value <= OffsetOf(t, i).value && Aligned(OffsetOf(t, i).value, KidShape(t, i).alignment)
  {
    hide AlignUp;
    SizeIsAligned(Kids(t)[i]);
    AlignUpMeaning(Fold(t, i).size.value, KidShape(t, i).alignment);
  }

  lemma {:induction false} FoldGrows(t: Ty, i: nat, n: nat)
    requires i <= n <= |Kids(t)| && Fold(t, n).size.Some?
    ensures Fold(t, i).size.Some? && Fold(t, i).size.value <= Fold(t, n).size.value
    decreases n
  {
    hide AddField, OffsetOf, ShapeOf;
    if i < n {
      FieldEnds(t, n - 1);
      FoldGrows(t, i, n - 1);
    }
  }

  lemma TotalSize(t: Ty)
    requires HasFields(t) && Known(t)
    ensures Fold(t, |Kids(t)|).size.Some? && Fold(t, |Kids(t)|).size.value <= ShapeOf(t).size.value
    ensures !t.Packed? ==> ShapeOf(t).alignment == Fold(t, |Kids(t)|).alignment
  {
    hide AlignUp, Fold;
    if !t.Packed? {
      FoldOk(t, |Kids(t)|);
      PaddedOk(Fold(t, |Kids(t)|));
    }
  }

  /** In a type of known size, fields are in order and disjoint, each at an offset of its own
      alignment, and inside the size. */
  lemma FieldsPlaced(t: Ty, i: nat, j: nat)
    requires HasFields(t) && Known(t) && i < j <= |Kids(t)|
    ensures OffsetOf(t, i).Some? && Known(Kids(t)[i])
    ensures Aligned(OffsetOf(t, i).value, KidShape(t, i).alignment)
    ensures var end := OffsetOf(t, i).value + ShapeOf(Kids(t)[i]).size.value;
            if j < |Kids(t)| then OffsetOf(t, j).Some? && end <= OffsetOf(t, j).value else end <= ShapeOf(t).size.value
  {
    hide AddField, Fold, OffsetOf, ShapeOf;
    TotalSize(t);
    FoldGrows(t, i + 1, |Kids(t)|);
    FieldEnds(t, i);
    if j < |Kids(t)| {
      FoldGrows(t, j + 1, |Kids(t)|);
      FieldEnds(t, j);
      FoldGrows(t, i + 1, j);
    }
  }

  /** The same as far as offsets are present, in a type of unknown size too. */
  lemma PresentPlaced(t: Ty, i: nat, j: nat)
    requires i < j < |Kids(t)| && OffsetOf(t, j).Some?
    ensures OffsetOf(t, i).Some? && Known(Kids(t)[i])
    ensures Aligned(OffsetOf(t, i).value, KidShape(t, i).alignment)
    ensures Aligned(OffsetOf(t, j).value, KidShape(t, j).alignment)
    ensures OffsetOf(t, i).value + ShapeOf(Kids(t)[i]).size.value <= OffsetOf(t, j).value
  {
    hide AddField, Fold, ShapeOf, AlignUp;
    FoldGrows(t, i + 1, j);
    FieldEnds(t, i);
    SizeIsAligned(Kids(t)[j]);
    AlignUpMeaning(Fold(t, j).size.value, KidShape(t, j).alignment);
  }

  lemma {:induction false} FoldAlign(t: Ty, i: nat, n: nat)
    requires i < n <= |Kids(t)| && !t.Packed?
    ensures Fold(t, n).alignment >= ShapeOf(Kids(t)[i]).alignment
    decreases n
  {
    hide AddField;
    FoldOk(t, n - 1);
    SizeIsAligned(Kids(t)[n - 1]);
    AddFieldOk(Fold(t, n - 1), ShapeOf(Kids(t)[n - 1]));
    if i < n - 1 { FoldAlign(t, i, n - 1); }
    SizeIsAligned(Kids(t)[i]);
  }

  /** ... and an alignment that no field asks for is not imposed. */
  lemma {:induction false} FoldAttained(t: Ty, n: nat)
    requires n <= |Kids(t)| && !t.Packed? && Fold(t, n).size.Some?
    ensures Fold(t, n).alignment == 1 || exists i :: 0 <= i < n && Fold(t, n).alignment == ShapeOf(Kids(t)[i]).alignment
    decreases n
  {
    hide ShapeOf, AlignUp;
    StartOk(t);
    if n > 0 {
      FieldEnds(t, n - 1);
      FoldAttained(t, n - 1);
      if Fold(t, n).alignment != 1 && Fold(t, n).alignment != ShapeOf(Kids(t)[n - 1]).alignment {
        var i :| 0 <= i < n - 1 && Fold(t, n - 1).alignment == ShapeOf(Kids(t)[i]).alignment;
      }
    }
  }

  lemma AlignmentAttained(t: Ty)
    requires HasFields(t) && Known(t)
    ensures ShapeOf(t).alignment == 1 ||
            exists i :: 0 <= i < |Kids(t)| && ShapeOf(t).alignment == ShapeOf(Kids(t)[i]).alignment
  {
    TotalSize(t);
    if !t.Packed? {
      FoldAttained(t, |Kids(t)|);
      hide ShapeOf, Fold;
    }
  }

  /** The alignment of every field divides that of the whole: placed at a multiple of its own
      alignment, the type has all its fields aligned. */
  lemma FieldsAligned(t: Ty, i: nat, base: nat)
    requires HasFields(t) && Known(t) && !t.Packed? && i < |Kids(t)| && Aligned(base, ShapeOf(t).alignment)
    ensures OffsetOf(t, i).Some? && Aligned(base + OffsetOf(t, i).value, ShapeOf(Kids(t)[i]).alignment)
  {
    hide AddField, Fold, OffsetOf, ShapeOf;
    FieldsPlaced(t, i, i + 1);
    TotalSize(t);
    FoldAlign(t, i, |Kids(t)|);
    SizeIsAligned(t);
    SizeIsAligned(Kids(t)[i]);
    AlignDivides(ShapeOf(Kids(t)[i]).alignment, ShapeOf(t).alignment, base);
    SumMod(base, OffsetOf(t, i).value, ShapeOf(Kids(t)[i]).alignment);
  }

  lemma SumMod(x: nat, y: nat, a: nat)
    requires a > 0 && x % a == 0 && y % a == 0
    ensures (x + y) % a == 0
  {
    assert x == (x / a) * a && y == (y / a) * a;
    assert x + y == (x / a + y / a) * a;
    MultipleMod(x / a + y / a, a);
  }

  /** Padding is never more than alignment needs: a field starts less than its alignment behind the end of
      the one before it, and the size ends less than the type's alignment behind the last field. */
  lemma NoWaste(t: Ty, i: nat)
    requires HasFields(t) && Known(t) && i < |Kids(t)|
    ensures OffsetOf(t, i).Some? && Known(Kids(t)[i])
    ensures var end := if i == 0 then (if t.Opt? then 1 else 0)
                       else OffsetOf(t, i - 1).value + ShapeOf(Kids(t)[i - 1]).size.value;
            end <= OffsetOf(t, i).value < end + KidShape(t, i).alignment
    ensures i == |Kids(t)| - 1 ==>
              ShapeOf(t).size.value < OffsetOf(t, i).value + ShapeOf(Kids(t)[i]).size.value + ShapeOf(t).alignment
  {
    hide AddField, OffsetOf, ShapeOf, AlignUp, Fold, Start;
    TotalSize(t);
    FoldGrows(t, i + 1, |Kids(t)|);
    FieldEnds(t, i);
    OffsetTight(t, i);
    FoldStarts(t);
    if i == 0 { StartOk(t); } else { FieldEnds(t, i - 1); }
    if i == |Kids(t)| - 1 { TotalTight(t); }
  }

  lemma FoldStarts(t: Ty)
    ensures Fold(t, 0) == Start(t)
  {
  }

  lemma OffsetTight(t: Ty, i: nat)
    requires i < |Kids(t)| && Fold(t, i).size.Some?
    ensures OffsetOf(t, i).value < Fold(t, i).size.value + KidShape(t, i).alignment
  {
    SizeIsAligned(Kids(t)[i]);
    AlignUpMeaning(Fold(t, i).size.value, KidShape(t, i).alignment);
    hide AlignUp, ShapeOf, Fold;
  }

  lemma TotalTight(t: Ty)
    requires HasFields(t) && Known(t)
    ensures Fold(t, |Kids(t)|).size.Some?
    ensures ShapeOf(t).size.value < Fold(t, |Kids(t)|).size.value + ShapeOf(t).alignment
  {
    TotalSize(t);
    SizeIsAligned(t);
    if !t.Packed? {
      FoldOk(t, |Kids(t)|);
      AlignUpMeaning(Fold(t, |Kids(t)|).size.value, Fold(t, |Kids(t)|).alignment);
    }
    hide AlignUp, Fold;
  }

  /** A packed tuple has no padding at all: each field starts where the one before it ends, whatever its alignment. */
  lemma PackedTight(t: Ty, i: nat)
    requires t.Packed? && i < |Kids(t)| && OffsetOf(t, i).Some?
    ensures ShapeOf(t).alignment == 1
    ensures i == 0 ==> OffsetOf(t, i) == Some(0)
    ensures i > 0 ==>
              && OffsetOf(t, i - 1).Some? && Known(Kids(t)[i - 1])
              && OffsetOf(t, i).value == OffsetOf(t, i - 1).value + ShapeOf(Kids(t)[i - 1]).size.value
    ensures i == |Kids(t)| - 1 && Known(Kids(t)[i]) ==>
              ShapeOf(t).size == Some(OffsetOf(t, i).value + ShapeOf(Kids(t)[i]).size.value)
  {
    PackedOffset(t, i);
    if i > 0 {
      PackedOffset(t, i - 1);
      PresentPlaced(t, i - 1, i);
    } else {
      StartOk(t);
    }
    hide AlignUp, OffsetOf;
  }

  lemma PackedOffset(t: Ty, i: nat)
    requires t.Packed? && i < |Kids(t)|
    ensures OffsetOf(t, i) == Fold(t, i).size
    ensures Fold(t, i + 1).size == if Fold(t, i).size.Some? && Known(Kids(t)[i])
                                   then Some(Fold(t, i).size.value + ShapeOf(Kids(t)[i]).size.value) else None
  {
    if Fold(t, i).size.Some? { AlignUpMeaning(Fold(t, i).size.value, 1); }
    hide AlignUp, ShapeOf;
  }

  /** A type with a field of unknown size has no size and the greatest alignment, unless it is packed. */
  lemma UnknownField(t: Ty, i: nat)
    requires HasFields(t) && i < |Kids(t)| && !Known(Kids(t)[i])
    ensures !Known(t) && (!t.Packed? ==> ShapeOf(t).alignment == MAX_ALIGN)
  {
    FoldUnknown(t, i, |Kids(t)|);
    hide AlignUp, Fold;
  }

  lemma {:induction false} FoldUnknown(t: Ty, i: nat, n: nat)
    requires i < n <= |Kids(t)| && !Known(Kids(t)[i])
    ensures Fold(t, n).size.None? && (!t.Packed? ==> Fold(t, n).alignment == MAX_ALIGN)
    decreases n
  {
    hide AlignUp;
    SizeIsAligned(Kids(t)[n - 1]);
    if !t.Packed? { FoldOk(t, n - 1); }
    if i < n - 1 { FoldUnknown(t, i, n - 1); }
  }

  /** A union is as big as its biggest member, and packed; without a size for every member it has none. */
  lemma {:induction false} UnionUpTo(t: Ty, n: nat)
    requires n <= |Kids(t)|
    ensures UnionSize(t, n).Some? <==> forall i :: 0 <= i < n ==> Known(Kids(t)[i])
    ensures UnionSize(t, n).Some? ==>
              && (forall i :: 0 <= i < n ==> ShapeOf(Kids(t)[i]).size.value <= UnionSize(t, n).value)
              && (if n == 0 then UnionSize(t, n).value == 0
                  else exists i :: 0 <= i < n && ShapeOf(Kids(t)[i]).size.value == UnionSize(t, n).value)
    decreases n
  {
    hide ShapeOf;
    if n > 0 {
      UnionUpTo(t, n - 1);
      if UnionSize(t, n).Some? && ShapeOf(Kids(t)[n - 1]).size.value < UnionSize(t, n).value && n > 1 {
        var i :| 0 <= i < n - 1 && ShapeOf(Kids(t)[i]).size.value == UnionSize(t, n - 1).value;
        assert ShapeOf(Kids(t)[i]).size.value == UnionSize(t, n).value;
      }
    }
  }

  lemma UnionMeaning(t: Ty)
    requires t.Union?
    ensures Known(t) <==> forall i :: 0 <= i < |t.kids| ==> Known(t.kids[i])
    ensures Known(t) ==>
              && ShapeOf(t).alignment == 1
              && (forall i :: 0 <= i < |t.kids| ==> ShapeOf(t.kids[i]).size.value <= ShapeOf(t).size.value)
              && (t.kids == [] ==> ShapeOf(t).size.value == 0)
              && (t.kids != [] ==>
                    exists i :: 0 <= i < |t.kids| && ShapeOf(t.kids[i]).size.value == ShapeOf(t).size.value)
    ensures !Known(t) ==> ShapeOf(t).alignment == 16
  {
    UnionUpTo(t, |t.kids|);
    hide UnionSize;
  }

  // ---- Classes ----

  /** A class with its chain of superclasses; the root has no fields of its own. */
  datatype Class = Root | Sub(super: Class, fields: seq<Ty>)

  datatype Layout = Layout(offsets: seq<Option<nat>>, desc: SizeDesc)

  /** BuildLayoutCbc: the superclass's layout goes on with the class's own fields. */
  function ClassLayout(c: Class): Layout {
    match c
    case Root => Layout([], SizeDesc(Some(0), POINTER_SIZE))
    case Sub(super, fields) =>
      var l := Extend(ClassLayout(super), fields, |fields|);
      l.(desc := Padded(l.desc))
  }

  function Extend(l: Layout, fields: seq<Ty>, n: nat): Layout
    requires n <= |fields|
  {
    if n == 0 then l else
      Extended(Extend(l, fields, n - 1), ShapeOf(fields[n - 1]))
  }

  /** One field more. */
  function Extended(l: Layout, s: SizeDesc): Layout {
    Layout(l.offsets + [OffsetAfter(l.desc, s)], AddField(l.desc, s))
  }

  function FieldsOf(c: Class): seq<Ty> { if c.Root? then [] else FieldsOf(c.super) + c.fields }

  predicate AllKnown(fields: seq<Ty>, n: nat)
    requires n <= |fields|
  {
    forall j :: 0 <= j < n ==> Known(fields[j])
  }

  /** A field has an offset exactly when all fields before it have a known size, and the whole has a size
      exactly when all fields have. */
  ghost predicate PresentOk(fields: seq<Ty>, l: Layout) {
    && |l.offsets| == |fields|
    && (forall i :: 0 <= i < |fields| ==> (l.offsets[i].Some? <==> AllKnown(fields, i)))
    && (l.desc.size.Some? <==> AllKnown(fields, |fields|))
  }

  /** Field `i` is present, of known size, and ends at `bound` or before. */
  predicate EndsBy(fields: seq<Ty>, offsets: seq<Option<nat>>, i: nat, bound: nat)
    requires i < |fields| == |offsets|
  {
    offsets[i].Some? && Known(fields[i]) && offsets[i].value + ShapeOf(fields[i]).size.value <= bound
  }

  /** Whatever has an offset is aligned and behind all fields before it; a size covers all fields. */
  ghost predicate PlacedOk(fields: seq<Ty>, l: Layout) {
    && |l.offsets| == |fields|
    && (forall i :: 0 <= i < |fields| && l.offsets[i].Some? ==>
          Aligned(l.offsets[i].value, ShapeOf(fields[i]).alignment))
    && (forall i, j :: 0 <= i < j < |fields| && l.offsets[j].Some? ==>
          EndsBy(fields, l.offsets, i, l.offsets[j].value))
    && (l.desc.size.Some? ==>
          forall i :: 0 <= i < |fields| ==> EndsBy(fields, l.offsets, i, l.desc.size.value))
  }

  /** The alignment is at least a pointer's and that of every field, and the greatest without a size. */
  ghost predicate AlignmentOk(fields: seq<Ty>, desc: SizeDesc) {
    && ShapeOk(desc) && POINTER_SIZE <= desc.alignment
    && (forall i :: 0 <= i < |fields| ==> ShapeOf(fields[i]).alignment <= desc.alignment)
    && (desc.size.None? ==> desc.alignment == MAX_ALIGN)
  }

  ghost predicate LayoutOk(fields: seq<Ty>, l: Layout) {
    PresentOk(fields, l) && PlacedOk(fields, l) && AlignmentOk(fields, l.desc)
  }

  lemma PresentStep(fields: seq<Ty>, l: Layout, f: Ty)
    requires PresentOk(fields, l)
    ensures PresentOk(fields + [f], Extended(l, ShapeOf(f)))
  {
    hide AlignUp, ShapeOf;
    var fs, l' := fields + [f], Extended(l, ShapeOf(f));
    assert fs[|fields|] == f;
    forall i | 0 <= i <= |fields| ensures AllKnown(fs, i) <==> AllKnown(fields, i) {
      assert forall j :: 0 <= j < i ==> fs[j] == fields[j];
    }
    assert AllKnown(fs, |fs|) <==> AllKnown(fs, |fields|) && Known(f);
  }

  lemma PlacedStep(fields: seq<Ty>, l: Layout, f: Ty)
    requires PlacedOk(fields, l)
    ensures PlacedOk(fields + [f], Extended(l, ShapeOf(f)))
  {
    var s, fs, l' := ShapeOf(f), fields + [f], Extended(l, ShapeOf(f));
    SizeIsAligned(f);
    if l.desc.size.Some? { AlignUpMeaning(l.desc.size.value, s.alignment); }
    hide AlignUp, ShapeOf;
    assert fs[|fields|] == f;
    forall i, bound: nat, more: nat | 0 <= i < |fields| && bound <= more && EndsBy(fields, l.offsets, i, bound)
      ensures EndsBy(fs, l'.offsets, i, more) {
      assert fs[i] == fields[i] && l'.offsets[i] == l.offsets[i];
    }
    forall i | 0 <= i < |fs| && l'.offsets[i].Some? ensures Aligned(l'.offsets[i].value, ShapeOf(fs[i]).alignment) {
      if i < |fields| { assert fs[i] == fields[i] && l'.offsets[i] == l.offsets[i]; }
    }
    forall i, j | 0 <= i < j < |fs| && l'.offsets[j].Some? ensures EndsBy(fs, l'.offsets, i, l'.offsets[j].value) {
      if j < |fields| {
        assert EndsBy(fields, l.offsets, i, l.offsets[j].value);
      } else {
        assert EndsBy(fields, l.offsets, i, l.desc.size.value);
      }
    }
    if l'.desc.size.Some? {
      forall i | 0 <= i < |fs| ensures EndsBy(fs, l'.offsets, i, l'.desc.size.value) {
        if i < |fields| { assert EndsBy(fields, l.offsets, i, l.desc.size.value); }
      }
    }
  }

  lemma AlignmentStep(fields: seq<Ty>, desc: SizeDesc, f: Ty)
    requires AlignmentOk(fields, desc)
    ensures AlignmentOk(fields + [f], AddField(desc, ShapeOf(f)))
  {
    hide AlignUp, ShapeOf;
    SizeIsAligned(f);
    AddFieldOk(desc, ShapeOf(f));
  }

  lemma ExtendStep(fields: seq<Ty>, l: Layout, f: Ty)
    requires LayoutOk(fields, l)
    ensures LayoutOk(fields + [f], Extended(l, ShapeOf(f))) && l.offsets <= Extended(l, ShapeOf(f)).offsets
  {
    hide PresentOk, PlacedOk, AlignmentOk, ShapeOf, AddField, OffsetAfter;
    PresentStep(fields, l, f);
    PlacedStep(fields, l, f);
    AlignmentStep(fields, l.desc, f);
  }

  lemma {:induction false} ExtendOk(inherited: seq<Ty>, l: Layout, fields: seq<Ty>, n: nat)
    requires n <= |fields| && LayoutOk(inherited, l)
    ensures LayoutOk(inherited + fields[..n], Extend(l, fields, n)) && l.offsets <= Extend(l, fields, n).offsets
  {
    hide LayoutOk, ShapeOf, Extended;
    if n == 0 {
      assert inherited + fields[..0] == inherited;
    } else {
      ExtendOk(inherited, l, fields, n - 1);
      ExtendStep(inherited + fields[..n - 1], Extend(l, fields, n - 1), fields[n - 1]);
      assert inherited + fields[..n] == inherited + fields[..n - 1] + [fields[n - 1]];
    }
  }

  /** Every class layout is in order: an offset is present exactly when all fields before it, inherited ones
      included, have a known size, and then it is aligned and behind all of them; the same for the size, which
      is a multiple of the alignment. A subclass keeps every inherited offset. */
  lemma {:induction false} ClassLayoutOk(c: Class)
    ensures LayoutOk(FieldsOf(c), ClassLayout(c))
    ensures var desc := ClassLayout(c).desc; desc.size.Some? ==> Aligned(desc.size.value, desc.alignment)
    ensures c.Sub? ==> ClassLayout(c.super).offsets <= ClassLayout(c).offsets
  {
    if c.Sub? {
      hide LayoutOk, Padded;
      ClassLayoutOk(c.super);
      ExtendOk(FieldsOf(c.super), ClassLayout(c.super), c.fields, |c.fields|);
      assert c.fields[..|c.fields|] == c.fields;
      PaddedKeeps(FieldsOf(c), Extend(ClassLayout(c.super), c.fields, |c.fields|));
    }
  }

  lemma PaddedKeeps(fields: seq<Ty>, l: Layout)
    requires LayoutOk(fields, l)
    ensures LayoutOk(fields, l.(desc := Padded(l.desc)))
    ensures l.desc.size.Some? <==> Padded(l.desc).size.Some?
    ensures l.desc.size.Some? ==> Aligned(Padded(l.desc).size.value, Padded(l.desc).alignment)
  {
    PaddedOk(l.desc);
    hide Padded, ShapeOf;
    if l.desc.size.Some? {
      forall i | 0 <= i < |fields| ensures EndsBy(fields, l.offsets, i, Padded(l.desc).size.value) {
        assert EndsBy(fields, l.offsets, i, l.desc.size.value);
      }
    }
  }

  /** An object at a multiple of its class's alignment has every field that has an offset aligned. */
  lemma ClassFieldsAligned(c: Class, i: nat, base: nat)
    requires i < |FieldsOf(c)| && Aligned(base, ClassLayout(c).desc.alignment)
    ensures var l := ClassLayout(c);
            && |l.offsets| == |FieldsOf(c)|
            && (l.offsets[i].Some? ==> Aligned(base + l.offsets[i].value, ShapeOf(FieldsOf(c)[i]).alignment))
  {
    hide ShapeOf, ClassLayout, PresentOk, Known;
    ClassLayoutOk(c);
    var l, a := ClassLayout(c), ShapeOf(FieldsOf(c)[i]).alignment;
    SizeIsAligned(FieldsOf(c)[i]);
    if l.offsets[i].Some? {
      AlignDivides(a, l.desc.alignment, base);
      SumMod(base, l.offsets[i].value, a);
    }
  }

  /** Classes with the same superclass and the same first `n` fields agree on the offsets of all these and of the
      inherited fields, and on the next one if it has the same type: fields behind never move a field. */
  lemma {:induction false} ClassOffsetsStable(super: Class, f: seq<Ty>, g: seq<Ty>, n: nat)
    requires n <= |f| && n <= |g| && f[..n] == g[..n]
    ensures var k, l, m := |FieldsOf(super)| + n, ClassLayout(Sub(super, f)), ClassLayout(Sub(super, g));
            && |l.offsets| == |FieldsOf(super)| + |f| && |m.offsets| == |FieldsOf(super)| + |g|
            && l.offsets[..k] == m.offsets[..k]
            && (n < |f| && n < |g| && f[n] == g[n] ==> l.offsets[k] == m.offsets[k])
  {
    hide AddField, ShapeOf, LayoutOk, Padded, OffsetAfter;
    var b := ClassLayout(super);
    ClassLengths(super);
    ExtendStable(b, f, g, n);
    ExtendPrefix(b, f, n, |f|);
    ExtendPrefix(b, g, n, |g|);
    if n < |f| && n < |g| && f[n] == g[n] {
      ExtendPrefix(b, f, n + 1, |f|);
      ExtendPrefix(b, g, n + 1, |g|);
    }
  }

  /** Objects begin with their first field, and no field of a class starts later than its alignment needs: behind the
      superclass's layout, or behind the field before it. Nor does the class end later than its alignment needs. */
  lemma ClassTight(super: Class, fields: seq<Ty>, i: nat)
    requires i < |fields|
    ensures ClassLayout(Root) == Layout([], SizeDesc(Some(0), 8))
    ensures var l, k := ClassLayout(Sub(super, fields)), |FieldsOf(super)| + i;
            && |l.offsets| == |FieldsOf(super)| + |fields|
            && (l.offsets[k].Some? ==>
                  && (i == 0 ==> ClassLayout(super).desc.size.Some?)
                  && (i > 0 ==> l.offsets[k - 1].Some? && Known(fields[i - 1]))
                  && var end := if i == 0 then ClassLayout(super).desc.size.value
                                else l.offsets[k - 1].value + ShapeOf(fields[i - 1]).size.value;
                     end <= l.offsets[k].value < end + ShapeOf(fields[i]).alignment)
            && (i == |fields| - 1 && l.desc.size.Some? ==>
                  && l.offsets[k].Some? && Known(fields[i])
                  && l.desc.size.value < l.offsets[k].value + ShapeOf(fields[i]).size.value + l.desc.alignment)
  {
    hide ShapeOf, AlignUp, LayoutOk, Padded, Extend, AddField, OffsetAfter, FieldsOf;
    var b, k := ClassLayout(super), |FieldsOf(super)| + i;
    ClassLengths(super);
    ExtendPrefix(b, fields, i, |fields|);
    ExtendPrefix(b, fields, i + 1, |fields|);
    ExtendTight(b, fields, i);
    ExtendNone(b, fields);
    if i > 0 { ExtendTight(b, fields, i - 1); }
    if i == |fields| - 1 {
      ClassLayoutOk(super);
      EndTight(FieldsOf(super), b, fields);
    }
  }

  lemma ExtendNone(b: Layout, fields: seq<Ty>)
    ensures Extend(b, fields, 0) == b
  {
  }

  lemma ExtendTight(b: Layout, fields: seq<Ty>, i: nat)
    requires i < |fields|
    ensures var m, e, s := Extend(b, fields, i), Extend(b, fields, i + 1), ShapeOf(fields[i]);
            && |e.offsets| == |m.offsets| + 1
            && (e.offsets[|m.offsets|].Some? <==> m.desc.size.Some?)
            && (m.desc.size.Some? ==>
                  m.desc.size.value <= e.offsets[|m.offsets|].value < m.desc.size.value + s.alignment)
            && (e.desc.size.Some? <==> m.desc.size.Some? && s.size.Some?)
            && (e.desc.size.Some? ==> e.desc.size.value == e.offsets[|m.offsets|].value + s.size.value)
  {
    var m, s := Extend(b, fields, i), ShapeOf(fields[i]);
    SizeIsAligned(fields[i]);
    if m.desc.size.Some? { AlignUpMeaning(m.desc.size.value, s.alignment); }
    hide AlignUp, ShapeOf;
  }

  lemma EndTight(inherited: seq<Ty>, b: Layout, fields: seq<Ty>)
    requires LayoutOk(inherited, b)
    ensures var e := Extend(b, fields, |fields|).desc;
            && (Padded(e).size.Some? <==> e.size.Some?) && Padded(e).alignment == e.alignment
            && (e.size.Some? ==> Padded(e).size.value < e.size.value + e.alignment)
  {
    ExtendOk(inherited, b, fields, |fields|);
    var e := Extend(b, fields, |fields|).desc;
    hide Extend, PresentOk, PlacedOk;
    PaddedOk(e);
    if e.size.Some? { AlignUpMeaning(e.size.value, e.alignment); }
    hide AlignUp;
  }

  lemma ClassLengths(c: Class)
    ensures |ClassLayout(c).offsets| == |FieldsOf(c)|
  {
    ClassLayoutOk(c);
    hide ClassLayout;
  }

  lemma {:induction false} ExtendStable(b: Layout, f: seq<Ty>, g: seq<Ty>, n: nat)
    requires n <= |f| && n <= |g| && f[..n] == g[..n]
    ensures Extend(b, f, n) == Extend(b, g, n)
  {
    hide AddField, ShapeOf;
    if n > 0 {
      assert f[..n][..n - 1] == f[..n - 1] && g[..n][..n - 1] == g[..n - 1];
      assert f[..n][n - 1] == g[..n][n - 1];
      ExtendStable(b, f, g, n - 1);
    }
  }

  lemma {:induction false} ExtendPrefix(b: Layout, f: seq<Ty>, n: nat, m: nat)
    requires n <= m <= |f|
    ensures |Extend(b, f, n).offsets| == |b.offsets| + n && Extend(b, f, n).offsets <= Extend(b, f, m).offsets
    ensures |Extend(b, f, m).offsets| == |b.offsets| + m
    decreases m
  {
    hide AddField, ShapeOf;
    if n < m { ExtendPrefix(b, f, n, m - 1); } else if 0 < n { ExtendPrefix(b, f, n - 1, n - 1); }
  }

  // ---- The accumulator object ----

  class SizeAlignmentAccumulator {
    var size: Option<nat>
    var alignment: nat

    ghost function Desc(): SizeDesc
      reads this
    {
      SizeDesc(size, alignment)
    }

    constructor (size: Option<nat>, alignment: nat)
      ensures Desc() == SizeDesc(size, alignment)
    {
      this.size, this.alignment := size, alignment;
    }

    method Add(fieldSize: Option<nat>, fieldAlignment: nat) returns (offset: Option<nat>)
      requires fieldAlignment > 0
      modifies this
      ensures Desc() == AddField(old(Desc()), SizeDesc(fieldSize, fieldAlignment))
      ensures offset == OffsetAfter(old(Desc()), SizeDesc(fieldSize, fieldAlignment))
    {
      offset := None;
      if size.Some? {
        var offs := AlignUp(size.value, fieldAlignment);
        size, offset := Some(offs), Some(offs);
        if fieldSize.Some? { size := Some(offs + fieldSize.value); }
      }
      if fieldSize.None? {
        size, alignment := None, MAX_ALIGN;
      }
      alignment := Max(alignment, fieldAlignment);
    }
  }

  /** BuildLayout of a tuple, a packed tuple or an option: one loop over the fields. */
  method BuildLayout(t: Ty) returns (layout: Layout)
    requires HasFields(t)
    ensures layout.desc == ShapeOf(t) && |layout.offsets| == |Kids(t)|
    ensures forall i :: 0 <= i < |Kids(t)| ==> layout.offsets[i] == OffsetOf(t, i)
  {
    hide AddField, OffsetAfter, Padded;
    var acc := new SizeAlignmentAccumulator(Some(0), 1);
    if t.Opt? { var flag := acc.Add(Some(1), 1); }
    var offsets: seq<Option<nat>> := [];
    for i := 0 to |Kids(t)|
      invariant acc.Desc() == Fold(t, i) && |offsets| == i
      invariant forall k :: 0 <= k < i ==> offsets[k] == OffsetOf(t, k)
    {
      var s := KidShape(t, i);
      SizeIsAligned(Kids(t)[i]);
      var offset := acc.Add(s.size, s.alignment);
      offsets := offsets + [offset];
    }
    if t.Packed? {
      layout := Layout(offsets, SizeDesc(acc.size, 1));
    } else {
      layout := Layout(offsets, Padded(SizeDesc(acc.size, acc.alignment)));
    }
  }

  /** BuildLayoutCbc of a class: the accumulator starts from the superclass's layout. */
  method BuildLayoutCbc(c: Class) returns (layout: Layout)
    ensures layout == ClassLayout(c)
  {
    hide AddField, OffsetAfter, Padded;
    if c.Root? { return Layout([], SizeDesc(Some(0), POINTER_SIZE)); }
    var base := BuildLayoutCbc(c.super);
    var acc := new SizeAlignmentAccumulator(base.desc.size, base.desc.alignment);
    var offsets := base.offsets;
    for i := 0 to |c.fields|
      invariant Layout(offsets, acc.Desc()) == Extend(base, c.fields, i)
    {
      var s := ShapeOf(c.fields[i]);
      SizeIsAligned(c.fields[i]);
      var offset := acc.Add(s.size, s.alignment);
      offsets := offsets + [offset];
    }
    layout := Layout(offsets, Padded(SizeDesc(acc.size, acc.alignment)));
  }
}
