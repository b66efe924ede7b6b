/** The leaves of a value, primitives and references, whatever tuples, records, options and arrays they are
    nested in: each lies inside the value, at a multiple of its own size. */
module LayoutLeaves {
  import opened Wrappers
  import opened Alignment
  import opened Layouts
  import opened LayoutRefs

  // ---- Scalars ----

  /** A primitive of `w` bytes, or a reference. */
  predicate IsScalar(t: Ty, w: nat) { (t.Prim? && t.bytes == w) || (t.Ref? && w == 8) }

  function ScalarAlign(w: nat): nat { if w == 0 then 1 else w }

  lemma ScalarShape(t: Ty, w: nat)
    requires IsScalar(t, w)
    ensures ShapeOf(t) == SizeDesc(Some(w), ScalarAlign(w))
  {
  }

  lemma ScalarPadded(t: Ty, w: nat)
    requires IsScalar(t, w)
    ensures Padded(ShapeOf(t)) == ShapeOf(t) && Stride(t) == w
  {
    ScalarShape(t, w);
    hide ShapeOf, Padded;
    ScalarStays(w);
  }

  lemma ScalarStays(w: nat)
    ensures Padded(SizeDesc(Some(w), ScalarAlign(w))) == SizeDesc(Some(w), ScalarAlign(w))
  {
    if w > 0 { SelfAligned(w); }
    hide AlignDown;
    if w == 0 { NothingAligned(); }
  }

  lemma NothingAligned()
    ensures AlignUp(0, 1) == 0
  {
  }

  lemma SelfAligned(a: nat)
    requires a > 0
    ensures AlignUp(a, a) == a
  {
    DivUnique(2 * a - 1, a, 1, a - 1);
  }

  // ---- Leaves, described by themselves ----

  /** A primitive of `w` bytes, or a reference, sits at offset `o` of a value of type `t`. With `packed`, packed
      tuples and unions may be on the way to it. */
  ghost predicate HasLeafAt(t: Ty, w: nat, o: int, packed: bool)
    decreases t, |Kids(t)| + 1
  {
    if t.Ref? then w == 8 && o == 0
    else if t.Prim? then w == t.bytes && o == 0
    else if t.VArray? then exists k: nat :: k < t.length && ElemHasLeafAt(t, k, w, o, packed)
    else
      && (t.Tuple? || t.Record? || t.Opt? || (packed && (t.Packed? || t.Union?)))
      && FieldsHaveLeafAt(t, |Kids(t)|, w, o, packed)
  }

  /** Where element `k` of an array starts. */
  function ElemStart(t: Ty, k: nat): nat
    requires t.VArray?
  {
    k * Stride(t.elem)
  }

  ghost predicate ElemHasLeafAt(t: Ty, k: nat, w: nat, o: int, packed: bool)
    requires t.VArray?
    decreases t, 0
  {
    Known(t.elem) && HasLeafAt(t.elem, w, o - ElemStart(t, k), packed)
  }

  /** ... of one of the first `n` fields. */
  ghost predicate FieldsHaveLeafAt(t: Ty, n: nat, w: nat, o: int, packed: bool)
    requires n <= |Kids(t)|
    decreases t, n
  {
    n > 0 && (FieldsHaveLeafAt(t, n - 1, w, o, packed) || FieldHasLeafAt(t, n - 1, w, o, packed))
  }

  ghost predicate FieldHasLeafAt(t: Ty, i: nat, w: nat, o: int, packed: bool)
    requires i < |Kids(t)|
    decreases t, i
  {
    FieldAt(t, i).Some? && HasLeafAt(Kids(t)[i], w, o - FieldAt(t, i).value, packed)
  }

  /** The fields of a union all start where it starts. */
  function FieldAt(t: Ty, i: nat): Option<nat>
    requires i < |Kids(t)|
  {
    if t.Union? then Some(0) else OffsetOf(t, i)
  }

  lemma {:induction false} SomeField(t: Ty, n: nat, w: nat, o: int, packed: bool) returns (i: nat)
    requires n <= |Kids(t)| && FieldsHaveLeafAt(t, n, w, o, packed)
    ensures i < n && FieldHasLeafAt(t, i, w, o, packed)
    decreases n
  {
    hide FieldHasLeafAt;
    if FieldHasLeafAt(t, n - 1, w, o, packed) { i := n - 1; } else { i := SomeField(t, n - 1, w, o, packed); }
  }

  lemma {:induction false} LeafOfField(t: Ty, w: nat, o: int, packed: bool) returns (i: nat)
    requires HasLeafAt(t, w, o, packed) && (HasFields(t) || t.Union?)
    ensures i < |Kids(t)| && FieldAt(t, i).Some? && HasLeafAt(Kids(t)[i], w, o - FieldAt(t, i).value, packed)
    ensures packed || !(t.Packed? || t.Union?)
  {
    i := SomeField(t, |Kids(t)|, w, o, packed);
  }

  lemma {:induction false} LeafOfElem(t: Ty, w: nat, o: int, packed: bool) returns (k: nat)
    requires HasLeafAt(t, w, o, packed) && t.VArray?
    ensures k < t.length && Known(t.elem) && HasLeafAt(t.elem, w, o - ElemStart(t, k), packed)
  {
    hide ElemStart, Known;
    k :| k < t.length && ElemHasLeafAt(t, k, w, o, packed);
  }

  lemma {:induction false} LeafItself(t: Ty, w: nat, o: int, packed: bool)
    requires HasLeafAt(t, w, o, packed) && !t.VArray? && !HasFields(t) && !t.Union?
    ensures o == 0 && IsScalar(t, w)
  {
  }

  // ---- Inside ----

  /** A field that is present starts inside the type, and ends inside if that has a size. */
  lemma FieldInside(t: Ty, i: nat)
    requires (HasFields(t) || t.Union?) && i < |Kids(t)| && Known(t)
    ensures FieldAt(t, i).Some? && Known(Kids(t)[i])
    ensures FieldAt(t, i).value + ShapeOf(Kids(t)[i]).size.value <= ShapeOf(t).size.value
  {
    if t.Union? {
      UnionMeaning(t);
    } else {
      hide ShapeOf, OffsetOf;
      FieldsPlaced(t, i, |Kids(t)|);
    }
  }

  /** Every leaf starts inside the value, and lies inside it if that has a size. */
  lemma {:induction false} LeafInside(t: Ty, w: nat, o: int, packed: bool)
    requires HasLeafAt(t, w, o, packed)
    ensures o >= 0 && (Known(t) ==> o + w <= ShapeOf(t).size.value)
    decreases t
  {
    hide ShapeOf, OffsetOf, ElemStart, HasLeafAt, FieldAt;
    if t.VArray? {
      var k := LeafOfElem(t, w, o, packed);
      LeafInside(t.elem, w, o - ElemStart(t, k), packed);
      ElemInside(t, k);
    } else if HasFields(t) || t.Union? {
      var i := LeafOfField(t, w, o, packed);
      LeafInside(Kids(t)[i], w, o - FieldAt(t, i).value, packed);
      if Known(t) { FieldInside(t, i); }
    } else {
      LeafItself(t, w, o, packed);
      ScalarShape(t, w);
    }
  }

  lemma PaddedShape(e: Ty)
    requires Known(e)
    ensures Padded(ShapeOf(e)).size.Some? && Padded(ShapeOf(e)).alignment == ShapeOf(e).alignment > 0
    ensures Stride(e) == Padded(ShapeOf(e)).size.value && Stride(e) % ShapeOf(e).alignment == 0
    ensures ShapeOf(e).size.value <= Stride(e)
  {
    SizeIsAligned(e);
    PaddedOk(ShapeOf(e));
    hide ShapeOf, Padded;
  }

  /** Elements are a stride apart. */
  lemma ArrayShape(t: Ty)
    requires t.VArray? && Known(t.elem)
    ensures ShapeOf(t) == SizeDesc(Some(ElemStart(t, t.length)), ShapeOf(t.elem).alignment)
  {
    PaddedShape(t.elem);
    hide Padded;
    var s := Stride(t.elem);
    assert s * t.length == t.length * s;
  }

  /** Elements follow each other without a gap: sizes are multiples of alignments already. */
  lemma ElementsContiguous(e: Ty)
    requires Known(e)
    ensures Stride(e) == ShapeOf(e).size.value
  {
    hide ShapeOf, AlignUp;
    SizeIsAligned(e);
    AlreadyAligned(ShapeOf(e).size.value, ShapeOf(e).alignment);
  }

  lemma AlreadyAligned(x: nat, a: nat)
    requires Aligned(x, a)
    ensures AlignUp(x, a) == x
  {
    AlignUpMeaning(x, a);
    hide AlignUp;
  }

  lemma ElemInside(t: Ty, k: nat)
    requires t.VArray? && Known(t.elem) && k < t.length
    ensures Known(t) && ElemStart(t, k) + ShapeOf(t.elem).size.value <= ShapeOf(t).size.value
  {
    hide ShapeOf, Stride;
    ArrayShape(t);
    PaddedShape(t.elem);
    MulLess(k, t.length, Stride(t.elem));
  }

  // ---- Aligned ----

  lemma OffsetAligned(t: Ty, i: nat)
    requires i < |Kids(t)| && OffsetOf(t, i).Some?
    ensures Aligned(OffsetOf(t, i).value, KidShape(t, i).alignment)
  {
    hide AlignUp, ShapeOf, Fold;
    SizeIsAligned(Kids(t)[i]);
    AlignUpMeaning(Fold(t, i).size.value, KidShape(t, i).alignment);
  }

  /** A field with an offset is aligned when the whole is, whether that has a size or not. */
  lemma PresentAligned(t: Ty, i: nat, base: nat)
    requires HasFields(t) && !t.Packed? && i < |Kids(t)| && OffsetOf(t, i).Some?
    requires Aligned(base, ShapeOf(t).alignment)
    ensures Aligned(base + OffsetOf(t, i).value, ShapeOf(Kids(t)[i]).alignment)
  {
    hide Fold;
    FoldOk(t, |Kids(t)|);
    PaddedOk(Fold(t, |Kids(t)|));
    assert ShapeOf(t).alignment == Fold(t, |Kids(t)|).alignment;
    hide ShapeOf, OffsetOf, Padded;
    OffsetAligned(t, i);
    FoldAlign(t, i, |Kids(t)|);
    SizeIsAligned(t);
    SizeIsAligned(Kids(t)[i]);
    AlignDivides(ShapeOf(Kids(t)[i]).alignment, ShapeOf(t).alignment, base);
    SumMod(base, OffsetOf(t, i).value, ShapeOf(Kids(t)[i]).alignment);
  }

  lemma ElemAligned(t: Ty, k: nat, base: nat)
    requires t.VArray? && Known(t.elem) && Aligned(base, ShapeOf(t).alignment)
    ensures Aligned(base + ElemStart(t, k), ShapeOf(t.elem).alignment)
  {
    hide ShapeOf, Stride;
    ArrayShape(t);
    PaddedShape(t.elem);
    var s, a := Stride(t.elem), ShapeOf(t.elem).alignment;
    ProductMod(s, k, a);
    assert s * k == k * s;
    SumMod(base, ElemStart(t, k), a);
  }

  /** In a value at a multiple of its type's alignment every leaf outside packed tuples and unions is at a multiple of
      its own size, a reference at a multiple of eight. */
  lemma {:induction false} LeafAligned(t: Ty, w: nat, o: int, base: nat)
    requires HasLeafAt(t, w, o, false) && w > 0 && Aligned(base, ShapeOf(t).alignment)
    ensures o >= 0 && Aligned(base + o, w)
    decreases t, 0
  {
    hide ShapeOf, OffsetOf, ElemStart, HasLeafAt, FieldAt, Aligned, Known;
    if t.VArray? {
      var k := LeafOfElem(t, w, o, false);
      ElemAligned(t, k, base);
      AlignedBelow(t.elem, w, o, base, ElemStart(t, k));
    } else if HasFields(t) || t.Union? {
      var i := LeafOfField(t, w, o, false);
      FieldAtOffset(t, i);
      PresentAligned(t, i, base);
      AlignedBelow(Kids(t)[i], w, o, base, FieldAt(t, i).value);
    } else {
      LeafItself(t, w, o, false);
      ScalarShape(t, w);
    }
  }

  lemma FieldAtOffset(t: Ty, i: nat)
    requires i < |Kids(t)| && !t.Union?
    ensures FieldAt(t, i) == OffsetOf(t, i)
  {
  }

  lemma {:induction false} AlignedBelow(t: Ty, w: nat, o: int, base: nat, d: nat)
    requires HasLeafAt(t, w, o - d, false) && w > 0 && Aligned(base + d, ShapeOf(t).alignment)
    ensures o >= 0 && Aligned(base + o, w)
    decreases t, 1
  {
    hide ShapeOf, HasLeafAt, Aligned;
    LeafAligned(t, w, o - d, base + d);
    assert base + d + (o - d) == base + o;
  }

  // ---- Classes ----

  /** A leaf of one of the fields of the class, inherited ones included. */
  ghost predicate ClassHasLeafAt(c: Class, w: nat, o: int, packed: bool) {
    var l, fields := ClassLayout(c), FieldsOf(c);
    exists i :: 0 <= i < |fields| && i < |l.offsets| && l.offsets[i].Some? &&
      HasLeafAt(fields[i], w, o - l.offsets[i].value, packed)
  }

  /** The same for the objects of a class. */
  lemma ClassLeaf(c: Class, w: nat, o: int, packed: bool, base: nat)
    requires ClassHasLeafAt(c, w, o, packed)
    ensures var desc := ClassLayout(c).desc;
            && o >= 0 && (desc.size.Some? ==> o + w <= desc.size.value)
            && (!packed && w > 0 && Aligned(base, desc.alignment) ==> Aligned(base + o, w))
  {
    hide ShapeOf, ClassLayout, PresentOk, AlignmentOk;
    ClassLayoutOk(c);
    var l, fields := ClassLayout(c), FieldsOf(c);
    var i :| 0 <= i < |fields| && i < |l.offsets| && l.offsets[i].Some? &&
      HasLeafAt(fields[i], w, o - l.offsets[i].value, packed);
    var d := l.offsets[i].value;
    LeafInside(fields[i], w, o - d, packed);
    if l.desc.size.Some? { assert EndsBy(fields, l.offsets, i, l.desc.size.value); }
    if !packed && w > 0 && Aligned(base, l.desc.alignment) {
      ClassFieldsAligned(c, i, base);
      LeafAligned(fields[i], w, o - d, base + d);
      assert base + d + (o - d) == base + o;
    }
  }

  // ---- Nothing but the leaves ----

  /** A scalar alone in a tuple or a record, or in every element of an array, takes no more than its own bytes. */
  lemma LoneScalar(t: Ty, w: nat, n: nat)
    requires IsScalar(t, w)
    ensures ShapeOf(Tuple([t])) == ShapeOf(Record([t])) == SizeDesc(Some(w), ScalarAlign(w))
    ensures ShapeOf(VArray(t, n)).size == Some(ElemStart(VArray(t, n), n)) && Stride(t) == w
  {
    ScalarPadded(t, w);
    LoneField(Tuple([t]), w);
    LoneField(Record([t]), w);
    hide ShapeOf;
    ArrayShape(VArray(t, n));
  }

  lemma LoneField(t: Ty, w: nat)
    requires (t.Tuple? || t.Record?) && |t.kids| == 1 && IsScalar(t.kids[0], w)
    ensures ShapeOf(t) == SizeDesc(Some(w), ScalarAlign(w))
  {
    hide AlignUp, Fold, Padded;
    ScalarShape(t.kids[0], w);
    ScalarPadded(t.kids[0], w);
    OneFold(t);
    assert ShapeOf(t) == Padded(Fold(t, 1));
  }

  lemma OneFold(t: Ty)
    requires (t.Tuple? || t.Record?) && |t.kids| == 1 && Known(t.kids[0])
    ensures Fold(t, 1) == SizeDesc(ShapeOf(t.kids[0]).size, Max(1, ShapeOf(t.kids[0]).alignment))
  {
    hide ShapeOf, AlignUp;
    var s := ShapeOf(t.kids[0]);
    SizeIsAligned(t.kids[0]);
    AlignUpMeaning(0, s.alignment);
    assert Fold(t, 0) == SizeDesc(Some(0), 1);
  }
}
