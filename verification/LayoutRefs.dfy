/** Reference maps: the offsets of all references inside a value (FillRefOffsets). */
module LayoutRefs {
  import opened Layouts

  /** The distance of two elements of an array. */
  function Stride(elem: Ty): nat { var s := Padded(ShapeOf(elem)).size; if s.Some? then s.value else 0 }

  // ---- What FillRefOffsets collects ----

  function Shifted(xs: seq<nat>, disp: nat): (r: seq<nat>)
    ensures |r| == |xs| && forall i :: 0 <= i < |xs| ==> r[i] == disp + xs[i]
  {
    seq(|xs|, i requires 0 <= i < |xs| => disp + xs[i])
  }

  /** The offsets of the first `n` elements of an array, one element after the other. */
  function Repeated(xs: seq<nat>, n: nat, stride: nat, disp: nat): seq<nat> {
    if n == 0 then [] else Repeated(xs, n - 1, stride, disp) + Shifted(xs, disp + (n - 1) * stride)
  }

  function Refs(t: Ty, disp: nat): seq<nat>
    decreases t, |Kids(t)| + 1
  {
    if t.Ref? then [disp]
    else if t.VArray? then (if Known(t.elem) then Repeated(Refs(t.elem, 0), t.length, Stride(t.elem), disp) else [])
    else if HasFields(t) then RefsUpTo(t, |Kids(t)|, disp)
    else []
  }

  /** The offsets of the first `n` fields; fields without an offset contribute nothing. */
  function RefsUpTo(t: Ty, n: nat, disp: nat): seq<nat>
    requires n <= |Kids(t)|
    decreases t, n
  {
    if n == 0 then [] else
      RefsUpTo(t, n - 1, disp) +
      if OffsetOf(t, n - 1).Some? then Refs(Kids(t)[n - 1], disp + OffsetOf(t, n - 1).value) else []
  }

  // ---- An independent description ----

  /** A reference sits at offset `o` of a value of type `t`. */
  ghost predicate HasRefAt(t: Ty, o: int)
    decreases t, |Kids(t)| + 1
  {
    if t.Ref? then o == 0
    else if t.VArray? then exists k: nat :: k < t.length && ElemHasRefAt(t, k, o)
    else (t.Tuple? || t.Record? || t.Packed? || t.Opt?) && FieldsHaveRefAt(t, |Kids(t)|, o)
  }

  /** ... of one of the first `n` fields. */
  ghost predicate FieldsHaveRefAt(t: Ty, n: nat, o: int)
    requires n <= |Kids(t)|
    decreases t, n
  {
    n > 0 && (FieldsHaveRefAt(t, n - 1, o) || FieldHasRefAt(t, n - 1, o))
  }

  ghost predicate ElemHasRefAt(t: Ty, k: nat, o: int)
    requires t.VArray?
    decreases t, 0
  {
    Known(t.elem) && HasRefAt(t.elem, o - k * Stride(t.elem))
  }

  ghost predicate FieldHasRefAt(t: Ty, i: nat, o: int)
    requires i < |Kids(t)|
    decreases t, i
  {
    OffsetOf(t, i).Some? && HasRefAt(Kids(t)[i], o - OffsetOf(t, i).value)
  }

  /** Offsets in [lo, hi), strictly increasing, each with room for a reference before the next. */
  ghost predicate Spaced(xs: seq<nat>, lo: nat, hi: nat) {
    && (forall i :: 0 <= i < |xs| ==> lo <= xs[i] && xs[i] + POINTER_SIZE <= hi)
    && (forall i, j :: 0 <= i < j < |xs| ==> xs[i] + POINTER_SIZE <= xs[j])
  }

  lemma SpacedConcat(xs: seq<nat>, ys: seq<nat>, lo: nat, mid: nat, hi: nat)
    requires Spaced(xs, lo, mid) && Spaced(ys, mid, hi) && lo <= mid <= hi
    ensures Spaced(xs + ys, lo, hi)
  {
  }

  lemma SpacedWiden(xs: seq<nat>, lo: nat, hi: nat, lo': nat, hi': nat)
    requires Spaced(xs, lo, hi) && lo' <= lo && hi <= hi'
    ensures Spaced(xs, lo', hi')
  {
  }

  lemma SpacedShift(xs: seq<nat>, lo: nat, hi: nat, disp: nat)
    requires Spaced(xs, lo, hi)
    ensures Spaced(Shifted(xs, disp), lo + disp, hi + disp)
  {
  }

  // ---- Arrays ----

  lemma {:induction false} RepeatedSpaced(xs: seq<nat>, n: nat, stride: nat, disp: nat)
    requires Spaced(xs, 0, stride)
    ensures Spaced(Repeated(xs, n, stride, disp), disp, disp + n * stride)
  {
    if n > 0 {
      hide Spaced;
      RepeatedSpaced(xs, n - 1, stride, disp);
      SpacedShift(xs, 0, stride, disp + (n - 1) * stride);
      assert stride + (disp + (n - 1) * stride) == disp + n * stride;
      SpacedConcat(Repeated(xs, n - 1, stride, disp), Shifted(xs, disp + (n - 1) * stride), disp,
          disp + (n - 1) * stride, disp + n * stride);
    }
  }

  lemma {:induction false} RepeatedMembers(xs: seq<nat>, n: nat, stride: nat, disp: nat, x: nat)
    ensures x in Repeated(xs, n, stride, disp) <==> exists k: nat :: k < n && InElem(xs, k, stride, disp, x)
  {
    if n > 0 {
      RepeatedMembers(xs, n - 1, stride, disp, x);
      ShiftedMembers(xs, disp + (n - 1) * stride, x);
      assert x in Shifted(xs, disp + (n - 1) * stride) <==> InElem(xs, n - 1, stride, disp, x);
    }
  }

  /** `x` comes from element `k`. */
  predicate InElem(xs: seq<nat>, k: nat, stride: nat, disp: nat, x: nat) {
    x >= disp + k * stride && (x - (disp + k * stride)) as nat in xs
  }

  lemma ShiftedMembers(xs: seq<nat>, disp: nat, x: nat)
    ensures x in Shifted(xs, disp) <==> x >= disp && (x - disp) as nat in xs
  {
    var ys := Shifted(xs, disp);
    if x >= disp && (x - disp) as nat in xs {
      var i :| 0 <= i < |xs| && xs[i] == x - disp;
      assert ys[i] == x;
    }
  }

  lemma ShiftTwice(xs: seq<nat>, a: nat, b: nat)
    ensures Shifted(xs, a + b) == Shifted(Shifted(xs, a), b)
  {
  }

  lemma ShiftConcat(xs: seq<nat>, ys: seq<nat>, disp: nat)
    ensures Shifted(xs + ys, disp) == Shifted(xs, disp) + Shifted(ys, disp)
  {
  }

  lemma {:induction false} RepeatedShift(xs: seq<nat>, n: nat, stride: nat, disp: nat, more: nat)
    ensures Repeated(xs, n, stride, disp + more) == Shifted(Repeated(xs, n, stride, disp), more)
  {
    hide Shifted;
    if n > 0 {
      RepeatedShift(xs, n - 1, stride, disp, more);
      ShiftTwice(xs, disp + (n - 1) * stride, more);
      ShiftConcat(Repeated(xs, n - 1, stride, disp), Shifted(xs, disp + (n - 1) * stride), more);
      assert disp + more + (n - 1) * stride == (disp + (n - 1) * stride) + more;
    } else {
      NothingShifted(more);
    }
  }

  lemma NothingShifted(disp: nat)
    ensures Shifted([], disp) == []
  {
  }

  // ---- The theorems ----

  /** Shifting the value shifts its reference map. */
  lemma {:induction false} RefsShift(t: Ty, disp: nat, more: nat)
    ensures Refs(t, disp + more) == Shifted(Refs(t, disp), more)
    decreases t, |Kids(t)| + 1
  {
    hide ShapeOf, OffsetOf;
    if t.VArray? {
      if Known(t.elem) {
        RepeatedShift(Refs(t.elem, 0), t.length, Stride(t.elem), disp, more);
      }
    } else if HasFields(t) {
      RefsUpToShift(t, |Kids(t)|, disp, more);
    }
  }

  lemma {:induction false} RefsUpToShift(t: Ty, n: nat, disp: nat, more: nat)
    requires n <= |Kids(t)|
    ensures RefsUpTo(t, n, disp + more) == Shifted(RefsUpTo(t, n, disp), more)
    decreases t, n
  {
    hide ShapeOf, OffsetOf, Refs, Shifted;
    NothingShifted(more);
    if n > 0 {
      RefsUpToShift(t, n - 1, disp, more);
      if OffsetOf(t, n - 1).Some? {
        var o := OffsetOf(t, n - 1).value;
        assert disp + more + o == (disp + o) + more;
        RefsShift(Kids(t)[n - 1], disp + o, more);
        ShiftConcat(RefsUpTo(t, n - 1, disp), Refs(Kids(t)[n - 1], disp + o), more);
      } else {
        ShiftConcat(RefsUpTo(t, n - 1, disp), [], more);
      }
    }
  }

  /** For a type of known size the collected offsets are strictly increasing, at least a reference
      apart, and end within the size. */
  lemma {:induction false} RefsSpaced(t: Ty, disp: nat)
    requires Known(t)
    ensures Spaced(Refs(t, disp), disp, disp + ShapeOf(t).size.value)
    decreases t, |Kids(t)| + 1
  {
    hide AddField, OffsetOf, Fold, Spaced, Padded;
    if t.Ref? {
      OneSpaced(disp);
    } else if t.VArray? {
      SizeIsAligned(t.elem);
      PaddedOk(ShapeOf(t.elem));
      RefsSpaced(t.elem, 0);
      var s := ShapeOf(t.elem).size.value;
      SpacedWiden(Refs(t.elem, 0), 0, s, 0, Stride(t.elem));
      RepeatedSpaced(Refs(t.elem, 0), t.length, Stride(t.elem), disp);
      assert t.length * Stride(t.elem) == Stride(t.elem) * t.length;
    } else if HasFields(t) {
      TotalSize(t);
      RefsUpToSpaced(t, |Kids(t)|, disp);
      SpacedWiden(Refs(t, disp), disp, disp + Fold(t, |Kids(t)|).size.value, disp, disp + ShapeOf(t).size.value);
    } else {
      NoneSpaced(disp, disp + ShapeOf(t).size.value);
    }
  }

  lemma OneSpaced(disp: nat)
    ensures Spaced([disp], disp, disp + POINTER_SIZE)
  {
  }

  lemma NoneSpaced(lo: nat, hi: nat)
    ensures Spaced([], lo, hi)
  {
  }

  lemma {:induction false} RefsUpToSpaced(t: Ty, n: nat, disp: nat)
    requires n <= |Kids(t)| && Fold(t, n).size.Some?
    ensures Spaced(RefsUpTo(t, n, disp), disp, disp + Fold(t, n).size.value)
    decreases t, n
  {
    hide AddField, OffsetOf, ShapeOf, Spaced, Start;
    if n == 0 {
      NoneSpaced(disp, disp + Fold(t, n).size.value);
    } else {
      FieldEnds(t, n - 1);
      RefsUpToSpaced(t, n - 1, disp);
      var o := OffsetOf(t, n - 1).value;
      RefsSpaced(Kids(t)[n - 1], disp + o);
      SpacedWiden(RefsUpTo(t, n - 1, disp), disp, disp + Fold(t, n - 1).size.value, disp, disp + o);
      SpacedConcat(RefsUpTo(t, n - 1, disp), Refs(Kids(t)[n - 1], disp + o), disp, disp + o,
          disp + Fold(t, n).size.value);
    }
  }

  /** The collected offsets are exactly those of the references in the value. */
  lemma {:induction false} RefsExact(t: Ty, disp: nat, x: nat)
    ensures x in Refs(t, disp) <==> HasRefAt(t, x - disp)
    decreases t, |Kids(t)| + 1
  {
    hide ShapeOf, OffsetOf, Stride;
    var o: int := x - disp;
    if t.VArray? {
      if Known(t.elem) {
        RepeatedMembers(Refs(t.elem, 0), t.length, Stride(t.elem), disp, x);
        forall k: nat | k < t.length
          ensures InElem(Refs(t.elem, 0), k, Stride(t.elem), disp, x) <==> ElemHasRefAt(t, k, o)
        {
          ElemExact(t, disp, x, k);
        }
      }
    } else if HasFields(t) {
      RefsUpToExact(t, |Kids(t)|, disp, x, o);
    }
  }

  lemma {:induction false} ElemExact(t: Ty, disp: nat, x: nat, k: nat)
    requires t.VArray? && Known(t.elem)
    ensures InElem(Refs(t.elem, 0), k, Stride(t.elem), disp, x) <==> ElemHasRefAt(t, k, x - disp)
    decreases t, 0
  {
    hide ShapeOf, Stride;
    var o := x - (disp + k * Stride(t.elem));
    if o >= 0 { RefsExact(t.elem, 0, o); } else { NoRefBefore(t.elem, o); }
  }

  lemma {:induction false} NoRefBefore(t: Ty, o: int)
    requires o < 0
    ensures !HasRefAt(t, o)
    decreases t, |Kids(t)| + 1
  {
    hide ShapeOf, OffsetOf, Stride;
    if t.VArray? {
      forall k: nat | k < t.length ensures !ElemHasRefAt(t, k, o) { NoRefBefore(t.elem, o - k * Stride(t.elem)); }
    } else if HasFields(t) {
      NoFieldBefore(t, |Kids(t)|, o);
    }
  }

  lemma {:induction false} NoFieldBefore(t: Ty, n: nat, o: int)
    requires o < 0 && n <= |Kids(t)|
    ensures !FieldsHaveRefAt(t, n, o)
    decreases t, n
  {
    hide ShapeOf, OffsetOf, HasRefAt;
    if n > 0 {
      NoFieldBefore(t, n - 1, o);
      if OffsetOf(t, n - 1).Some? { NoRefBefore(Kids(t)[n - 1], o - OffsetOf(t, n - 1).value); }
    }
  }

  lemma {:induction false} RefsUpToExact(t: Ty, n: nat, disp: nat, x: nat, o: int)
    requires n <= |Kids(t)| && o == x - disp
    ensures x in RefsUpTo(t, n, disp) <==> FieldsHaveRefAt(t, n, o)
    decreases t, n
  {
    hide ShapeOf, OffsetOf, HasRefAt, Refs, Fold;
    if n > 0 {
      RefsUpToExact(t, n - 1, disp, x, o);
      if OffsetOf(t, n - 1).Some? {
        var f := OffsetOf(t, n - 1).value;
        RefsExact(Kids(t)[n - 1], disp + f, x);
        assert x - (disp + f) == o - f;
      }
    }
  }

  // ---- The method ----

  /** The two loops over the elements of an array. */
  method FillElements(elementOffsets: seq<nat>, length: nat, elemSize: nat, offsets: seq<nat>, disp: nat)
    returns (offsets': seq<nat>)
    ensures offsets' == offsets + Repeated(elementOffsets, length, elemSize, disp)
  {
    offsets' := offsets;
    for i := 0 to length
      invariant offsets' == offsets + Repeated(elementOffsets, i, elemSize, disp)
    {
      ghost var row := Shifted(elementOffsets, disp + i * elemSize);
      ghost var before := offsets';
      for k := 0 to |elementOffsets|
        invariant offsets' == before + row[..k]
      {
        offsets' := offsets' + [disp + i * elemSize + elementOffsets[k]];
      }
      assert offsets' == before + row;
    }
  }

  method FillRefOffsets(t: Ty, offsets: seq<nat>, disp: nat) returns (offsets': seq<nat>)
    ensures offsets' == offsets + Refs(t, disp)
    decreases t, 1
  {
    hide ShapeOf, Fold, Repeated;
    offsets' := offsets;
    if t.Ref? {
      offsets' := offsets' + [disp];
    } else if t.VArray? {
      UnknownElem(t.elem);
      if Padded(ShapeOf(t.elem)).size.None? { return; }
      var elemSize := Padded(ShapeOf(t.elem)).size.value;
      var elementOffsets := FillRefOffsets(t.elem, [], 0);
      assert elementOffsets == Refs(t.elem, 0);
      if elementOffsets == [] {
        NothingRepeated(t.length, elemSize, disp);
        return;
      }
      offsets' := FillElements(elementOffsets, t.length, elemSize, offsets', disp);
    } else if HasFields(t) {
      offsets' := FillFields(t, offsets', disp);
    }
  }

  /** The loop over the fields, which ends at the first one without an offset. */
  method FillFields(t: Ty, offsets: seq<nat>, disp: nat) returns (offsets': seq<nat>)
    requires HasFields(t)
    ensures offsets' == offsets + RefsUpTo(t, |Kids(t)|, disp)
    decreases t, 0
  {
    hide ShapeOf, Fold, Refs;
    offsets' := offsets;
    for i := 0 to |Kids(t)|
      invariant offsets' == offsets + RefsUpTo(t, i, disp)
    {
      var offset := OffsetOf(t, i);
      if offset.None? {
        AbsentFromHere(t, i, |Kids(t)|, disp);
        return;
      }
      offsets' := FillRefOffsets(Kids(t)[i], offsets', disp + offset.value);
    }
  }

  lemma UnknownElem(elem: Ty)
    ensures Known(elem) <==> Padded(ShapeOf(elem)).size.Some?
  {
    hide ShapeOf;
  }

  lemma {:induction false} NothingRepeated(n: nat, stride: nat, disp: nat)
    ensures Repeated([], n, stride, disp) == []
  {
    if n > 0 { NothingRepeated(n - 1, stride, disp); }
  }

  /** Once an offset is absent, all later ones are. */
  lemma {:induction false} AbsentFromHere(t: Ty, i: nat, n: nat, disp: nat)
    requires i < n <= |Kids(t)| && OffsetOf(t, i).None?
    ensures RefsUpTo(t, n, disp) == RefsUpTo(t, i, disp)
    decreases n
  {
    hide ShapeOf, OffsetOf, Fold;
    OffsetPresent(t, i);
    OffsetPresent(t, n - 1);
    if i < n - 1 { AbsentFromHere(t, i, n - 1, disp); }
  }
}
