/** CopyDerivedByRanges: copying a value range by range, its references through a callback of their own. */
module CopyRanges {
  import opened Layouts
  import opened LayoutRefs

  /** One call of a callback: plain bytes, or the reference at an offset. */
  datatype Call = Prims(lo: nat, size: nat) | RefAt(lo: nat)

  function End(c: Call): nat { c.lo + if c.Prims? then c.size else POINTER_SIZE }

  /** The calls cover [lo, hi) from left to right without gap or overlap. */
  ghost predicate Tiles(calls: seq<Call>, lo: nat, hi: nat) {
    if calls == [] then lo == hi
    else Tiles(calls[..|calls| - 1], lo, calls[|calls| - 1].lo) && End(calls[|calls| - 1]) == hi
  }

  function RefCalls(calls: seq<Call>): seq<nat> {
    if calls == [] then []
    else RefCalls(calls[..|calls| - 1]) + if calls[|calls| - 1].RefAt? then [calls[|calls| - 1].lo] else []
  }

  lemma TilesAppend(calls: seq<Call>, lo: nat, c: Call)
    requires Tiles(calls, lo, c.lo)
    ensures Tiles(calls + [c], lo, End(c))
    ensures RefCalls(calls + [c]) == RefCalls(calls) + if c.RefAt? then [c.lo] else []
  {
    assert (calls + [c])[..|calls|] == calls;
  }

  lemma SpacedAt(refs: seq<nat>, size: nat, k: nat)
    requires Spaced(refs, 0, size) && k < |refs|
    ensures refs[k] + POINTER_SIZE <= size
    ensures k + 1 < |refs| ==> refs[k] + POINTER_SIZE <= refs[k + 1]
    ensures refs[..k + 1] == refs[..k] + [refs[k]]
  {
  }

  lemma NoCalls()
    ensures Tiles([], 0, 0) && RefCalls([]) == []
  {
  }

  method CopyDerivedByRanges(size: nat, refs: seq<nat>) returns (calls: seq<Call>)
    requires Spaced(refs, 0, size)
    ensures Tiles(calls, 0, size) && RefCalls(calls) == refs
  {
    calls := [];
    var offset: nat := 0;
    NoCalls();
    hide Tiles, RefCalls, Spaced;
    for k := 0 to |refs|
      invariant Tiles(calls, 0, offset) && RefCalls(calls) == refs[..k]
      invariant offset <= size && (k < |refs| ==> offset <= refs[k])
    {
      var refOffset := refs[k];
      SpacedAt(refs, size, k);
      if refOffset > offset {
        TilesAppend(calls, 0, Prims(offset, refOffset - offset));
        calls := calls + [Prims(offset, refOffset - offset)];
      }
      TilesAppend(calls, 0, RefAt(refOffset));
      calls := calls + [RefAt(refOffset)];
      offset := refOffset + POINTER_SIZE;
    }
    assert refs[..|refs|] == refs;
    if offset < size {
      TilesAppend(calls, 0, Prims(offset, size - offset));
      calls := calls + [Prims(offset, size - offset)];
    }
  }

  // ---- What tiling means ----

  predicate Copies(c: Call, b: nat) { c.lo <= b < End(c) }

  lemma {:induction false} TilesOrdered(calls: seq<Call>, lo: nat, hi: nat)
    requires Tiles(calls, lo, hi)
    ensures lo <= hi && forall k :: 0 <= k < |calls| ==> lo <= calls[k].lo && End(calls[k]) <= hi
  {
    if calls != [] { TilesOrdered(calls[..|calls| - 1], lo, calls[|calls| - 1].lo); }
  }

  /** Every byte of the value is copied by exactly one call. */
  lemma {:induction false} EachByteOnce(calls: seq<Call>, lo: nat, hi: nat, b: nat) returns (k: nat)
    requires Tiles(calls, lo, hi) && lo <= b < hi
    ensures k < |calls| && Copies(calls[k], b)
    ensures forall m :: 0 <= m < |calls| && Copies(calls[m], b) ==> m == k
  {
    var n := |calls| - 1;
    TilesOrdered(calls[..n], lo, calls[n].lo);
    if b < calls[n].lo {
      k := EachByteOnce(calls[..n], lo, calls[n].lo, b);
    } else {
      k := n;
    }
    forall m | 0 <= m < |calls| && Copies(calls[m], b) ensures m == k {
      if m < n { assert calls[..n][m] == calls[m]; }
    }
  }

  lemma {:induction false} RefCallsAre(calls: seq<Call>, x: nat)
    ensures x in RefCalls(calls) <==> RefAt(x) in calls
  {
    if calls != [] {
      var n := |calls| - 1;
      RefCallsAre(calls[..n], x);
      assert calls == calls[..n] + [calls[n]];
    }
  }

  /** Copying a value of known size by its own reference map: each byte of a reference moves through the
      reference callback at the start of that reference, every other byte through the plain one. */
  lemma ReferencesThroughCallback(t: Ty, calls: seq<Call>, b: nat) returns (k: nat)
    requires Known(t) && Tiles(calls, 0, ShapeOf(t).size.value) && RefCalls(calls) == Refs(t, 0)
    requires b < ShapeOf(t).size.value
    ensures k < |calls| && Copies(calls[k], b)
    ensures calls[k].RefAt? <==> exists x: nat :: x <= b < x + POINTER_SIZE && HasRefAt(t, x)
  {
    hide ShapeOf, Refs, HasRefAt;
    k := EachByteOnce(calls, 0, ShapeOf(t).size.value, b);
    forall x: nat ensures RefAt(x) in calls <==> HasRefAt(t, x) {
      RefCallsAre(calls, x);
      RefsExact(t, 0, x);
    }
    if calls[k].RefAt? { assert HasRefAt(t, calls[k].lo); }
    if x: nat :| x <= b < x + POINTER_SIZE && HasRefAt(t, x) {
      var m :| 0 <= m < |calls| && calls[m] == RefAt(x);
      assert Copies(calls[m], b);
    }
  }
}
