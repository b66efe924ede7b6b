/** MakeFrameLayout and the frame of a rewritten method: untyped slots, typed slots, saved registers
    and outgoing parameters. */
module FrameLayouts {
  import opened Wrappers
  import opened Alignment
  import opened Layouts
  import opened LayoutRefs
  import Statics
  import MoveEmission

  const SLOT := 8
  const FRAME_ALIGNMENT := 16

  datatype FrameLayout = FrameLayout(typedOffset: seq<nat>, refOffsets: seq<nat>, frameSize: nat)

  /** The registers that a mask of used registers names. */
  function UsedRegs(mask: seq<bool>): set<nat> { set i: nat | i < |mask| && mask[i] }

  lemma UsedStep(mask: seq<bool>, i: nat)
    requires i < |mask|
    ensures UsedRegs(mask[..i + 1]) == if mask[i] then UsedRegs(mask[..i]) + {i} else UsedRegs(mask[..i])
    ensures |UsedRegs(mask[..i + 1])| == |UsedRegs(mask[..i])| + if mask[i] then 1 else 0
  {
  }

  /** Where typed slot `n` starts, counted from the bottom of the frame. */
  function SlotStart(untypedSlots: nat, types: seq<Ty>, n: nat): nat
    requires n <= |types|
  {
    if n == 0 then SLOT * untypedSlots
    else SlotStart(untypedSlots, types, n - 1) + AlignUp(Statics.SizeOf(types[n - 1]), SLOT)
  }

  function SlotRefs(untypedSlots: nat, types: seq<Ty>, n: nat): seq<nat>
    requires n <= |types|
  {
    if n == 0 then []
    else SlotRefs(untypedSlots, types, n - 1) + Refs(types[n - 1], SlotStart(untypedSlots, types, n - 1))
  }

  predicate IsRecord(t: Ty) { Statics.KindOf(t) == Statics.RecordSlot }

  function Values(types: seq<Option<Ty>>): (r: seq<Ty>)
    ensures |r| == |types| && forall i :: 0 <= i < |types| && types[i].Some? ==> r[i] == types[i].value
  {
    seq(|types|, i requires 0 <= i < |types| => if types[i].Some? then types[i].value else Unknown)
  }

  /** The layout for `saved` saved registers. */
  ghost predicate IsFrameLayout(l: FrameLayout, saved: nat, untypedSlots: nat, types: seq<Ty>) {
    && |l.typedOffset| == |types| + 1
    && (forall i :: 0 <= i <= |types| ==> l.typedOffset[i] == SlotStart(untypedSlots, types, i))
    && l.refOffsets == SlotRefs(untypedSlots, types, |types|)
    && l.frameSize == SLOT * saved + SlotStart(untypedSlots, types, |types|)
  }

  method CountSaved(mask: seq<bool>) returns (n: nat)
    ensures n == |UsedRegs(mask)|
  {
    n := 0;
    assert UsedRegs(mask[..0]) == {};
    hide UsedRegs;
    for i := 0 to |mask|
      invariant n == |UsedRegs(mask[..i])|
    {
      UsedStep(mask, i);
      if mask[i] { n := n + 1; }
    }
    assert mask[..|mask|] == mask;
  }

  /** The type and size of one slot, when it is a record of known size. */
  method SlotSize(typeOpt: Option<Ty>) returns (size: Option<nat>)
    ensures size.Some? <==> typeOpt.Some? && IsRecord(typeOpt.value) && Known(typeOpt.value)
    ensures size.Some? ==> size.value == Statics.SizeOf(typeOpt.value)
  {
    hide ShapeOf;
    if typeOpt.None? || !IsRecord(typeOpt.value) { return None; }
    size := ShapeOf(typeOpt.value).size;
    Statics.KnownSize(typeOpt.value);
  }

  /** The type is resolved, of known size, and neither a reference nor a primitive other than UNIT. */
  ghost predicate SlotOk(t: Option<Ty>) {
    t.Some? && Known(t.value) && !t.value.Ref? && (t.value.Prim? ==> t.value.bytes == 0)
  }

  lemma RecordsAreSlots(t: Ty)
    ensures Known(t) ==> (IsRecord(t) <==> !t.Ref? && (t.Prim? ==> t.bytes == 0))
  {
  }

  /** The loop over the typed slots. */
  method PlaceSlots(untypedSlots: nat, types: seq<Option<Ty>>)
    returns (ok: bool, typedOffset: seq<nat>, refOffsets: seq<nat>, stackAllocSize: nat)
    ensures ok <==> forall i :: 0 <= i < |types| ==> SlotOk(types[i])
    ensures ok ==> |typedOffset| == |types|
    ensures ok ==> forall k :: 0 <= k < |types| ==> typedOffset[k] == SlotStart(untypedSlots, Values(types), k)
    ensures ok ==> refOffsets == SlotRefs(untypedSlots, Values(types), |types|)
    ensures ok ==> stackAllocSize == SlotStart(untypedSlots, Values(types), |types|)
  {
    hide Values, SlotOk, AlignUp, SlotStart, SlotRefs, Statics.SizeOf;
    ghost var ts := Values(types);
    ok, typedOffset, refOffsets, stackAllocSize := true, [], [], SLOT * untypedSlots;
    FirstSlot(untypedSlots, ts);
    for i := 0 to |types|
      invariant forall k :: 0 <= k < i ==> SlotOk(types[k])
      invariant |typedOffset| == i
      invariant stackAllocSize == SlotStart(untypedSlots, ts, i) && refOffsets == SlotRefs(untypedSlots, ts, i)
      invariant forall k :: 0 <= k < i ==> typedOffset[k] == SlotStart(untypedSlots, ts, k)
    {
      var size := SlotSize(types[i]);
      SlotStep(untypedSlots, types, i);
      if size.None? {
        ok := false;
        return;
      }
      refOffsets := FillRefOffsets(types[i].value, refOffsets, stackAllocSize);
      typedOffset := typedOffset + [stackAllocSize];
      stackAllocSize := stackAllocSize + AlignUp(size.value, SLOT);
    }
  }

  lemma FirstSlot(untypedSlots: nat, types: seq<Ty>)
    ensures SlotStart(untypedSlots, types, 0) == SLOT * untypedSlots && SlotRefs(untypedSlots, types, 0) == []
  {
  }

  lemma SlotStep(untypedSlots: nat, types: seq<Option<Ty>>, i: nat)
    requires i < |types|
    ensures SlotOk(types[i]) <==> types[i].Some? && IsRecord(types[i].value) && Known(types[i].value)
    ensures SlotOk(types[i]) ==>
              var ts, t := Values(types), types[i].value;
              && SlotStart(untypedSlots, ts, i + 1) == SlotStart(untypedSlots, ts, i) + AlignUp(Statics.SizeOf(t), SLOT)
              && SlotRefs(untypedSlots, ts, i + 1)
                  == SlotRefs(untypedSlots, ts, i) + Refs(t, SlotStart(untypedSlots, ts, i))
  {
    hide AlignUp, Statics.SizeOf, IsRecord, ShapeOf, Refs;
    if types[i].Some? { RecordsAreSlots(types[i].value); }
  }

  /** Fails exactly when a slot's type is unresolved, no record, or of unknown size. */
  method MakeFrameLayout(iregMask: seq<bool>, fregMask: seq<bool>, untypedSlots: nat, types: seq<Option<Ty>>)
    returns (r: Option<FrameLayout>)
    ensures r.Some? <==> forall i :: 0 <= i < |types| ==> SlotOk(types[i])
    ensures r.Some? ==> IsFrameLayout(r.value, |UsedRegs(iregMask)| + |UsedRegs(fregMask)|, untypedSlots, Values(types))
  {
    hide SlotOk, UsedRegs, SlotStart, SlotRefs, Values;
    var savedI := CountSaved(iregMask);
    var savedF := CountSaved(fregMask);
    var savedRegsSpace := SLOT * (savedI + savedF);
    var ok, typedOffset, refOffsets, stackAllocSize := PlaceSlots(untypedSlots, types);
    if !ok { return None; }
    typedOffset := typedOffset + [stackAllocSize];
    r := Some(FrameLayout(typedOffset, refOffsets, savedRegsSpace + stackAllocSize));
  }

  // ---- The frame in memory ----

  /** IsaRewriter::TypedSlotOffset, relative to the start of the frame. */
  function TypedSlotOffset(l: FrameLayout, typedSlot: nat, fieldOffset: nat): int
    requires typedSlot < |l.typedOffset|
  {
    l.typedOffset[typedSlot] + fieldOffset - l.frameSize
  }

  function FullFrameSize(l: FrameLayout, maxParamPassingSize: nat): nat {
    AlignUp(l.frameSize + maxParamPassingSize, FRAME_ALIGNMENT)
  }

  /** A region of the frame, relative to its start. */
  datatype Region = Untyped(slot: nat) | Typed(slot: nat) | Saved | Params

  predicate Exists(l: FrameLayout, untypedSlots: nat, types: seq<Ty>, r: Region) {
    match r
    case Untyped(k) => k < untypedSlots && k < 0x1_0000
    case Typed(i) => i < |types| && i < |l.typedOffset|
    case _ => true
  }

  function Lo(l: FrameLayout, types: seq<Ty>, maxParam: nat, r: Region): int
    requires r.Typed? ==> r.slot < |l.typedOffset|
  {
    match r
    case Untyped(k) => MoveEmission.UntypedSlotOffset(k, l.frameSize)
    case Typed(i) => TypedSlotOffset(l, i, 0)
    case Saved => if l.typedOffset == [] then 0 else TypedSlotOffset(l, |l.typedOffset| - 1, 0)
    case Params => -(FullFrameSize(l, maxParam) as int)
  }

  function Hi(l: FrameLayout, types: seq<Ty>, maxParam: nat, r: Region): int
    requires r.Typed? ==> r.slot < |l.typedOffset| && r.slot < |types|
  {
    match r
    case Untyped(k) => MoveEmission.UntypedSlotOffset(k, l.frameSize) + SLOT
    case Typed(i) => TypedSlotOffset(l, i, Statics.SizeOf(types[i]))
    case Saved => 0
    case Params => maxParam - FullFrameSize(l, maxParam)
  }

  lemma {:induction false} SlotsGrow(untypedSlots: nat, types: seq<Ty>, i: nat, j: nat)
    requires i <= j <= |types|
    ensures SLOT * untypedSlots <= SlotStart(untypedSlots, types, i) <= SlotStart(untypedSlots, types, j)
    ensures i < j ==> SlotStart(untypedSlots, types, i) + Statics.SizeOf(types[i]) <= SlotStart(untypedSlots, types, j)
    decreases j
  {
    hide Statics.SizeOf, AlignUp;
    if i < j {
      Statics.RoundedUp(Statics.SizeOf(types[j - 1]));
      SlotsGrow(untypedSlots, types, i, j - 1);
    } else if i > 0 {
      SlotsGrow(untypedSlots, types, i - 1, i - 1);
    }
  }

  /** The full frame is aligned and holds the essentials above the outgoing parameters: the premise on
      frames of the staged-call theorems. */
  lemma FullFrame(l: FrameLayout, maxParam: nat, start: int)
    ensures FullFrameSize(l, maxParam) % 16 == 0
    ensures l.frameSize + maxParam <= FullFrameSize(l, maxParam) < l.frameSize + maxParam + 16
    ensures var fr := MoveEmission.Frame(start, l.frameSize, FullFrameSize(l, maxParam), maxParam);
            && fr.Valid() && fr.Bot() == start - FullFrameSize(l, maxParam)
  {
    AlignUpMeaning(l.frameSize + maxParam, FRAME_ALIGNMENT);
  }

  /** Every untyped slot of the frame that 16 bits can number is one that moves and calls can read. */
  lemma UntypedSlotsFit(
    l: FrameLayout, saved: nat, untypedSlots: nat, types: seq<Ty>, maxParam: nat, start: int, k: nat)
    requires IsFrameLayout(l, saved, untypedSlots, types) && k < untypedSlots && k < 0x1_0000
    ensures var fr := MoveEmission.Frame(start, l.frameSize, FullFrameSize(l, maxParam), maxParam);
            fr.Valid() && MoveEmission.SlotFits(k, fr)
  {
    FullFrame(l, maxParam, start);
    SlotsGrow(untypedSlots, types, 0, |types|);
    hide FullFrameSize, SlotStart;
  }

  lemma RegionPlaced(l: FrameLayout, saved: nat, untypedSlots: nat, types: seq<Ty>, maxParam: nat, r: Region)
    requires IsFrameLayout(l, saved, untypedSlots, types) && Exists(l, untypedSlots, types, r)
    ensures -(FullFrameSize(l, maxParam) as int) <= Lo(l, types, maxParam, r) <= Hi(l, types, maxParam, r) <= 0
    ensures r.Params? ==> Hi(l, types, maxParam, r) <= -(l.frameSize as int)
    ensures r.Saved? ==> Lo(l, types, maxParam, r) == SlotStart(untypedSlots, types, |types|) - l.frameSize
    ensures r.Untyped? ==> Lo(l, types, maxParam, r) == SLOT * r.slot - l.frameSize
    ensures r.Untyped? ==> Hi(l, types, maxParam, r) == SLOT * r.slot + SLOT - l.frameSize
    ensures r.Typed? ==> Lo(l, types, maxParam, r) == SlotStart(untypedSlots, types, r.slot) - l.frameSize
    ensures r.Typed? ==>
              Hi(l, types, maxParam, r) == Lo(l, types, maxParam, r) + Statics.SizeOf(types[r.slot])
  {
    hide Statics.SizeOf, AlignUp, SlotStart;
    AlignUpMeaning(l.frameSize + maxParam, FRAME_ALIGNMENT);
    SlotsGrow(untypedSlots, types, 0, |types|);
    if r.Typed? {
      SlotsGrow(untypedSlots, types, r.slot, r.slot + 1);
      SlotsGrow(untypedSlots, types, r.slot + 1, |types|);
    }
  }

  lemma BetweenSlots(untypedSlots: nat, types: seq<Ty>, i: nat)
    requires i < |types|
    ensures SLOT * untypedSlots <= SlotStart(untypedSlots, types, i)
    ensures SlotStart(untypedSlots, types, i) + Statics.SizeOf(types[i]) <= SlotStart(untypedSlots, types, |types|)
  {
    hide Statics.SizeOf, SlotStart;
    SlotsGrow(untypedSlots, types, i, i + 1);
    SlotsGrow(untypedSlots, types, i + 1, |types|);
  }

  /** Untyped slots, typed slots, saved registers and parameters lie inside the full frame and never
      overlap, for any slot list and any size of the parameter area. */
  lemma FrameDisjoint(
    l: FrameLayout, saved: nat, untypedSlots: nat, types: seq<Ty>, maxParam: nat, r: Region, q: Region)
    requires IsFrameLayout(l, saved, untypedSlots, types)
    requires Exists(l, untypedSlots, types, r) && Exists(l, untypedSlots, types, q) && r != q
    ensures -(FullFrameSize(l, maxParam) as int) <= Lo(l, types, maxParam, r) <= Hi(l, types, maxParam, r) <= 0
    ensures Hi(l, types, maxParam, r) <= Lo(l, types, maxParam, q)
            || Hi(l, types, maxParam, q) <= Lo(l, types, maxParam, r)
  {
    hide Lo, Hi, FullFrameSize, IsFrameLayout, Statics.SizeOf, SlotStart;
    RegionPlaced(l, saved, untypedSlots, types, maxParam, r);
    RegionPlaced(l, saved, untypedSlots, types, maxParam, q);
    SlotsGrow(untypedSlots, types, 0, |types|);
    if r.Typed? { BetweenSlots(untypedSlots, types, r.slot); }
    if q.Typed? { BetweenSlots(untypedSlots, types, q.slot); }
    if r.Typed? && q.Typed? {
      var i, j := if r.slot < q.slot then r.slot else q.slot, if r.slot < q.slot then q.slot else r.slot;
      SlotsGrow(untypedSlots, types, i, j);
    }
  }

  /** Each recorded reference lies inside the typed slot it belongs to, and the references are apart. */
  lemma {:induction false} RefsInSlots(untypedSlots: nat, types: seq<Ty>, n: nat)
    requires n <= |types| && forall i :: 0 <= i < n ==> Known(types[i])
    ensures Spaced(SlotRefs(untypedSlots, types, n), SLOT * untypedSlots, SlotStart(untypedSlots, types, n))
    ensures forall x :: x in SlotRefs(untypedSlots, types, n) ==>
            exists i :: 0 <= i < n && InSlot(untypedSlots, types, i, x)
  {
    hide Statics.SizeOf, AlignUp, Spaced, Refs, ShapeOf, InSlot;
    if n == 0 {
      NoneSpaced(SLOT * untypedSlots, SLOT * untypedSlots);
    } else {
      var t, lo := types[n - 1], SlotStart(untypedSlots, types, n - 1);
      RefsInSlots(untypedSlots, types, n - 1);
      SlotsGrow(untypedSlots, types, n - 1, n);
      Statics.KnownSize(t);
      RefsSpaced(t, lo);
      SpacedWiden(Refs(t, lo), lo, lo + Statics.SizeOf(t), lo, SlotStart(untypedSlots, types, n));
      SpacedConcat(SlotRefs(untypedSlots, types, n - 1), Refs(t, lo), SLOT * untypedSlots, lo,
          SlotStart(untypedSlots, types, n));
      forall x | x in Refs(t, lo) ensures InSlot(untypedSlots, types, n - 1, x) {
        RefInSlot(untypedSlots, types, n - 1, x);
      }
    }
  }

  /** A reference at `x` fits between the bounds of slot `i`, where its type has one. */
  ghost predicate InSlot(untypedSlots: nat, types: seq<Ty>, i: nat, x: nat)
    requires i < |types|
  {
    var lo := SlotStart(untypedSlots, types, i);
    lo <= x && x + POINTER_SIZE <= lo + Statics.SizeOf(types[i]) && HasRefAt(types[i], x - lo)
  }

  lemma RefInSlot(untypedSlots: nat, types: seq<Ty>, i: nat, x: nat)
    requires i < |types| && Known(types[i]) && x in Refs(types[i], SlotStart(untypedSlots, types, i))
    ensures InSlot(untypedSlots, types, i, x)
  {
    hide Statics.SizeOf, Refs, ShapeOf, SlotStart, HasRefAt;
    var lo := SlotStart(untypedSlots, types, i);
    Statics.KnownSize(types[i]);
    RefsSpaced(types[i], lo);
    RefsExact(types[i], lo, x);
    var k :| 0 <= k < |Refs(types[i], lo)| && Refs(types[i], lo)[k] == x;
  }

  /** A location is recorded exactly when some typed slot has a reference there. */
  lemma {:induction false} RefsRecorded(untypedSlots: nat, types: seq<Ty>, n: nat, x: nat)
    requires n <= |types|
    ensures x in SlotRefs(untypedSlots, types, n) <==>
            exists i :: 0 <= i < n && HasRefAt(types[i], x - SlotStart(untypedSlots, types, i))
  {
    hide Statics.SizeOf, Refs, ShapeOf, SlotStart, HasRefAt;
    if n > 0 {
      RefsRecorded(untypedSlots, types, n - 1, x);
      RefsExact(types[n - 1], SlotStart(untypedSlots, types, n - 1), x);
    }
  }
}
