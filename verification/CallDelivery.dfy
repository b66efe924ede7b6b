/** The whole code of a staged foreign call: moves, then pointers of copies, then the accumulator. */
module CallDelivery {
  import opened Wrappers
  import opened Machine
  import opened MoveEmission
  import opened Resolution
  import opened StructAbi
  import opened Abi
  import opened Demands
  import opened Staging
  import opened Delivery

  // ---- The accumulator ----

  /** Loads the address of a result that comes back in registers, from its spill slot or from the frame. */
  function AccCode(retPlan: Option<Plan>, args: seq<Location>, spill: nat, frameSize: nat): seq<Instr> {
    if !SretKept(retPlan) then []
    else if SretSpilled(retPlan, args) then
      [LeaStackParam(ACC, AsU16(spill * STACK_SLOT)), LoadRec(LoadKind.U64, ACC, ACC, 0)]
    else [LoadFrame(LoadKind.U64, ACC, UntypedSlotOffset(LastArg(args) - REG_COUNT, frameSize))]
  }

  /** Addresses of the frame are 64-bit addresses. */
  ghost predicate InAddressSpace(fr: Frame) { 0 <= fr.Bot() && fr.start < 0x1_0000_0000_0000_0000 }

  lemma SpilledAcc(c: Cpu, t: State, fr: Frame, spill: nat, v: Word)
    requires Represents(c, t, fr) && Holds(t, SlotLocation(spill), v) && fr.Valid() && InAddressSpace(fr)
    requires fr.paramSize <= 0x1_0000
    ensures Run([LeaStackParam(ACC, AsU16(spill * STACK_SLOT)), LoadRec(LoadKind.U64, ACC, ACC, 0)], c, fr)
            == PutIReg(c, ACC, v)
  {
    hide Load, MemoryMatches, RegsMatch;
    RepresentsValid(c, t, fr);
    SmallIsExact(spill * STACK_SLOT);
    var lea, load := LeaStackParam(ACC, AsU16(spill * STACK_SLOT)), LoadRec(LoadKind.U64, ACC, ACC, 0);
    assert [lea] + [load] == [lea, load];
    RunAppend([lea], load, c, fr);
    RunOne(lea, c, fr);
    assert WordAt(c.mem, fr.Bot() + 8 * spill) == v;
  }

  lemma FrameAcc(c: Cpu, t: State, fr: Frame, slot: nat)
    requires Represents(c, t, fr) && fr.Valid() && SlotFits(slot, fr)
    ensures Run([LoadFrame(LoadKind.U64, ACC, UntypedSlotOffset(slot, fr.size))], c, fr)
            == PutIReg(c, ACC, t.slots(slot))
  {
    hide Load, RegsMatch;
    RepresentsValid(c, t, fr);
    RunOne(LoadFrame(LoadKind.U64, ACC, UntypedSlotOffset(slot, fr.size)), c, fr);
    SlotRead(c, t, fr, slot);
  }

  lemma AccRuns(retPlan: Option<Plan>, args: seq<Location>, spill: nat, c: Cpu, t: State, fr: Frame, v: Word)
    requires Represents(c, t, fr) && fr.Valid() && InAddressSpace(fr) && SourceFits(LastArg(args), fr)
    requires fr.paramSize <= 0x1_0000
    requires SretKept(retPlan) ==>
               if SretSpilled(retPlan, args) then Holds(t, SlotLocation(spill), v) else t.Get(LastArg(args)) == v
    ensures var r := Run(AccCode(retPlan, args, spill, fr.size), c, fr);
            Represents(r, t, fr) && (SretKept(retPlan) ==> IRegOf(r, ACC) == v)
  {
    hide Represents, Run, Holds, State.Get;
    if SretKept(retPlan) {
      RepresentsValid(c, t, fr);
      AccWritten(c, t, fr, v);
      if SretSpilled(retPlan, args) {
        SpilledAcc(c, t, fr, spill, v);
      } else {
        FrameAcc(c, t, fr, LastArg(args) - REG_COUNT);
        SlotGet(t, LastArg(args));
      }
    } else {
      NoCode(c, fr);
    }
  }

  lemma NoCode(c: Cpu, fr: Frame)
    ensures Run([], c, fr) == c
  {
  }

  lemma SlotGet(t: State, l: Location)
    requires t.Valid() && l >= REG_COUNT
    ensures t.Get(l) == t.slots(l - REG_COUNT)
  {
  }

  // ---- All of it ----

  function CallCode(
    ops: seq<Op>, st: Staged, retPlan: Option<Plan>, args: seq<Location>, spill: nat, frameSize: nat): seq<Instr> {
    LowerAll(ops, frameSize) + PointerCode(st.copies, st.ctr.slot) + AccCode(retPlan, args, spill, frameSize)
  }

  /** The size of the outgoing area that the call needs. */
  function CallArea(st: Staged): nat { CopyOffset(st.copies, st.ctr.slot) }

  /** The frame of the rewritten method: parameter offsets fit their 16-bit encoding. */
  ghost predicate CallFrame(fr: Frame, st: Staged) {
    fr.Valid() && InAddressSpace(fr) && CallArea(st) <= fr.paramSize <= 0x1_0000
  }

  ghost predicate AllHold(t: State, ds: seq<Demand>, s: State) {
    forall x :: x in ds ==> Holds(t, x.dst, DemandValue(x, s))
  }

  ghost predicate PtrsHold(t: State, st: Staged, fr: Frame) {
    forall m :: 0 <= m < |st.copies| ==>
      Holds(t, st.copies[m].ptrLoc, AddrWord(fr.Bot() + CopyOffset(st.copies[..m], st.ctr.slot)))
  }

  ghost predicate Resolved(ops: seq<Op>, ds: seq<Demand>, iTemp: Reg, fTemp: Reg) {
    && AllFrom(AssignmentsOf(ds), ops)
    && forall s: State :: s.Valid() ==> Assigned(AssignmentsOf(ds), iTemp, fTemp, s, Exec(ops, s))
  }

  lemma CallFits(d: PlatformDescription, st: Staged, s: State, fr: Frame)
    requires d.Valid() && StagingOk(d, st) && CallFrame(fr, st) && StagedGood(st, s, fr)
    ensures DemandsFit(AllDemands(st), fr)
    ensures forall x :: x in AllDemands(st) ==> WhatGood(x.what, s, fr)
    ensures forall x :: x in st.copies ==> PtrFits(x.ptrLoc, fr)
    ensures OffsetsFit(st.copies, st.ctr.slot)
  {
    hide PlatformDescription.Valid, Clear, AllDemands, CopySlots, WhatGood, Owned, OffsetsFit;
    AllDemandsOk(d, st);
    DemandsGood(st, s, fr);
    GoodFit(st, s, fr);
    forall i | 0 <= i < |AllDemands(st)|
      ensures KindOf(AllDemands(st)[i].dst) == Kind.Slot ==> ParamFits(AllDemands(st)[i].dst - REG_COUNT, fr)
      ensures var w := AllDemands(st)[i].what; SourceFits(if w.Copy? then w.src else w.addr, fr)
    {
      var x := AllDemands(st)[i];
      assert IsTarget(AllDemands(st), x.dst);
      assert WhatGood(x.what, s, fr);
      GoodFits(x.what, s, fr);
      ParamRegIsReg(d, x.dst);
    }
    forall x | x in st.copies ensures PtrFits(x.ptrLoc, fr) {
      assert IsPtr(st.copies, x.ptrLoc);
      ParamRegIsReg(d, x.ptrLoc);
    }
  }

  lemma GoodFit(st: Staged, s: State, fr: Frame)
    requires StagedGood(st, s, fr) && CallArea(st) <= 0x1_0000
    ensures OffsetsFit(st.copies, st.ctr.slot)
  {
    hide RegionClear, SourceFits, WhatGood, OffsetsFit, CopyOffset;
    forall m | 0 <= m < |st.copies| ensures st.copies[m].size > 0 { assert CopyGood(st.copies[m], s, fr); }
    NonEmptyFit(st.copies, st.ctr.slot);
  }

  lemma GoodFits(w: What, s: State, fr: Frame)
    requires WhatGood(w, s, fr)
    ensures SourceFits(if w.Copy? then w.src else w.addr, fr)
  {
  }

  lemma ParamRegIsReg(d: PlatformDescription, l: Location)
    ensures d.IsParamReg(l) ==> IsReg(l)
  {
  }

  lemma DemandsGood(st: Staged, s: State, fr: Frame)
    requires StagedGood(st, s, fr)
    ensures forall x :: x in AllDemands(st) ==> WhatGood(x.what, s, fr)
  {
    hide WhatGood;
    CopyWordsGood(st.copies, st.ctr.slot, s, fr);
  }

  /** The moves alone. */
  lemma MovesRun(d: PlatformDescription, st: Staged, ops: seq<Op>, iTemp: Reg, fTemp: Reg, c: Cpu, fr: Frame)
    returns (t: State)
    requires d.Valid() && StagingOk(d, st) && !d.IsParamReg(iTemp) && !d.IsParamReg(fTemp)
    requires Resolved(ops, AllDemands(st), iTemp, fTemp)
    requires c.Valid() && CallFrame(fr, st) && StagedGood(st, Abstract(c, fr), fr)
    ensures Represents(Run(LowerAll(ops, fr.size), c, fr), t, fr)
    ensures AllHold(t, AllDemands(st), Abstract(c, fr)) && t.slots == Abstract(c, fr).slots
  {
    var s := Abstract(c, fr);
    AllDemandsOk(d, st);
    hide Abstract, Represents, AllDemands, LowerAll, Run, Holds, DemandValue, AssignmentsOf, StagedGood,
      PlatformDescription.Valid, PlatformDescription.IsParamReg, DemandsOk, WhatGood, Assigned, CopySlots, PtrFits;
    CallFits(d, st, s, fr);
    t := DemandsDelivered(AllDemands(st), ops, iTemp, fTemp, c, fr);
  }

  /** The pointers disturb no demand. */
  lemma PointersDelivered(d: PlatformDescription, st: Staged, c: Cpu, t: State, s: State, fr: Frame) returns (r: State)
    requires d.Valid() && StagingOk(d, st) && Represents(c, t, fr) && AllHold(t, AllDemands(st), s)
    requires OffsetsFit(st.copies, st.ctr.slot) && forall x :: x in st.copies ==> PtrFits(x.ptrLoc, fr)
    ensures Represents(Run(PointerCode(st.copies, st.ctr.slot), c, fr), r, fr)
    ensures AllHold(r, AllDemands(st), s) && PtrsHold(r, st, fr) && r.slots == t.slots
  {
    hide Represents, AllDemands, Run, PointerCode, PutPointers, Holds, DemandValue, StagingOk, PtrFits, CopyOffset,
      OffsetsFit, PlatformDescription.Valid, PlatformDescription.IsParamReg, DemandsOk, CopySlots;
    AllDemandsOk(d, st);
    PointersRun(st.copies, st.ctr.slot, c, t, fr);
    RepresentsValid(c, t, fr);
    r := PutPointers(st.copies, st.ctr.slot, fr, t);
    CopiesNonneg(d, st);
    PointersHold(st.copies, st.ctr.slot, fr, t);
    forall x | x in AllDemands(st) ensures Holds(r, x.dst, DemandValue(x, s)) {
      IsTargetOf(AllDemands(st), x);
    }
    PointersKeepSlots(st.copies, st.ctr.slot, fr, t);
  }

  lemma IsTargetOf(ds: seq<Demand>, x: Demand)
    requires x in ds
    ensures IsTarget(ds, x.dst)
  {
  }

  lemma CopiesNonneg(d: PlatformDescription, st: Staged)
    requires StagingOk(d, st)
    ensures forall m :: 0 <= m < |st.copies| ==> st.copies[m].ptrLoc >= 0
    ensures forall m, n :: 0 <= m < n < |st.copies| ==> st.copies[m].ptrLoc != st.copies[n].ptrLoc
  {
  }

  lemma {:induction false} PointersKeepSlots(copies: seq<StructCopy>, base: nat, fr: Frame, s: State)
    ensures PutPointers(copies, base, fr, s).slots == s.slots
  {
    if copies != [] { PointersKeepSlots(copies[..|copies| - 1], base, fr, s); }
  }

  /** The address of the result, wherever it was, is available to the accumulator's code. */
  ghost predicate SretReady(retPlan: Option<Plan>, args: seq<Location>, spill: nat, st: Staged) {
    SretSpilled(retPlan, args) ==> Demand(SlotLocation(spill), Copy(LastArg(args))) in st.demands
  }

  /** The staged code as a whole, from any processor state. */
  lemma CallRuns(
    d: PlatformDescription, st: Staged, retPlan: Option<Plan>, args: seq<Location>, spill: nat,
    ops: seq<Op>, iTemp: Reg, fTemp: Reg, c: Cpu, fr: Frame)
    returns (t: State)
    requires d.Valid() && StagingOk(d, st) && !d.IsParamReg(iTemp) && !d.IsParamReg(fTemp)
    requires Resolved(ops, AllDemands(st), iTemp, fTemp) && SretReady(retPlan, args, spill, st)
    requires c.Valid() && CallFrame(fr, st) && StagedGood(st, Abstract(c, fr), fr) && SourceFits(LastArg(args), fr)
    ensures var after := Run(CallCode(ops, st, retPlan, args, spill, fr.size), c, fr);
            && Represents(after, t, fr) && AllHold(t, AllDemands(st), Abstract(c, fr)) && PtrsHold(t, st, fr)
            && (SretKept(retPlan) ==> IRegOf(after, ACC) == Abstract(c, fr).Get(LastArg(args)))
  {
    hide Abstract, Represents, AllDemands, LowerAll, Run, PointerCode, PtrsHold, AllHold, StagedGood, StagingOk,
      Resolved, PlatformDescription.Valid, PlatformDescription.IsParamReg, SretReady, AccCode, State.Get, PtrFits,
      OffsetsFit;
    var s := Abstract(c, fr);
    var moves, ptrs, acc := LowerAll(ops, fr.size), PointerCode(st.copies, st.ctr.slot),
        AccCode(retPlan, args, spill, fr.size);
    var t1 := MovesRun(d, st, ops, iTemp, fTemp, c, fr);
    CallFits(d, st, s, fr);
    t := PointersDelivered(d, st, Run(moves, c, fr), t1, s, fr);
    RunConcat(moves, ptrs, c, fr);
    RunConcat(moves + ptrs, acc, c, fr);
    var mid := Run(moves + ptrs, c, fr);
    RepresentsValid(mid, t, fr);
    AccSource(retPlan, args, spill, st, s, t);
    AccRuns(retPlan, args, spill, mid, t, fr, s.Get(LastArg(args)));
  }

  lemma AccSource(retPlan: Option<Plan>, args: seq<Location>, spill: nat, st: Staged, s: State, t: State)
    requires SretReady(retPlan, args, spill, st) && AllHold(t, AllDemands(st), s)
    requires t.slots == s.slots && t.Valid() && s.Valid()
    ensures SretKept(retPlan) ==>
              if SretSpilled(retPlan, args) then Holds(t, SlotLocation(spill), s.Get(LastArg(args)))
              else t.Get(LastArg(args)) == s.Get(LastArg(args))
  {
    hide Holds;
    if SretSpilled(retPlan, args) {
      var x := Demand(SlotLocation(spill), Copy(LastArg(args)));
      assert x in AllDemands(st);
      assert DemandValue(x, s) == s.Get(LastArg(args));
    }
  }
}
