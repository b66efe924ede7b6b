/** What the code staged for a foreign call does to the processor: every demand, every struct
    copy and every pointer ends up where the allocator put it. */
module Delivery {
  import opened Machine
  import opened MoveEmission
  import opened Resolution
  import opened StructAbi
  import opened Abi
  import opened Demands
  import opened Staging

  /** The word at a destination: a register or a slot of the outgoing parameter area. */
  ghost predicate AtLoc(c: Cpu, fr: Frame, l: Location, v: Word) {
    && (0 <= l < VIRT_IREGS ==> IRegOf(c, l) == v)
    && (VIRT_IREGS <= l < REG_COUNT ==> FRegOf(c, l - VIRT_IREGS) == v)
    && (REG_COUNT <= l ==> WordAt(c.mem, fr.Bot() + 8 * (l - REG_COUNT)) == v)
  }

  /** The word at a source: a register or an untyped slot of the frame. */
  function SourceWord(c: Cpu, fr: Frame, l: Location): Word {
    if 0 <= l < VIRT_IREGS then IRegOf(c, l)
    else if VIRT_IREGS <= l < REG_COUNT then FRegOf(c, l - VIRT_IREGS)
    else if REG_COUNT <= l then WordAt(c.mem, fr.start - fr.size + 8 * (l - REG_COUNT))
    else 0
  }

  lemma SourceIsAbstract(c: Cpu, fr: Frame, l: Location)
    requires c.Valid()
    ensures Abstract(c, fr).Get(l) == SourceWord(c, fr, l)
  {
    hide Load;
  }

  lemma HeldAtLoc(c: Cpu, s: State, fr: Frame, l: Location, v: Word)
    requires Represents(c, s, fr) && Holds(s, l, v)
    ensures AtLoc(c, fr, l, v)
  {
    hide MemoryMatches, Load;
  }

  // ---- Conditions on the frame and the sources ----

  /** The bytes of a struct, and the rest of its last word, avoid the outgoing parameter area. */
  ghost predicate RegionClear(addr: int, size: nat, fr: Frame) {
    addr + size + 8 <= fr.Bot() || fr.Bot() + fr.paramSize <= addr
  }

  ghost predicate WhatGood(w: What, s: State, fr: Frame) {
    match w
    case Copy(src) => SourceFits(src, fr)
    case Fetch(addr, offset, _) => SourceFits(addr, fr) && Clear(s.Get(addr) + offset, fr)
  }

  ghost predicate CopyGood(x: StructCopy, s: State, fr: Frame) {
    x.size > 0 && SourceFits(x.srcAddr, fr) && RegionClear(s.Get(x.srcAddr), x.size, fr)
  }

  ghost predicate StagedGood(st: Staged, s: State, fr: Frame) {
    && (forall x :: x in st.demands ==> WhatGood(x.what, s, fr))
    && (forall x :: x in st.copies ==> CopyGood(x, s, fr))
  }

  /** An argument in the frame is an addressable slot; a struct lies outside the parameter area. */
  ghost predicate ArgGood(p: Param, arg: Location, s: State, fr: Frame) {
    && SourceFits(arg, fr)
    && (p.Struct? && p.layout.Some? ==> RegionClear(s.Get(arg), p.layout.value.size, fr))
  }

  lemma WordsGood(base: nat, addr: Location, size: nat, s: State, fr: Frame)
    requires SourceFits(addr, fr) && RegionClear(s.Get(addr), size, fr)
    ensures forall x :: x in Words(base, addr, size) ==> WhatGood(x.what, s, fr)
  {
  }

  lemma PiecesGood(
    d: PlatformDescription, pieces: seq<Piece>, addr: Location, c: Counters, size: nat, s: State, fr: Frame)
    requires SourceFits(addr, fr) && RegionClear(s.Get(addr), size, fr)
    requires forall k :: 0 <= k < |pieces| ==> pieces[k].offset < size
    ensures forall x :: x in PieceDemands(d, pieces, addr, c) ==> WhatGood(x.what, s, fr)
  {
  }

  lemma ParamGood(
    d: PlatformDescription, p: Param, plan: Plan, varArg: bool, arg: Location, st: Staged, s: State, fr: Frame)
    requires StagedGood(st, s, fr) && ArgGood(p, arg, s, fr)
    requires p.Struct? && p.layout.Some? && plan.passBy == Regs ==>
               forall k :: 0 <= k < |plan.pieces| ==> plan.pieces[k].offset < p.layout.value.size
    requires p.Struct? && p.layout.Some? && plan.passBy == PassBy.Ref ==> p.layout.value.size > 0
    ensures StagedGood(StageParam(d, p, plan, varArg, arg, st), s, fr)
  {
    if p.Struct? && p.layout.Some? {
      WordsGood(st.ctr.slot, arg, p.layout.value.size, s, fr);
      if plan.passBy == Regs { PiecesGood(d, plan.pieces, arg, st.ctr, p.layout.value.size, s, fr); }
    }
    hide Words, PieceDemands, RegionClear, SourceFits, Clear, AfterPieces;
  }

  ghost predicate ArgsGood(params: seq<Param>, args: seq<Location>, s: State, fr: Frame) {
    forall j :: 0 <= j < |params| ==> ArgGood(params[j], ArgOf(params[..j], args), s, fr)
  }

  lemma PiecesInside(
    d: PlatformDescription, params: seq<Param>, plans: seq<Plan>, args: seq<Location>, st0: Staged, j: nat)
    requires j < |params| && PlansFit(d, params, plans, args, st0) && ArgsOk(params, args)
    ensures params[j].Struct? && params[j].layout.Some? && plans[j].passBy == Regs ==>
              forall k :: 0 <= k < |plans[j].pieces| ==> plans[j].pieces[k].offset < params[j].layout.value.size
    ensures params[j].Struct? && params[j].layout.Some? && plans[j].passBy == PassBy.Ref ==>
            params[j].layout.value.size > 0
  {
    assert PlanFits(d, params, plans, args, st0, j) && ArgOk(params[j], ArgOf(params[..j], args));
    if params[j].Struct? && params[j].layout.Some? && plans[j].passBy in {Regs, PassBy.Ref} {
      var layout := params[j].layout.value;
      var c := StageParams(d, params[..j], plans[..j], args, st0).ctr;
      hide IsChosen, IsPlan;
      ChosenMeaning(d.cAbi, layout.fields, layout.size, VarArgLabel in params[..j] && d.onlyOnStackVarargs,
                    |d.iregHead| - c.iarg, |d.fregHead| - c.farg, plans[j]);
      forall k | plans[j].passBy == Regs && 0 <= k < |plans[j].pieces| ensures plans[j].pieces[k].offset < layout.size {
        PlanPieces(d.cAbi, layout.fields, layout.size, plans[j], k);
      }
    }
  }

  lemma {:induction false} ParamsGood(
    d: PlatformDescription, params: seq<Param>, plans: seq<Plan>, args: seq<Location>, st0: Staged, s: State, fr: Frame)
    requires |plans| == |params| && PlansFit(d, params, plans, args, st0) && ArgsOk(params, args)
    requires StagedGood(st0, s, fr) && ArgsGood(params, args, s, fr)
    ensures StagedGood(StageParams(d, params, plans, args, st0), s, fr)
  {
    hide StagedGood, StageParam, ArgGood, PlansFit, ArgsOk, ArgOf;
    if params != [] {
      var n := |params| - 1;
      PlansPrefix(d, params, plans, args, st0);
      GoodPrefix(params, args, s, fr);
      PiecesInside(d, params, plans, args, st0, n);
      ParamsGood(d, params[..n], plans[..n], args, st0, s, fr);
      ParamGood(d, params[n], plans[n], VarArgLabel in params[..n], ArgOf(params[..n], args),
                StageParams(d, params[..n], plans[..n], args, st0), s, fr);
    }
  }

  lemma GoodPrefix(params: seq<Param>, args: seq<Location>, s: State, fr: Frame)
    requires ArgsGood(params, args, s, fr) && params != []
    ensures ArgsGood(params[..|params| - 1], args, s, fr)
  {
    var n := |params| - 1;
    forall j | 0 <= j < n ensures ArgGood(params[..n][j], ArgOf(params[..n][..j], args), s, fr) {
      assert params[..n][..j] == params[..j];
    }
  }

  /** The words of copies read their structs only. */
  lemma {:induction false} CopyWordsGood(copies: seq<StructCopy>, base: nat, s: State, fr: Frame)
    requires forall x :: x in copies ==> CopyGood(x, s, fr)
    ensures forall x :: x in CopyWords(copies, base) ==> WhatGood(x.what, s, fr)
  {
    if copies != [] {
      hide Words, WhatGood, SourceFits, RegionClear, CopySlots;
      var n := |copies| - 1;
      CopyWordsGood(copies[..n], base, s, fr);
      assert CopyGood(copies[n], s, fr);
      WordsGood(base + CopySlots(copies[..n]), copies[n].srcAddr, copies[n].size, s, fr);
    }
  }

  // ---- The resolved moves ----

  /** The code of the resolved moves meets all demands and leaves memory outside the parameter
      area as it was. */
  lemma {:induction false} DemandsDelivered(ds: seq<Demand>, ops: seq<Op>, iTemp: Reg, fTemp: Reg, c: Cpu, fr: Frame)
    returns (t: State)
    requires DemandsOk(ds) && !IsTarget(ds, iTemp) && !IsTarget(ds, fTemp)
    requires fr.Valid() && c.Valid() && DemandsFit(ds, fr) && AllFrom(AssignmentsOf(ds), ops)
    requires forall x :: x in ds ==> WhatGood(x.what, Abstract(c, fr), fr)
    requires Assigned(AssignmentsOf(ds), iTemp, fTemp, Abstract(c, fr), Exec(ops, Abstract(c, fr)))
    ensures t == Exec(ops, Abstract(c, fr)) && Represents(Run(LowerAll(ops, fr.size), c, fr), t, fr)
    ensures forall x :: x in ds ==> Holds(t, x.dst, DemandValue(x, Abstract(c, fr)))
  {
    hide DemandsOk, DemandsFit, AssignmentsOf, Abstract, Represents, LowerAll, Run, Holds, OpFrom, Lowerable, Clear,
      IsTarget;
    var s := Abstract(c, fr);
    t := Exec(ops, s);
    AbstractRepresents(c, fr);
    forall op | op in ops ensures Lowerable(op, fr) { DemandsLowerable(ds, fr, op); }
    forall a | a in t.loaded ensures Clear(a, fr) {
      NothingLoaded(c, fr);
      LoadsClear(ds, s, fr, a);
    }
    LowerAllRefines(ops, c, s, fr);
    forall x | x in ds ensures Holds(t, x.dst, DemandValue(x, s)) {
      var k :| 0 <= k < |ds| && ds[k] == x;
      hide Assigned;
      DemandsMet(ds, iTemp, fTemp, s, t, k);
    }
  }

  lemma NothingLoaded(c: Cpu, fr: Frame)
    requires c.Valid()
    ensures Abstract(c, fr).loaded == {}
  {
  }

  lemma LoadsClear(ds: seq<Demand>, s: State, fr: Frame, a: int)
    requires LoadsFrom(AssignmentsOf(ds), s, a) && forall x :: x in ds ==> WhatGood(x.what, s, fr)
    ensures Clear(a, fr)
  {
    DemandLoads(ds, s, a);
    hide LoadsFrom, AssignmentsOf, Clear, SourceFits;
    var k :| 0 <= k < |ds| && ds[k].what.Fetch? && a == s.Get(ds[k].what.addr) + ds[k].what.offset;
    assert WhatGood(ds[k].what, s, fr);
  }

  // ---- The pointers of copies ----

  /** LeaStackParam of a copy, into the register or through the accumulator into the slot; its offset has
      16 bits. */
  function CopyPointer(ptr: Location, offset: nat): seq<Instr> {
    if KindOf(ptr) == Kind.Slot then
      [LeaStackParam(ACC, AsU16(offset)), StackParam(ACC, AsU16(AsU16(ptr - REG_COUNT) * 8))]
    else if ptr >= 0 then [LeaStackParam(ptr, AsU16(offset))]
    else []
  }

  function CopyOffset(copies: seq<StructCopy>, base: nat): nat { STACK_SLOT * (base + CopySlots(copies)) }

  function PointerCode(copies: seq<StructCopy>, base: nat): seq<Instr> {
    if copies == [] then [] else
      var n := |copies| - 1;
      PointerCode(copies[..n], base) + CopyPointer(copies[n].ptrLoc, CopyOffset(copies[..n], base))
  }

  function PutPointers(copies: seq<StructCopy>, base: nat, fr: Frame, s: State): State {
    if copies == [] then s else
      var n := |copies| - 1;
      PutPointers(copies[..n], base, fr, s).Put(copies[n].ptrLoc, AddrWord(fr.Bot() + CopyOffset(copies[..n], base)))
  }

  predicate PtrFits(ptr: Location, fr: Frame) {
    KindOf(ptr) in {Kind.IReg, Kind.Slot} && (KindOf(ptr) == Kind.Slot ==> ParamFits(ptr - REG_COUNT, fr))
  }

  lemma RepresentsValid(c: Cpu, s: State, fr: Frame)
    requires Represents(c, s, fr)
    ensures c.Valid() && s.Valid()
  {
  }

  /** The copies' offsets are exact in 16 bits. */
  ghost predicate OffsetsFit(copies: seq<StructCopy>, base: nat) {
    forall m :: 0 <= m < |copies| ==> CopyOffset(copies[..m], base) < 0x1_0000
  }

  /** So they are when no copy is empty and all lie below 65536. */
  lemma NonEmptyFit(copies: seq<StructCopy>, base: nat)
    requires CopyOffset(copies, base) <= 0x1_0000 && forall m :: 0 <= m < |copies| ==> copies[m].size > 0
    ensures OffsetsFit(copies, base)
  {
    hide CopySlots, CopyWords, Words;
    forall m | 0 <= m < |copies| ensures CopyOffset(copies[..m], base) < 0x1_0000 { CopyWordsOf(copies, base, m); }
  }

  lemma FitPrefix(copies: seq<StructCopy>, base: nat)
    requires OffsetsFit(copies, base) && copies != []
    ensures OffsetsFit(copies[..|copies| - 1], base) && CopyOffset(copies[..|copies| - 1], base) < 0x1_0000
  {
    hide CopyOffset;
    var n := |copies| - 1;
    forall m | 0 <= m < n ensures CopyOffset(copies[..n][..m], base) < 0x1_0000 {
      assert copies[..n][..m] == copies[..m];
    }
  }

  lemma SmallIsExact(offset: nat)
    requires offset < 0x1_0000
    ensures AsU16(offset) == offset
  {
  }

  lemma CopyPointerRuns(ptr: Location, offset: nat, c: Cpu, s: State, fr: Frame)
    requires Represents(c, s, fr) && PtrFits(ptr, fr) && offset < 0x1_0000
    ensures Represents(Run(CopyPointer(ptr, offset), c, fr), s.Put(ptr, AddrWord(fr.Bot() + offset)), fr)
  {
    hide Represents, AsU16, Run, State.Put;
    SmallIsExact(offset);
    var v := AddrWord(fr.Bot() + offset);
    RepresentsValid(c, s, fr);
    if KindOf(ptr) == Kind.Slot {
      SlotPointerRuns(ptr - REG_COUNT, offset, c, fr);
      AccWritten(c, s, fr, v);
      WriteParam(PutIReg(c, ACC, v), s, fr, ptr - REG_COUNT, v);
    } else {
      RunOne(LeaStackParam(ptr, offset), c, fr);
      RegisterWritten(c, s, fr, ptr, v);
    }
  }

  lemma SlotPointerRuns(k: nat, offset: nat, c: Cpu, fr: Frame)
    requires c.Valid() && ParamFits(k, fr) && offset < 0x1_0000
    ensures var v := AddrWord(fr.Bot() + offset);
            Run(CopyPointer(SlotLocation(k), offset), c, fr) == Moved(PutIReg(c, ACC, v), SlotLocation(k), v, fr)
  {
    var lea, st := LeaStackParam(ACC, offset), StackParam(ACC, AsU16(AsU16(k) * 8));
    assert [lea] + [st] == CopyPointer(SlotLocation(k), offset);
    RunAppend([lea], st, c, fr);
    RunOne(lea, c, fr);
    ParamOffsetExact(k);
  }

  lemma {:induction false} PointersRun(copies: seq<StructCopy>, base: nat, c: Cpu, s: State, fr: Frame)
    requires Represents(c, s, fr) && OffsetsFit(copies, base) && forall x :: x in copies ==> PtrFits(x.ptrLoc, fr)
    ensures Represents(Run(PointerCode(copies, base), c, fr), PutPointers(copies, base, fr, s), fr)
  {
    hide Represents, CopyPointer, PtrFits, CopyOffset, OffsetsFit;
    if copies != [] {
      var n := |copies| - 1;
      FitPrefix(copies, base);
      PointersRun(copies[..n], base, c, s, fr);
      RunConcat(PointerCode(copies[..n], base), CopyPointer(copies[n].ptrLoc, CopyOffset(copies[..n], base)), c, fr);
      CopyPointerRuns(copies[n].ptrLoc, CopyOffset(copies[..n], base), Run(PointerCode(copies[..n], base), c, fr),
                      PutPointers(copies[..n], base, fr, s), fr);
    }
  }

  lemma PutHolds(s: State, l: Location, v: Word)
    requires s.Valid() && l >= 0
    ensures Holds(s.Put(l, v), l, v)
    ensures forall x, w :: x != l && Holds(s, x, w) ==> Holds(s.Put(l, v), x, w)
  {
  }

  lemma {:induction false} PointersHold(copies: seq<StructCopy>, base: nat, fr: Frame, s: State)
    requires s.Valid()
    requires forall m :: 0 <= m < |copies| ==> copies[m].ptrLoc >= 0
    requires forall m, n :: 0 <= m < n < |copies| ==> copies[m].ptrLoc != copies[n].ptrLoc
    ensures PutPointers(copies, base, fr, s).Valid()
    ensures forall m :: 0 <= m < |copies| ==>
              Holds(PutPointers(copies, base, fr, s), copies[m].ptrLoc,
                  AddrWord(fr.Bot() + CopyOffset(copies[..m], base)))
    ensures forall x, w :: !IsPtr(copies, x) && Holds(s, x, w) ==> Holds(PutPointers(copies, base, fr, s), x, w)
  {
    hide Holds, AddrWord, CopyOffset;
    if copies != [] {
      var n := |copies| - 1;
      var t := PutPointers(copies[..n], base, fr, s);
      PointersHold(copies[..n], base, fr, s);
      PutHolds(t, copies[n].ptrLoc, AddrWord(fr.Bot() + CopyOffset(copies[..n], base)));
      forall m | 0 <= m < |copies|
        ensures Holds(PutPointers(copies, base, fr, s), copies[m].ptrLoc,
                AddrWord(fr.Bot() + CopyOffset(copies[..m], base)))
      {
        if m < n { assert copies[..n][..m] == copies[..m]; }
      }
      forall x, w | !IsPtr(copies, x) && Holds(s, x, w) ensures Holds(PutPointers(copies, base, fr, s), x, w) {
        NotPtr(copies, x);
      }
    }
  }

  lemma NotPtr(copies: seq<StructCopy>, x: Location)
    requires copies != [] && !IsPtr(copies, x)
    ensures !IsPtr(copies[..|copies| - 1], x) && copies[|copies| - 1].ptrLoc != x
  {
    var n := |copies| - 1;
    forall m | 0 <= m < n ensures copies[..n][m].ptrLoc != x { assert copies[m].ptrLoc != x; }
  }
}
