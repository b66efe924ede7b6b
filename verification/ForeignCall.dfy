/** StageForeignCallArgs as a whole: arguments, struct pieces, struct copies and the result address
    of a C call reach their places. */
module ForeignCall {
  import opened Wrappers
  import opened Machine
  import opened MoveEmission
  import opened Resolution
  import opened StructAbi
  import opened Abi
  import opened Demands
  import opened Staging
  import opened Delivery
  import opened CallDelivery

  // ---- What delivery means ----

  function ByteAt(m: Memory, a: int, i: nat): Byte { m(a + i) }

  /** The `n` bytes at `a'` in memory `m'` are those at `a` in `m`. */
  ghost predicate SameBytes(m: Memory, a: int, m': Memory, a': int, n: nat) {
    forall i: nat :: i < n ==> ByteAt(m', a', i) == ByteAt(m, a, i)
  }

  /** The argument of parameter `p` has arrived: `was` and `st` are the allocations before this
      parameter and after the whole call, `before` and `after` the processor around the code. */
  ghost predicate Delivered(
    d: PlatformDescription, p: Param, plan: Plan, varArg: bool, arg: Location,
    was: Staged, st: Staged, before: Cpu, after: Cpu, fr: Frame)
  {
    match p
    case VarArgLabel => true
    case VArray => AtLoc(after, fr, Next(d, was.ctr, false).0, SourceWord(before, fr, arg))
    case Scalar(kind) => AtLoc(after, fr, ScalarNext(d, kind, varArg, was.ctr).0, SourceWord(before, fr, arg))
    case Struct(layout) =>
      layout.Some? ==> StructDelivered(d, layout.value.size, plan, SourceWord(before, fr, arg), was, st, before, after,
          fr)
  }

  ghost predicate StructDelivered(
    d: PlatformDescription, size: nat, plan: Plan, addr: int, was: Staged, st: Staged, before: Cpu, after: Cpu,
    fr: Frame)
  {
    match plan.passBy
    case Empty => true
    case Regs => forall k :: 0 <= k < |plan.pieces| ==>
                   AtLoc(after, fr, PieceLoc(d, plan.pieces, k, was.ctr),
                         Load(before.mem, addr + plan.pieces[k].offset, PieceLoad(plan.pieces[k].kind)))
    case Stack => SameBytes(before.mem, addr, after.mem, fr.Bot() + STACK_SLOT * was.ctr.slot, size)
    case Ref =>
      && |was.copies| <= |st.copies|
      && var copy := fr.Bot() + CopyOffset(st.copies[..|was.copies|], st.ctr.slot);
         && AtLoc(after, fr, Next(d, was.ctr, false).0, AddrWord(copy))
         && SameBytes(before.mem, addr, after.mem, copy, size)
  }

  // ---- From demands to delivery ----

  /** What CallRuns establishes: `t` is represented after the code, and holds all demands. */
  ghost predicate Ran(st: Staged, s: State, t: State, before: Cpu, after: Cpu, fr: Frame) {
    && before.Valid() && s == Abstract(before, fr) && Represents(after, t, fr)
    && AllHold(t, AllDemands(st), s) && PtrsHold(t, st, fr)
  }

  lemma DemandArrives(st: Staged, s: State, t: State, before: Cpu, after: Cpu, fr: Frame, x: Demand)
    requires Ran(st, s, t, before, after, fr) && x in AllDemands(st)
    ensures AtLoc(after, fr, x.dst, DemandValue(x, s))
  {
    hide Represents, Abstract, AllDemands, DemandValue, AtLoc, Holds, PtrsHold;
    HeldAtLoc(after, t, fr, x.dst, DemandValue(x, s));
  }

  lemma CopyArrives(st: Staged, s: State, t: State, before: Cpu, after: Cpu, fr: Frame, src: Location, l: Location)
    requires Ran(st, s, t, before, after, fr) && Demand(l, Copy(src)) in st.demands
    ensures AtLoc(after, fr, l, SourceWord(before, fr, src))
  {
    hide Represents, Abstract, AllHold, AtLoc, PtrsHold, CopyWords;
    DemandArrives(st, s, t, before, after, fr, Demand(l, Copy(src)));
    SourceIsAbstract(before, fr, src);
  }

  lemma FetchValue(before: Cpu, fr: Frame, l: Location, addr: Location, offset: nat, ldk: LoadKind)
    requires before.Valid()
    ensures DemandValue(Demand(l, Fetch(addr, offset, ldk)), Abstract(before, fr))
         == Load(before.mem, SourceWord(before, fr, addr) + offset, ldk)
  {
    hide Load;
    SourceIsAbstract(before, fr, addr);
  }

  lemma PiecesArrive(
    d: PlatformDescription, pieces: seq<Piece>, arg: Location, c: Counters,
    st: Staged, s: State, t: State, before: Cpu, after: Cpu, fr: Frame)
    requires Ran(st, s, t, before, after, fr)
    requires forall x :: x in PieceDemands(d, pieces, arg, c) ==> x in st.demands
    ensures forall k :: 0 <= k < |pieces| ==>
              AtLoc(after, fr, PieceLoc(d, pieces, k, c),
                    Load(before.mem, SourceWord(before, fr, arg) + pieces[k].offset, PieceLoad(pieces[k].kind)))
  {
    hide Abstract, Represents, AllHold, PtrsHold, AtLoc, CopyWords, Load, DemandValue, PieceLoc, SourceWord;
    forall k | 0 <= k < |pieces|
      ensures AtLoc(after, fr, PieceLoc(d, pieces, k, c),
                    Load(before.mem, SourceWord(before, fr, arg) + pieces[k].offset, PieceLoad(pieces[k].kind)))
    {
      var x := PieceDemands(d, pieces, arg, c)[k];
      assert x in PieceDemands(d, pieces, arg, c);
      DemandArrives(st, s, t, before, after, fr, x);
      FetchValue(before, fr, x.dst, arg, pieces[k].offset, PieceLoad(pieces[k].kind));
    }
  }

  /** Words of a struct copied one by one make up its bytes. */
  lemma WordsArrive(
    base: nat, arg: Location, size: nat, st: Staged, s: State, t: State, before: Cpu, after: Cpu, fr: Frame)
    requires Ran(st, s, t, before, after, fr)
    requires forall x :: x in Words(base, arg, size) ==> x in AllDemands(st)
    ensures SameBytes(before.mem, SourceWord(before, fr, arg), after.mem, fr.Bot() + STACK_SLOT * base, size)
  {
    hide Ran, AllDemands, Load, SourceWord;
    assert before.Valid() by { RanValid(st, s, t, before, after, fr); }
    forall i: nat | i < size
      ensures ByteAt(after.mem, fr.Bot() + STACK_SLOT * base, i) == ByteAt(before.mem, SourceWord(before, fr, arg), i)
    {
      var k := i / STACK_SLOT;
      var x := Words(base, arg, size)[k];
      assert x in Words(base, arg, size);
      DemandArrives(st, s, t, before, after, fr, x);
      FetchValue(before, fr, x.dst, arg, 8 * k, LoadKind.U64);
      RanValid(st, s, t, before, after, fr);
      SameWordSameBytes(before.mem, SourceWord(before, fr, arg) + 8 * k, after.mem, fr.Bot() + 8 * (base + k),
          i - 8 * k);
    }
  }

  lemma RanValid(st: Staged, s: State, t: State, before: Cpu, after: Cpu, fr: Frame)
    requires Ran(st, s, t, before, after, fr)
    ensures before.Valid() && s == Abstract(before, fr)
  {
  }

  lemma SameWordSameBytes(m: Memory, a: int, m': Memory, a': int, i: nat)
    requires WordAt(m', a') == Load(m, a, LoadKind.U64) && i < 8
    ensures m'(a' + i) == m(a + i)
  {
    ReadLEByte(m, a, a + 8, i);
    ReadLEByte(m', a', a' + 8, i);
    hide ReadLE, ByteOf;
  }

  lemma RefArrives(
    arg: Location, size: nat, m: nat, st: Staged, s: State, t: State, before: Cpu, after: Cpu, fr: Frame)
    requires Ran(st, s, t, before, after, fr) && m < |st.copies|
    requires st.copies[m].srcAddr == arg && st.copies[m].size == size
    ensures var copy := fr.Bot() + CopyOffset(st.copies[..m], st.ctr.slot);
            && AtLoc(after, fr, st.copies[m].ptrLoc, AddrWord(copy))
            && SameBytes(before.mem, SourceWord(before, fr, arg), after.mem, copy, size)
  {
    hide Ran, Words, SameBytes, AtLoc, SourceWord, AddrWord, AllDemands, CopySlots;
    PtrArrives(m, st, s, t, before, after, fr);
    CopyDemanded(st, m);
    WordsArrive(st.ctr.slot + CopySlots(st.copies[..m]), arg, size, st, s, t, before, after, fr);
  }

  lemma CopyDemanded(st: Staged, m: nat)
    requires m < |st.copies|
    ensures forall x :: x in Words(st.ctr.slot + CopySlots(st.copies[..m]), st.copies[m].srcAddr, st.copies[m].size) ==>
              x in AllDemands(st)
  {
    hide Words, CopyWords, CopySlots;
    CopyWordsOf(st.copies, st.ctr.slot, m);
  }

  lemma PtrArrives(m: nat, st: Staged, s: State, t: State, before: Cpu, after: Cpu, fr: Frame)
    requires Ran(st, s, t, before, after, fr) && m < |st.copies|
    ensures AtLoc(after, fr, st.copies[m].ptrLoc, AddrWord(fr.Bot() + CopyOffset(st.copies[..m], st.ctr.slot)))
  {
    hide Represents, Abstract, AllHold, AtLoc, Holds, AddrWord, CopyOffset;
    HeldAtLoc(after, t, fr, st.copies[m].ptrLoc, AddrWord(fr.Bot() + CopyOffset(st.copies[..m], st.ctr.slot)));
  }

  /** Whatever was demanded for a parameter is delivered. */
  lemma DemandedDelivered(
    d: PlatformDescription, p: Param, plan: Plan, varArg: bool, arg: Location,
    was: Staged, st: Staged, s: State, t: State, before: Cpu, after: Cpu, fr: Frame)
    requires Demanded(d, p, plan, varArg, arg, was, st) && Ran(st, s, t, before, after, fr)
    ensures Delivered(d, p, plan, varArg, arg, was, st, before, after, fr)
  {
    hide Ran, AtLoc, SameBytes, SourceWord, AddrWord, Load, PieceDemands, Words, PieceLoc, CopyOffset;
    match p
    case VarArgLabel =>
    case VArray => CopyArrives(st, s, t, before, after, fr, arg, Next(d, was.ctr, false).0);
    case Scalar(kind) => CopyArrives(st, s, t, before, after, fr, arg, ScalarNext(d, kind, varArg, was.ctr).0);
    case Struct(layout) =>
      if layout.Some? {
        var size := layout.value.size;
        match plan.passBy
        case Empty =>
        case Regs => PiecesArrive(d, plan.pieces, arg, was.ctr, st, s, t, before, after, fr);
        case Stack => WordsArrive(was.ctr.slot, arg, size, st, s, t, before, after, fr);
        case Ref => RefArrives(arg, size, |was.copies|, st, s, t, before, after, fr);
      }
  }

  // ---- The call as a whole ----

  /** Argument registers, the frame and the structs that the emitted code is given. */
  ghost predicate CallInputs(before: Cpu, fr: Frame, params: seq<Param>, args: seq<Location>, st: Staged) {
    && before.Valid() && CallFrame(fr, st)
    && ArgsGood(params, args, Abstract(before, fr), fr) && SourceFits(LastArg(args), fr)
  }

  /** Every argument is where the ABI wants it, and the address of the result is passed or kept. */
  ghost predicate CallDelivered(
    d: PlatformDescription, retPlan: Option<Plan>, params: seq<Param>, plans: seq<Plan>, args: seq<Location>,
    st: Staged, before: Cpu, after: Cpu, fr: Frame)
    requires |plans| == |params|
  {
    && (forall j :: 0 <= j < |params| ==> ParamDelivered(d, retPlan, params, plans, args, st, before, after, fr, j))
    && (SretPassed(retPlan) ==>
          AtLoc(after, fr, SretPlace(d), SourceWord(before, fr, LastArg(args))))
    && (SretKept(retPlan) ==> IRegOf(after, ACC) == SourceWord(before, fr, LastArg(args)))
  }

  ghost predicate ParamDelivered(
    d: PlatformDescription, retPlan: Option<Plan>, params: seq<Param>, plans: seq<Plan>, args: seq<Location>,
    st: Staged, before: Cpu, after: Cpu, fr: Frame, j: nat)
    requires |plans| == |params| && j < |params|
  {
    Delivered(d, params[j], plans[j], VarArgLabel in params[..j], ArgOf(params[..j], args),
              StageParams(d, params[..j], plans[..j], args, StageSret(d, retPlan, args)), st, before, after, fr)
  }

  lemma CallDemanded(
    d: PlatformDescription, retPlan: Option<Plan>, params: seq<Param>, plans: seq<Plan>, args: seq<Location>, j: nat)
    requires |plans| == |params| && j < |params|
    ensures Demanded(d, params[j], plans[j], VarArgLabel in params[..j], ArgOf(params[..j], args),
                     StageParams(d, params[..j], plans[..j], args, StageSret(d, retPlan, args)),
                     StageCall(d, retPlan, params, plans, args))
  {
    hide Demanded, StageParams, StageSret, ArgOf;
    var st0 := StageSret(d, retPlan, args);
    ParamsDemanded(d, params, plans, args, st0, j);
    var st := StageParams(d, params, plans, args, st0);
    SpillGrows(retPlan, args, st);
    DemandedGrows(d, params[j], plans[j], VarArgLabel in params[..j], ArgOf(params[..j], args),
                  StageParams(d, params[..j], plans[..j], args, st0), st, StageSpill(retPlan, args, st));
  }

  lemma SpillGrows(retPlan: Option<Plan>, args: seq<Location>, st: Staged)
    ensures Grows(st, StageSpill(retPlan, args, st))
    ensures SretReady(retPlan, args, st.ctr.slot, StageSpill(retPlan, args, st))
  {
  }

  lemma SretDemanded(
    d: PlatformDescription, retPlan: Option<Plan>, params: seq<Param>, plans: seq<Plan>, args: seq<Location>)
    requires |plans| == |params|
    ensures SretPassed(retPlan) ==>
              Demand(NextSret(d, Counters(0, 0, 0)).0, Copy(LastArg(args)))
                  in StageCall(d, retPlan, params, plans, args).demands
  {
    hide NextSret, LastArg;
    var st0 := StageSret(d, retPlan, args);
    ParamsGrow(d, params, plans, args, st0);
    SpillGrows(retPlan, args, StageParams(d, params, plans, args, st0));
    if SretPassed(retPlan) {
      assert Demand(NextSret(d, Counters(0, 0, 0)).0, Copy(LastArg(args))) in st0.demands;
    }
  }

  lemma CallGood(
    d: PlatformDescription, retPlan: Option<Plan>, params: seq<Param>, plans: seq<Plan>, args: seq<Location>,
    s: State, fr: Frame)
    requires |plans| == |params| && PlansFit(d, params, plans, args, StageSret(d, retPlan, args))
    requires ArgsOk(params, args)
    requires ArgsGood(params, args, s, fr) && SourceFits(LastArg(args), fr)
    ensures StagedGood(StageCall(d, retPlan, params, plans, args), s, fr)
  {
    hide PlansFit, ArgsOk, ArgsGood, SourceFits, NextSret, LastArg, StageParams, WhatGood, CopyGood;
    var st0 := StageSret(d, retPlan, args);
    CopyIsGood(LastArg(args), s, fr);
    assert StagedGood(st0, s, fr);
    ParamsGood(d, params, plans, args, st0, s, fr);
  }

  lemma CopyIsGood(src: Location, s: State, fr: Frame)
    requires SourceFits(src, fr)
    ensures WhatGood(Copy(src), s, fr)
  {
  }

  /** The slot where the address of a result in registers is spilled. */
  function SpillSlot(
    d: PlatformDescription, retPlan: Option<Plan>, params: seq<Param>, plans: seq<Plan>, args: seq<Location>): nat
    requires |plans| == |params|
  {
    StageParams(d, params, plans, args, StageSret(d, retPlan, args)).ctr.slot
  }

  /** The main theorem on staged calls: whatever the processor holds, the emitted code delivers the
      call's arguments. */
  lemma CallDelivers(
    d: PlatformDescription, retPlan: Option<Plan>, params: seq<Param>, plans: seq<Plan>, args: seq<Location>,
    ops: seq<Op>, iTemp: Reg, fTemp: Reg, before: Cpu, fr: Frame)
    requires d.Valid() && !d.IsParamReg(iTemp) && !d.IsParamReg(fTemp) && ArgsOk(params, args) && LastArg(args) >= 0
    requires |plans| == |params| && PlansFit(d, params, plans, args, StageSret(d, retPlan, args))
    requires Resolved(ops, AllDemands(StageCall(d, retPlan, params, plans, args)), iTemp, fTemp)
    requires CallInputs(before, fr, params, args, StageCall(d, retPlan, params, plans, args))
    ensures var st := StageCall(d, retPlan, params, plans, args);
            var spill := SpillSlot(d, retPlan, params, plans, args);
            CallDelivered(d, retPlan, params, plans, args, st, before,
                Run(CallCode(ops, st, retPlan, args, spill, fr.size), before, fr), fr)
  {
    hide PlansFit, ArgsOk, ArgsGood, SourceFits, Resolved, CallFrame, PlatformDescription.Valid,
      PlatformDescription.IsParamReg, StageParams, StageSret, StageSpill, NextSret, LastArg, AllDemands, Represents,
      Abstract, AllHold, PtrsHold, Run, CallCode, StagingOk, StagedGood, Delivered, Demanded, AtLoc, State.Get,
      SourceWord, ArgOf, SretReady;
    var st := StageCall(d, retPlan, params, plans, args);
    var spill := SpillSlot(d, retPlan, params, plans, args);
    var s := Abstract(before, fr);
    StageCallOk(d, retPlan, params, plans, args);
    CallGood(d, retPlan, params, plans, args, s, fr);
    SpillGrows(retPlan, args, StageParams(d, params, plans, args, StageSret(d, retPlan, args)));
    var t := CallRuns(d, st, retPlan, args, spill, ops, iTemp, fTemp, before, fr);
    var after := Run(CallCode(ops, st, retPlan, args, spill, fr.size), before, fr);
    SourceIsAbstract(before, fr, LastArg(args));
    assert Ran(st, s, t, before, after, fr);
    forall j | 0 <= j < |params| ensures ParamDelivered(d, retPlan, params, plans, args, st, before, after, fr, j) {
      CallDemanded(d, retPlan, params, plans, args, j);
      DemandedDelivered(d, params[j], plans[j], VarArgLabel in params[..j], ArgOf(params[..j], args),
                        StageParams(d, params[..j], plans[..j], args, StageSret(d, retPlan, args)), st, s, t, before,
                            after, fr);
    }
    SretDemanded(d, retPlan, params, plans, args);
    if SretPassed(retPlan) {
      SretPlaced(d, Counters(0, 0, 0));
      CopyArrives(st, s, t, before, after, fr, LastArg(args), SretPlace(d));
    }
  }

  // ---- Calls that cannot fail ----

  /** The argument is of the kind of its parameter, or in the frame. */
  predicate KindMatches(p: Param, arg: Location) {
    match p
    case Scalar(kind) => IsReg(arg) ==> (KindOf(arg) == Kind.FReg <==> IsFloat(kind))
    case VArray => KindOf(arg) != Kind.FReg
    case _ => true
  }

  ghost predicate NoMixes(st: Staged) { forall x :: x in st.demands ==> !MixesKinds(AssignmentOf(x)) }

  lemma ParamUnmixed(d: PlatformDescription, p: Param, plan: Plan, varArg: bool, arg: Location, st: Staged)
    requires d.Valid() && NoMixes(st) && KindMatches(p, arg)
    ensures NoMixes(StageParam(d, p, plan, varArg, arg, st))
  {
    hide PlatformDescription.Valid, HandsOut, Owned, Next, NextVarArg, AfterPieces, PieceLoc;
    match p
    case VarArgLabel =>
    case VArray => NextFresh(d, st.ctr, false);
    case Scalar(kind) =>
      NextFresh(d, st.ctr, IsFloat(kind));
      NextVarArgFresh(d, st.ctr, IsFloat(kind));
    case Struct(layout) =>
  }

  lemma {:induction false} ParamsUnmixed(
    d: PlatformDescription, params: seq<Param>, plans: seq<Plan>, args: seq<Location>, st0: Staged)
    requires d.Valid() && NoMixes(st0) && |plans| == |params|
    requires forall j :: 0 <= j < |params| ==> KindMatches(params[j], ArgOf(params[..j], args))
    ensures NoMixes(StageParams(d, params, plans, args, st0))
  {
    if params != [] {
      hide NoMixes, StageParam, KindMatches, ArgOf, PlatformDescription.Valid;
      var n := |params| - 1;
      forall j | 0 <= j < n ensures KindMatches(params[..n][j], ArgOf(params[..n][..j], args)) {
        assert params[..n][..j] == params[..j];
      }
      ParamsUnmixed(d, params[..n], plans[..n], args, st0);
      assert KindMatches(params[n], ArgOf(params[..n], args));
      ParamUnmixed(d, params[n], plans[n], VarArgLabel in params[..n], ArgOf(params[..n], args),
                   StageParams(d, params[..n], plans[..n], args, st0));
    }
  }

  lemma {:induction false} CopyWordsUnmixed(copies: seq<StructCopy>, base: nat)
    ensures forall x :: x in CopyWords(copies, base) ==> !MixesKinds(AssignmentOf(x))
  {
    if copies != [] {
      var n := |copies| - 1;
      CopyWordsUnmixed(copies[..n], base);
      WordsUnmixed(base + CopySlots(copies[..n]), copies[n].srcAddr, copies[n].size);
      hide Words, MixesKinds;
    }
  }

  lemma WordsUnmixed(base: nat, addr: Location, size: nat)
    ensures forall x :: x in Words(base, addr, size) ==> !MixesKinds(AssignmentOf(x))
  {
  }

  /** A call whose arguments are of the kinds of their parameters resolves, however its registers
      and slots are shuffled. */
  lemma {:induction false} MatchingCallResolves(
    d: PlatformDescription, retPlan: Option<Plan>, params: seq<Param>, plans: seq<Plan>, args: seq<Location>)
    requires d.Valid() && |plans| == |params| && KindOf(LastArg(args)) != Kind.FReg
    requires forall j :: 0 <= j < |params| ==> KindMatches(params[j], ArgOf(params[..j], args))
    ensures Unmixed(AssignmentsOf(AllDemands(StageCall(d, retPlan, params, plans, args))))
  {
    hide PlatformDescription.Valid, KindMatches, ArgOf, StageParams, CopyWords, AssignmentsOf;
    var st0 := StageSret(d, retPlan, args);
    var st := StageCall(d, retPlan, params, plans, args);
    SretUnmixed(d, retPlan, args);
    ParamsUnmixed(d, params, plans, args, st0);
    CopyWordsUnmixed(st.copies, st.ctr.slot);
    SpillUnmixed(retPlan, args, StageParams(d, params, plans, args, st0));
    var ds := AllDemands(st);
    AssignmentsStem(ds);
    forall i | 0 <= i < |AssignmentsOf(ds)| ensures !MixesKinds(AssignmentsOf(ds)[i]) {
      assert Stems(ds, AssignmentsOf(ds)[i]);
      var k :| 0 <= k < |ds| && AssignmentsOf(ds)[i] == AssignmentOf(ds[k]) && !Dropped(ds[k]);
    }
  }

  lemma SretUnmixed(d: PlatformDescription, retPlan: Option<Plan>, args: seq<Location>)
    requires d.Valid() && KindOf(LastArg(args)) != Kind.FReg
    ensures NoMixes(StageSret(d, retPlan, args))
  {
    NextFresh(d, Counters(0, 0, 0), false);
  }

  lemma SpillUnmixed(retPlan: Option<Plan>, args: seq<Location>, st: Staged)
    requires NoMixes(st)
    ensures NoMixes(StageSpill(retPlan, args, st))
  {
  }
}
