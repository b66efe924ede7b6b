/** The rewriter's methods that stage a foreign call. */
module Rewriting {
  import opened Wrappers
  import opened Machine
  import opened MoveEmission
  import opened MoveResolution
  import opened Resolution
  import opened StructAbi
  import opened Abi
  import opened Demands
  import opened Staging
  import opened Delivery
  import opened CallDelivery
  import opened ForeignCall

  predicate LayoutsKnown(params: seq<Param>) {
    forall j :: 0 <= j < |params| && params[j].Struct? ==> params[j].layout.Some?
  }

  /** The resolver and the allocator have recorded the staging `st`. */
  ghost predicate Records(moves: MoveResolver, abi: AbiAssigner, st: Staged)
    reads moves, abi
  {
    moves.Valid() && moves.assignments == AssignmentsOf(st.demands) && abi.Ctr() == st.ctr
  }

  // ---- One step at a time ----

  lemma GiveRecorded(next: (Location, Counters), what: What, st: Staged)
    ensures var x := Demand(next.0, what);
            AssignmentsOf(Give(next, what, st).demands) == AssignmentsOf(st.demands) + if Dropped(x) then []
                else [AssignmentOf(x)]
  {
    AssignmentsAppend(st.demands, Demand(next.0, what));
  }

  lemma PieceStep(d: PlatformDescription, pieces: seq<Piece>, addr: Location, st: Staged, k: nat)
    requires k < |pieces|
    ensures var was := StagePieces(d, pieces[..k], addr, st);
            StagePieces(d, pieces[..k + 1], addr, st)
            == Give(Next(d, was.ctr, IsFloat(pieces[k].kind)),
                Fetch(addr, pieces[k].offset, PieceLoad(pieces[k].kind)), was)
  {
    var qs := pieces[..k + 1];
    assert qs[..k] == pieces[..k];
    PieceSplit(d, qs, addr, st.ctr);
    var x := Demand(PieceLoc(d, qs, k, st.ctr), Fetch(addr, qs[k].offset, PieceLoad(qs[k].kind)));
    assert st.demands + (PieceDemands(d, pieces[..k], addr, st.ctr) + [x])
        == st.demands + PieceDemands(d, pieces[..k], addr, st.ctr) + [x];
  }

  lemma WordStep(ds: seq<Demand>, base: nat, addr: Location, size: nat, k: nat)
    requires k < SlotsFor(size)
    ensures AssignmentsOf(ds + Words(base, addr, size)[..k + 1])
         == AssignmentsOf(ds + Words(base, addr, size)[..k])
             + [Assignment(SlotLocation(base + k), addr, 8 * k, LoadKind.U64, true)]
  {
    var ws := Words(base, addr, size);
    assert ds + ws[..k + 1] == ds + ws[..k] + [ws[k]];
    AssignmentsAppend(ds + ws[..k], ws[k]);
  }

  lemma ParamsStep(
    d: PlatformDescription, params: seq<Param>, plans: seq<Plan>, plan: Plan, args: seq<Location>, st0: Staged, j: nat)
    requires |plans| == j < |params| && PlansFit(d, params[..j], plans, args, st0)
    requires params[j].Struct? && params[j].layout.Some? ==>
               var c := StageParams(d, params[..j], plans, args, st0).ctr;
               var layout := params[j].layout.value;
               IsChosen(d.cAbi, layout.fields, layout.size, VarArgLabel in params[..j] && d.onlyOnStackVarargs,
                        |d.iregHead| - c.iarg, |d.fregHead| - c.farg, plan)
    ensures PlansFit(d, params[..j + 1], plans + [plan], args, st0)
    ensures StageParams(d, params[..j + 1], plans + [plan], args, st0)
         == StageParam(d, params[j], plan, VarArgLabel in params[..j], ArgOf(params[..j], args),
                       StageParams(d, params[..j], plans, args, st0))
    ensures ArgCount(params[..j + 1]) == ArgCount(params[..j]) + if params[j].VarArgLabel? then 0 else 1
    ensures VarArgLabel in params[..j + 1] <==> VarArgLabel in params[..j] || params[j].VarArgLabel?
  {
    hide IsChosen, StageParam, ArgOf, PlansFit;
    var ps, qs := params[..j + 1], plans + [plan];
    assert ps[..j] == params[..j] && qs[..j] == plans;
    PlansStep(d, params, plans, plan, args, st0, j);
  }

  lemma PlansStep(
    d: PlatformDescription, params: seq<Param>, plans: seq<Plan>, plan: Plan, args: seq<Location>, st0: Staged, j: nat)
    requires |plans| == j < |params| && PlansFit(d, params[..j], plans, args, st0)
    requires params[j].Struct? && params[j].layout.Some? ==>
               var c := StageParams(d, params[..j], plans, args, st0).ctr;
               var layout := params[j].layout.value;
               IsChosen(d.cAbi, layout.fields, layout.size, VarArgLabel in params[..j] && d.onlyOnStackVarargs,
                        |d.iregHead| - c.iarg, |d.fregHead| - c.farg, plan)
    ensures PlansFit(d, params[..j + 1], plans + [plan], args, st0)
  {
    hide IsChosen, StageParams, ArgOf;
    var ps, qs := params[..j + 1], plans + [plan];
    assert ps[..j] == params[..j] && qs[..j] == plans;
    forall i | 0 <= i <= j ensures PlanFits(d, ps, qs, args, st0, i) {
      if i < j {
        assert ps[..i] == params[..j][..i] && qs[..i] == plans[..i];
        assert PlanFits(d, params[..j], plans, args, st0, i);
      }
    }
  }

  lemma {:induction false} ArgCountMono(params: seq<Param>, j: nat)
    requires j <= |params|
    ensures ArgCount(params[..j]) <= ArgCount(params)
    ensures j < |params| && !params[j].VarArgLabel? ==> ArgCount(params[..j]) < ArgCount(params)
  {
    if j < |params| {
      var n := |params| - 1;
      ArgCountMono(params[..n], j);
      assert params[..n][..j] == params[..j];
    } else {
      assert params[..j] == params;
    }
  }

  lemma CopyStep(copies: seq<StructCopy>, base: nat, m: nat)
    requires m < |copies|
    ensures CopyWords(copies[..m + 1], base)
         == CopyWords(copies[..m], base) + Words(base + CopySlots(copies[..m]), copies[m].srcAddr, copies[m].size)
    ensures CopySlots(copies[..m + 1]) == CopySlots(copies[..m]) + SlotsFor(copies[m].size)
    ensures PointerCode(copies[..m + 1], base)
         == PointerCode(copies[..m], base) + CopyPointer(copies[m].ptrLoc, CopyOffset(copies[..m], base))
  {
    assert copies[..m + 1][..m] == copies[..m];
  }

  /** What Resolve asks of the collected moves. */
  lemma MovesReady(d: PlatformDescription, st: Staged, iTemp: Reg, fTemp: Reg)
    requires d.Valid() && StagingOk(d, st) && !d.IsParamReg(iTemp) && !d.IsParamReg(fTemp)
    ensures Collected(AssignmentsOf(AllDemands(st))) && AvoidsTemps(AssignmentsOf(AllDemands(st)), iTemp, fTemp)
  {
    hide PlatformDescription.Valid, PlatformDescription.IsParamReg, AllDemands, AssignmentsOf, Collected, StagingOk,
      IsDst, DemandsOk, CopySlots;
    AllDemandsOk(d, st);
    AssignmentsCollected(AllDemands(st));
  }

  class IsaRewriter {
    const desc: PlatformDescription
    /** The integer temporary of the move resolver on this platform. */
    const tr: nat
    const frameSize: nat
    var code: seq<Instr>
    var maxParamPassingSize: nat

    ghost predicate Valid() {
      && desc.Valid() && tr < VIRT_IREGS && !desc.IsParamReg(tr) && !desc.IsParamReg(FR15)
    }

    method CheckArgCount(argCount: nat, isSRet: bool, sigParamCount: nat) returns (ok: bool)
      ensures ok <==> argCount == sigParamCount + if isSRet then 1 else 0
    {
      var expected := if isSRet then 1 else 0;
      expected := expected + sigParamCount;
      ok := expected == argCount;
    }

    /** One load for each eight bytes of a struct, into consecutive slots. */
    method StageWords(moves: MoveResolver, base: nat, srcAddr: Location, size: nat, ghost ds: seq<Demand>)
      requires moves.Valid() && moves.assignments == AssignmentsOf(ds) && KindOf(srcAddr) in {Kind.IReg, Kind.Slot}
      modifies moves
      ensures moves.Valid() && moves.assignments == AssignmentsOf(ds + Words(base, srcAddr, size))
    {
      hide Words, AssignmentsOf;
      var offset := 0;
      assert ds + Words(base, srcAddr, size)[..0] == ds;
      while offset < size
        invariant offset % STACK_SLOT == 0 && offset / STACK_SLOT <= SlotsFor(size)
        invariant moves.Valid()
        invariant moves.assignments == AssignmentsOf(ds + Words(base, srcAddr, size)[..offset / STACK_SLOT])
      {
        WordStep(ds, base, srcAddr, size, offset / STACK_SLOT);
        moves.AddLoadFromAddr(SlotLocation(base + offset / STACK_SLOT), srcAddr, offset, LoadKind.U64);
        offset := offset + STACK_SLOT;
      }
      assert Words(base, srcAddr, size)[..SlotsFor(size)] == Words(base, srcAddr, size);
    }

    method StagePiecesOf(pieces: seq<Piece>, srcAddr: Location, moves: MoveResolver, abi: AbiAssigner, ghost st: Staged)
      requires abi.desc == desc && Records(moves, abi, st) && KindOf(srcAddr) in {Kind.IReg, Kind.Slot}
      modifies moves, abi
      ensures Records(moves, abi, StagePieces(desc, pieces, srcAddr, st))
    {
      hide StagePieces, AssignmentsOf, Next;
      NoPieces(desc, srcAddr, st);
      for k := 0 to |pieces|
        invariant Records(moves, abi, StagePieces(desc, pieces[..k], srcAddr, st))
      {
        PieceStep(desc, pieces, srcAddr, st, k);
        ghost var was := StagePieces(desc, pieces[..k], srcAddr, st);
        var loc := abi.Consume(pieces[k].kind);
        moves.AddLoadFromAddr(loc, srcAddr, pieces[k].offset, PieceLoad(pieces[k].kind));
        GiveRecorded((loc, abi.Ctr()), Fetch(srcAddr, pieces[k].offset, PieceLoad(pieces[k].kind)), was);
      }
      assert pieces[..|pieces|] == pieces;
    }

    method StageForeignStructArg(
      srcAddr: Location, layout: Option<StructLayout>, varArgPos: bool, moves: MoveResolver, abi: AbiAssigner,
      copies: seq<StructCopy>, ghost st: Staged)
      returns (ok: bool, copies': seq<StructCopy>, ghost plan: Plan)
      requires abi.desc == desc && Records(moves, abi, st) && st.copies == copies
      requires KindOf(srcAddr) in {Kind.IReg, Kind.Slot}
      modifies moves, abi
      ensures ok <==> layout.Some?
      ensures ok ==>
                && IsChosen(desc.cAbi, layout.value.fields, layout.value.size, varArgPos && desc.onlyOnStackVarargs,
                            |desc.iregHead| - st.ctr.iarg, |desc.fregHead| - st.ctr.farg, plan)
                && Records(moves, abi, StageStruct(desc, layout.value.size, plan, srcAddr, st))
                && copies' == StageStruct(desc, layout.value.size, plan, srcAddr, st).copies
    {
      hide AssignmentsOf, IsChosen, StagePieces, Words;
      copies', plan := copies, Plan(Empty, []);
      if layout.None? { return false, copies', plan; }
      ok := true;
      var size := layout.value.size;
      var chosen := ClassifyCAbiStruct(
        desc.cAbi, desc.onlyOnStackVarargs, layout.value.fields, size, varArgPos, abi.FreeIRegs(), abi.FreeFRegs(),
            false);
      plan := chosen;
      match chosen.passBy {
        case Empty =>
        case Regs =>
          StagePiecesOf(chosen.pieces, srcAddr, moves, abi, st);
          PiecesCopies(desc, chosen.pieces, srcAddr, st);
        case Stack =>
          var base := abi.ConsumeStackArea(size);
          StageWords(moves, base, srcAddr, size, st.demands);
        case Ref =>
          var ptr := abi.Consume(TypeKind.I64);
          copies' := copies + [StructCopy(srcAddr, ptr, size)];
      }
    }

    /** One parameter of the signature; `arg` is the argument at the current index, if there is one. */
    method StageForeignArg(
      param: Param, arg: Location, isVarArg: bool, moves: MoveResolver, abi: AbiAssigner,
      copies: seq<StructCopy>, ghost st: Staged)
      returns (ok: bool, copies': seq<StructCopy>, ghost plan: Plan)
      requires abi.desc == desc && Records(moves, abi, st) && st.copies == copies && ArgOk(param, arg)
      requires !param.VarArgLabel?
      modifies moves, abi
      ensures ok <==> param.Struct? ==> param.layout.Some?
      ensures ok && param.Struct? ==>
                IsChosen(desc.cAbi, param.layout.value.fields, param.layout.value.size,
                    isVarArg && desc.onlyOnStackVarargs,
                         |desc.iregHead| - st.ctr.iarg, |desc.fregHead| - st.ctr.farg, plan)
      ensures ok ==>
                && Records(moves, abi, StageParam(desc, param, plan, isVarArg, arg, st))
                && copies' == StageParam(desc, param, plan, isVarArg, arg, st).copies
    {
      hide AssignmentsOf, IsChosen, StageStruct, Next, NextVarArg;
      ok, copies', plan := true, copies, Plan(Empty, []);
      if param.VArray? {
        var loc := abi.Consume(TypeKind.I64);
        moves.AddMove(loc, arg);
        GiveRecorded((loc, abi.Ctr()), Copy(arg), st);
      } else if param.Struct? {
        ok, copies', plan := StageForeignStructArg(arg, param.layout, isVarArg, moves, abi, copies, st);
      } else if !isVarArg {
        var loc := abi.Consume(param.kind);
        moves.AddMove(loc, arg);
        GiveRecorded((loc, abi.Ctr()), Copy(arg), st);
      } else {
        var loc := abi.ConsumeVarArg(param.kind);
        moves.AddMove(loc, arg);
        GiveRecorded((loc, abi.Ctr()), Copy(arg), st);
      }
    }

    /** The loop over the parameters. */
    method StageAllArgs(
      params: seq<Param>, args: seq<Location>, moves: MoveResolver, abi: AbiAssigner, ghost st0: Staged)
      returns (ok: bool, copies: seq<StructCopy>, ghost plans: seq<Plan>)
      requires abi.desc == desc && Records(moves, abi, st0) && st0.copies == []
      requires ArgsOk(params, args) && ArgCount(params) <= |args|
      modifies moves, abi
      ensures ok <==> LayoutsKnown(params)
      ensures ok ==>
                && |plans| == |params| && PlansFit(desc, params, plans, args, st0)
                && Records(moves, abi, StageParams(desc, params, plans, args, st0))
                && copies == StageParams(desc, params, plans, args, st0).copies
    {
      hide AssignmentsOf, StageParam, StageParams, PlansFit, ArgCount, ArgOk, IsChosen, Records;
      ok, copies, plans := true, [], [];
      var idx, isVarArg := 0, false;
      ghost var st := st0;
      StartOfParams(desc, args, st0);
      for j := 0 to |params|
        invariant idx == ArgCount(params[..j]) && (isVarArg <==> VarArgLabel in params[..j])
        invariant |plans| == j && LayoutsKnown(params[..j]) && PlansFit(desc, params[..j], plans, args, st0)
        invariant st == StageParams(desc, params[..j], plans, args, st0)
        invariant Records(moves, abi, st) && copies == st.copies
      {
        ghost var plan := Plan(Empty, []);
        ghost var was := st;
        assert ArgOk(params[j], ArgOf(params[..j], args));
        if params[j].VarArgLabel? {
          LabelStays(desc, plan, isVarArg, ArgOf(params[..j], args), st);
          isVarArg := true;
        } else {
          ArgCountMono(params, j);
          ok, copies, plan := StageForeignArg(params[j], args[idx], isVarArg, moves, abi, copies, st);
          if !ok { return; }
          idx := idx + 1;
        }
        ParamsStep(desc, params, plans, plan, args, st0, j);
        plans := plans + [plan];
        st := StageParams(desc, params[..j + 1], plans, args, st0);
        assert st.copies == copies && Records(moves, abi, st);
      }
      assert params[..|params|] == params;
    }

    /** Places the copies of structs passed by reference above all stack arguments. */
    method StageCopies(copies: seq<StructCopy>, moves: MoveResolver, abi: AbiAssigner, ghost st: Staged)
      returns (offsets: seq<nat>, copyOffset: nat)
      requires Records(moves, abi, st) && copies == st.copies && CopiesOk(st)
      modifies moves
      ensures moves.Valid() && moves.assignments == AssignmentsOf(AllDemands(st))
      ensures |offsets| == |copies| && forall m :: 0 <= m < |copies| ==>
              offsets[m] == CopyOffset(copies[..m], st.ctr.slot)
      ensures copyOffset == CallArea(st)
    {
      hide AssignmentsOf, CopySlots, CopyWords, Words;
      NoCopies(st);
      offsets, copyOffset := [], abi.MaxStackSlot() * STACK_SLOT;
      for m := 0 to |copies|
        invariant moves.Valid() && moves.assignments == AssignmentsOf(st.demands + CopyWords(copies[..m], st.ctr.slot))
        invariant copyOffset == CopyOffset(copies[..m], st.ctr.slot)
        invariant |offsets| == m && forall i :: 0 <= i < m ==> offsets[i] == CopyOffset(copies[..i], st.ctr.slot)
      {
        offsets := offsets + [copyOffset];
        CopyStep(copies, st.ctr.slot, m);
        StageWords(moves, copyOffset / STACK_SLOT, copies[m].srcAddr, copies[m].size,
            st.demands + CopyWords(copies[..m], st.ctr.slot));
        assert st.demands + (CopyWords(copies[..m], st.ctr.slot)
            + Words(copyOffset / STACK_SLOT, copies[m].srcAddr, copies[m].size))
            == st.demands + CopyWords(copies[..m], st.ctr.slot)
                + Words(copyOffset / STACK_SLOT, copies[m].srcAddr, copies[m].size);
        copyOffset := copyOffset + SlotsFor(copies[m].size) * STACK_SLOT;
      }
      assert copies[..|copies|] == copies;
    }

    method EmitPointer(ptr: Location, offset: nat)
      requires KindOf(ptr) in {Kind.IReg, Kind.Slot}
      modifies this`code
      ensures code == old(code) + CopyPointer(ptr, offset)
    {
      if KindOf(ptr) == Kind.Slot {
        code := code + [LeaStackParam(ACC, AsU16(offset)), StackParam(ACC, AsU16(AsU16(ptr - REG_COUNT) * 8))];
      } else {
        code := code + [LeaStackParam(ptr, AsU16(offset))];
      }
    }

    /** Sets the pointers of the copies, after the moves. */
    method EmitPointers(copies: seq<StructCopy>, offsets: seq<nat>, ghost base: nat)
      requires |offsets| == |copies| && forall m :: 0 <= m < |copies| ==> offsets[m] == CopyOffset(copies[..m], base)
      requires forall m :: 0 <= m < |copies| ==> KindOf(copies[m].ptrLoc) in {Kind.IReg, Kind.Slot}
      modifies this`code
      ensures code == old(code) + PointerCode(copies, base)
    {
      hide CopyOffset, CopyPointer;
      for m := 0 to |copies|
        invariant code == old(code) + PointerCode(copies[..m], base)
      {
        CopyStep(copies, base, m);
        EmitPointer(copies[m].ptrLoc, offsets[m]);
      }
      assert copies[..|copies|] == copies;
    }

    /** A result that does not come back in registers: its address is a hidden argument. */
    method StageSretArg(retPlan: Option<Plan>, args: seq<Location>, moves: MoveResolver, abi: AbiAssigner)
      requires abi.desc == desc && moves.Valid() && moves.assignments == [] && abi.Ctr() == Counters(0, 0, 0)
      requires retPlan.Some? ==> |args| > 0 && args[|args| - 1] >= 0
      modifies moves, abi
      ensures Records(moves, abi, StageSret(desc, retPlan, args))
    {
      if retPlan.Some? && retPlan.value.passBy != Empty && retPlan.value.passBy != Regs {
        var loc := abi.ConsumeSret();
        moves.AddMove(loc, args[|args| - 1]);
        GiveRecorded((loc, abi.Ctr()), Copy(args[|args| - 1]), Staged(Counters(0, 0, 0), [], []));
      }
    }

    /** Resolution may overwrite the register that holds the result's address: it is saved first. */
    method StageSpillArg(
      retPlan: Option<Plan>, args: seq<Location>, moves: MoveResolver, abi: AbiAssigner, ghost st: Staged)
      returns (sretSpillSlot: nat)
      requires Records(moves, abi, st)
      requires retPlan.Some? ==> |args| > 0 && args[|args| - 1] >= 0
      modifies moves, abi
      ensures Records(moves, abi, StageSpill(retPlan, args, st))
      ensures SretSpilled(retPlan, args) ==> sretSpillSlot == st.ctr.slot
    {
      hide AssignmentsOf;
      sretSpillSlot := 0;
      if retPlan.Some? && retPlan.value.PiecesNum() > 0 {
        var sretAddrLocation := args[|args| - 1];
        if KindOf(sretAddrLocation) != Kind.Slot {
          sretSpillSlot := abi.ConsumeStackArea(STACK_SLOT);
          moves.AddMove(SlotLocation(sretSpillSlot), sretAddrLocation);
          AssignmentsAppend(st.demands, Demand(SlotLocation(sretSpillSlot), Copy(sretAddrLocation)));
        }
      }
    }

    /** Loads the address of a result that comes back in registers. */
    method EmitAcc(retPlan: Option<Plan>, args: seq<Location>, sretSpillSlot: nat)
      requires SretKept(retPlan) ==> |args| > 0
      modifies this`code
      ensures code == old(code) + AccCode(retPlan, args, sretSpillSlot, frameSize)
    {
      if retPlan.Some? && retPlan.value.PiecesNum() > 0 {
        var sretAddrLocation := args[|args| - 1];
        if KindOf(sretAddrLocation) != Kind.Slot {
          code := code + [LeaStackParam(ACC, AsU16(sretSpillSlot * STACK_SLOT)), LoadRec(LoadKind.U64, ACC, ACC, 0)];
        } else {
          code := code + [LoadFrame(LoadKind.U64, ACC, UntypedSlotOffset(sretAddrLocation - REG_COUNT, frameSize))];
        }
      }
    }

    /** Places the copies, resolves the moves and emits what follows them. */
    method EmitCall(
      retPlan: Option<Plan>, args: seq<Location>, sretSpillSlot: nat, copies: seq<StructCopy>,
      moves: MoveResolver, abi: AbiAssigner, ghost st: Staged, ghost spill: nat)
      returns (ok: bool, copyOffset: nat, ghost ops: seq<Op>)
      requires Valid() && Records(moves, abi, st) && copies == st.copies && StagingOk(desc, st)
      requires moves.iRegTemp == tr && moves.fRegTemp == FR15
      requires (SretKept(retPlan) ==> |args| > 0) && (SretSpilled(retPlan, args) ==> sretSpillSlot == spill)
      modifies this`code, moves
      ensures old(code) <= code && copyOffset == CallArea(st)
      ensures ok <==> Unmixed(AssignmentsOf(AllDemands(st)))
      ensures ok ==> Resolved(ops, AllDemands(st), tr, FR15)
      ensures ok ==> code == old(code) + CallCode(ops, st, retPlan, args, spill, frameSize)
    {
      hide LowerAll, PlatformDescription.Valid, PlatformDescription.IsParamReg, StagingOk, AssignmentsOf, AllDemands,
        Assigned, AllFrom, PointerCode, AccCode, Collected, AvoidsTemps, Unmixed, AreCycles, Graph, CopyOffset,
        CallArea;
      StagingCopies(desc, st);
      MovesReady(desc, st, tr, FR15);
      var offsets;
      offsets, copyOffset := StageCopies(copies, moves, abi, st);
      var emitter := new RewriterMoveEmitter(frameSize);
      ghost var cycles;
      ok, ops, cycles := moves.Resolve(emitter);
      code := code + emitter.code;
      if !ok { return; }
      EmitPointers(copies, offsets, st.ctr.slot);
      EmitAcc(retPlan, args, sretSpillSlot);
      AccOfSpill(retPlan, args, sretSpillSlot, spill, frameSize);
      assert emitter.ops == ops;
      Assoc(old(code), LowerAll(ops, frameSize), PointerCode(copies, st.ctr.slot),
          AccCode(retPlan, args, spill, frameSize));
    }

    /** Stages the arguments of a foreign call. It fails exactly when the number of arguments is
        wrong, a struct has no layout, or a scalar is given in a register of the wrong kind for a
        register of its own. Otherwise the emitted code delivers every argument, from every state. */
    method StageForeignCallArgs(
      args: seq<Location>, isSRet: bool, params: seq<Param>, isVarArg: bool, retPlan: Option<Plan>)
      returns (ok: bool, stackArgs: nat, fregs: nat, ghost plans: seq<Plan>, ghost staged: seq<Instr>)
      requires Valid() && ArgsOk(params, args) && LastArg(args) >= 0
      requires ArgCount(params) == |params| - if isVarArg then 1 else 0
      requires retPlan.Some? ==> isSRet
      modifies this
      ensures old(code) <= code && old(maxParamPassingSize) <= maxParamPassingSize
      ensures ok ==> ArgCountOk(args, isSRet, params) && LayoutsKnown(params)
      ensures ArgCountOk(args, isSRet, params) && LayoutsKnown(params) ==>
                && |plans| == |params| && PlansFit(desc, params, plans, args, StageSret(desc, retPlan, args))
                && (ok <==> Unmixed(AssignmentsOf(AllDemands(StageCall(desc, retPlan, params, plans, args)))))
      ensures ok ==>
                var st := StageCall(desc, retPlan, params, plans, args);
                && code == old(code) + staged && stackArgs == st.ctr.slot && fregs == st.ctr.farg
                && maxParamPassingSize == Max(old(maxParamPassingSize), CallArea(st))
                && AlwaysDelivers(desc, retPlan, params, plans, args, st, staged, frameSize)
    {
      hide LowerAll, PlatformDescription.Valid, PlatformDescription.IsParamReg, ArgsOk, PlansFit, StagingOk,
        AssignmentsOf, StageParams, AllDemands, Assigned, AllFrom, CallInputs, CallDelivered, Run, CallCode,
        PointerCode, AccCode, Collected, AvoidsTemps, Unmixed, LayoutsKnown, NextSret, AreCycles, Graph;
      stackArgs, fregs, plans, staged := 0, 0, [], [];
      var varArgLabelsCnt := if isVarArg then 1 else 0;
      ok := CheckArgCount(|args|, isSRet, |params| - varArgLabelsCnt);
      if !ok { return; }
      var moves := new MoveResolver(tr, 15);
      var abi := new AbiAssigner(desc);
      StageSretArg(retPlan, args, moves, abi);
      var copies;
      ok, copies, plans := StageAllArgs(params, args, moves, abi, StageSret(desc, retPlan, args));
      if !ok { return; }
      ghost var spill := SpillSlot(desc, retPlan, params, plans, args);
      var sretSpillSlot := StageSpillArg(retPlan, args, moves, abi,
          StageParams(desc, params, plans, args, StageSret(desc, retPlan, args)));
      ghost var st := StageCall(desc, retPlan, params, plans, args);
      StageCallOk(desc, retPlan, params, plans, args);
      ghost var ops;
      var copyOffset;
      ok, copyOffset, ops := EmitCall(retPlan, args, sretSpillSlot, copies, moves, abi, st, spill);
      if !ok { return; }
      staged := CallCode(ops, st, retPlan, args, spill, frameSize);
      CodeDelivers(desc, retPlan, params, plans, args, ops, tr, FR15, frameSize);
      if maxParamPassingSize < copyOffset { maxParamPassingSize := copyOffset; }
      stackArgs, fregs := abi.MaxStackSlot(), abi.fargIdx;
    }
  }

  /** From every processor state and frame that suit the call, the code delivers the call. */
  ghost predicate AlwaysDelivers(
    d: PlatformDescription, retPlan: Option<Plan>, params: seq<Param>, plans: seq<Plan>, args: seq<Location>,
    st: Staged, code: seq<Instr>, frameSize: nat)
    requires |plans| == |params|
  {
    forall before: Cpu, fr: Frame {:trigger Run(code, before, fr)} ::
      fr.size == frameSize && CallInputs(before, fr, params, args, st) ==>
      CallDelivered(d, retPlan, params, plans, args, st, before, Run(code, before, fr), fr)
  }

  lemma CodeDelivers(
    d: PlatformDescription, retPlan: Option<Plan>, params: seq<Param>, plans: seq<Plan>, args: seq<Location>,
    ops: seq<Op>, iTemp: Reg, fTemp: Reg, frameSize: nat)
    requires d.Valid() && !d.IsParamReg(iTemp) && !d.IsParamReg(fTemp) && ArgsOk(params, args) && LastArg(args) >= 0
    requires |plans| == |params| && PlansFit(d, params, plans, args, StageSret(d, retPlan, args))
    requires Resolved(ops, AllDemands(StageCall(d, retPlan, params, plans, args)), iTemp, fTemp)
    ensures var st := StageCall(d, retPlan, params, plans, args);
            var spill := SpillSlot(d, retPlan, params, plans, args);
            AlwaysDelivers(d, retPlan, params, plans, args, st, CallCode(ops, st, retPlan, args, spill, frameSize),
                frameSize)
  {
    hide PlatformDescription.Valid, PlatformDescription.IsParamReg, ArgsOk, PlansFit, Resolved, CallInputs,
      CallDelivered, CallCode, AllDemands, StageCall, StageSret, Run, LastArg, SpillSlot;
    var st := StageCall(d, retPlan, params, plans, args);
    var spill := SpillSlot(d, retPlan, params, plans, args);
    forall before: Cpu, fr: Frame | fr.size == frameSize && CallInputs(before, fr, params, args, st)
      ensures CallDelivered(d, retPlan, params, plans, args, st, before,
                            Run(CallCode(ops, st, retPlan, args, spill, frameSize), before, fr), fr)
    {
      CallDelivers(d, retPlan, params, plans, args, ops, iTemp, fTemp, before, fr);
    }
  }

  ghost predicate ArgCountOk(args: seq<Location>, isSRet: bool, params: seq<Param>) {
    |args| == ArgCount(params) + if isSRet then 1 else 0
  }

  lemma StartOfParams(d: PlatformDescription, args: seq<Location>, st0: Staged)
    ensures PlansFit(d, [], [], args, st0) && StageParams(d, [], [], args, st0) == st0 && ArgCount([]) == 0
  {
  }

  lemma LabelStays(d: PlatformDescription, plan: Plan, varArg: bool, arg: Location, st: Staged)
    ensures StageParam(d, VarArgLabel, plan, varArg, arg, st) == st
  {
  }

  lemma StagingCopies(d: PlatformDescription, st: Staged)
    requires StagingOk(d, st)
    ensures CopiesOk(st)
    ensures forall m :: 0 <= m < |st.copies| ==> KindOf(st.copies[m].ptrLoc) in {Kind.IReg, Kind.Slot}
  {
  }

  lemma AccOfSpill(retPlan: Option<Plan>, args: seq<Location>, slot: nat, spill: nat, frameSize: nat)
    requires SretSpilled(retPlan, args) ==> slot == spill
    ensures AccCode(retPlan, args, slot, frameSize) == AccCode(retPlan, args, spill, frameSize)
  {
  }

  lemma Assoc(a: seq<Instr>, b: seq<Instr>, c: seq<Instr>, d: seq<Instr>)
    ensures a + b + c + d == a + (b + c + d)
  {
  }

  lemma NoCopies(st: Staged)
    ensures st.demands + CopyWords(st.copies[..0], st.ctr.slot) == st.demands
    ensures CopyOffset(st.copies[..0], st.ctr.slot) == st.ctr.slot * STACK_SLOT
  {
  }

  lemma NoPieces(d: PlatformDescription, addr: Location, st: Staged)
    ensures StagePieces(d, [], addr, st) == st
  {
    assert st.demands + PieceDemands(d, [], addr, st.ctr) == st.demands;
  }

  lemma PiecesCopies(d: PlatformDescription, pieces: seq<Piece>, addr: Location, st: Staged)
    ensures StagePieces(d, pieces, addr, st).copies == st.copies
  {
  }
}
