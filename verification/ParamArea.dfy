/** The outgoing parameter area of a staged call: it has no unused slot, so the 16-bit offsets of the call are
    exact exactly when the area has at most 65536 bytes. */
module ParamAreas {
  import opened Wrappers
  import opened Machine
  import opened MoveEmission
  import opened StructAbi
  import opened Abi
  import opened Demands
  import opened Staging
  import opened Delivery
  import opened CallDelivery

  // ---- No slot is skipped ----

  /** A demand or the pointer of a copy goes to the slot. */
  ghost predicate SlotUsed(st: Staged, k: nat) {
    IsTarget(st.demands, SlotLocation(k)) || IsPtr(st.copies, SlotLocation(k))
  }

  ghost predicate Filled(st: Staged) { forall k: nat :: k < st.ctr.slot ==> SlotUsed(st, k) }

  ghost predicate NoEmptyCopy(st: Staged) { forall m :: 0 <= m < |st.copies| ==> st.copies[m].size > 0 }

  /** The step hands out the next slot or none. */
  predicate SlotStep(c: Counters, next: (Location, Counters)) {
    next.1.slot == c.slot || (next.1.slot == c.slot + 1 && next.0 == SlotLocation(c.slot))
  }

  lemma GiveFills(next: (Location, Counters), what: What, st: Staged)
    requires Filled(st) && SlotStep(st.ctr, next)
    ensures Filled(Give(next, what, st))
  {
    var r, ds := Give(next, what, st), [Demand(next.0, what)];
    forall k: nat | k < r.ctr.slot ensures SlotUsed(r, k) {
      TargetsAppend(st.demands, ds, SlotLocation(k));
      if k == st.ctr.slot { assert ds[0].dst == SlotLocation(k); } else { assert SlotUsed(st, k); }
    }
  }

  lemma WordsFill(st: Staged, addr: Location, size: nat)
    requires Filled(st)
    ensures Filled(st.(ctr := NextArea(st.ctr, size), demands := st.demands + Words(st.ctr.slot, addr, size)))
  {
    hide SlotsFor;
    var ws := Words(st.ctr.slot, addr, size);
    var r := st.(ctr := NextArea(st.ctr, size), demands := st.demands + ws);
    forall k: nat | k < r.ctr.slot ensures SlotUsed(r, k) {
      TargetsAppend(st.demands, ws, SlotLocation(k));
      if k < st.ctr.slot { assert SlotUsed(st, k); } else { assert ws[k - st.ctr.slot].dst == SlotLocation(k); }
    }
  }

  lemma CopyFills(st: Staged, next: (Location, Counters), addr: Location, size: nat)
    requires Filled(st) && SlotStep(st.ctr, next)
    ensures Filled(st.(ctr := next.1, copies := st.copies + [StructCopy(addr, next.0, size)]))
  {
    var r := st.(ctr := next.1, copies := st.copies + [StructCopy(addr, next.0, size)]);
    forall k: nat | k < r.ctr.slot ensures SlotUsed(r, k) {
      if k == st.ctr.slot {
        assert r.copies[|st.copies|].ptrLoc == SlotLocation(k);
      } else if !IsTarget(st.demands, SlotLocation(k)) {
        assert SlotUsed(st, k);
        var m :| 0 <= m < |st.copies| && st.copies[m].ptrLoc == SlotLocation(k);
        assert r.copies[m].ptrLoc == SlotLocation(k);
      }
    }
  }

  lemma {:induction false} PiecesFill(d: PlatformDescription, pieces: seq<Piece>, addr: Location, st: Staged)
    requires Filled(st)
    ensures Filled(StagePieces(d, pieces, addr, st))
  {
    if pieces == [] {
      assert StagePieces(d, pieces, addr, st) == st;
    } else {
      hide Filled, PieceDemands;
      var n := |pieces| - 1;
      PiecesFill(d, pieces[..n], addr, st);
      PieceSplit(d, pieces, addr, st.ctr);
      var was, what := StagePieces(d, pieces[..n], addr, st), Fetch(addr, pieces[n].offset, PieceLoad(pieces[n].kind));
      GiveFills(Next(d, was.ctr, IsFloat(pieces[n].kind)), what, was);
      assert StagePieces(d, pieces, addr, st) == Give(Next(d, was.ctr, IsFloat(pieces[n].kind)), what, was);
    }
  }

  lemma ParamFills(d: PlatformDescription, p: Param, plan: Plan, varArg: bool, arg: Location, st: Staged)
    requires Filled(st)
    ensures Filled(StageParam(d, p, plan, varArg, arg, st))
  {
    hide Filled;
    match p
    case VarArgLabel =>
    case VArray => GiveFills(Next(d, st.ctr, false), Copy(arg), st);
    case Scalar(kind) => GiveFills(ScalarNext(d, kind, varArg, st.ctr), Copy(arg), st);
    case Struct(layout) =>
      if layout.Some? {
        var size := layout.value.size;
        match plan.passBy
        case Empty =>
        case Regs => PiecesFill(d, plan.pieces, arg, st);
        case Stack => WordsFill(st, arg, size);
        case Ref => CopyFills(st, Next(d, st.ctr, false), arg, size);
      }
  }

  lemma ParamCopies(d: PlatformDescription, p: Param, plan: Plan, varArg: bool, arg: Location, st: Staged)
    requires NoEmptyCopy(st)
    requires p.Struct? && p.layout.Some? && plan.passBy == PassBy.Ref ==> p.layout.value.size > 0
    ensures NoEmptyCopy(StageParam(d, p, plan, varArg, arg, st))
  {
  }

  lemma {:induction false} ParamsFill(
    d: PlatformDescription, params: seq<Param>, plans: seq<Plan>, args: seq<Location>, st0: Staged)
    requires |plans| == |params| && PlansFit(d, params, plans, args, st0) && ArgsOk(params, args)
    requires Filled(st0) && NoEmptyCopy(st0)
    ensures Filled(StageParams(d, params, plans, args, st0)) && NoEmptyCopy(StageParams(d, params, plans, args, st0))
  {
    hide Filled, NoEmptyCopy, StageParam, PlansFit, ArgsOk, ArgOf;
    if params != [] {
      var n := |params| - 1;
      PlansPrefix(d, params, plans, args, st0);
      PiecesInside(d, params, plans, args, st0, n);
      ParamsFill(d, params[..n], plans[..n], args, st0);
      var st := StageParams(d, params[..n], plans[..n], args, st0);
      ParamFills(d, params[n], plans[n], VarArgLabel in params[..n], ArgOf(params[..n], args), st);
      ParamCopies(d, params[n], plans[n], VarArgLabel in params[..n], ArgOf(params[..n], args), st);
    }
  }

  lemma SpillFills(retPlan: Option<Plan>, args: seq<Location>, st: Staged)
    requires Filled(st) && NoEmptyCopy(st)
    ensures Filled(StageSpill(retPlan, args, st)) && NoEmptyCopy(StageSpill(retPlan, args, st))
  {
    assert NextArea(st.ctr, STACK_SLOT).slot == st.ctr.slot + 1;
    var next := (SlotLocation(st.ctr.slot), NextArea(st.ctr, STACK_SLOT));
    hide Filled;
    GiveFills(next, Copy(LastArg(args)), st);
  }

  lemma CallFills(
    d: PlatformDescription, retPlan: Option<Plan>, params: seq<Param>, plans: seq<Plan>, args: seq<Location>)
    requires |plans| == |params| && PlansFit(d, params, plans, args, StageSret(d, retPlan, args))
    requires ArgsOk(params, args)
    ensures Filled(StageCall(d, retPlan, params, plans, args))
    ensures NoEmptyCopy(StageCall(d, retPlan, params, plans, args))
  {
    var none, st0 := Staged(Counters(0, 0, 0), [], []), StageSret(d, retPlan, args);
    assert Filled(none);
    hide Filled, PlansFit, ArgsOk, StageParams, StageSpill;
    GiveFills(NextSret(d, none.ctr), Copy(LastArg(args)), none);
    ParamsFill(d, params, plans, args, st0);
    SpillFills(retPlan, args, StageParams(d, params, plans, args, st0));
  }

  // ---- When the encoding is exact ----

  /** The 16-bit offset of the slot is the intended one. */
  predicate ExactSlot(l: Location) { KindOf(l) == Kind.Slot ==> AsU16(AsU16(l - REG_COUNT) * 8) == 8 * (l - REG_COUNT) }

  ghost predicate SlotsExact(st: Staged) { forall l :: IsTarget(AllDemands(st), l) ==> ExactSlot(l) }

  ghost predicate PointersExact(st: Staged) {
    forall m :: 0 <= m < |st.copies| ==>
      && ExactSlot(st.copies[m].ptrLoc)
      && AsU16(CopyOffset(st.copies[..m], st.ctr.slot)) == CopyOffset(st.copies[..m], st.ctr.slot)
  }

  lemma InAreaExact(st: Staged, l: Location)
    requires CallArea(st) <= 0x1_0000 && l < REG_COUNT + st.ctr.slot + CopySlots(st.copies)
    ensures ExactSlot(l)
  {
    hide CopySlots, AsU16;
    if KindOf(l) == Kind.Slot { ParamOffsetExact(l - REG_COUNT); }
  }

  /** The last slot of a non-empty area is demanded: copies are not empty and lie above all else. */
  lemma TopSlotDemanded(st: Staged)
    requires Filled(st) && NoEmptyCopy(st) && st.ctr.slot + CopySlots(st.copies) > 0
    ensures IsTarget(AllDemands(st), SlotLocation(st.ctr.slot + CopySlots(st.copies) - 1))
  {
    var top := st.ctr.slot + CopySlots(st.copies) - 1;
    TargetsAppend(st.demands, CopyWords(st.copies, st.ctr.slot), SlotLocation(top));
    hide CopyWords;
    if st.copies == [] {
      assert SlotUsed(st, top);
    } else {
      var n := |st.copies| - 1;
      var x, lo := st.copies[n], st.ctr.slot + CopySlots(st.copies[..n]);
      CopyWordsOf(st.copies, st.ctr.slot, n);
      var w := Words(lo, x.srcAddr, x.size)[SlotsFor(x.size) - 1];
      assert w in Words(lo, x.srcAddr, x.size) && w.dst == SlotLocation(top);
      IsTargetOf(AllDemands(st), w);
    }
  }

  lemma ExactBelow(d: PlatformDescription, st: Staged)
    requires d.Valid() && StagingOk(d, st) && NoEmptyCopy(st) && CallArea(st) <= 0x1_0000
    ensures SlotsExact(st) && PointersExact(st)
  {
    hide PlatformDescription.Valid, StagingOk, AllDemands, CopySlots, ExactSlot, AsU16;
    AllDemandsOk(d, st);
    forall l | IsTarget(AllDemands(st), l) || IsPtr(st.copies, l) ensures ExactSlot(l) {
      if d.IsParamReg(l) { RegExact(d, l); } else { InAreaExact(st, l); }
    }
    NonEmptyFit(st.copies, st.ctr.slot);
    forall m | 0 <= m < |st.copies|
      ensures AsU16(CopyOffset(st.copies[..m], st.ctr.slot)) == CopyOffset(st.copies[..m], st.ctr.slot) {
      SmallIsExact(CopyOffset(st.copies[..m], st.ctr.slot));
    }
    assert forall m :: 0 <= m < |st.copies| ==> IsPtr(st.copies, st.copies[m].ptrLoc);
  }

  lemma RegExact(d: PlatformDescription, l: Location)
    requires d.IsParamReg(l)
    ensures ExactSlot(l)
  {
    ParamRegIsReg(d, l);
  }

  /** All parameter slots that a call writes are encoded exactly if and only if its area has at most 65536 bytes;
      then the pointers of copies are exact too. */
  lemma CallOffsetsExact(
    d: PlatformDescription, retPlan: Option<Plan>, params: seq<Param>, plans: seq<Plan>, args: seq<Location>)
    requires d.Valid() && ArgsOk(params, args) && LastArg(args) >= 0
    requires |plans| == |params| && PlansFit(d, params, plans, args, StageSret(d, retPlan, args))
    ensures var st := StageCall(d, retPlan, params, plans, args);
            && (SlotsExact(st) <==> CallArea(st) <= 0x1_0000)
            && (SlotsExact(st) ==> PointersExact(st))
  {
    hide PlatformDescription.Valid, ArgsOk, PlansFit, StageSret, StageCall, StagingOk, Filled, NoEmptyCopy,
      PointersExact, AllDemands, CopySlots;
    var st := StageCall(d, retPlan, params, plans, args);
    StageCallOk(d, retPlan, params, plans, args);
    CallFills(d, retPlan, params, plans, args);
    if CallArea(st) <= 0x1_0000 {
      ExactBelow(d, st);
    } else {
      TopSlotDemanded(st);
      ParamOffsetExact(st.ctr.slot + CopySlots(st.copies) - 1);
      assert !ExactSlot(SlotLocation(st.ctr.slot + CopySlots(st.copies) - 1));
    }
  }
}
