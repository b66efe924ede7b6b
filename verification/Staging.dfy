/** Staging of foreign-call arguments (StageForeignCallArgs, StageForeignStructArg): which demands
    each parameter adds, as a function of the allocator's counters. */
module Staging {
  import opened Wrappers
  import opened Machine
  import opened StructAbi
  import opened Abi
  import opened Demands

  datatype StructLayout = StructLayout(fields: seq<Field>, size: nat) {
    predicate Valid() { forall i :: 0 <= i < |fields| ==> fields[i].offset + fields[i].size <= size }
  }

  /** A parameter of a foreign signature; a struct whose layout cannot be computed has none. */
  datatype Param = VarArgLabel | VArray | Struct(layout: Option<StructLayout>) | Scalar(kind: TypeKind)

  datatype StructCopy = StructCopy(srcAddr: Location, ptrLoc: Location, size: nat)

  datatype Staged = Staged(ctr: Counters, demands: seq<Demand>, copies: seq<StructCopy>)

  // ---- What one parameter adds ----

  /** One demand for each eight bytes of the struct at `addr`. */
  function Words(base: nat, addr: Location, size: nat): (ws: seq<Demand>)
    ensures |ws| == SlotsFor(size)
    ensures forall k :: 0 <= k < |ws| ==> ws[k] == Demand(SlotLocation(base + k), Fetch(addr, 8 * k, LoadKind.U64))
  {
    seq(SlotsFor(size), k requires 0 <= k => Demand(SlotLocation(base + k), Fetch(addr, 8 * k, LoadKind.U64)))
  }

  function AfterPieces(d: PlatformDescription, pieces: seq<Piece>, c: Counters): Counters {
    if pieces == [] then c else
      var n := |pieces| - 1;
      Next(d, AfterPieces(d, pieces[..n], c), IsFloat(pieces[n].kind)).1
  }

  /** The register of piece `k`. */
  function PieceLoc(d: PlatformDescription, pieces: seq<Piece>, k: nat, c: Counters): Location
    requires k < |pieces|
  {
    Next(d, AfterPieces(d, pieces[..k], c), IsFloat(pieces[k].kind)).0
  }

  function PieceDemands(d: PlatformDescription, pieces: seq<Piece>, addr: Location, c: Counters): seq<Demand> {
    seq(|pieces|, k requires 0 <= k < |pieces| =>
      Demand(PieceLoc(d, pieces, k, c), Fetch(addr, pieces[k].offset, PieceLoad(pieces[k].kind))))
  }

  /** Where a scalar goes, and the counters afterwards. */
  function ScalarNext(d: PlatformDescription, kind: TypeKind, varArg: bool, c: Counters): (Location, Counters) {
    if varArg then NextVarArg(d, c, IsFloat(kind)) else Next(d, c, IsFloat(kind))
  }

  function StagePieces(d: PlatformDescription, pieces: seq<Piece>, addr: Location, st: Staged): Staged {
    st.(ctr := AfterPieces(d, pieces, st.ctr), demands := st.demands + PieceDemands(d, pieces, addr, st.ctr))
  }

  function StageStruct(d: PlatformDescription, size: nat, plan: Plan, addr: Location, st: Staged): Staged {
    match plan.passBy
    case Empty => st
    case Regs => StagePieces(d, plan.pieces, addr, st)
    case Stack => st.(ctr := NextArea(st.ctr, size), demands := st.demands + Words(st.ctr.slot, addr, size))
    case Ref => st.(ctr := Next(d, st.ctr, false).1,
                    copies := st.copies + [StructCopy(addr, Next(d, st.ctr, false).0, size)])
  }

  function Give(next: (Location, Counters), what: What, st: Staged): Staged {
    st.(ctr := next.1, demands := st.demands + [Demand(next.0, what)])
  }

  function StageParam(d: PlatformDescription, p: Param, plan: Plan, varArg: bool, arg: Location, st: Staged): Staged {
    match p
    case VarArgLabel => st
    case VArray => Give(Next(d, st.ctr, false), Copy(arg), st)
    case Struct(layout) => if layout.None? then st else StageStruct(d, layout.value.size, plan, arg, st)
    case Scalar(kind) => Give(ScalarNext(d, kind, varArg, st.ctr), Copy(arg), st)
  }

  // ---- All parameters ----

  /** Labels take no argument. */
  function ArgCount(params: seq<Param>): (n: nat)
    ensures n <= |params|
  {
    if params == [] then 0
    else ArgCount(params[..|params| - 1]) + if params[|params| - 1].VarArgLabel? then 0 else 1
  }

  function ArgOf(params: seq<Param>, args: seq<Location>): Location {
    if ArgCount(params) < |args| then args[ArgCount(params)] else 0
  }

  function StageParams(
    d: PlatformDescription, params: seq<Param>, plans: seq<Plan>, args: seq<Location>, st0: Staged): Staged
    requires |plans| == |params|
  {
    if params == [] then st0 else
      var n := |params| - 1;
      StageParam(d, params[n], plans[n], VarArgLabel in params[..n], ArgOf(params[..n], args),
                 StageParams(d, params[..n], plans[..n], args, st0))
  }

  /** The plan of parameter `j` is the classifier's answer for the registers free at that point. */
  ghost predicate PlanFits(
    d: PlatformDescription, params: seq<Param>, plans: seq<Plan>, args: seq<Location>, st0: Staged, j: nat)
    requires |plans| == |params| && j < |params|
  {
    params[j].Struct? && params[j].layout.Some? ==>
      var c := StageParams(d, params[..j], plans[..j], args, st0).ctr;
      var layout := params[j].layout.value;
      IsChosen(d.cAbi, layout.fields, layout.size, VarArgLabel in params[..j] && d.onlyOnStackVarargs,
               |d.iregHead| - c.iarg, |d.fregHead| - c.farg, plans[j])
  }

  ghost predicate PlansFit(
    d: PlatformDescription, params: seq<Param>, plans: seq<Plan>, args: seq<Location>, st0: Staged) {
    |plans| == |params| && forall j :: 0 <= j < |params| ==> PlanFits(d, params, plans, args, st0, j)
  }

  /** What the source asserts of its inputs: structs are addressed by integer registers or slots. */
  ghost predicate ArgOk(p: Param, arg: Location) {
    && arg >= 0
    && (p.Struct? ==> KindOf(arg) in {Kind.IReg, Kind.Slot} && (p.layout.Some? ==> p.layout.value.Valid()))
  }

  ghost predicate ArgsOk(params: seq<Param>, args: seq<Location>) {
    forall j :: 0 <= j < |params| ==> ArgOk(params[j], ArgOf(params[..j], args))
  }

  // ---- The invariant of staging ----

  ghost predicate IsPtr(copies: seq<StructCopy>, l: Location) { exists m :: 0 <= m < |copies| && copies[m].ptrLoc == l }

  /** Pointers of copies go to integer registers or slots of their own. */
  ghost predicate CopiesOk(st: Staged) {
    && (forall m :: 0 <= m < |st.copies| ==>
          && KindOf(st.copies[m].ptrLoc) in {Kind.IReg, Kind.Slot}
              && KindOf(st.copies[m].srcAddr) in {Kind.IReg, Kind.Slot}
          && !IsTarget(st.demands, st.copies[m].ptrLoc))
    && (forall m, n :: 0 <= m < n < |st.copies| ==> st.copies[m].ptrLoc != st.copies[n].ptrLoc)
  }

  /** Destinations are distinct and all of them were handed out by the allocator. */
  ghost predicate StagingOk(d: PlatformDescription, st: Staged) {
    && DemandsOk(st.demands) && CopiesOk(st)
    && (forall l :: IsTarget(st.demands, l) || IsPtr(st.copies, l) ==> Owned(d, st.ctr, l))
  }

  lemma TargetsAppend(ds: seq<Demand>, es: seq<Demand>, l: Location)
    ensures IsTarget(ds + es, l) <==> IsTarget(ds, l) || IsTarget(es, l)
  {
    if IsTarget(ds, l) {
      var i :| 0 <= i < |ds| && ds[i].dst == l;
      assert (ds + es)[i].dst == l;
    }
    if IsTarget(es, l) {
      var i :| 0 <= i < |es| && es[i].dst == l;
      assert (ds + es)[|ds| + i].dst == l;
    }
  }

  /** More demands for locations that were not handed out before. */
  lemma ExtendKeeps(d: PlatformDescription, st: Staged, more: seq<Demand>, c: Counters)
    requires StagingOk(d, st) && DemandsOk(more)
    requires forall l :: Owned(d, st.ctr, l) ==> Owned(d, c, l)
    requires forall l :: IsTarget(more, l) ==> !Owned(d, st.ctr, l) && Owned(d, c, l)
    ensures StagingOk(d, st.(ctr := c, demands := st.demands + more))
  {
    hide Owned;
    var ds := st.demands;
    forall i | 0 <= i < |more| ensures IsTarget(more, more[i].dst) {}
    forall i | 0 <= i < |ds| ensures IsTarget(ds, ds[i].dst) {}
    forall m | 0 <= m < |st.copies| ensures IsPtr(st.copies, st.copies[m].ptrLoc) {}
    forall l ensures IsTarget(ds + more, l) <==> IsTarget(ds, l) || IsTarget(more, l) { TargetsAppend(ds, more, l); }
  }

  lemma GiveKeeps(d: PlatformDescription, st: Staged, next: (Location, Counters), what: What)
    requires StagingOk(d, st) && HandsOut(d, st.ctr, next.0, next.1) && DemandOk(Demand(next.0, what))
    ensures StagingOk(d, Give(next, what, st))
  {
    ExtendKeeps(d, st, [Demand(next.0, what)], next.1);
  }

  lemma WordsKeep(d: PlatformDescription, st: Staged, addr: Location, size: nat)
    requires d.Valid() && StagingOk(d, st) && KindOf(addr) in {Kind.IReg, Kind.Slot}
    ensures StagingOk(d, st.(ctr := NextArea(st.ctr, size), demands := st.demands + Words(st.ctr.slot, addr, size)))
  {
    AreaFresh(d, st.ctr, size);
    WordsOk(st.ctr.slot, addr, size);
    hide Owned, Words, StagingOk;
    ExtendKeeps(d, st, Words(st.ctr.slot, addr, size), NextArea(st.ctr, size));
  }

  lemma WordsOk(base: nat, addr: Location, size: nat)
    requires KindOf(addr) in {Kind.IReg, Kind.Slot}
    ensures DemandsOk(Words(base, addr, size))
    ensures forall l :: IsTarget(Words(base, addr, size), l) <==>
            REG_COUNT + base <= l < REG_COUNT + base + SlotsFor(size)
  {
    var ws := Words(base, addr, size);
    forall l | REG_COUNT + base <= l < REG_COUNT + base + SlotsFor(size) ensures IsTarget(ws, l) {
      assert ws[l - REG_COUNT - base].dst == l;
    }
  }

  lemma CopyKeeps(d: PlatformDescription, st: Staged, addr: Location, size: nat)
    requires d.Valid() && StagingOk(d, st) && KindOf(addr) in {Kind.IReg, Kind.Slot}
    ensures var next := Next(d, st.ctr, false);
            StagingOk(d, st.(ctr := next.1, copies := st.copies + [StructCopy(addr, next.0, size)]))
  {
    var next := Next(d, st.ctr, false);
    NextFresh(d, st.ctr, false);
    hide Owned;
    var cs := st.copies + [StructCopy(addr, next.0, size)];
    forall m | 0 <= m < |st.copies| ensures st.copies[m].ptrLoc != next.0 {
      assert IsPtr(st.copies, st.copies[m].ptrLoc);
    }
    forall l | IsPtr(cs, l) ensures IsPtr(st.copies, l) || l == next.0 {
      var m :| 0 <= m < |cs| && cs[m].ptrLoc == l;
      if m < |st.copies| { assert st.copies[m].ptrLoc == l; }
    }
  }

  /** The pieces of a struct planned for registers all get registers, each of its own kind. */
  lemma {:induction false} PiecesInRegs(d: PlatformDescription, pieces: seq<Piece>, c: Counters)
    requires d.Valid() && FitsRegs(pieces, |d.iregHead| - c.iarg, |d.fregHead| - c.farg)
    ensures AfterPieces(d, pieces, c).iarg == c.iarg + |pieces| - CountFloats(pieces)
    ensures AfterPieces(d, pieces, c).farg == c.farg + CountFloats(pieces)
    ensures AfterPieces(d, pieces, c).slot == c.slot
    ensures forall k :: 0 <= k < |pieces| ==>
              KindOf(PieceLoc(d, pieces, k, c)) == if IsFloat(pieces[k].kind) then Kind.FReg else Kind.IReg
  {
    if pieces != [] {
      var n := |pieces| - 1;
      PiecesInRegs(d, pieces[..n], c);
      PieceSplit(d, pieces, 0, c);
      NextFresh(d, AfterPieces(d, pieces[..n], c), IsFloat(pieces[n].kind));
    }
  }

  lemma FitsPrefix(pieces: seq<Piece>, freeIRegs: int, freeFRegs: int)
    requires pieces != [] && FitsRegs(pieces, freeIRegs, freeFRegs)
    ensures FitsRegs(pieces[..|pieces| - 1], freeIRegs, freeFRegs)
  {
  }

  lemma {:induction false} PiecesKeep(d: PlatformDescription, pieces: seq<Piece>, addr: Location, st: Staged)
    requires d.Valid() && StagingOk(d, st) && KindOf(addr) in {Kind.IReg, Kind.Slot}
    requires FitsRegs(pieces, |d.iregHead| - st.ctr.iarg, |d.fregHead| - st.ctr.farg)
    ensures StagingOk(d, StagePieces(d, pieces, addr, st))
  {
    hide StagingOk, Owned, PlatformDescription.Valid, HandsOut;
    if pieces == [] {
      assert st.demands + PieceDemands(d, pieces, addr, st.ctr) == st.demands;
    } else {
      var n := |pieces| - 1;
      FitsPrefix(pieces, |d.iregHead| - st.ctr.iarg, |d.fregHead| - st.ctr.farg);
      PiecesKeep(d, pieces[..n], addr, st);
      PiecesInRegs(d, pieces, st.ctr);
      PieceKeeps(d, pieces, addr, st);
    }
  }

  lemma PieceKeeps(d: PlatformDescription, pieces: seq<Piece>, addr: Location, st: Staged)
    requires d.Valid() && pieces != [] && KindOf(addr) in {Kind.IReg, Kind.Slot}
    requires StagingOk(d, StagePieces(d, pieces[..|pieces| - 1], addr, st))
    requires var p := pieces[|pieces| - 1];
             KindOf(PieceLoc(d, pieces, |pieces| - 1, st.ctr)) == if IsFloat(p.kind) then Kind.FReg else Kind.IReg
    ensures StagingOk(d, StagePieces(d, pieces, addr, st))
  {
    hide StagingOk, Owned, PlatformDescription.Valid, HandsOut;
    var n := |pieces| - 1;
    var mid := StagePieces(d, pieces[..n], addr, st);
    var next := Next(d, mid.ctr, IsFloat(pieces[n].kind));
    var what := Fetch(addr, pieces[n].offset, PieceLoad(pieces[n].kind));
    PieceSplit(d, pieces, addr, st.ctr);
    NextFresh(d, mid.ctr, IsFloat(pieces[n].kind));
    assert DemandOk(Demand(next.0, what));
    GiveKeeps(d, mid, next, what);
    assert mid.demands + [Demand(next.0, what)] == st.demands + PieceDemands(d, pieces, addr, st.ctr);
  }

  lemma PieceSplit(d: PlatformDescription, pieces: seq<Piece>, addr: Location, c: Counters)
    requires pieces != []
    ensures var n := |pieces| - 1;
            && (forall k :: 0 <= k < n ==> PieceLoc(d, pieces, k, c) == PieceLoc(d, pieces[..n], k, c))
            && PieceDemands(d, pieces, addr, c) == PieceDemands(d, pieces[..n], addr, c) +
                 [Demand(PieceLoc(d, pieces, n, c), Fetch(addr, pieces[n].offset, PieceLoad(pieces[n].kind)))]
  {
    var n := |pieces| - 1;
    forall k | 0 <= k < n ensures PieceLoc(d, pieces, k, c) == PieceLoc(d, pieces[..n], k, c) {
      assert pieces[..n][..k] == pieces[..k];
    }
  }

  lemma StageParamKeeps(
    d: PlatformDescription, p: Param, plan: Plan, varArg: bool, arg: Location, st: Staged)
    requires d.Valid() && StagingOk(d, st) && ArgOk(p, arg)
    requires p.Struct? && p.layout.Some? && plan.passBy == Regs ==>
               FitsRegs(plan.pieces, |d.iregHead| - st.ctr.iarg, |d.fregHead| - st.ctr.farg)
    ensures StagingOk(d, StageParam(d, p, plan, varArg, arg, st))
  {
    hide StagingOk, HandsOut, PieceDemands, Words, AfterPieces, FitsRegs;
    match p
    case VarArgLabel =>
    case VArray =>
      NextFresh(d, st.ctr, false);
      FreshDemand(d, st.ctr, Next(d, st.ctr, false), arg);
      GiveKeeps(d, st, Next(d, st.ctr, false), Copy(arg));
    case Scalar(kind) =>
      NextFresh(d, st.ctr, IsFloat(kind));
      NextVarArgFresh(d, st.ctr, IsFloat(kind));
      FreshDemand(d, st.ctr, ScalarNext(d, kind, varArg, st.ctr), arg);
      GiveKeeps(d, st, ScalarNext(d, kind, varArg, st.ctr), Copy(arg));
    case Struct(layout) =>
      if layout.Some? { StageStructKeeps(d, layout.value.size, plan, arg, st); }
  }

  lemma FreshDemand(d: PlatformDescription, c: Counters, next: (Location, Counters), arg: Location)
    requires HandsOut(d, c, next.0, next.1) && arg >= 0
    ensures DemandOk(Demand(next.0, Copy(arg)))
  {
  }

  lemma StageStructKeeps(d: PlatformDescription, size: nat, plan: Plan, addr: Location, st: Staged)
    requires d.Valid() && StagingOk(d, st) && KindOf(addr) in {Kind.IReg, Kind.Slot}
    requires plan.passBy == Regs ==> FitsRegs(plan.pieces, |d.iregHead| - st.ctr.iarg, |d.fregHead| - st.ctr.farg)
    ensures StagingOk(d, StageStruct(d, size, plan, addr, st))
  {
    hide StagingOk, PieceDemands, Words, AfterPieces, FitsRegs;
    match plan.passBy
    case Empty =>
    case Regs => PiecesKeep(d, plan.pieces, addr, st);
    case Stack => WordsKeep(d, st, addr, size);
    case Ref => CopyKeeps(d, st, addr, size);
  }

  lemma PlansPrefix(
    d: PlatformDescription, params: seq<Param>, plans: seq<Plan>, args: seq<Location>, st0: Staged)
    requires PlansFit(d, params, plans, args, st0) && ArgsOk(params, args) && params != []
    ensures PlansFit(d, params[..|params| - 1], plans[..|params| - 1], args, st0)
    ensures ArgsOk(params[..|params| - 1], args)
  {
    var n := |params| - 1;
    forall j | 0 <= j < n
      ensures PlanFits(d, params[..n], plans[..n], args, st0, j) && ArgOk(params[..n][j], ArgOf(params[..n][..j], args))
    {
      assert params[..n][..j] == params[..j] && plans[..n][..j] == plans[..j];
      assert PlanFits(d, params, plans, args, st0, j);
    }
  }

  lemma ChosenFits(
    d: PlatformDescription, params: seq<Param>, plans: seq<Plan>, args: seq<Location>, st0: Staged, j: nat)
    requires PlansFit(d, params, plans, args, st0) && j < |params|
    ensures params[j].Struct? && params[j].layout.Some? && plans[j].passBy == Regs ==>
              var c := StageParams(d, params[..j], plans[..j], args, st0).ctr;
              FitsRegs(plans[j].pieces, |d.iregHead| - c.iarg, |d.fregHead| - c.farg)
  {
    hide IsChosen;
    assert PlanFits(d, params, plans, args, st0, j);
    if params[j].Struct? && params[j].layout.Some? {
      var c := StageParams(d, params[..j], plans[..j], args, st0).ctr;
      var layout := params[j].layout.value;
      ChosenMeaning(d.cAbi, layout.fields, layout.size, VarArgLabel in params[..j] && d.onlyOnStackVarargs,
                    |d.iregHead| - c.iarg, |d.fregHead| - c.farg, plans[j]);
    }
  }

  /** Staging all parameters keeps the destinations distinct, whatever the signature. */
  lemma {:induction false} StageParamsKeep(
    d: PlatformDescription, params: seq<Param>, plans: seq<Plan>, args: seq<Location>, st0: Staged)
    requires d.Valid() && StagingOk(d, st0) && ArgsOk(params, args)
    requires |plans| == |params| && PlansFit(d, params, plans, args, st0)
    ensures StagingOk(d, StageParams(d, params, plans, args, st0))
  {
    hide StagingOk, StageParam, ArgOk, PlansFit, FitsRegs, PlatformDescription.Valid, ArgOf;
    if params != [] {
      var n := |params| - 1;
      PlansPrefix(d, params, plans, args, st0);
      ChosenFits(d, params, plans, args, st0, n);
      StageParamsKeep(d, params[..n], plans[..n], args, st0);
      var st := StageParams(d, params[..n], plans[..n], args, st0);
      StageParamKeeps(d, params[n], plans[n], VarArgLabel in params[..n], ArgOf(params[..n], args), st);
    }
  }

  // ---- Where each argument is demanded ----

  /** The demands and copies in `st` that put argument `arg` where the allocator, as it was in
      `was`, says that the parameter goes. */
  ghost predicate Demanded(
    d: PlatformDescription, p: Param, plan: Plan, varArg: bool, arg: Location, was: Staged, st: Staged)
  {
    match p
    case VarArgLabel => true
    case VArray => Demand(Next(d, was.ctr, false).0, Copy(arg)) in st.demands
    case Scalar(kind) => Demand(ScalarNext(d, kind, varArg, was.ctr).0, Copy(arg)) in st.demands
    case Struct(layout) => layout.Some? ==> StructDemanded(d, layout.value.size, plan, arg, was, st)
  }

  ghost predicate StructDemanded(
    d: PlatformDescription, size: nat, plan: Plan, arg: Location, was: Staged, st: Staged)
  {
    match plan.passBy
    case Empty => true
    case Regs => forall x :: x in PieceDemands(d, plan.pieces, arg, was.ctr) ==> x in st.demands
    case Stack => forall x :: x in Words(was.ctr.slot, arg, size) ==> x in st.demands
    case Ref =>
      && |was.copies| < |st.copies|
      && st.copies[|was.copies|] == StructCopy(arg, Next(d, was.ctr, false).0, size)
  }

  lemma ParamDemands(d: PlatformDescription, p: Param, plan: Plan, varArg: bool, arg: Location, st: Staged)
    ensures Demanded(d, p, plan, varArg, arg, st, StageParam(d, p, plan, varArg, arg, st))
    ensures Grows(st, StageParam(d, p, plan, varArg, arg, st))
  {
    hide PieceDemands, Words, AfterPieces;
  }

  ghost predicate Grows(st: Staged, st': Staged) {
    (forall x :: x in st.demands ==> x in st'.demands) && st.copies <= st'.copies
  }

  /** Every parameter's demands are among those of the whole call. */
  lemma {:induction false} ParamsDemanded(
    d: PlatformDescription, params: seq<Param>, plans: seq<Plan>, args: seq<Location>, st0: Staged, j: nat)
    requires |plans| == |params| && j < |params|
    ensures Demanded(d, params[j], plans[j], VarArgLabel in params[..j], ArgOf(params[..j], args),
                     StageParams(d, params[..j], plans[..j], args, st0), StageParams(d, params, plans, args, st0))
  {
    hide Demanded, StageParam, Grows, ArgOf;
    var n := |params| - 1;
    var st := StageParams(d, params[..n], plans[..n], args, st0);
    ParamDemands(d, params[n], plans[n], VarArgLabel in params[..n], ArgOf(params[..n], args), st);
    if j < n {
      ParamsDemanded(d, params[..n], plans[..n], args, st0, j);
      assert params[..n][..j] == params[..j] && plans[..n][..j] == plans[..j];
      DemandedGrows(d, params[j], plans[j], VarArgLabel in params[..j], ArgOf(params[..j], args),
                    StageParams(d, params[..j], plans[..j], args, st0), st, StageParams(d, params, plans, args, st0));
    }
  }

  lemma DemandedGrows(
    d: PlatformDescription, p: Param, plan: Plan, varArg: bool, arg: Location, was: Staged, st: Staged, st': Staged)
    requires Demanded(d, p, plan, varArg, arg, was, st) && Grows(st, st')
    ensures Demanded(d, p, plan, varArg, arg, was, st')
  {
  }

  /** ... including those that were there before any parameter. */
  lemma {:induction false} ParamsGrow(
    d: PlatformDescription, params: seq<Param>, plans: seq<Plan>, args: seq<Location>, st0: Staged)
    requires |plans| == |params|
    ensures Grows(st0, StageParams(d, params, plans, args, st0))
  {
    if params != [] {
      var n := |params| - 1;
      ParamsGrow(d, params[..n], plans[..n], args, st0);
      ParamDemands(d, params[n], plans[n], VarArgLabel in params[..n], ArgOf(params[..n], args),
                   StageParams(d, params[..n], plans[..n], args, st0));
      hide StageParam, ArgOf;
    }
  }

  // ---- Copies of structs passed by reference ----

  function CopySlots(copies: seq<StructCopy>): nat {
    if copies == [] then 0 else CopySlots(copies[..|copies| - 1]) + SlotsFor(copies[|copies| - 1].size)
  }

  /** The words of all copies, one area after the other from slot `base` on. */
  function CopyWords(copies: seq<StructCopy>, base: nat): seq<Demand> {
    if copies == [] then [] else
      var n := |copies| - 1;
      CopyWords(copies[..n], base) + Words(base + CopySlots(copies[..n]), copies[n].srcAddr, copies[n].size)
  }

  ghost predicate TargetsWithin(ds: seq<Demand>, lo: nat, hi: nat) {
    forall l :: IsTarget(ds, l) ==> REG_COUNT + lo <= l < REG_COUNT + hi
  }

  lemma WithinConcat(ds: seq<Demand>, es: seq<Demand>, lo: nat, mid: nat, hi: nat)
    requires DemandsOk(ds) && DemandsOk(es) && TargetsWithin(ds, lo, mid) && TargetsWithin(es, mid, hi)
    requires lo <= mid <= hi
    ensures DemandsOk(ds + es) && TargetsWithin(ds + es, lo, hi)
  {
    hide DemandsOk, IsTarget;
    ConcatOk(ds, es);
  }

  lemma {:induction false} CopyWordsOk(copies: seq<StructCopy>, base: nat)
    requires forall m :: 0 <= m < |copies| ==> KindOf(copies[m].srcAddr) in {Kind.IReg, Kind.Slot}
    ensures DemandsOk(CopyWords(copies, base)) && TargetsWithin(CopyWords(copies, base), base, base + CopySlots(copies))
  {
    hide DemandsOk, TargetsWithin, Words, SlotsFor;
    if copies == [] {
      NoDemands(base);
    } else {
      var n := |copies| - 1;
      CopyWordsOk(copies[..n], base);
      var lo := base + CopySlots(copies[..n]);
      WordsWithin(lo, copies[n].srcAddr, copies[n].size);
      WithinConcat(CopyWords(copies[..n], base), Words(lo, copies[n].srcAddr, copies[n].size), base, lo,
          lo + SlotsFor(copies[n].size));
    }
  }

  lemma NoDemands(base: nat)
    ensures DemandsOk([]) && TargetsWithin([], base, base)
  {
  }

  lemma WordsWithin(base: nat, addr: Location, size: nat)
    requires KindOf(addr) in {Kind.IReg, Kind.Slot}
    ensures DemandsOk(Words(base, addr, size)) && TargetsWithin(Words(base, addr, size), base, base + SlotsFor(size))
  {
    hide DemandsOk, IsTarget;
    WordsOk(base, addr, size);
  }

  lemma ConcatOk(ds: seq<Demand>, es: seq<Demand>)
    requires DemandsOk(ds) && DemandsOk(es) && forall l :: IsTarget(ds, l) ==> !IsTarget(es, l)
    ensures DemandsOk(ds + es) && forall l :: IsTarget(ds + es, l) <==> IsTarget(ds, l) || IsTarget(es, l)
  {
    forall i | 0 <= i < |es| ensures IsTarget(es, es[i].dst) {}
    forall i | 0 <= i < |ds| ensures IsTarget(ds, ds[i].dst) {}
    forall l ensures IsTarget(ds + es, l) <==> IsTarget(ds, l) || IsTarget(es, l) { TargetsAppend(ds, es, l); }
  }

  lemma {:induction false} CopyWordsOf(copies: seq<StructCopy>, base: nat, m: nat)
    requires m < |copies|
    ensures forall x :: x in Words(base + CopySlots(copies[..m]), copies[m].srcAddr, copies[m].size) ==>
            x in CopyWords(copies, base)
    ensures CopySlots(copies[..m]) + SlotsFor(copies[m].size) <= CopySlots(copies)
  {
    hide Words;
    var n := |copies| - 1;
    if m < n {
      CopyWordsOf(copies[..n], base, m);
      assert copies[..n][..m] == copies[..m];
    }
  }

  /** All demands of the call: those of the parameters and the words of the copies above them. */
  function AllDemands(st: Staged): seq<Demand> { st.demands + CopyWords(st.copies, st.ctr.slot) }

  /** The destinations are distinct, and each is a parameter register or a slot in the area that
      the call accounts for; the pointers of copies are not among them. */
  lemma AllDemandsOk(d: PlatformDescription, st: Staged)
    requires d.Valid() && StagingOk(d, st)
    ensures DemandsOk(AllDemands(st))
    ensures forall l :: IsTarget(AllDemands(st), l) || IsPtr(st.copies, l) ==>
              d.IsParamReg(l) || REG_COUNT <= l < REG_COUNT + st.ctr.slot + CopySlots(st.copies)
    ensures forall l :: IsPtr(st.copies, l) ==> !IsTarget(AllDemands(st), l)
  {
    var ws := CopyWords(st.copies, st.ctr.slot);
    CopyWordsOk(st.copies, st.ctr.slot);
    AreaFresh(d, st.ctr, 0);
    forall l | Owned(d, st.ctr, l) ensures d.IsParamReg(l) || REG_COUNT <= l < REG_COUNT + st.ctr.slot {
      OwnedBound(d, st.ctr, l);
    }
    hide Owned, CopyWords, CopySlots, PlatformDescription.IsParamReg, PlatformDescription.Valid;
    ConcatOk(st.demands, ws);
  }

  // ---- The struct-return pointer ----

  function LastArg(args: seq<Location>): Location { if args == [] then 0 else args[|args| - 1] }

  /** The result does not come back in registers: its address is passed as a hidden argument. */
  predicate SretPassed(retPlan: Option<Plan>) { retPlan.Some? && retPlan.value.passBy !in {Empty, Regs} }

  /** The result comes back in registers and is stored through the address after the call. */
  predicate SretKept(retPlan: Option<Plan>) { retPlan.Some? && retPlan.value.PiecesNum() > 0 }

  predicate SretSpilled(retPlan: Option<Plan>, args: seq<Location>) {
    SretKept(retPlan) && KindOf(LastArg(args)) != Kind.Slot
  }

  function StageSret(d: PlatformDescription, retPlan: Option<Plan>, args: seq<Location>): Staged {
    var st := Staged(Counters(0, 0, 0), [], []);
    if SretPassed(retPlan) then Give(NextSret(d, st.ctr), Copy(LastArg(args)), st) else st
  }

  /** An address that lives in a register is spilled to a slot: resolution may overwrite the register. */
  function StageSpill(retPlan: Option<Plan>, args: seq<Location>, st: Staged): Staged {
    if SretSpilled(retPlan, args)
    then st.(ctr := NextArea(st.ctr, STACK_SLOT),
        demands := st.demands + [Demand(SlotLocation(st.ctr.slot), Copy(LastArg(args)))])
    else st
  }

  lemma StageSretOk(d: PlatformDescription, retPlan: Option<Plan>, args: seq<Location>)
    requires d.Valid() && LastArg(args) >= 0
    ensures StagingOk(d, StageSret(d, retPlan, args))
  {
    NextFresh(d, Counters(0, 0, 0), false);
  }

  lemma StageSpillKeeps(d: PlatformDescription, retPlan: Option<Plan>, args: seq<Location>, st: Staged)
    requires d.Valid() && LastArg(args) >= 0 && StagingOk(d, st)
    ensures StagingOk(d, StageSpill(retPlan, args, st)) && Grows(st, StageSpill(retPlan, args, st))
  {
    if SretSpilled(retPlan, args) {
      AreaFresh(d, st.ctr, STACK_SLOT);
      hide Owned, StagingOk;
      ExtendKeeps(d, st, [Demand(SlotLocation(st.ctr.slot), Copy(LastArg(args)))], NextArea(st.ctr, STACK_SLOT));
    }
  }

  /** The whole staging of a call. */
  function StageCall(
    d: PlatformDescription, retPlan: Option<Plan>, params: seq<Param>, plans: seq<Plan>, args: seq<Location>): Staged
    requires |plans| == |params|
  {
    StageSpill(retPlan, args, StageParams(d, params, plans, args, StageSret(d, retPlan, args)))
  }

  /** What a call hands out is distinct, for every signature and every argument list. */
  lemma StageCallOk(
    d: PlatformDescription, retPlan: Option<Plan>, params: seq<Param>, plans: seq<Plan>, args: seq<Location>)
    requires d.Valid() && ArgsOk(params, args) && LastArg(args) >= 0
    requires |plans| == |params| && PlansFit(d, params, plans, args, StageSret(d, retPlan, args))
    ensures StagingOk(d, StageCall(d, retPlan, params, plans, args))
  {
    hide StagingOk, PlansFit, PlatformDescription.Valid, StageParams, StageSret, StageSpill;
    StageSretOk(d, retPlan, args);
    StageParamsKeep(d, params, plans, args, StageSret(d, retPlan, args));
    StageSpillKeeps(d, retPlan, args, StageParams(d, params, plans, args, StageSret(d, retPlan, args)));
  }
}
