/** The bytes of a struct that a foreign call passes in registers. */
module StructBytes {
  import opened Wrappers
  import opened Machine
  import opened MoveEmission
  import opened StructAbi
  import opened Abi
  import opened Staging
  import opened Delivery
  import opened ForeignCall

  /** The bytes that matter: those of the fields of a homogeneous aggregate, else all. */
  ghost predicate Meant(abi: CAbi, fields: seq<Field>, size: nat, b: nat) {
    if abi.AAPCS64? && IsHfa(fields) then InField(fields, b) else b < size
  }

  ghost predicate InField(fields: seq<Field>, b: nat) {
    exists i :: 0 <= i < |fields| && fields[i].offset <= b < fields[i].offset + fields[i].size
  }

  /** No byte that matters is lost: a homogeneous aggregate, or the last chunk is loaded whole. */
  ghost predicate Intact(abi: CAbi, fields: seq<Field>, size: nat) {
    (abi.AAPCS64? && IsHfa(fields)) || LastChunkWhole(fields, size, abi.SysV?)
  }

  /** The register of some piece holds byte `b` of the struct at `addr`. */
  ghost predicate ByteArrives(
    d: PlatformDescription, pieces: seq<Piece>, was: Staged, addr: int, before: Cpu, after: Cpu, fr: Frame, b: nat)
  {
    exists k :: 0 <= k < |pieces| && InRegister(d, pieces, was, addr, before, after, fr, k, b)
  }

  ghost predicate InRegister(
    d: PlatformDescription, pieces: seq<Piece>, was: Staged, addr: int, before: Cpu, after: Cpu, fr: Frame, k: nat,
    b: nat)
    requires k < |pieces|
  {
    && pieces[k].offset <= b < pieces[k].offset + 8
    && exists w: Word :: AtLoc(after, fr, PieceLoc(d, pieces, k, was.ctr), w)
         && ByteOf(w, b - pieces[k].offset) == ByteAt(before.mem, addr, b)
  }

  /** Every byte of every field of a homogeneous aggregate is carried by the piece of the field. */
  lemma HfaCarriesAll(fields: seq<Field>, size: nat, plan: Plan, i: nat, b: nat)
    requires size > 0 && IsHfa(fields) && IsPlan(CAbi.AAPCS64, fields, size, plan) && i < |fields|
    requires fields[i].offset <= b < fields[i].offset + fields[i].size
    ensures plan.passBy == Regs && |plan.pieces| == |fields| && Carries(plan.pieces[i], b)
  {
  }

  /** A plan in registers carries all bytes that matter exactly when no short last chunk prevents it. */
  lemma PlanCarries(abi: CAbi, fields: seq<Field>, size: nat, plan: Plan)
    requires size > 0 && IsPlan(abi, fields, size, plan) && plan.passBy == Regs
    ensures (forall b: nat :: Meant(abi, fields, size, b) ==> Carried(plan.pieces, b)) <==> Intact(abi, fields, size)
  {
    if abi.AAPCS64? && IsHfa(fields) {
      forall b: nat | Meant(abi, fields, size, b) ensures Carried(plan.pieces, b) {
        var i :| 0 <= i < |fields| && fields[i].offset <= b < fields[i].offset + fields[i].size;
        HfaCarriesAll(fields, size, plan, i, b);
      }
    } else {
      ChunksCarryAll(fields, size, plan.pieces, abi.SysV?);
      hide Chunked, LastChunkWhole, Carried, IsHfa;
    }
  }

  /** Each register of a delivered struct holds, byte by byte, what its piece carries, and zeros above. */
  lemma RegisterBytes(
    d: PlatformDescription, fields: seq<Field>, size: nat, plan: Plan, addr: int, was: Staged, st: Staged,
    before: Cpu, after: Cpu, fr: Frame, k: nat, b: nat)
    requires IsPlan(d.cAbi, fields, size, plan) && plan.passBy == Regs && StructLayout(fields, size).Valid()
    requires StructDelivered(d, size, plan, addr, was, st, before, after, fr)
    requires k < |plan.pieces| && plan.pieces[k].offset <= b < plan.pieces[k].offset + 8
    ensures exists w: Word :: AtLoc(after, fr, PieceLoc(d, plan.pieces, k, was.ctr), w)
              && ByteOf(w, b - plan.pieces[k].offset) == if Carries(plan.pieces[k], b)
                  then ByteAt(before.mem, addr, b) else 0
  {
    hide IsPlan, AtLoc, PieceLoc, Load, ByteOf, Carries, SameBytes;
    var p := plan.pieces[k];
    PlanPieces(d.cAbi, fields, size, plan, k);
    PieceBytes(before.mem, addr, p, b);
    assert AtLoc(after, fr, PieceLoc(d, plan.pieces, k, was.ctr), Load(before.mem, addr + p.offset, PieceLoad(p.kind)));
  }

  lemma CarriedIsNear(abi: CAbi, fields: seq<Field>, size: nat, plan: Plan, k: nat, b: nat)
    requires IsPlan(abi, fields, size, plan) && plan.passBy == Regs && k < |plan.pieces| && Carries(plan.pieces[k], b)
    ensures plan.pieces[k].offset <= b < plan.pieces[k].offset + 8
  {
    hide IsPlan;
  }

  /** A delivered struct whose plan keeps it intact is in its registers, byte by byte. */
  lemma StructBytesArrive(
    d: PlatformDescription, fields: seq<Field>, size: nat, plan: Plan, addr: int, was: Staged, st: Staged,
    before: Cpu, after: Cpu, fr: Frame, b: nat)
    requires size > 0 && IsPlan(d.cAbi, fields, size, plan) && plan.passBy == Regs && StructLayout(fields, size).Valid()
    requires StructDelivered(d, size, plan, addr, was, st, before, after, fr)
    requires Intact(d.cAbi, fields, size) && Meant(d.cAbi, fields, size, b)
    ensures ByteArrives(d, plan.pieces, was, addr, before, after, fr, b)
  {
    hide IsPlan, StructDelivered, Intact, Meant, Carries, AtLoc, PieceLoc, ByteOf;
    PlanCarries(d.cAbi, fields, size, plan);
    var k :| 0 <= k < |plan.pieces| && Carries(plan.pieces[k], b);
    CarriedIsNear(d.cAbi, fields, size, plan, k, b);
    RegisterBytes(d, fields, size, plan, addr, was, st, before, after, fr, k, b);
    assert InRegister(d, plan.pieces, was, addr, before, after, fr, k, b);
  }

  /** End to end: in a delivered call, every byte that matters of every struct argument that goes in registers and
      stays intact is in one of the registers of its pieces, as it was in memory before the call. */
  lemma CallStructBytes(
    d: PlatformDescription, retPlan: Option<Plan>, params: seq<Param>, plans: seq<Plan>, args: seq<Location>,
    st: Staged, before: Cpu, after: Cpu, fr: Frame, j: nat, b: nat)
    requires |plans| == |params| && PlansFit(d, params, plans, args, StageSret(d, retPlan, args))
    requires ArgsOk(params, args)
    requires CallDelivered(d, retPlan, params, plans, args, st, before, after, fr)
    requires d.Valid() && j < |params| && params[j].Struct? && params[j].layout.Some? && plans[j].passBy == Regs
    requires var layout := params[j].layout.value;
             Intact(d.cAbi, layout.fields, layout.size) && Meant(d.cAbi, layout.fields, layout.size, b)
    ensures var was := StageParams(d, params[..j], plans[..j], args, StageSret(d, retPlan, args));
            && (forall k :: 0 <= k < |plans[j].pieces| ==> IsReg(PieceLoc(d, plans[j].pieces, k, was.ctr)))
            && ByteArrives(d, plans[j].pieces, was, SourceWord(before, fr, ArgOf(params[..j], args)), before, after,
                fr, b)
  {
    hide PlatformDescription.Valid, StageParams, StageSret, IsChosen, IsPlan, PieceLoc, FitsRegs, StructDelivered,
      Intact, Meant, ByteArrives, ArgOf, SourceWord, AtLoc;
    var layout, st0 := params[j].layout.value, StageSret(d, retPlan, args);
    var was := StageParams(d, params[..j], plans[..j], args, st0);
    assert PlanFits(d, params, plans, args, st0, j) && ArgOk(params[j], ArgOf(params[..j], args));
    ChosenMeaning(d.cAbi, layout.fields, layout.size, VarArgLabel in params[..j] && d.onlyOnStackVarargs,
                  |d.iregHead| - was.ctr.iarg, |d.fregHead| - was.ctr.farg, plans[j]);
    PiecesInRegs(d, plans[j].pieces, was.ctr);
    assert ParamDelivered(d, retPlan, params, plans, args, st, before, after, fr, j);
    StructBytesArrive(d, layout.fields, layout.size, plans[j], SourceWord(before, fr, ArgOf(params[..j], args)), was,
        st,
                      before, after, fr, b);
  }
}
