/** Where the arguments of a foreign call go, by counting: the places that the calling convention gives them from
    the kinds of the arguments before, without the allocator's counters. */
module ArgPlaces {
  import opened Wrappers
  import opened Machine
  import opened MoveEmission
  import opened StructAbi
  import opened Abi
  import opened Staging
  import opened Delivery
  import opened ForeignCall

  /** How many integer places, float places and stack words arguments ask for. */
  datatype Need = Need(ints: nat, floats: nat, words: nat) {
    function Plus(n: Need): Need { Need(ints + n.ints, floats + n.floats, words + n.words) }
  }

  /** The kinds that the calling conventions pass in float registers. */
  predicate FloatKind(kind: TypeKind) { kind == TypeKind.F32 || kind == TypeKind.F64 }

  function OneOf(float: bool): Need { if float then Need(0, 1, 0) else Need(1, 0, 0) }

  function PiecesNeed(pieces: seq<Piece>): Need { Need(|pieces| - FloatPieces(pieces), FloatPieces(pieces), 0) }

  function FloatPieces(pieces: seq<Piece>): (n: nat)
    ensures n <= |pieces|
  {
    if pieces == [] then 0
    else FloatPieces(pieces[..|pieces| - 1]) + if FloatKind(pieces[|pieces| - 1].kind) then 1 else 0
  }

  /** What one parameter asks for. */
  function NeedOf(d: PlatformDescription, p: Param, plan: Plan, varArg: bool): Need {
    match p
    case VarArgLabel => Need(0, 0, 0)
    case VArray => OneOf(false)
    case Scalar(kind) => if varArg && d.onlyOnStackVarargs then Need(0, 0, 1) else OneOf(FloatKind(kind))
    case Struct(layout) =>
      if layout.None? then Need(0, 0, 0) else
        match plan.passBy
        case Empty => Need(0, 0, 0)
        case Regs => PiecesNeed(plan.pieces)
        case Stack => Need(0, 0, (layout.value.size + 7) / 8)
        case Ref => OneOf(false)
  }

  /** What the hidden address of the result asks for. */
  function SretNeed(d: PlatformDescription, retPlan: Option<Plan>): Need {
    if SretPassed(retPlan) && d.sretShifts then OneOf(false) else Need(0, 0, 0)
  }

  function NeedsOf(d: PlatformDescription, first: Need, params: seq<Param>, plans: seq<Plan>): Need
    requires |plans| == |params|
  {
    if params == [] then first else
      var n := |params| - 1;
      NeedsOf(d, first, params[..n], plans[..n]).Plus(NeedOf(d, params[n], plans[n], VarArgLabel in params[..n]))
  }

  function Least(a: nat, b: nat): nat { if a < b then a else b }

  /** What does not fit into the registers. */
  function Over(count: nat, regs: nat): nat { if count < regs then 0 else count - regs }

  /** The stack words taken after these needs: areas, and whatever found no register. */
  function WordsTaken(d: PlatformDescription, n: Need): nat {
    Over(n.ints, |d.iregHead|) + Over(n.floats, |d.fregHead|) + n.words
  }

  /** The place of an argument after these needs: the register that its number among the arguments of its kind
      names, or the next stack word when there is none. */
  function PlaceOf(d: PlatformDescription, n: Need, float: bool): Location {
    if float && n.floats < |d.fregHead| then d.fregHead[n.floats]
    else if !float && n.ints < |d.iregHead| then d.iregHead[n.ints]
    else SlotLocation(WordsTaken(d, n))
  }

  // ---- The allocator follows ----

  function CountersOf(d: PlatformDescription, n: Need): Counters {
    Counters(Least(n.ints, |d.iregHead|), Least(n.floats, |d.fregHead|), WordsTaken(d, n))
  }

  lemma NextByNeed(d: PlatformDescription, n: Need, float: bool)
    ensures Next(d, CountersOf(d, n), float) == (PlaceOf(d, n, float), CountersOf(d, n.Plus(OneOf(float))))
  {
  }

  lemma VarArgByNeed(d: PlatformDescription, n: Need, float: bool)
    ensures NextVarArg(d, CountersOf(d, n), float)
         == if d.onlyOnStackVarargs then (SlotLocation(WordsTaken(d, n)), CountersOf(d, n.Plus(Need(0, 0, 1))))
            else (PlaceOf(d, n, float), CountersOf(d, n.Plus(OneOf(float))))
  {
  }

  lemma SretByNeed(d: PlatformDescription, retPlan: Option<Plan>, args: seq<Location>)
    ensures StageSret(d, retPlan, args).ctr == CountersOf(d, SretNeed(d, retPlan))
  {
  }

  lemma {:induction false} PiecesByNeed(d: PlatformDescription, pieces: seq<Piece>, n: Need)
    ensures AfterPieces(d, pieces, CountersOf(d, n)) == CountersOf(d, n.Plus(PiecesNeed(pieces)))
  {
    if pieces != [] {
      var k := |pieces| - 1;
      PiecesByNeed(d, pieces[..k], n);
      NextByNeed(d, n.Plus(PiecesNeed(pieces[..k])), FloatKind(pieces[k].kind));
      hide Next, CountersOf;
      assert n.Plus(PiecesNeed(pieces)) == n.Plus(PiecesNeed(pieces[..k])).Plus(OneOf(FloatKind(pieces[k].kind)));
    } else {
      assert n.Plus(PiecesNeed(pieces)) == n;
    }
  }

  /** Piece `k` of a struct goes where its number among the pieces and arguments of its kind says. */
  lemma PiecePlace(d: PlatformDescription, pieces: seq<Piece>, n: Need, k: nat)
    requires k < |pieces|
    ensures PieceLoc(d, pieces, k, CountersOf(d, n))
         == PlaceOf(d, n.Plus(PiecesNeed(pieces[..k])), FloatKind(pieces[k].kind))
  {
    hide CountersOf, PlaceOf, Next;
    PiecesByNeed(d, pieces[..k], n);
    NextByNeed(d, n.Plus(PiecesNeed(pieces[..k])), FloatKind(pieces[k].kind));
  }

  lemma AreaByNeed(d: PlatformDescription, n: Need, size: nat)
    ensures NextArea(CountersOf(d, n), size) == CountersOf(d, n.Plus(Need(0, 0, (size + 7) / 8)))
  {
  }

  lemma ParamByNeed(
    d: PlatformDescription, p: Param, plan: Plan, varArg: bool, arg: Location, st: Staged, n: Need)
    requires st.ctr == CountersOf(d, n)
    ensures StageParam(d, p, plan, varArg, arg, st).ctr == CountersOf(d, n.Plus(NeedOf(d, p, plan, varArg)))
  {
    hide Next, NextVarArg, PieceDemands, AfterPieces, CountersOf, PlaceOf, PiecesNeed, NextArea, Words;
    match p
    case VarArgLabel => assert n.Plus(Need(0, 0, 0)) == n;
    case VArray => NextByNeed(d, n, false);
    case Scalar(kind) =>
      NextByNeed(d, n, FloatKind(kind));
      VarArgByNeed(d, n, FloatKind(kind));
    case Struct(layout) =>
      assert n.Plus(Need(0, 0, 0)) == n;
      NextByNeed(d, n, false);
      if layout.Some? { AreaByNeed(d, n, layout.value.size); }
      if layout.Some? && plan.passBy.Regs? { PiecesByNeed(d, plan.pieces, n); }
  }

  /** Before every parameter the allocator stands where the parameters before it put it. */
  lemma {:induction false} CountersByNeed(
    d: PlatformDescription, first: Need, params: seq<Param>, plans: seq<Plan>, args: seq<Location>, st0: Staged)
    requires |plans| == |params| && st0.ctr == CountersOf(d, first)
    ensures StageParams(d, params, plans, args, st0).ctr == CountersOf(d, NeedsOf(d, first, params, plans))
  {
    if params != [] {
      hide StageParam, NeedOf, CountersOf, ArgOf;
      var n := |params| - 1;
      CountersByNeed(d, first, params[..n], plans[..n], args, st0);
      ParamByNeed(d, params[n], plans[n], VarArgLabel in params[..n], ArgOf(params[..n], args),
                  StageParams(d, params[..n], plans[..n], args, st0), NeedsOf(d, first, params[..n], plans[..n]));
    }
  }

  /** Parameter `j` takes argument `j`, less the labels before it, which take none. */
  lemma {:induction false} ArgumentOf(params: seq<Param>, args: seq<Location>, j: nat, labels: nat)
    requires j <= |params| && labels == |set i: nat | i < j && params[i].VarArgLabel?|
    ensures labels <= j && (j - labels < |args| ==> ArgOf(params[..j], args) == args[j - labels])
  {
    CountNoLabels(params, j);
  }

  lemma {:induction false} CountNoLabels(params: seq<Param>, j: nat)
    requires j <= |params|
    ensures ArgCount(params[..j]) + |set i: nat | i < j && params[i].VarArgLabel?| == j
  {
    if j > 0 {
      CountNoLabels(params, j - 1);
      assert params[..j][..j - 1] == params[..j - 1];
      var was, now := set i: nat | i < j - 1 && params[i].VarArgLabel?, set i: nat | i < j && params[i].VarArgLabel?;
      assert now == if params[j - 1].VarArgLabel? then was + {j - 1} else was;
    }
  }

  // ---- The delivered call ----

  /** The argument of parameter `p` is where the calling convention puts it after the needs `n`; the copy of a
      struct passed by reference is at `copy`. */
  ghost predicate Placed(
    d: PlatformDescription, p: Param, plan: Plan, varArg: bool, n: Need, v: Word, copy: int,
    before: Cpu, after: Cpu, fr: Frame)
  {
    match p
    case VarArgLabel => true
    case VArray => AtLoc(after, fr, PlaceOf(d, n, false), v)
    case Scalar(kind) =>
      var l := if varArg && d.onlyOnStackVarargs then SlotLocation(WordsTaken(d, n))
          else PlaceOf(d, n, FloatKind(kind));
      AtLoc(after, fr, l, v)
    case Struct(layout) =>
      layout.Some? ==>
        match plan.passBy
        case Empty => true
        case Regs => PiecesPlaced(d, plan.pieces, n, v, before, after, fr)
        case Stack => SameBytes(before.mem, v, after.mem, fr.Bot() + 8 * WordsTaken(d, n), layout.value.size)
        case Ref =>
          && AtLoc(after, fr, PlaceOf(d, n, false), AddrWord(copy))
          && SameBytes(before.mem, v, after.mem, copy, layout.value.size)
  }

  ghost predicate PiecesPlaced(
    d: PlatformDescription, pieces: seq<Piece>, n: Need, addr: Word, before: Cpu, after: Cpu, fr: Frame)
  {
    forall k :: 0 <= k < |pieces| ==>
      AtLoc(after, fr, PlaceOf(d, n.Plus(PiecesNeed(pieces[..k])), FloatKind(pieces[k].kind)),
            Load(before.mem, addr + pieces[k].offset, PieceLoad(pieces[k].kind)))
  }

  lemma DeliveredIsPlaced(
    d: PlatformDescription, p: Param, plan: Plan, varArg: bool, arg: Location, n: Need,
    was: Staged, st: Staged, before: Cpu, after: Cpu, fr: Frame) returns (copy: int)
    requires was.ctr == CountersOf(d, n) && Delivered(d, p, plan, varArg, arg, was, st, before, after, fr)
    ensures Placed(d, p, plan, varArg, n, SourceWord(before, fr, arg), copy, before, after, fr)
    ensures fr.Bot() + 8 * st.ctr.slot <= copy
  {
    hide AtLoc, SameBytes, SourceWord, AddrWord, Load, PieceLoc, CopySlots, PlaceOf, Next, NextVarArg;
    var above := if |was.copies| <= |st.copies| then st.copies[..|was.copies|] else [];
    copy := fr.Bot() + CopyOffset(above, st.ctr.slot);
    match p
    case VarArgLabel =>
    case VArray => NextByNeed(d, n, false);
    case Scalar(kind) =>
      NextByNeed(d, n, FloatKind(kind));
      VarArgByNeed(d, n, FloatKind(kind));
    case Struct(layout) =>
      NextByNeed(d, n, false);
      if layout.Some? && plan.passBy.Regs? {
        forall k | 0 <= k < |plan.pieces|
          ensures PieceLoc(d, plan.pieces, k, was.ctr)
               == PlaceOf(d, n.Plus(PiecesNeed(plan.pieces[..k])), FloatKind(plan.pieces[k].kind))
        {
          PiecePlace(d, plan.pieces, n, k);
        }
      }
  }

  /** Every argument of a delivered call is at the place that the kinds of the arguments before it determine; the
      address of the result takes the first integer place on platforms without a register for it, and a struct copied
      for the call lies above all stack words. */
  lemma CallPlaced(
    d: PlatformDescription, retPlan: Option<Plan>, params: seq<Param>, plans: seq<Plan>, args: seq<Location>,
    st: Staged, before: Cpu, after: Cpu, fr: Frame, j: nat)
    returns (copy: int)
    requires |plans| == |params| && j < |params|
    requires CallDelivered(d, retPlan, params, plans, args, st, before, after, fr)
    ensures Placed(d, params[j], plans[j], VarArgLabel in params[..j],
                   NeedsOf(d, SretNeed(d, retPlan), params[..j], plans[..j]),
                   SourceWord(before, fr, ArgOf(params[..j], args)), copy, before, after, fr)
    ensures fr.Bot() + 8 * st.ctr.slot <= copy
  {
    hide Delivered, Placed, StageParams, StageSret, ArgOf, SourceWord, AtLoc, CountersOf, NeedsOf;
    var st0 := StageSret(d, retPlan, args);
    SretByNeed(d, retPlan, args);
    CountersByNeed(d, SretNeed(d, retPlan), params[..j], plans[..j], args, st0);
    assert ParamDelivered(d, retPlan, params, plans, args, st, before, after, fr, j);
    copy := DeliveredIsPlaced(d, params[j], plans[j], VarArgLabel in params[..j], ArgOf(params[..j], args),
                              NeedsOf(d, SretNeed(d, retPlan), params[..j], plans[..j]),
                              StageParams(d, params[..j], plans[..j], args, st0), st, before, after, fr);
  }

  // ---- Results ----

  /** How the result of a struct type comes back: its address is passed for anything above 16 bytes but homogeneous
      float aggregates, kept for what comes back in registers, and there is none for empty structs. */
  lemma ResultPassing(abi: CAbi, fields: seq<Field>, size: nat, plan: Plan)
    requires IsPlan(abi, fields, size, plan)
    ensures SretPassed(Some(plan)) <==> size > 16 && !(abi.AAPCS64? && IsHfa(fields))
    ensures SretKept(Some(plan)) <==> size > 0 && (size <= 16 || (abi.AAPCS64? && IsHfa(fields)))
  {
  }
}
