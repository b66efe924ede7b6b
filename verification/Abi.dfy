/** AbiAssigner: hands out the next register or stack slot for each argument. */
module Abi {
  import opened Machine
  import opened StructAbi

  const STACK_SLOT := 8

  /** MathUtils::AlignUp for a slot count. */
  function SlotsFor(size: nat): nat { (size + STACK_SLOT - 1) / STACK_SLOT }

  datatype PlatformDescription = PlatformDescription(
    iregHead: seq<Reg>, fregHead: seq<Reg>, sretShifts: bool, sretIr: Reg, onlyOnStackVarargs: bool, cAbi: CAbi)
  {
    /** The parameter registers are distinct registers of their kinds, and the fixed struct-return
        register, if any, is not one of them. */
    ghost predicate Valid() {
      && (forall i :: 0 <= i < |iregHead| ==> KindOf(iregHead[i]) == Kind.IReg)
      && (forall i :: 0 <= i < |fregHead| ==> KindOf(fregHead[i]) == Kind.FReg)
      && (forall i, j :: 0 <= i < j < |iregHead| ==> iregHead[i] != iregHead[j])
      && (forall i, j :: 0 <= i < j < |fregHead| ==> fregHead[i] != fregHead[j])
      && (!sretShifts ==> KindOf(sretIr) == Kind.IReg && forall i :: 0 <= i < |iregHead| ==> iregHead[i] != sretIr)
    }

    /** The registers that arguments can be assigned. */
    ghost predicate IsParamReg(r: Location) {
      (exists i :: 0 <= i < |iregHead| && iregHead[i] == r)
      || (exists i :: 0 <= i < |fregHead| && fregHead[i] == r)
      || (!sretShifts && r == sretIr)
    }
  }

  const X64 := PlatformDescription(
    [1, 2, 3, 4, 5, 6], [14, 15, 16, 17, 18, 19, 20, 21], true, 0, false, CAbi.SysV)
  const AARCH64 := PlatformDescription(
    [1, 2, 3, 4, 5, 6, 7, 8], [14, 15, 16, 17, 18, 19, 20, 21], false, 9, false, CAbi.AAPCS64)

  /** Temporaries of the move resolver: IR7 or IR10, and FR15. */
  const X64_TR: Reg := 7
  const AARCH64_TR: Reg := 10
  const FR15: Reg := 29

  /** Parameter registers that are consecutive registers from the first of each kind on. */
  ghost predicate Consecutive(d: PlatformDescription) {
    && |d.fregHead| == 8
    && (forall i :: 0 <= i < |d.iregHead| ==> d.iregHead[i] == i + 1)
    && (forall i :: 0 <= i < |d.fregHead| ==> d.fregHead[i] == VIRT_IREGS + i)
  }

  lemma ConsecutiveValid(d: PlatformDescription, temp: Reg)
    requires Consecutive(d) && |d.iregHead| < temp < VIRT_IREGS
    requires !d.sretShifts ==> |d.iregHead| < d.sretIr < temp
    ensures d.Valid() && !d.IsParamReg(temp) && !d.IsParamReg(FR15)
  {
  }

  /** No argument register is a temporary, on either platform. */
  lemma PlatformsValid()
    ensures X64.Valid() && !X64.IsParamReg(X64_TR) && !X64.IsParamReg(FR15)
    ensures AARCH64.Valid() && !AARCH64.IsParamReg(AARCH64_TR) && !AARCH64.IsParamReg(FR15)
    ensures SretPlace(X64) == 1 == X64.iregHead[0] && SretPlace(AARCH64) == 9 && 9 !in AARCH64.iregHead
    ensures |X64.iregHead| == 6 && |AARCH64.iregHead| == 8 && |X64.fregHead| == |AARCH64.fregHead| == 8
    ensures !X64.onlyOnStackVarargs && !AARCH64.onlyOnStackVarargs && X64.cAbi.SysV? && AARCH64.cAbi.AAPCS64?
    ensures X64_TR == 7 && AARCH64_TR == 10 && FR15 == FRegLocation(15)
  {
    assert Consecutive(X64) && Consecutive(AARCH64);
    ConsecutiveValid(X64, X64_TR);
    ConsecutiveValid(AARCH64, AARCH64_TR);
  }

  // ---- The allocator as a function of its counters ----

  datatype Counters = Counters(iarg: nat, farg: nat, slot: nat)

  function Next(d: PlatformDescription, c: Counters, float: bool): (Location, Counters) {
    if float && c.farg < |d.fregHead| then (d.fregHead[c.farg], c.(farg := c.farg + 1))
    else if !float && c.iarg < |d.iregHead| then (d.iregHead[c.iarg], c.(iarg := c.iarg + 1))
    else (SlotLocation(c.slot), c.(slot := c.slot + 1))
  }

  function NextVarArg(d: PlatformDescription, c: Counters, float: bool): (Location, Counters) {
    if d.onlyOnStackVarargs then (SlotLocation(c.slot), c.(slot := c.slot + 1)) else Next(d, c, float)
  }

  function NextSret(d: PlatformDescription, c: Counters): (Location, Counters) {
    if d.sretShifts then Next(d, c, false) else (d.sretIr, c)
  }

  function NextArea(c: Counters, size: nat): Counters { c.(slot := c.slot + SlotsFor(size)) }

  /** Where the address of the result goes when nothing was handed out yet: the dedicated register of the platform,
      or else the first place for an integer. */
  function SretPlace(d: PlatformDescription): Location {
    if !d.sretShifts then d.sretIr else if d.iregHead != [] then d.iregHead[0] else SlotLocation(0)
  }

  /** The dedicated register is no argument register and costs no integer argument its place; without one, the address
      takes the next integer register and the integer argument behind it the one after that. */
  lemma SretPlaced(d: PlatformDescription, c: Counters)
    requires d.Valid()
    ensures NextSret(d, Counters(0, 0, 0)).0 == SretPlace(d)
    ensures !d.sretShifts ==>
              && NextSret(d, c) == (d.sretIr, c) && d.sretIr !in d.iregHead
              && (c.iarg < |d.iregHead| ==> Next(d, NextSret(d, c).1, false).0 == d.iregHead[c.iarg])
    ensures d.sretShifts && c.iarg < |d.iregHead| ==>
              && NextSret(d, c).0 == d.iregHead[c.iarg]
              && (c.iarg + 1 < |d.iregHead| ==> Next(d, NextSret(d, c).1, false).0 == d.iregHead[c.iarg + 1])
              && NextSret(d, c).1 == Counters(c.iarg + 1, c.farg, c.slot)
    ensures d.sretShifts && c.iarg >= |d.iregHead| ==>
              NextSret(d, c) == (SlotLocation(c.slot), Counters(c.iarg, c.farg, c.slot + 1))
  {
  }

  /** The location was handed out by one of the sequential counters. */
  ghost predicate Taken(d: PlatformDescription, c: Counters, l: Location) {
    || (exists i :: 0 <= i < c.iarg && i < |d.iregHead| && d.iregHead[i] == l)
    || (exists i :: 0 <= i < c.farg && i < |d.fregHead| && d.fregHead[i] == l)
    || REG_COUNT <= l < REG_COUNT + c.slot
  }

  /** ... or it is the dedicated struct-return register. */
  ghost predicate Owned(d: PlatformDescription, c: Counters, l: Location) {
    Taken(d, c, l) || (!d.sretShifts && l == d.sretIr)
  }

  /** `c` follows `c0` after exactly the location `l` was handed out. */
  ghost predicate HandsOut(d: PlatformDescription, c0: Counters, l: Location, c: Counters) {
    && !Owned(d, c0, l) && l >= 0 && c0.slot <= c.slot
    && (forall x :: Owned(d, c, x) <==> Owned(d, c0, x) || x == l)
  }

  /** Each location is handed out once, and it suits the kind of its argument: a float register
      while there is one, an integer register while there is one, a stack slot afterwards. */
  lemma NextFresh(d: PlatformDescription, c: Counters, float: bool)
    requires d.Valid()
    ensures HandsOut(d, c, Next(d, c, float).0, Next(d, c, float).1)
    ensures var l := Next(d, c, float).0;
            && (KindOf(l) == Kind.FReg <==> float && c.farg < |d.fregHead|)
            && (KindOf(l) == Kind.IReg <==> !float && c.iarg < |d.iregHead|)
  {
    var l, c' := Next(d, c, float).0, Next(d, c, float).1;
    forall x ensures Taken(d, c', x) <==> Taken(d, c, x) || x == l {
      if c'.farg > c.farg { assert d.fregHead[c.farg] == l; }
      if c'.iarg > c.iarg { assert d.iregHead[c.iarg] == l; }
    }
  }

  lemma NextVarArgFresh(d: PlatformDescription, c: Counters, float: bool)
    requires d.Valid()
    ensures HandsOut(d, c, NextVarArg(d, c, float).0, NextVarArg(d, c, float).1)
    ensures var l := NextVarArg(d, c, float).0;
            if d.onlyOnStackVarargs then l == SlotLocation(c.slot)
            else && (KindOf(l) == Kind.FReg <==> float && c.farg < |d.fregHead|)
                 && (KindOf(l) == Kind.IReg <==> !float && c.iarg < |d.iregHead|)
    ensures d.onlyOnStackVarargs ==> NextVarArg(d, c, float).1 == Counters(c.iarg, c.farg, c.slot + 1)
  {
    NextFresh(d, c, float);
    AreaFresh(d, c, 8);
  }

  lemma AreaFresh(d: PlatformDescription, c: Counters, size: nat)
    requires d.Valid()
    ensures forall x :: Owned(d, NextArea(c, size), x) <==>
              Owned(d, c, x) || REG_COUNT + c.slot <= x < REG_COUNT + c.slot + SlotsFor(size)
    ensures forall x :: REG_COUNT + c.slot <= x ==> !Owned(d, c, x)
  {
  }

  /** Whatever was handed out is a parameter register or a slot below the slot counter. */
  lemma OwnedBound(d: PlatformDescription, c: Counters, l: Location)
    requires d.Valid() && Owned(d, c, l)
    ensures d.IsParamReg(l) || REG_COUNT <= l < REG_COUNT + c.slot
  {
  }

  class AbiAssigner {
    const desc: PlatformDescription
    var iargIdx: nat
    var fargIdx: nat
    var slotIdx: nat

    ghost function Ctr(): Counters
      reads this
    {
      Counters(iargIdx, fargIdx, slotIdx)
    }

    constructor (desc: PlatformDescription)
      ensures this.desc == desc && Ctr() == Counters(0, 0, 0)
    {
      this.desc := desc;
      iargIdx, fargIdx, slotIdx := 0, 0, 0;
    }

    method Consume(kind: TypeKind) returns (l: Location)
      modifies this
      ensures (l, Ctr()) == Next(desc, old(Ctr()), IsFloat(kind)) && l >= 0
    {
      if IsFloat(kind) && fargIdx < |desc.fregHead| {
        l := desc.fregHead[fargIdx];
        fargIdx := fargIdx + 1;
      } else if !IsFloat(kind) && iargIdx < |desc.iregHead| {
        l := desc.iregHead[iargIdx];
        iargIdx := iargIdx + 1;
      } else {
        l := SlotLocation(slotIdx);
        slotIdx := slotIdx + 1;
      }
    }

    method ConsumeVarArg(kind: TypeKind) returns (l: Location)
      modifies this
      ensures (l, Ctr()) == NextVarArg(desc, old(Ctr()), IsFloat(kind)) && l >= 0
      ensures desc.onlyOnStackVarargs ==>
                l == SlotLocation(old(slotIdx)) && Ctr() == Counters(old(iargIdx), old(fargIdx), old(slotIdx) + 1)
      ensures !desc.onlyOnStackVarargs ==> (l, Ctr()) == Next(desc, old(Ctr()), IsFloat(kind))
    {
      if desc.onlyOnStackVarargs {
        l := SlotLocation(slotIdx);
        slotIdx := slotIdx + 1;
        return;
      }
      l := Consume(kind);
    }

    /** The hidden struct-return pointer: the first integer register, or a register of its own. */
    method ConsumeSret() returns (l: Location)
      modifies this
      ensures (l, Ctr()) == NextSret(desc, old(Ctr())) && l >= 0
      ensures !desc.sretShifts ==> l == desc.sretIr && Ctr() == old(Ctr())
      ensures desc.sretShifts ==>
                if old(iargIdx) < |desc.iregHead|
                then l == desc.iregHead[old(iargIdx)] && Ctr() == Counters(old(iargIdx) + 1, old(fargIdx), old(slotIdx))
                else l == SlotLocation(old(slotIdx)) && Ctr() == Counters(old(iargIdx), old(fargIdx), old(slotIdx) + 1)
    {
      if desc.sretShifts {
        l := Consume(Rec);
      } else {
        l := desc.sretIr;
      }
    }

    function MaxStackSlot(): nat
      reads this
    {
      slotIdx
    }

    function FreeIRegs(): int
      reads this
    {
      |desc.iregHead| - iargIdx
    }

    function FreeFRegs(): int
      reads this
    {
      |desc.fregHead| - fargIdx
    }

    /** Consecutive slots for `size` bytes. */
    method ConsumeStackArea(size: nat) returns (base: nat)
      modifies this
      ensures base == old(slotIdx) && Ctr() == NextArea(old(Ctr()), size)
    {
      base := slotIdx;
      slotIdx := slotIdx + SlotsFor(size);
    }
  }
}
