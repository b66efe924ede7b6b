/** The instructions behind the abstract operations: RewriterMoveEmitter of the rewriter,
    executed on integer registers (with the accumulator), float registers and frame memory. */
module MoveEmission {
  import opened Machine

  /** IREG number of the accumulator, the scratch register of the emitter. */
  const ACC := 14
  const STACK_SLOT_SIZE := 8

  /** `start` is the frame base; slots live in [start - size, start) and outgoing
      parameters in [start - full, start - full + paramSize). */
  datatype Frame = Frame(start: int, size: nat, full: nat, paramSize: nat) {
    function Bot(): int { start - full }

    ghost predicate Valid() { size + paramSize <= full }
  }

  /** FrameLayout::UntypedSlotOffset, with its 16-bit slot parameter. */
  function UntypedSlotOffset(us: int, frameSize: nat): int { (us % 0x1_0000) * STACK_SLOT_SIZE - frameSize }

  datatype Instr =
    | Mov(d: nat, s: nat)
    | FMov(d: nat, s: nat)
    | StackParam(s: nat, off: nat)
    | StackParamF(s: nat, off: nat)
    | StackParamS16(srcOffset: int, off: nat)
    | StackParamS32(srcOffset: int, off: nat)
    | LoadFrame(ldk: LoadKind, d: nat, offset: int)
    | LoadRec(ldk: LoadKind, d: nat, base: nat, offset: int)
    | LeaStackParam(d: nat, off: nat)

  predicate IsFloatLoad(ldk: LoadKind) { ldk.F32? || ldk.F64? }

  /** Conversion to uint16_t, the width of every parameter offset in the instruction stream. */
  function AsU16(n: nat): nat { n % 0x1_0000 }

  /** The value of a signed 16-bit operand. */
  function AsS16(v: int): int { (v + 0x8000) % 0x1_0000 - 0x8000 }

  predicate IsNBitsSigned16(v: int) { -0x8000 <= v < 0x8000 }

  /** The short form of a copy is taken exactly when its operand holds the offset. */
  lemma ShortExactly(v: int)
    ensures IsNBitsSigned16(v) <==> AsS16(v) == v
  {
  }

  /** Preparation code of a load, and the register that then holds the address. */
  function AddrCode(addr: Location, frameSize: nat): (seq<Instr>, nat) {
    if 0 <= addr && KindOf(addr) == Kind.IReg then ([], addr)
    else ([LoadFrame(LoadKind.U64, ACC, UntypedSlotOffset(addr - REG_COUNT, frameSize))], ACC)
  }

  function LoadCode(ldk: LoadKind, d: nat, addr: Location, offset: int, frameSize: nat): seq<Instr> {
    AddrCode(addr, frameSize).0 + [LoadRec(ldk, d, AddrCode(addr, frameSize).1, offset)]
  }

  function Lower(op: Op, frameSize: nat): seq<Instr> {
    match op
    case AssignIReg(d, s) => [Mov(d, s)]
    case AssignFReg(d, s) => [FMov(d, s)]
    case AssignParamSlot(p, s) =>
      var o := UntypedSlotOffset(s, frameSize);
      if IsNBitsSigned16(o) then [StackParamS16(o, AsU16(AsU16(p) * 8))] else [StackParamS32(o, AsU16(AsU16(p) * 8))]
    case AssignFRegFromSlot(d, s) => [LoadFrame(LoadKind.F64, d, UntypedSlotOffset(s, frameSize))]
    case AssignIRegFromSlot(d, s) => [LoadFrame(LoadKind.U64, d, UntypedSlotOffset(s, frameSize))]
    case AssignSlotFromIReg(p, s) => [StackParam(s, AsU16(AsU16(p) * 8))]
    case AssignSlotFromFReg(p, s) => [StackParamF(s, AsU16(AsU16(p) * 8))]
    case AssignIRegFromAddr(d, a, o, ldk) => LoadCode(ldk, d, a, o, frameSize)
    case AssignFRegFromAddr(d, a, o, ldk) => LoadCode(ldk, d, a, o, frameSize)
    case AssignSlotFromAddr(p, a, o, ldk) =>
      LoadCode(ldk, ACC, a, o, frameSize) + [StackParam(ACC, AsU16(AsU16(p) * 8))]
  }

  function LowerAll(ops: seq<Op>, frameSize: nat): seq<Instr> {
    if ops == [] then [] else LowerAll(ops[..|ops| - 1], frameSize) + Lower(ops[|ops| - 1], frameSize)
  }

  // ---- Execution ----

  datatype Cpu = Cpu(iregs: seq<Word>, fregs: seq<Word>, mem: Memory) {
    ghost predicate Valid() { |iregs| == 15 && |fregs| == FREGS }
  }

  function Write8(mem: Memory, addr: int, v: Word): Memory {
    a => if addr <= a < addr + 8 then ByteOf(v, a - addr) else mem(a)
  }

  function LoadInto(c: Cpu, ldk: LoadKind, d: nat, addr: int): Cpu {
    if IsFloatLoad(ldk) then PutFReg(c, d, Load(c.mem, addr, ldk)) else PutIReg(c, d, Load(c.mem, addr, ldk))
  }

  function IRegOf(c: Cpu, r: nat): Word { if r < |c.iregs| then c.iregs[r] else 0 }

  function FRegOf(c: Cpu, r: nat): Word { if r < |c.fregs| then c.fregs[r] else 0 }

  function PutIReg(c: Cpu, r: nat, v: Word): Cpu { if r < |c.iregs| then c.(iregs := c.iregs[r := v]) else c }

  function PutFReg(c: Cpu, r: nat, v: Word): Cpu { if r < |c.fregs| then c.(fregs := c.fregs[r := v]) else c }

  /** Conversion of an address to a 64-bit register value. */
  function AddrWord(addr: int): Word { addr % 0x1_0000_0000_0000_0000 }

  function Run1(i: Instr, c: Cpu, frame: Frame): Cpu {
    match i
    case Mov(d, s) => PutIReg(c, d, IRegOf(c, s))
    case FMov(d, s) => PutFReg(c, d, FRegOf(c, s))
    case StackParam(s, off) => c.(mem := Write8(c.mem, frame.Bot() + off, IRegOf(c, s)))
    case StackParamF(s, off) => c.(mem := Write8(c.mem, frame.Bot() + off, FRegOf(c, s)))
    case StackParamS16(o, off) =>
      c.(mem := Write8(c.mem, frame.Bot() + off, Load(c.mem, frame.start + AsS16(o), LoadKind.U64)))
    case StackParamS32(o, off) =>
      c.(mem := Write8(c.mem, frame.Bot() + off, Load(c.mem, frame.start + o, LoadKind.U64)))
    case LoadFrame(ldk, d, o) => LoadInto(c, ldk, d, frame.start + o)
    case LoadRec(ldk, d, base, o) => LoadInto(c, ldk, d, IRegOf(c, base) + o)
    case LeaStackParam(d, off) => PutIReg(c, d, AddrWord(frame.Bot() + off))
  }

  function Run(code: seq<Instr>, c: Cpu, frame: Frame): (r: Cpu)
    ensures |r.iregs| == |c.iregs| && |r.fregs| == |c.fregs|
  {
    if code == [] then c else Run1(code[|code| - 1], Run(code[..|code| - 1], c, frame), frame)
  }

  lemma RunAppend(code: seq<Instr>, i: Instr, c: Cpu, frame: Frame)
    ensures Run(code + [i], c, frame) == Run1(i, Run(code, c, frame), frame)
  {
    assert (code + [i])[..|code|] == code;
  }

  lemma {:induction false} RunConcat(a: seq<Instr>, b: seq<Instr>, c: Cpu, frame: Frame)
    ensures Run(a + b, c, frame) == Run(b, Run(a, c, frame), frame)
  {
    if b == [] {
      assert a + b == a;
    } else {
      var n := |b| - 1;
      assert a + b == (a + b[..n]) + [b[n]];
      RunAppend(a + b[..n], b[n], c, frame);
      RunConcat(a, b[..n], c, frame);
    }
  }

  // ---- Memory facts ----

  lemma {:induction false} ReadLEAgree(m: Memory, m': Memory, lo: int, hi: int)
    requires lo <= hi
    requires forall a :: lo <= a < hi ==> m(a) == m'(a)
    ensures ReadLE(m, lo, hi) == ReadLE(m', lo, hi)
    decreases hi - lo
  {
    if lo < hi { ReadLEAgree(m, m', lo + 1, hi); }
  }

  lemma {:induction false} ReadBack(m: Memory, lo: int, hi: int, v: nat)
    requires lo <= hi && v < Pow256(hi - lo)
    requires forall a :: lo <= a < hi ==> m(a) == ByteOf(v, a - lo)
    ensures ReadLE(m, lo, hi) == v
    decreases hi - lo
  {
    if lo < hi {
      forall a | lo + 1 <= a < hi ensures m(a) == ByteOf(v / 256, a - (lo + 1)) {}
      ReadBack(m, lo + 1, hi, v / 256);
      assert m(lo) == ByteOf(v, 0);
    }
  }

  /** The eight-byte word at an address. */
  function WordAt(m: Memory, addr: int): Word { Load(m, addr, LoadKind.U64) }

  lemma Write8Reads(m: Memory, addr: int, v: Word)
    ensures WordAt(Write8(m, addr, v), addr) == v
    ensures forall b, k :: b + Width(k) <= addr || addr + 8 <= b ==> Load(Write8(m, addr, v), b, k) == Load(m, b, k)
  {
    Pow256Values();
    ReadBack(Write8(m, addr, v), addr, addr + 8, v);
    forall b, k | b + Width(k) <= addr || addr + 8 <= b
      ensures Load(Write8(m, addr, v), b, k) == Load(m, b, k)
    {
      ReadLEAgree(Write8(m, addr, v), m, b, b + Width(k));
    }
  }

  // ---- Refinement ----

  /** What the abstract machine sees of a processor state. */
  ghost function Abstract(c: Cpu, frame: Frame): (s: State)
    requires c.Valid()
    ensures s.Valid()
  {
    State(c.iregs[..VIRT_IREGS] + c.fregs,
          map k: nat | k < frame.paramSize / 8 :: WordAt(c.mem, frame.Bot() + 8 * k),
          k => WordAt(c.mem, frame.start - frame.size + 8 * k),
          (a, k) => Load(c.mem, a, k), {})
  }

  ghost predicate RegsMatch(c: Cpu, regs: seq<Word>) {
    && c.Valid() && |regs| == REG_COUNT
    && (forall i :: 0 <= i < VIRT_IREGS ==> c.iregs[i] == regs[i])
    && (forall i :: 0 <= i < FREGS ==> c.fregs[i] == regs[VIRT_IREGS + i])
  }

  ghost predicate ParamsMatch(mem: Memory, params: map<nat, Word>, frame: Frame) {
    forall k :: k in params ==> 8 * k + 8 <= frame.paramSize && WordAt(mem, frame.Bot() + 8 * k) == params[k]
  }

  /** Loads that avoid the parameter area see the machine's read-only memory, and so do the slots. */
  ghost predicate MemoryMatches(mem: Memory, slots: nat -> Word, load: (int, LoadKind) -> Word, frame: Frame) {
    && (forall k: nat :: 8 * k + 8 <= frame.size ==>
          var a := frame.start - frame.size + 8 * k;
          slots(k) == load(a, LoadKind.U64) == load(a, LoadKind.F64))
    && (forall a, ldk :: Clear(a, frame) ==> Load(mem, a, ldk) == load(a, ldk))
  }

  /** `c` represents `s`; memory outside the parameter area is the machine's read-only memory. */
  ghost predicate Represents(c: Cpu, s: State, frame: Frame) {
    && s.Valid() && RegsMatch(c, s.regs) && ParamsMatch(c.mem, s.params, frame)
    && MemoryMatches(c.mem, s.slots, s.load, frame)
  }

  /** The eight bytes at `addr` avoid the outgoing parameter area. */
  ghost predicate Clear(addr: int, frame: Frame) {
    addr + 8 <= frame.Bot() || frame.Bot() + frame.paramSize <= addr
  }

  lemma AbstractRepresents(c: Cpu, frame: Frame)
    requires c.Valid()
    ensures Represents(c, Abstract(c, frame), frame)
  {
  }

  /** The processor after location `l` was given the value `v`. */
  function Moved(c: Cpu, l: Location, v: Word, frame: Frame): Cpu {
    if l < 0 then c
    else if l < VIRT_IREGS then PutIReg(c, l, v)
    else if l < REG_COUNT then PutFReg(c, l - VIRT_IREGS, v)
    else c.(mem := Write8(c.mem, frame.Bot() + 8 * (l - REG_COUNT), v))
  }

  /** A slot or parameter index survives its 16-bit encoding and lies in its area. */
  predicate ParamFits(k: nat, frame: Frame) { 8 * k < 0x1_0000 && 8 * k + 8 <= frame.paramSize }
  predicate SlotFits(k: nat, frame: Frame) { k < 0x1_0000 && 8 * k + 8 <= frame.size }

  /** Conditions under which the emitted instructions mean what the operation says. */
  predicate Lowerable(op: Op, frame: Frame) {
    && op.InRange()
    && (KindOf(op.Dst()) == Kind.Slot ==> ParamFits(op.Dst() - REG_COUNT, frame))
    && (KindOf(op.Src()) == Kind.Slot ==> SlotFits(op.Src() - REG_COUNT, frame))
    && (op.IsLoad() ==> 0 <= op.offset && (IsFloatLoad(op.ldk) <==> op.AssignFRegFromAddr?))
  }

  lemma SlotRead(c: Cpu, s: State, frame: Frame, k: nat)
    requires MemoryMatches(c.mem, s.slots, s.load, frame) && frame.Valid() && SlotFits(k, frame)
    ensures Load(c.mem, frame.start + UntypedSlotOffset(k, frame.size), LoadKind.U64) == s.slots(k)
    ensures Load(c.mem, frame.start + UntypedSlotOffset(k, frame.size), LoadKind.F64) == s.slots(k)
  {
    hide Load, WordAt;
    assert Clear(frame.start + UntypedSlotOffset(k, frame.size), frame);
  }

  lemma WriteParam(c: Cpu, s: State, frame: Frame, k: nat, v: Word)
    requires Represents(c, s, frame) && ParamFits(k, frame)
    ensures Represents(Moved(c, SlotLocation(k), v, frame), s.Put(SlotLocation(k), v), frame)
  {
    ParamWritten(c.mem, s.params, frame, k, v);
    LoadsKept(c.mem, s.slots, s.load, frame, k, v);
  }

  lemma LoadsKept(mem: Memory, slots: nat -> Word, load: (int, LoadKind) -> Word, frame: Frame, k: nat, v: Word)
    requires MemoryMatches(mem, slots, load, frame) && ParamFits(k, frame)
    ensures MemoryMatches(Write8(mem, frame.Bot() + 8 * k, v), slots, load, frame)
  {
    Write8Reads(mem, frame.Bot() + 8 * k, v);
  }

  lemma ParamWritten(mem: Memory, params: map<nat, Word>, frame: Frame, k: nat, v: Word)
    requires ParamsMatch(mem, params, frame) && ParamFits(k, frame)
    ensures ParamsMatch(Write8(mem, frame.Bot() + 8 * k, v), params[k := v], frame)
  {
    Write8Reads(mem, frame.Bot() + 8 * k, v);
    var m := Write8(mem, frame.Bot() + 8 * k, v);
    forall j | j in params && j != k ensures WordAt(m, frame.Bot() + 8 * j) == params[j] {
      assert 8 * j + 8 <= 8 * k || 8 * k + 8 <= 8 * j;
    }
  }

  /** The 16-bit parameter offset names the intended slot exactly for the first 8192 slots. */
  lemma ParamOffsetExact(p: nat)
    ensures AsU16(AsU16(p) * 8) == 8 * p <==> p < 8192
  {
  }

  /** Replacing one register on both sides. */
  lemma RegisterWritten(c: Cpu, s: State, frame: Frame, l: Location, v: Word)
    requires Represents(c, s, frame) && IsReg(l)
    ensures Represents(Moved(c, l, v, frame), s.Put(l, v), frame)
  {
  }

  lemma AccWritten(c: Cpu, s: State, frame: Frame, v: Word)
    requires Represents(c, s, frame)
    ensures Represents(PutIReg(c, ACC, v), s, frame)
  {
  }

  /** One operation: the emitted instructions act on the processor as the operation acts on
      the machine, given that a load does not read the outgoing parameter area. */
  lemma LowerRefines(op: Op, c: Cpu, s: State, frame: Frame)
    requires Represents(c, s, frame) && frame.Valid() && Lowerable(op, frame)
    requires op.IsLoad() ==> Clear(s.Get(op.Src()) + op.offset, frame)
    ensures Represents(Run(Lower(op, frame.size), c, frame), Step(op, s), frame)
  {
    if op.IsLoad() {
      LoadRefines(op, c, s, frame);
    } else {
      MoveRefines(op, c, s, frame);
    }
  }

  lemma RunOne(i: Instr, c: Cpu, frame: Frame)
    ensures Run([i], c, frame) == Run1(i, c, frame)
  {
    RunAppend([], i, c, frame);
    assert [] + [i] == [i];
  }

  /** The address register of a load holds the address after its preparation code. */
  lemma AddrCodeRuns(a: Location, c: Cpu, s: State, frame: Frame)
    requires Represents(c, s, frame) && frame.Valid() && AddrFits(a, frame)
    ensures Represents(Run(AddrCode(a, frame.size).0, c, frame), s, frame)
    ensures Run(AddrCode(a, frame.size).0, c, frame).Valid()
    ensures IRegOf(Run(AddrCode(a, frame.size).0, c, frame), AddrCode(a, frame.size).1) == s.Get(a)
  {
    if KindOf(a) == Kind.Slot {
      AddrLoaded(a, c, s, frame);
      AccWritten(c, s, frame, s.Get(a));
    }
    hide UntypedSlotOffset;
  }

  lemma AddrLoaded(a: Location, c: Cpu, s: State, frame: Frame)
    requires Represents(c, s, frame) && frame.Valid() && AddrFits(a, frame) && KindOf(a) == Kind.Slot
    ensures Run(AddrCode(a, frame.size).0, c, frame) == PutIReg(c, ACC, s.Get(a))
  {
    hide Load, Write8, RegsMatch, ParamsMatch, MemoryMatches, Run;
    var load := LoadFrame(LoadKind.U64, ACC, UntypedSlotOffset(a - REG_COUNT, frame.size));
    SlotRead(c, s, frame, a - REG_COUNT);
    RunOne(load, c, frame);
  }

  lemma MoveRefines(op: Op, c: Cpu, s: State, frame: Frame)
    requires Represents(c, s, frame) && frame.Valid() && Lowerable(op, frame) && !op.IsLoad()
    ensures Represents(Run(Lower(op, frame.size), c, frame), Step(op, s), frame)
  {
    if KindOf(op.Src()) == Kind.Slot { SlotRead(c, s, frame, op.Src() - REG_COUNT); }
    MoveRuns(op, c, s, frame);
    MovedRepresents(op, c, s, frame);
  }

  lemma MovedRepresents(op: Op, c: Cpu, s: State, frame: Frame)
    requires Represents(c, s, frame) && Lowerable(op, frame) && !op.IsLoad()
    ensures Represents(Moved(c, op.Dst(), s.Get(op.Src()), frame), Step(op, s), frame)
  {
    if KindOf(op.Dst()) == Kind.Slot {
      WriteParam(c, s, frame, op.Dst() - REG_COUNT, s.Get(op.Src()));
    } else {
      RegisterWritten(c, s, frame, op.Dst(), s.Get(op.Src()));
    }
  }

  lemma MoveRuns(op: Op, c: Cpu, s: State, frame: Frame)
    requires s.Valid() && RegsMatch(c, s.regs) && SlotHolds(c, s, frame, op.Src()) && Lowerable(op, frame)
    requires !op.IsLoad()
    ensures Run(Lower(op, frame.size), c, frame) == Moved(c, op.Dst(), s.Get(op.Src()), frame)
  {
    var code := Lower(op, frame.size);
    assert code == [code[0]];
    RunOne(code[0], c, frame);
    if KindOf(op.Dst()) == Kind.Slot {
      ParamMoveRuns(op, c, s, frame);
    } else {
      RegMoveRuns(op, c, s, frame);
    }
  }

  ghost predicate SlotHolds(c: Cpu, s: State, frame: Frame, l: Location)
  {
    KindOf(l) == Kind.Slot ==>
      && Load(c.mem, frame.start + UntypedSlotOffset(l - REG_COUNT, frame.size), LoadKind.U64) == s.Get(l)
      && Load(c.mem, frame.start + UntypedSlotOffset(l - REG_COUNT, frame.size), LoadKind.F64) == s.Get(l)
  }

  lemma ParamMoveRuns(op: Op, c: Cpu, s: State, frame: Frame)
    requires s.Valid() && RegsMatch(c, s.regs) && SlotHolds(c, s, frame, op.Src())
    requires op.InRange() && !op.IsLoad() && KindOf(op.Dst()) == Kind.Slot && ParamFits(op.Dst() - REG_COUNT, frame)
    ensures Run1(Lower(op, frame.size)[0], c, frame) == Moved(c, op.Dst(), s.Get(op.Src()), frame)
  {
    ParamOffsetExact(op.Dst() - REG_COUNT);
  }

  lemma RegMoveRuns(op: Op, c: Cpu, s: State, frame: Frame)
    requires s.Valid() && RegsMatch(c, s.regs) && SlotHolds(c, s, frame, op.Src())
    requires op.InRange() && !op.IsLoad() && KindOf(op.Dst()) != Kind.Slot
    ensures Run1(Lower(op, frame.size)[0], c, frame) == Moved(c, op.Dst(), s.Get(op.Src()), frame)
  {
  }

  lemma LoadRefines(op: Op, c: Cpu, s: State, frame: Frame)
    requires Represents(c, s, frame) && frame.Valid() && Lowerable(op, frame) && op.IsLoad()
    requires Clear(s.Get(op.Src()) + op.offset, frame)
    ensures Represents(Run(Lower(op, frame.size), c, frame), Step(op, s), frame)
  {
    hide Represents, Run, LoadCode, AsU16;
    match op
    case AssignIRegFromAddr(d, a, o, ldk) => RegLoadRefines(ldk, d, d, a, o, c, s, frame);
    case AssignFRegFromAddr(d, a, o, ldk) => RegLoadRefines(ldk, d, FRegLocation(d), a, o, c, s, frame);
    case AssignSlotFromAddr(p, a, o, ldk) => SlotLoadRefines(ldk, p, a, o, c, s, frame);
  }

  /** The machine after a load into `dst`. */
  function AfterLoad(s: State, dst: Location, addr: Location, offset: int, ldk: LoadKind): State {
    var a := s.Get(addr) + offset;
    s.Put(dst, s.load(a, ldk)).(loaded := s.loaded + {a})
  }

  lemma RegLoadRefines(
    ldk: LoadKind, d: nat, dst: Location, addr: Location, offset: int, c: Cpu, s: State, frame: Frame)
    requires Represents(c, s, frame) && frame.Valid() && AddrFits(addr, frame)
    requires Clear(s.Get(addr) + offset, frame)
    requires if IsFloatLoad(ldk) then d < FREGS && dst == FRegLocation(d) else d < VIRT_IREGS && dst == d
    ensures Represents(Run(LoadCode(ldk, d, addr, offset, frame.size), c, frame), AfterLoad(s, dst, addr, offset, ldk),
            frame)
  {
    hide Represents;
    var v := s.load(s.Get(addr) + offset, ldk);
    var r := LoadDelivers(ldk, d, addr, offset, c, s, frame);
    RegisterWritten(r, s, frame, dst, v);
    LogIrrelevant(Moved(r, dst, v, frame), s.Put(dst, v), frame, s.loaded + {s.Get(addr) + offset});
  }

  lemma SlotLoadRefines(ldk: LoadKind, p: nat, addr: Location, offset: int, c: Cpu, s: State, frame: Frame)
    requires Represents(c, s, frame) && frame.Valid() && AddrFits(addr, frame)
    requires Clear(s.Get(addr) + offset, frame)
    requires !IsFloatLoad(ldk) && ParamFits(p, frame)
    ensures Represents(Run(LoadCode(ldk, ACC, addr, offset, frame.size) + [StackParam(ACC, AsU16(AsU16(p) * 8))], c,
            frame),
                       AfterLoad(s, SlotLocation(p), addr, offset, ldk), frame)
  {
    hide Represents;
    var v := s.load(s.Get(addr) + offset, ldk);
    var r := LoadDelivers(ldk, ACC, addr, offset, c, s, frame);
    RunAppend(LoadCode(ldk, ACC, addr, offset, frame.size), StackParam(ACC, AsU16(AsU16(p) * 8)), c, frame);
    ParamOffsetExact(p);
    var acc := PutIReg(r, ACC, v);
    AccWritten(r, s, frame, v);
    WriteParam(acc, s, frame, p, v);
    LogIrrelevant(Moved(acc, SlotLocation(p), v, frame), s.Put(SlotLocation(p), v), frame,
                  s.loaded + {s.Get(addr) + offset});
  }

  function PutReg(r: Cpu, ldk: LoadKind, d: nat, v: Word): Cpu {
    if IsFloatLoad(ldk) then PutFReg(r, d, v) else PutIReg(r, d, v)
  }

  /** The address location of a load: an integer register or a slot of the frame. */
  predicate AddrFits(addr: Location, frame: Frame) {
    KindOf(addr) in {Kind.IReg, Kind.Slot} && (KindOf(addr) == Kind.Slot ==> SlotFits(addr - REG_COUNT, frame))
  }

  /** The code of a load: a state `r` that still represents the machine, then the loaded value
      in register `d`. */
  lemma LoadDelivers(ldk: LoadKind, d: nat, addr: Location, offset: int, c: Cpu, s: State, frame: Frame)
    returns (r: Cpu)
    requires Represents(c, s, frame) && frame.Valid() && AddrFits(addr, frame)
    requires Clear(s.Get(addr) + offset, frame)
    ensures Represents(r, s, frame) && r.Valid()
    ensures var v := s.load(s.Get(addr) + offset, ldk);
            Run(LoadCode(ldk, d, addr, offset, frame.size), c, frame) == PutReg(r, ldk, d, v)
  {
    hide Represents, AddrCode, Load, Clear, AddrFits;
    var pre := AddrCode(addr, frame.size);
    r := Run(pre.0, c, frame);
    AddrCodeRuns(addr, c, s, frame);
    RunAppend(pre.0, LoadRec(ldk, d, pre.1, offset), c, frame);
    ClearLoad(r, s, frame, s.Get(addr) + offset, ldk);
  }

  lemma ClearLoad(r: Cpu, s: State, frame: Frame, addr: int, ldk: LoadKind)
    requires Represents(r, s, frame) && Clear(addr, frame)
    ensures Load(r.mem, addr, ldk) == s.load(addr, ldk)
  {
  }

  lemma LogIrrelevant(c: Cpu, s: State, frame: Frame, loaded: set<int>)
    requires Represents(c, s, frame)
    ensures Represents(c, s.(loaded := loaded), frame)
  {
  }

  lemma LoadedGrows(op: Op, s: State)
    ensures s.loaded <= Step(op, s).loaded
    ensures op.IsLoad() ==> s.Get(op.Src()) + op.offset in Step(op, s).loaded
  {
  }

  /** A whole sequence of operations: the emitted code takes a processor that represents the
      start state to one that represents the machine's final state. */
  lemma {:induction false} LowerAllRefines(ops: seq<Op>, c: Cpu, s: State, frame: Frame)
    requires Represents(c, s, frame) && frame.Valid()
    requires forall op :: op in ops ==> Lowerable(op, frame)
    requires forall a :: a in Exec(ops, s).loaded ==> Clear(a, frame)
    ensures Represents(Run(LowerAll(ops, frame.size), c, frame), Exec(ops, s), frame)
  {
    if ops != [] {
      var n := |ops| - 1;
      var t := Exec(ops[..n], s);
      LoadedGrows(ops[n], t);
      LowerAllRefines(ops[..n], c, s, frame);
      RunConcat(LowerAll(ops[..n], frame.size), Lower(ops[n], frame.size), c, frame);
      LowerRefines(ops[n], Run(LowerAll(ops[..n], frame.size), c, frame), t, frame);
    }
  }

  lemma LowerAllAppend(ops: seq<Op>, op: Op, frameSize: nat)
    ensures LowerAll(ops + [op], frameSize) == LowerAll(ops, frameSize) + Lower(op, frameSize)
  {
    assert (ops + [op])[..|ops|] == ops;
  }

  // ---- The emitter object ----

  /** RewriterMoveEmitter: `ops` is the list of calls it received, `code` what it emitted. */
  class RewriterMoveEmitter {
    const frameSize: nat
    var code: seq<Instr>
    ghost var ops: seq<Op>

    ghost predicate Valid()
      reads this
    {
      code == LowerAll(ops, frameSize)
    }

    constructor (frameSize: nat)
      ensures Valid() && ops == [] && this.frameSize == frameSize
    {
      this.frameSize := frameSize;
      code, ops := [], [];
    }

    ghost method Record(op: Op)
      requires code == LowerAll(ops, frameSize) + Lower(op, frameSize)
      modifies this`ops
      ensures Valid() && ops == old(ops) + [op]
    {
      LowerAllAppend(ops, op, frameSize);
      ops := ops + [op];
    }

    method AssignIReg(dst: nat, src: nat)
      requires Valid()
      modifies this
      ensures Valid() && ops == old(ops) + [Op.AssignIReg(dst, src)]
    {
      code := code + [Mov(dst, src)];
      Record(Op.AssignIReg(dst, src));
    }

    method AssignFReg(dst: nat, src: nat)
      requires Valid()
      modifies this
      ensures Valid() && ops == old(ops) + [Op.AssignFReg(dst, src)]
    {
      code := code + [FMov(dst, src)];
      Record(Op.AssignFReg(dst, src));
    }

    method AssignParamSlot(paramSlot: nat, stackSlot: nat)
      requires Valid()
      modifies this
      ensures Valid() && ops == old(ops) + [Op.AssignParamSlot(paramSlot, stackSlot)]
    {
      var srcOffset := UntypedSlotOffset(stackSlot, frameSize);
      var dstOffset := AsU16(paramSlot) * 8;
      if IsNBitsSigned16(srcOffset) {
        code := code + [StackParamS16(srcOffset, AsU16(dstOffset))];
      } else {
        code := code + [StackParamS32(srcOffset, AsU16(dstOffset))];
      }
      Record(Op.AssignParamSlot(paramSlot, stackSlot));
    }

    method AssignFRegFromSlot(dst: nat, slot: nat)
      requires Valid()
      modifies this
      ensures Valid() && ops == old(ops) + [Op.AssignFRegFromSlot(dst, slot)]
    {
      code := code + [LoadFrame(LoadKind.F64, dst, UntypedSlotOffset(slot, frameSize))];
      Record(Op.AssignFRegFromSlot(dst, slot));
    }

    method AssignIRegFromSlot(dst: nat, slot: nat)
      requires Valid()
      modifies this
      ensures Valid() && ops == old(ops) + [Op.AssignIRegFromSlot(dst, slot)]
    {
      code := code + [LoadFrame(LoadKind.U64, dst, UntypedSlotOffset(slot, frameSize))];
      Record(Op.AssignIRegFromSlot(dst, slot));
    }

    method AssignSlotFromIReg(slot: nat, src: nat)
      requires Valid()
      modifies this
      ensures Valid() && ops == old(ops) + [Op.AssignSlotFromIReg(slot, src)]
    {
      code := code + [StackParam(src, AsU16(AsU16(slot) * 8))];
      Record(Op.AssignSlotFromIReg(slot, src));
    }

    method AssignSlotFromFReg(slot: nat, src: nat)
      requires Valid()
      modifies this
      ensures Valid() && ops == old(ops) + [Op.AssignSlotFromFReg(slot, src)]
    {
      code := code + [StackParamF(src, AsU16(AsU16(slot) * 8))];
      Record(Op.AssignSlotFromFReg(slot, src));
    }

    /** Emits the preparation of an address; answers the register that holds it. */
    method AddrReg(addr: Location) returns (base: nat)
      requires KindOf(addr) in {Kind.IReg, Kind.Slot}
      modifies this`code
      ensures code == old(code) + AddrCode(addr, frameSize).0 && base == AddrCode(addr, frameSize).1
    {
      if KindOf(addr) == Kind.IReg {
        return addr;
      }
      code := code + [LoadFrame(LoadKind.U64, ACC, UntypedSlotOffset(addr - REG_COUNT, frameSize))];
      return ACC;
    }

    method AssignIRegFromAddr(dst: nat, addr: Location, offset: int, ldk: LoadKind)
      requires Valid() && KindOf(addr) in {Kind.IReg, Kind.Slot}
      modifies this
      ensures Valid() && ops == old(ops) + [Op.AssignIRegFromAddr(dst, addr, offset, ldk)]
    {
      var base := AddrReg(addr);
      code := code + [LoadRec(ldk, dst, base, offset)];
      Record(Op.AssignIRegFromAddr(dst, addr, offset, ldk));
    }

    method AssignFRegFromAddr(dst: nat, addr: Location, offset: int, ldk: LoadKind)
      requires Valid() && KindOf(addr) in {Kind.IReg, Kind.Slot}
      modifies this
      ensures Valid() && ops == old(ops) + [Op.AssignFRegFromAddr(dst, addr, offset, ldk)]
    {
      var base := AddrReg(addr);
      code := code + [LoadRec(ldk, dst, base, offset)];
      Record(Op.AssignFRegFromAddr(dst, addr, offset, ldk));
    }

    method AssignSlotFromAddr(paramSlot: nat, addr: Location, offset: int, ldk: LoadKind)
      requires Valid() && KindOf(addr) in {Kind.IReg, Kind.Slot}
      modifies this
      ensures Valid() && ops == old(ops) + [Op.AssignSlotFromAddr(paramSlot, addr, offset, ldk)]
    {
      hide AddrCode, AsU16;
      var base := AddrReg(addr);
      code := code + [LoadRec(ldk, ACC, base, offset)];
      code := code + [StackParam(ACC, AsU16(AsU16(paramSlot) * 8))];
      Record(Op.AssignSlotFromAddr(paramSlot, addr, offset, ldk));
    }
  }
}
