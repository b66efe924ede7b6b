/** The abstract machine on which staged moves are executed: a virtual register file, the
    untyped slots of the frame (read only), the outgoing parameter slots, and byte memory. */
module Machine {

  // ---- Locations (src/cbc/move_resolver.h) ----

  const VIRT_IREGS := 14
  const FREGS := 16
  const REG_COUNT := VIRT_IREGS + FREGS

  /** Registers first (integer, then float), then stack slots; negative means "nowhere". */
  type Location = int

  datatype Kind = Nil | IReg | FReg | Slot

  function KindOf(l: Location): Kind {
    if l < 0 then Nil else if l < VIRT_IREGS then IReg else if l < REG_COUNT then FReg else Slot
  }

  function SlotLocation(slot: nat): Location { REG_COUNT + slot }

  function FRegLocation(freg: nat): Location { VIRT_IREGS + freg }

  predicate IsReg(l: Location) { 0 <= l < REG_COUNT }

  /** Locations that are registers. */
  type Reg = l: Location | 0 <= l < REG_COUNT

  // ---- Words, memory and loads ----

  type Byte = x: int | 0 <= x < 256
  type Word = x: int | 0 <= x < 0x1_0000_0000_0000_0000
  type Memory = int -> Byte

  function Pow256(n: nat): nat { if n == 0 then 1 else 256 * Pow256(n - 1) }

  /** The bytes of [lo, hi), little endian. */
  function ReadLE(mem: Memory, lo: int, hi: int): (v: nat)
    requires lo <= hi
    decreases hi - lo
  {
    if lo == hi then 0 else mem(lo) + 256 * ReadLE(mem, lo + 1, hi)
  }

  lemma {:induction false} ReadLEBound(mem: Memory, lo: int, hi: int)
    requires lo <= hi
    ensures ReadLE(mem, lo, hi) < Pow256(hi - lo)
    decreases hi - lo
  {
    if lo < hi { ReadLEBound(mem, lo + 1, hi); }
  }

  lemma Pow256Values()
    ensures Pow256(1) == 0x100 && Pow256(2) == 0x1_0000 && Pow256(4) == 0x1_0000_0000
    ensures Pow256(8) == 0x1_0000_0000_0000_0000
  {
    assert Pow256(3) == 256 * Pow256(2);
    assert Pow256(5) == 256 * Pow256(4) && Pow256(6) == 256 * Pow256(5) && Pow256(7) == 256 * Pow256(6);
  }

  /** Byte `i` of a number, counted from the least significant end. */
  function ByteOf(v: nat, i: nat): Byte {
    if i == 0 then v % 256 else ByteOf(v / 256, i - 1)
  }

  datatype LoadKind = U8 | S8 | U16 | S16 | U32 | U64 | F32 | F64 | Ref

  function Width(ldk: LoadKind): nat {
    match ldk
    case U8 | S8 => 1
    case U16 | S16 => 2
    case U32 | F32 => 4
    case U64 | F64 | Ref => 8
  }

  function Load(mem: Memory, addr: int, ldk: LoadKind): Word {
    var v := ReadLE(mem, addr, addr + Width(ldk));
    ReadLEBound(mem, addr, addr + Width(ldk));
    Pow256Values();
    if ldk.S8? && v >= 0x80 then v + 0x1_0000_0000_0000_0000 - 0x100
    else if ldk.S16? && v >= 0x8000 then v + 0x1_0000_0000_0000_0000 - 0x1_0000
    else v
  }

  /** A word as a signed number. */
  function Signed(w: Word): int { if w < 0x8000_0000_0000_0000 then w else w - 0x1_0000_0000_0000_0000 }

  /** Signed loads keep the bits of what they read and extend its sign. */
  lemma SignedLoads(mem: Memory, addr: int)
    ensures var w := Signed(Load(mem, addr, S8)); -0x80 <= w < 0x80 && w % 0x100 == mem(addr)
    ensures var w := Signed(Load(mem, addr, S16));
            -0x8000 <= w < 0x8000 && w % 0x1_0000 == mem(addr) + 0x100 * mem(addr + 1)
  {
    ReadLEBound(mem, addr, addr + 1);
    ReadLEBound(mem, addr, addr + 2);
    Pow256Values();
    assert ReadLE(mem, addr + 1, addr + 2) == mem(addr + 1);
  }

  // ---- State ----

  /** `load` is the read-only memory seen through loads; `loaded` records every address a
      load has dereferenced so far. */
  datatype State = State(
    regs: seq<Word>, params: map<nat, Word>, slots: nat -> Word, load: (int, LoadKind) -> Word, loaded: set<int>
  ) {

    ghost predicate Valid() { |regs| == REG_COUNT }

    /** Sources are registers and untyped slots. */
    function Get(l: Location): Word {
      if 0 <= l < |regs| then regs[l] else if l >= REG_COUNT then slots(l - REG_COUNT) else 0
    }

    /** Destinations are registers and parameter slots. */
    function Put(l: Location, v: Word): State {
      if 0 <= l < |regs| then this.(regs := regs[l := v])
      else if l >= REG_COUNT then this.(params := params[l - REG_COUNT := v])
      else this
    }
  }

  // ---- Emitter operations (class MoveEmitter) ----

  datatype Op =
    | AssignIReg(iDst: nat, iSrc: nat)
    | AssignFReg(fDst: nat, fSrc: nat)
    | AssignParamSlot(param: nat, slot: nat)
    | AssignFRegFromSlot(fDst: nat, slot: nat)
    | AssignIRegFromSlot(iDst: nat, slot: nat)
    | AssignSlotFromIReg(param: nat, iSrc: nat)
    | AssignSlotFromFReg(param: nat, fSrc: nat)
    | AssignIRegFromAddr(iDst: nat, addr: Location, offset: int, ldk: LoadKind)
    | AssignFRegFromAddr(fDst: nat, addr: Location, offset: int, ldk: LoadKind)
    | AssignSlotFromAddr(param: nat, addr: Location, offset: int, ldk: LoadKind)
  {
    function Dst(): Location {
      match this
      case AssignIReg(d, _) => d
      case AssignFReg(d, _) => FRegLocation(d)
      case AssignParamSlot(p, _) => SlotLocation(p)
      case AssignFRegFromSlot(d, _) => FRegLocation(d)
      case AssignIRegFromSlot(d, _) => d
      case AssignSlotFromIReg(p, _) => SlotLocation(p)
      case AssignSlotFromFReg(p, _) => SlotLocation(p)
      case AssignIRegFromAddr(d, _, _, _) => d
      case AssignFRegFromAddr(d, _, _, _) => FRegLocation(d)
      case AssignSlotFromAddr(p, _, _, _) => SlotLocation(p)
    }

    /** The location the operation reads: the value itself or the address of a load. */
    function Src(): Location {
      match this
      case AssignIReg(_, s) => s
      case AssignFReg(_, s) => FRegLocation(s)
      case AssignParamSlot(_, s) => SlotLocation(s)
      case AssignFRegFromSlot(_, s) => SlotLocation(s)
      case AssignIRegFromSlot(_, s) => SlotLocation(s)
      case AssignSlotFromIReg(_, s) => s
      case AssignSlotFromFReg(_, s) => FRegLocation(s)
      case _ => addr
    }

    predicate IsLoad() {
      AssignIRegFromAddr? || AssignFRegFromAddr? || AssignSlotFromAddr?
    }

    /** Register and slot indices are in range for the machine. */
    predicate InRange() {
      match this
      case AssignIReg(d, s) => d < VIRT_IREGS && s < VIRT_IREGS
      case AssignFReg(d, s) => d < FREGS && s < FREGS
      case AssignFRegFromSlot(d, _) => d < FREGS
      case AssignIRegFromSlot(d, _) => d < VIRT_IREGS
      case AssignSlotFromIReg(_, s) => s < VIRT_IREGS
      case AssignSlotFromFReg(_, s) => s < FREGS
      case AssignIRegFromAddr(d, a, _, _) => d < VIRT_IREGS && KindOf(a) in {IReg, Slot}
      case AssignFRegFromAddr(d, a, _, _) => d < FREGS && KindOf(a) in {IReg, Slot}
      case AssignSlotFromAddr(_, a, _, _) => KindOf(a) in {IReg, Slot}
      case AssignParamSlot(_, _) => true
    }
  }

  function Step(op: Op, s: State): State {
    if op.IsLoad() then
      var addr := s.Get(op.Src()) + op.offset;
      s.Put(op.Dst(), s.load(addr, op.ldk)).(loaded := s.loaded + {addr})
    else
      s.Put(op.Dst(), s.Get(op.Src()))
  }

  /** Memory and untyped slots are never written, and the register file keeps its size. */
  function Exec(ops: seq<Op>, s: State): (t: State)
    ensures |t.regs| == |s.regs| && t.load == s.load && t.slots == s.slots
  {
    if ops == [] then s else Step(ops[|ops| - 1], Exec(ops[..|ops| - 1], s))
  }

  lemma ExecAppend(ops: seq<Op>, op: Op, s: State)
    ensures Exec(ops + [op], s) == Step(op, Exec(ops, s))
  {
    assert (ops + [op])[..|ops|] == ops;
  }

  lemma {:induction false} ExecConcat(a: seq<Op>, b: seq<Op>, s: State)
    ensures Exec(a + b, s) == Exec(b, Exec(a, s))
  {
    if b == [] {
      assert a + b == a;
    } else {
      var n := |b| - 1;
      assert a + b == (a + b[..n]) + [b[n]];
      ExecAppend(a + b[..n], b[n], s);
      ExecConcat(a, b[..n], s);
    }
  }

  // ---- Bytes of loaded words ----

  /** Every byte of a little-endian read is the byte of memory it came from. */
  lemma {:induction false} ReadLEByte(mem: Memory, lo: int, hi: int, i: nat)
    requires lo <= hi
    ensures ByteOf(ReadLE(mem, lo, hi), i) == if lo + i < hi then mem(lo + i) else 0
    decreases i
  {
    if lo == hi {
      ZeroBytes(i);
    } else if i > 0 {
      var rest := ReadLE(mem, lo + 1, hi);
      assert (mem(lo) + 256 * rest) / 256 == rest;
      ReadLEByte(mem, lo + 1, hi, i - 1);
    }
  }

  lemma {:induction false} ZeroBytes(i: nat)
    ensures ByteOf(0, i) == 0
  {
    if i > 0 { ZeroBytes(i - 1); }
  }
}
