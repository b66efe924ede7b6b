/** Placement of by-value structs in C calls: the classifiers of c_abi.cpp. */
module StructAbi {
  import opened Machine

  /** CbcTypeKind, as far as argument passing distinguishes it. */
  datatype TypeKind = Bool | I8 | U8 | I16 | U16 | I32 | U32 | I64 | U64 | Ref | Rec | F32 | F64

  predicate IsFloat(k: TypeKind) { k.F32? || k.F64? }

  /** A leaf field of a struct. */
  datatype Field = Field(offset: nat, size: nat, isFloat: bool)

  /** A register-resident chunk of a struct. */
  datatype Piece = Piece(offset: nat, kind: TypeKind)

  datatype PassBy = Empty | Regs | Stack | Ref

  datatype Plan = Plan(passBy: PassBy, pieces: seq<Piece>) {
    function PiecesNum(): nat { if passBy.Regs? then |pieces| else 0 }
  }

  datatype CAbi = SysV | AAPCS64

  function PieceKind(size: nat, isFloat: bool): TypeKind {
    if isFloat then if size == 8 then TypeKind.F64 else TypeKind.F32
    else match size
      case 8 => TypeKind.I64
      case 4 => TypeKind.I32
      case 2 => TypeKind.U16
      case _ => TypeKind.U8
  }

  /** The load instruction that fetches a piece. */
  function PieceLoad(k: TypeKind): LoadKind {
    match k
    case I64 | U64 => LoadKind.U64
    case I32 | U32 => LoadKind.U32
    case U16 => LoadKind.U16
    case I16 => LoadKind.S16
    case I8 => LoadKind.S8
    case F32 => LoadKind.F32
    case F64 => LoadKind.F64
    case _ => LoadKind.U8
  }

  // ---- Chunks of eight bytes ----

  function Min(a: nat, b: nat): nat { if a <= b then a else b }

  function Max(a: nat, b: nat): nat { if a <= b then b else a }

  /** The field has a byte in [lo, hi). */
  predicate Overlaps(f: Field, lo: nat, hi: nat) { f.offset + f.size > lo && f.offset < hi }

  ghost predicate AllFloat(fields: seq<Field>, lo: nat, hi: nat) {
    forall i :: 0 <= i < |fields| && Overlaps(fields[i], lo, hi) ==> fields[i].isFloat
  }

  method ChunkIsFloat(fields: seq<Field>, lo: nat, hi: nat) returns (allFloat: bool)
    ensures allFloat <==> AllFloat(fields, lo, hi)
  {
    allFloat := true;
    for i := 0 to |fields|
      invariant allFloat <==> forall k :: 0 <= k < i && Overlaps(fields[k], lo, hi) ==> fields[k].isFloat
    {
      var end := fields[i].offset + fields[i].size;
      if end <= lo || fields[i].offset >= hi { continue; }
      allFloat := allFloat && fields[i].isFloat;
    }
  }

  /** The pieces are the eight-byte chunks of [0, size), the last one possibly shorter. */
  ghost predicate Chunked(fields: seq<Field>, size: nat, pieces: seq<Piece>, floats: bool) {
    && |pieces| == (size + 7) / 8
    && forall k :: 0 <= k < |pieces| ==>
         var hi := Min(8 * k + 8, size);
         pieces[k] == Piece(8 * k, PieceKind(hi - 8 * k, floats && AllFloat(fields, 8 * k, hi)))
  }

  /** A field of at least one byte overlaps a range of bytes exactly when they share a byte. */
  lemma OverlapMeaning(f: Field, lo: nat, hi: nat)
    requires f.size > 0 && lo < hi
    ensures Overlaps(f, lo, hi) <==> exists b: nat :: InBytes(f, b) && lo <= b < hi
  {
    if Overlaps(f, lo, hi) {
      var b := if f.offset < lo then lo else f.offset;
      assert InBytes(f, b);
    }
  }

  predicate InBytes(f: Field, b: nat) { f.offset <= b < f.offset + f.size }

  /** A chunk of a struct goes in a float register exactly when every field with a byte in it is a float. */
  lemma ChunkIsFloatIff(fields: seq<Field>, size: nat, pieces: seq<Piece>, k: nat)
    requires Chunked(fields, size, pieces, true) && k < |pieces|
    requires forall i :: 0 <= i < |fields| ==> fields[i].size > 0
    ensures pieces[k].offset == 8 * k
    ensures pieces[k].kind in {TypeKind.F32, TypeKind.F64} <==>
              forall i, b: nat :: 0 <= i < |fields| && InBytes(fields[i], b) && 8 * k <= b < 8 * k + 8 && b < size ==>
                fields[i].isFloat
  {
    var hi := Min(8 * k + 8, size);
    forall i | 0 <= i < |fields|
      ensures Overlaps(fields[i], 8 * k, hi) <==> exists b: nat :: InBytes(fields[i], b) && 8 * k <= b < hi
    {
      OverlapMeaning(fields[i], 8 * k, hi);
    }
    hide Overlaps, InBytes;
  }

  method ClassifySysV(fields: seq<Field>, size: nat) returns (plan: Plan)
    ensures size == 0 ==> plan == Plan(Empty, [])
    ensures size > 16 ==> plan == Plan(Stack, [])
    ensures 0 < size <= 16 ==> plan.passBy == Regs && Chunked(fields, size, plan.pieces, true)
  {
    plan := Plan(Empty, []);
    if size == 0 { return; }
    if size > 16 { return Plan(Stack, []); }
    var pieces := [];
    var lo := 0;
    while lo < size
      invariant lo == 8 * |pieces| && lo < size + 8
      invariant forall k :: 0 <= k < |pieces| ==>
                  var hi := Min(8 * k + 8, size);
                  pieces[k] == Piece(8 * k, PieceKind(hi - 8 * k, AllFloat(fields, 8 * k, hi)))
    {
      var hi := Min(lo + 8, size);
      var allFloat := ChunkIsFloat(fields, lo, hi);
      pieces := pieces + [Piece(lo, PieceKind(hi - lo, allFloat))];
      lo := lo + 8;
    }
    plan := Plan(Regs, pieces);
  }

  /** One to four floating-point fields of one size: passed in one float register each. */
  ghost predicate IsHfa(fields: seq<Field>) {
    && 1 <= |fields| <= 4 && fields[0].size in {2, 4, 8}
    && forall i :: 0 <= i < |fields| ==> fields[i].isFloat && fields[i].size == fields[0].size
  }

  method CheckHfa(fields: seq<Field>) returns (hfa: bool)
    ensures hfa <==> IsHfa(fields)
  {
    hfa := 1 <= |fields| <= 4;
    if hfa {
      var elemSize := fields[0].size;
      hfa := elemSize == 2 || elemSize == 4 || elemSize == 8;
      for i := 0 to |fields|
        invariant hfa <==> elemSize in {2, 4, 8} && forall k :: 0 <= k < i ==>
                  fields[k].isFloat && fields[k].size == elemSize
      {
        hfa := hfa && fields[i].isFloat && fields[i].size == elemSize;
      }
    }
  }

  method ClassifyAAPCS64(fields: seq<Field>, size: nat) returns (plan: Plan)
    ensures size == 0 ==> plan == Plan(Empty, [])
    ensures size > 0 && IsHfa(fields) ==>
              && plan.passBy == Regs && |plan.pieces| == |fields|
              && forall k :: 0 <= k < |fields| ==>
                  plan.pieces[k] == Piece(fields[k].offset, PieceKind(fields[k].size, true))
    ensures size > 0 && !IsHfa(fields) && size > 16 ==> plan == Plan(PassBy.Ref, [])
    ensures 0 < size <= 16 && !IsHfa(fields) ==> plan.passBy == Regs && Chunked(fields, size, plan.pieces, false)
  {
    plan := Plan(Empty, []);
    if size == 0 { return; }
    var hfa := CheckHfa(fields);
    var pieces := [];
    if hfa {
      for i := 0 to |fields|
        invariant |pieces| == i
        invariant forall k :: 0 <= k < i ==> pieces[k] == Piece(fields[k].offset, PieceKind(fields[k].size, true))
      {
        pieces := pieces + [Piece(fields[i].offset, PieceKind(fields[i].size, true))];
      }
      return Plan(Regs, pieces);
    }
    if size > 16 { return Plan(PassBy.Ref, []); }
    var lo := 0;
    while lo < size
      invariant lo == 8 * |pieces| && lo < size + 8
      invariant forall k :: 0 <= k < |pieces| ==>
                pieces[k] == Piece(8 * k, PieceKind(Min(8 * k + 8, size) - 8 * k, false))
    {
      pieces := pieces + [Piece(lo, PieceKind(Min(8, size - lo), false))];
      lo := lo + 8;
    }
    plan := Plan(Regs, pieces);
  }

  // ---- The decision ----

  function CountFloats(pieces: seq<Piece>): nat {
    if pieces == [] then 0
    else CountFloats(pieces[..|pieces| - 1]) + if IsFloat(pieces[|pieces| - 1].kind) then 1 else 0
  }

  lemma {:induction false} CountFloatsBound(pieces: seq<Piece>)
    ensures CountFloats(pieces) <= |pieces|
  {
    if pieces != [] { CountFloatsBound(pieces[..|pieces| - 1]); }
  }

  /** What the C ABI alone says about the struct. */
  ghost predicate IsPlan(abi: CAbi, fields: seq<Field>, size: nat, plan: Plan) {
    if size == 0 then plan == Plan(Empty, [])
    else if abi.SysV? then
      if size > 16 then plan == Plan(Stack, [])
      else plan.passBy == Regs && Chunked(fields, size, plan.pieces, true)
    else if IsHfa(fields) then
      && plan.passBy == Regs && |plan.pieces| == |fields|
      && forall k :: 0 <= k < |fields| ==> plan.pieces[k] == Piece(fields[k].offset, PieceKind(fields[k].size, true))
    else if size > 16 then plan == Plan(PassBy.Ref, [])
    else plan.passBy == Regs && Chunked(fields, size, plan.pieces, false)
  }

  predicate FitsRegs(pieces: seq<Piece>, freeIRegs: int, freeFRegs: int) {
    CountFloats(pieces) <= freeFRegs && |pieces| - CountFloats(pieces) <= freeIRegs
  }

  /** The plan for an argument: the ABI's own, unless that asks for registers that are not free
      or not allowed at a variadic position, and then the stack. */
  ghost predicate IsChosen(
    abi: CAbi, fields: seq<Field>, size: nat, stackOnly: bool, freeIRegs: int, freeFRegs: int, plan: Plan)
  {
    exists full :: IsPlan(abi, fields, size, full) &&
      plan == if full.passBy == Regs && (stackOnly || !FitsRegs(full.pieces, freeIRegs, freeFRegs))
              then Plan(Stack, []) else full
  }

  /** The classification has one answer. */
  lemma ChosenUnique(
    abi: CAbi, fields: seq<Field>, size: nat, stackOnly: bool, freeIRegs: int, freeFRegs: int, p: Plan, q: Plan)
    requires IsChosen(abi, fields, size, stackOnly, freeIRegs, freeFRegs, p)
    requires IsChosen(abi, fields, size, stackOnly, freeIRegs, freeFRegs, q)
    ensures p == q
  {
    var f :| IsPlan(abi, fields, size, f) &&
      p == if f.passBy == Regs && (stackOnly || !FitsRegs(f.pieces, freeIRegs, freeFRegs)) then Plan(Stack, []) else f;
    var g :| IsPlan(abi, fields, size, g) &&
      q == if g.passBy == Regs && (stackOnly || !FitsRegs(g.pieces, freeIRegs, freeFRegs)) then Plan(Stack, []) else g;
    PlanUnique(abi, fields, size, f, g);
    hide IsPlan;
  }

  /** What the chosen plan means for the caller: pieces only in registers, which then suffice. */
  lemma ChosenMeaning(
    abi: CAbi, fields: seq<Field>, size: nat, stackOnly: bool, freeIRegs: int, freeFRegs: int, plan: Plan)
    requires IsChosen(abi, fields, size, stackOnly, freeIRegs, freeFRegs, plan)
    ensures plan.passBy == Regs ==> IsPlan(abi, fields, size, plan) && FitsRegs(plan.pieces, freeIRegs, freeFRegs)
    ensures plan.passBy != Regs ==> plan.pieces == []
    ensures plan.passBy == Empty <==> size == 0
    ensures plan.passBy == PassBy.Ref <==> abi.AAPCS64? && size > 16 && !IsHfa(fields)
  {
    var full :| IsPlan(abi, fields, size, full) &&
      plan == if full.passBy == Regs && (stackOnly || !FitsRegs(full.pieces, freeIRegs, freeFRegs))
              then Plan(Stack, []) else full;
  }

  lemma PlanUnique(abi: CAbi, fields: seq<Field>, size: nat, p: Plan, q: Plan)
    requires IsPlan(abi, fields, size, p) && IsPlan(abi, fields, size, q)
    ensures p == q
  {
    assert p.passBy == Regs ==> p.pieces == q.pieces;
  }

  /** A struct that the C ABI passes in registers is passed in them exactly when they suffice and are allowed. */
  lemma RegistersUsed(
    abi: CAbi, fields: seq<Field>, size: nat, stackOnly: bool, freeIRegs: int, freeFRegs: int, plan: Plan, whole: Plan)
    requires IsChosen(abi, fields, size, stackOnly, freeIRegs, freeFRegs, plan)
    requires IsPlan(abi, fields, size, whole) && whole.passBy == Regs
    ensures plan.passBy == Regs <==>
              && !stackOnly && CountFloats(whole.pieces) <= freeFRegs
              && |whole.pieces| - CountFloats(whole.pieces) <= freeIRegs
    ensures plan.passBy == Regs ==> plan == whole
    ensures plan.passBy != Regs ==> plan == Plan(Stack, [])
  {
    hide IsPlan;
    var full :| IsPlan(abi, fields, size, full) &&
      plan == if full.passBy == Regs && (stackOnly || !FitsRegs(full.pieces, freeIRegs, freeFRegs))
              then Plan(Stack, []) else full;
    PlanUnique(abi, fields, size, full, whole);
  }

  /** Pieces lie inside the struct and are of the six kinds PieceKind answers. */
  lemma PlanPieces(abi: CAbi, fields: seq<Field>, size: nat, plan: Plan, k: nat)
    requires IsPlan(abi, fields, size, plan) && plan.passBy == Regs && k < |plan.pieces|
    requires forall i :: 0 <= i < |fields| ==> fields[i].offset + fields[i].size <= size
    ensures plan.pieces[k].offset < size
    ensures plan.pieces[k].kind in {TypeKind.I64, TypeKind.I32, TypeKind.U16, TypeKind.U8, TypeKind.F32, TypeKind.F64}
  {
  }

  /** The classifier of arguments and, with `ret`, of results: for those it asserts that the registers suffice. */
  method ClassifyCAbiStruct(
    abi: CAbi, onlyOnStackVarargs: bool, fields: seq<Field>, size: nat, isVarArg: bool, freeIRegs: int, freeFRegs: int,
    ret: bool)
    returns (plan: Plan)
    requires ret ==> AlwaysFits(abi, fields, size, freeIRegs, freeFRegs)
    ensures !ret ==> IsChosen(abi, fields, size, isVarArg && onlyOnStackVarargs, freeIRegs, freeFRegs, plan)
    ensures ret ==> IsPlan(abi, fields, size, plan)
  {
    match abi {
      case SysV => plan := ClassifySysV(fields, size);
      case AAPCS64 => plan := ClassifyAAPCS64(fields, size);
    }
    ghost var full := plan;
    assert IsPlan(abi, fields, size, full);
    if plan.passBy == Regs {
      var needIRegs, needFRegs := 0, 0;
      for i := 0 to |plan.pieces|
        invariant needFRegs == CountFloats(plan.pieces[..i]) && needIRegs == i - needFRegs
      {
        assert plan.pieces[..i + 1][..i] == plan.pieces[..i];
        if IsFloat(plan.pieces[i].kind) { needFRegs := needFRegs + 1; } else { needIRegs := needIRegs + 1; }
      }
      assert plan.pieces[..|plan.pieces|] == plan.pieces;
      if ret {
        assert needIRegs <= freeIRegs && needFRegs <= freeFRegs;
        return;
      }
      if (isVarArg && onlyOnStackVarargs) || needIRegs > freeIRegs || needFRegs > freeFRegs {
        plan := Plan(Stack, []);
      }
    }
  }

  // ---- Results ----

  function RetIRegs(abi: CAbi): nat { 2 }

  function RetFRegs(abi: CAbi): nat { if abi.SysV? then 2 else 4 }

  /** What the classifier asserts of the registers of a result. */
  ghost predicate AlwaysFits(abi: CAbi, fields: seq<Field>, size: nat, freeIRegs: int, freeFRegs: int) {
    forall full :: IsPlan(abi, fields, size, full) && full.passBy == Regs ==>
        FitsRegs(full.pieces, freeIRegs, freeFRegs)
  }

  lemma {:induction false} CountAllFloats(pieces: seq<Piece>, float: bool)
    requires forall k :: 0 <= k < |pieces| ==> (IsFloat(pieces[k].kind) <==> float)
    ensures CountFloats(pieces) == if float then |pieces| else 0
  {
    if pieces != [] { CountAllFloats(pieces[..|pieces| - 1], float); }
  }

  /** The result registers of both C ABIs suffice for every struct that comes back in registers. */
  lemma ResultsFit(abi: CAbi, fields: seq<Field>, size: nat)
    ensures AlwaysFits(abi, fields, size, RetIRegs(abi), RetFRegs(abi))
  {
    hide CountFloats;
    forall full | IsPlan(abi, fields, size, full) && full.passBy == Regs
      ensures FitsRegs(full.pieces, RetIRegs(abi), RetFRegs(abi)) {
      CountFloatsBound(full.pieces);
      if abi.AAPCS64? { CountAllFloats(full.pieces, IsHfa(fields)); }
    }
  }

  method ClassifyCAbiStructRet(abi: CAbi, fields: seq<Field>, size: nat) returns (plan: Plan)
    ensures IsPlan(abi, fields, size, plan)
    ensures plan.passBy == Regs ==> FitsRegs(plan.pieces, 2, if abi.SysV? then 2 else 4)
  {
    ResultsFit(abi, fields, size);
    plan := ClassifyCAbiStruct(abi, false, fields, size, false, RetIRegs(abi), RetFRegs(abi), true);
  }

  // ---- Which bytes a plan in registers carries ----

  /** Byte `b` of the struct arrives in the register of piece `p`. */
  predicate Carries(p: Piece, b: nat) { p.offset <= b < p.offset + Width(PieceLoad(p.kind)) }

  /** The register loaded for piece `p` holds exactly the bytes the piece carries. */
  lemma PieceBytes(mem: Memory, addr: int, p: Piece, b: nat)
    requires p.offset <= b < p.offset + 8
    requires p.kind in {TypeKind.I64, TypeKind.I32, TypeKind.U16, TypeKind.U8, TypeKind.F32, TypeKind.F64}
    ensures ByteOf(Load(mem, addr + p.offset, PieceLoad(p.kind)), b - p.offset)
         == if Carries(p, b) then mem(addr + b) else 0
  {
    var lo := addr + p.offset;
    ReadLEByte(mem, lo, lo + Width(PieceLoad(p.kind)), b - p.offset);
  }

  ghost predicate Carried(pieces: seq<Piece>, b: nat) { exists k :: 0 <= k < |pieces| && Carries(pieces[k], b) }

  ghost predicate CarriesAll(pieces: seq<Piece>, size: nat) { forall b: nat :: b < size ==> Carried(pieces, b) }

  /** The last chunk is loaded whole. */
  ghost predicate LastChunkWhole(fields: seq<Field>, size: nat, floats: bool) {
    size % 8 in {0, 1, 2, 4} || (size % 8 == 3 && floats && AllFloat(fields, size - 3, size))
  }

  /** A chunked struct travels whole in registers exactly when its last chunk is of 1, 2, 4 or 8
      bytes, or is a float chunk of three: a shorter integer chunk is loaded as one byte. */
  lemma ChunksCarryAll(fields: seq<Field>, size: nat, pieces: seq<Piece>, floats: bool)
    requires 0 < size && Chunked(fields, size, pieces, floats)
    ensures CarriesAll(pieces, size) <==> LastChunkWhole(fields, size, floats)
  {
    hide Chunked, LastChunkWhole;
    if CarriesAll(pieces, size) {
      assert Carried(pieces, size - 1);
      LastByte(fields, size, pieces, floats);
    }
    if LastChunkWhole(fields, size, floats) {
      forall b: nat | b < size ensures Carried(pieces, b) { WholeByte(fields, size, pieces, floats, b); }
    }
  }

  lemma LastByte(fields: seq<Field>, size: nat, pieces: seq<Piece>, floats: bool)
    requires 0 < size && Chunked(fields, size, pieces, floats) && Carried(pieces, size - 1)
    ensures LastChunkWhole(fields, size, floats)
  {
    hide PieceLoad, Width, AllFloat;
    var k :| 0 <= k < |pieces| && Carries(pieces[k], size - 1);
    ChunkWidth(fields, size, pieces, floats, k);
    assert 8 * k < size <= 8 * k + 8;
    hide Chunked;
    LastChunk(size, k);
  }

  lemma LastChunk(size: nat, k: nat)
    requires 8 * k < size <= 8 * k + 8
    ensures size % 8 == (size - 8 * k) % 8
  {
  }

  lemma WholeByte(fields: seq<Field>, size: nat, pieces: seq<Piece>, floats: bool, b: nat)
    requires b < size && Chunked(fields, size, pieces, floats) && LastChunkWhole(fields, size, floats)
    ensures Carried(pieces, b)
  {
    ChunkWidth(fields, size, pieces, floats, b / 8);
    assert Carries(pieces[b / 8], b);
  }

  lemma ChunkWidth(fields: seq<Field>, size: nat, pieces: seq<Piece>, floats: bool, k: nat)
    requires 0 < size && Chunked(fields, size, pieces, floats) && k < |pieces|
    ensures pieces[k].offset == 8 * k
    ensures var n := Min(8 * k + 8, size) - 8 * k;
            var float := floats && AllFloat(fields, 8 * k, Min(8 * k + 8, size));
            Width(PieceLoad(pieces[k].kind))
              == if n == 8 then 8 else if float || n == 4 then 4 else if n == 2 then 2 else 1
  {
  }

  /** A struct of three bytes is planned for one register, and only its first byte gets there. */
  lemma LostBytes()
    ensures var fields := [Field(0, 1, false), Field(1, 1, false), Field(2, 1, false)];
            var pieces := [Piece(0, TypeKind.U8)];
            IsPlan(CAbi.SysV, fields, 3, Plan(Regs, pieces)) && !CarriesAll(pieces, 3)
  {
    var fields := [Field(0, 1, false), Field(1, 1, false), Field(2, 1, false)];
    assert Overlaps(fields[0], 0, 3);
    ChunksCarryAll(fields, 3, [Piece(0, TypeKind.U8)], true);
  }
}
