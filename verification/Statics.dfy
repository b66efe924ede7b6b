/** Static fields of a type: one block with a region of primitives, one of references and one of records. */
module Statics {
  import opened Alignment
  import opened Layouts
  import opened LayoutRefs

  const SLOT := 8

  type FieldIdent = nat
  type TypeIdent = nat

  datatype Field = Field(ident: FieldIdent, isStatic: bool, ty: Ty)

  datatype SlotKind = Primitive | Reference | RecordSlot

  /** ComputeSlotKind; UNIT counts as a record. */
  function KindOf(t: Ty): SlotKind {
    if t.Ref? then Reference
    else if HasFields(t) || t.Union? || t.VArray? || t == Prim(0) then RecordSlot
    else Primitive
  }

  predicate IsSlot(fields: seq<Field>, k: nat, kind: SlotKind) {
    k < |fields| && fields[k].isStatic && KindOf(fields[k].ty) == kind
  }

  /** The number of static fields of a kind among the first `n`. */
  function Rank(fields: seq<Field>, n: nat, kind: SlotKind): nat
    requires n <= |fields|
  {
    if n == 0 then 0 else Rank(fields, n - 1, kind) + if IsSlot(fields, n - 1, kind) then 1 else 0
  }

  function SizeOf(t: Ty): nat { if ShapeOf(t).size.Some? then ShapeOf(t).size.value else 0 }

  /** The bytes of the static records among the first `n` fields. */
  function RecordsSize(fields: seq<Field>, n: nat): nat
    requires n <= |fields|
  {
    if n == 0 then 0 else
      RecordsSize(fields, n - 1) + if IsSlot(fields, n - 1, RecordSlot) then AlignUp(SizeOf(fields[n - 1].ty), SLOT)
          else 0
  }

  function RecordOffsets(fields: seq<Field>, n: nat): seq<nat>
    requires n <= |fields|
  {
    if n == 0 then [] else
      RecordOffsets(fields, n - 1) + if IsSlot(fields, n - 1, RecordSlot) then [RecordsSize(fields, n - 1)] else []
  }

  function RecordRefs(fields: seq<Field>, n: nat): seq<nat>
    requires n <= |fields|
  {
    if n == 0 then [] else
      RecordRefs(fields, n - 1) +
      if IsSlot(fields, n - 1, RecordSlot) then Refs(fields[n - 1].ty, RecordsSize(fields, n - 1)) else []
  }

  /** Static records have a known size. */
  ghost predicate FieldsOk(fields: seq<Field>) {
    && (forall k: nat :: IsSlot(fields, k, RecordSlot) ==> Known(fields[k].ty))
    && (forall j, k :: 0 <= j < k < |fields| ==> fields[j].ident != fields[k].ident)
  }

  // ---- The bundle ----

  datatype StaticFieldsBundle = StaticFieldsBundle(
    refs: nat, primitives: nat, records: nat, size: nat,
    recordOffsets: seq<nat>, referenceOffsets: seq<nat>, refCount: nat)

  /** The bundle of a type whose block was allocated at `mem`. */
  ghost predicate IsBundle(fields: seq<Field>, b: StaticFieldsBundle) {
    var n := |fields|;
    && b.refs == b.primitives + SLOT * Rank(fields, n, Primitive)
    && b.records == b.refs + SLOT * Rank(fields, n, Reference)
    && b.primitives + b.size == b.records + RecordsSize(fields, n)
    && b.recordOffsets == RecordOffsets(fields, n) && b.referenceOffsets == RecordRefs(fields, n)
    && b.refCount == Rank(fields, n, Reference)
  }

  method CreateBundle(fields: seq<Field>, mem: nat) returns (b: StaticFieldsBundle)
    requires FieldsOk(fields)
    ensures IsBundle(fields, b) && b.primitives == mem
  {
    hide ShapeOf, AlignUp, Refs;
    var refFieldsNum, primFieldsNum, recordsSize := 0, 0, 0;
    var recordOffsets: seq<nat>, refOffsetInRecords: seq<nat> := [], [];
    for i := 0 to |fields|
      invariant refFieldsNum == Rank(fields, i, Reference) && primFieldsNum == Rank(fields, i, Primitive)
      invariant recordsSize == RecordsSize(fields, i) && recordOffsets == RecordOffsets(fields, i)
      invariant refOffsetInRecords == RecordRefs(fields, i)
    {
      var field := fields[i];
      if !field.isStatic { continue; }
      match KindOf(field.ty) {
        case Reference => refFieldsNum := refFieldsNum + 1;
        case Primitive => primFieldsNum := primFieldsNum + 1;
        case RecordSlot =>
          assert IsSlot(fields, i, RecordSlot);
          var alignedSize := AlignUp(ShapeOf(field.ty).size.value, SLOT);
          var offset := recordsSize;
          recordOffsets := recordOffsets + [offset];
          refOffsetInRecords := FillRefOffsets(field.ty, refOffsetInRecords, offset);
          recordsSize := recordsSize + alignedSize;
      }
    }
    var refs := mem + primFieldsNum * SLOT;
    var records := refs + refFieldsNum * SLOT;
    b := StaticFieldsBundle(refs, mem, records, primFieldsNum * SLOT + refFieldsNum * SLOT + recordsSize,
                            recordOffsets, refOffsetInRecords, refFieldsNum);
  }

  // ---- Locations ----

  /** Where the static field `k` lives. */
  function LocationOf(fields: seq<Field>, b: StaticFieldsBundle, k: nat): nat
    requires k < |fields|
  {
    match KindOf(fields[k].ty)
    case Reference => b.refs + SLOT * Rank(fields, k, Reference)
    case Primitive => b.primitives + SLOT * Rank(fields, k, Primitive)
    case RecordSlot => b.records + RecordsSize(fields, k)
  }

  lemma {:induction false} RankGrows(fields: seq<Field>, j: nat, k: nat, kind: SlotKind)
    requires j <= k <= |fields|
    ensures Rank(fields, j, kind) <= Rank(fields, k, kind)
    ensures j < k && IsSlot(fields, j, kind) ==> Rank(fields, j, kind) < Rank(fields, k, kind)
    decreases k
  {
    if j < k { RankGrows(fields, j, k - 1, kind); }
  }

  lemma RoundedUp(size: nat)
    ensures size <= AlignUp(size, SLOT)
  {
  }

  lemma {:induction false} RecordsGrow(fields: seq<Field>, j: nat, k: nat)
    requires j <= k <= |fields|
    ensures RecordsSize(fields, j) <= RecordsSize(fields, k)
    ensures j < k && IsSlot(fields, j, RecordSlot) ==>
              RecordsSize(fields, j) + SizeOf(fields[j].ty) <= RecordsSize(fields, k)
    decreases k
  {
    hide AlignUp, SizeOf;
    if j < k {
      RoundedUp(SizeOf(fields[k - 1].ty));
      RecordsGrow(fields, j, k - 1);
    }
  }

  /** The record offsets are indexed by rank. */
  lemma {:induction false} RecordOffsetAt(fields: seq<Field>, k: nat, n: nat)
    requires k < n <= |fields| && IsSlot(fields, k, RecordSlot)
    ensures |RecordOffsets(fields, n)| == Rank(fields, n, RecordSlot)
    ensures Rank(fields, k, RecordSlot) < |RecordOffsets(fields, n)|
    ensures RecordOffsets(fields, n)[Rank(fields, k, RecordSlot)] == RecordsSize(fields, k)
    decreases n
  {
    hide RecordsSize;
    if k < n - 1 {
      RecordOffsetAt(fields, k, n - 1);
    } else {
      OffsetsCount(fields, k);
    }
  }

  lemma {:induction false} OffsetsCount(fields: seq<Field>, n: nat)
    requires n <= |fields|
    ensures |RecordOffsets(fields, n)| == Rank(fields, n, RecordSlot)
  {
    hide RecordsSize;
    if n > 0 { OffsetsCount(fields, n - 1); }
  }

  /** The rank computed by the scan agrees with the regions laid out at creation. */
  method LocateField(
    fields: seq<Field>, b: StaticFieldsBundle, fieldIdent: FieldIdent, ghost k: nat) returns (location: nat)
    requires FieldsOk(fields) && IsBundle(fields, b)
    requires k < |fields| && fields[k].ident == fieldIdent && fields[k].isStatic
    ensures location == LocationOf(fields, b, k)
  {
    hide ShapeOf, RecordsSize, RecordRefs;
    var target := Find(fields, fieldIdent, k);
    var targetKind := KindOf(target.ty);
    var fieldIdx := 0;
    var i := 0;
    while i < |fields|
      invariant i <= k && fieldIdx == Rank(fields, i, targetKind)
      decreases |fields| - i
    {
      var field := fields[i];
      if field.isStatic && KindOf(field.ty) == targetKind {
        if field.ident == fieldIdent { break; }
        fieldIdx := fieldIdx + 1;
      }
      i := i + 1;
    }
    match targetKind {
      case Reference => location := b.refs + SLOT * fieldIdx;
      case Primitive => location := b.primitives + SLOT * fieldIdx;
      case RecordSlot =>
        RecordOffsetAt(fields, k, |fields|);
        location := b.records + b.recordOffsets[fieldIdx];
    }
  }

  /** The definition of a field. */
  method Find(fields: seq<Field>, fieldIdent: FieldIdent, ghost k: nat) returns (f: Field)
    requires FieldsOk(fields) && k < |fields| && fields[k].ident == fieldIdent
    ensures f == fields[k]
  {
    var i := 0;
    while fields[i].ident != fieldIdent
      invariant i <= k
      decreases k - i
    {
      i := i + 1;
    }
    f := fields[i];
  }

  /** The bytes set aside for a static field: eight for a scalar, else the size of its type. */
  function Room(t: Ty): (r: nat)
    ensures SizeOf(t) <= r
  {
    match t
    case Ref => 8
    case Unknown => 8
    case Prim(bytes) => if bytes == 0 then 0 else 8
    case _ => SizeOf(t)
  }

  /** What is no record fits a slot, and a record is given its size. */
  lemma RoomOfKind(t: Ty)
    ensures KindOf(t) != RecordSlot ==> Room(t) <= SLOT
    ensures KindOf(t) == RecordSlot ==> Room(t) == SizeOf(t)
  {
  }

  /** Static fields lie inside the block and do not overlap, each with at least as many bytes as its type has. */
  lemma StaticsDisjoint(fields: seq<Field>, b: StaticFieldsBundle, j: nat, k: nat)
    requires IsBundle(fields, b) && j < |fields| && k < |fields| && fields[j].isStatic && fields[k].isStatic && j != k
    ensures b.primitives <= LocationOf(fields, b, j)
    ensures LocationOf(fields, b, j) + Room(fields[j].ty) <= b.primitives + b.size
    ensures LocationOf(fields, b, j) + Room(fields[j].ty) <= LocationOf(fields, b, k)
         || LocationOf(fields, b, k) + Room(fields[k].ty) <= LocationOf(fields, b, j)
  {
    hide Rank, RecordsSize, SizeOf, RecordRefs, RecordOffsets, KindOf, Room;
    RoomOfKind(fields[j].ty);
    RoomOfKind(fields[k].ty);
    InRegion(fields, b, j);
    InRegion(fields, b, k);
    var lo, hi := if j < k then j else k, if j < k then k else j;
    assert IsSlot(fields, lo, KindOf(fields[lo].ty));
    RankGrows(fields, lo, hi, KindOf(fields[lo].ty));
    RecordsGrow(fields, lo, hi);
  }

  /** Every static field of an aligned block is at a multiple of eight. */
  lemma {:induction false} RecordsAligned(fields: seq<Field>, n: nat)
    requires n <= |fields|
    ensures RecordsSize(fields, n) % 8 == 0
  {
    hide SizeOf, AlignUp;
    if n > 0 {
      RecordsAligned(fields, n - 1);
      AlignUpMeaning(SizeOf(fields[n - 1].ty), SLOT);
    }
  }

  lemma StaticsAligned(fields: seq<Field>, b: StaticFieldsBundle, k: nat)
    requires IsBundle(fields, b) && k < |fields| && fields[k].isStatic && b.primitives % 8 == 0
    ensures LocationOf(fields, b, k) % 8 == 0
  {
    hide Rank, RecordsSize, SizeOf, RecordRefs, RecordOffsets, KindOf;
    RecordsAligned(fields, k);
  }

  /** Each kind has its region: primitives, then references, then records. */
  lemma InRegion(fields: seq<Field>, b: StaticFieldsBundle, k: nat)
    requires IsBundle(fields, b) && k < |fields| && fields[k].isStatic
    ensures var l := LocationOf(fields, b, k);
            match KindOf(fields[k].ty)
            case Primitive => b.primitives <= l && l + SLOT <= b.refs
            case Reference => b.refs <= l && l + SLOT <= b.records
            case RecordSlot => b.records <= l && l + SizeOf(fields[k].ty) <= b.primitives + b.size
    ensures b.primitives <= b.refs <= b.records <= b.primitives + b.size
  {
    hide Rank, RecordsSize, SizeOf, RecordRefs, RecordOffsets;
    assert IsSlot(fields, k, KindOf(fields[k].ty));
    RankGrows(fields, k, |fields|, KindOf(fields[k].ty));
    RecordsGrow(fields, k, |fields|);
  }

  /** The bytes of the static fields, each rounded up to a slot. */
  function RoomsOf(fields: seq<Field>, n: nat): nat
    requires n <= |fields|
  {
    if n == 0 then 0
    else RoomsOf(fields, n - 1) + if fields[n - 1].isStatic then AlignUp(Room(fields[n - 1].ty), 8) else 0
  }

  lemma {:induction false} RoomsByRegion(fields: seq<Field>, n: nat)
    requires n <= |fields|
    ensures RoomsOf(fields, n)
         == SLOT * Rank(fields, n, Primitive) + SLOT * Rank(fields, n, Reference) + RecordsSize(fields, n)
  {
    hide Room, KindOf, AlignUp, SizeOf;
    if n > 0 {
      RoomsByRegion(fields, n - 1);
      RoomOfKind(fields[n - 1].ty);
      ScalarRoom(fields[n - 1].ty);
    }
  }

  lemma ScalarRoom(t: Ty)
    ensures KindOf(t) != RecordSlot ==> AlignUp(Room(t), 8) == 8
  {
    AlignUpMeaning(8, 8);
    hide AlignUp;
  }

  /** The block has no byte more than its fields need, each rounded up to a slot. */
  lemma BlockTight(fields: seq<Field>, b: StaticFieldsBundle)
    requires IsBundle(fields, b)
    ensures b.size == RoomsOf(fields, |fields|)
  {
    hide Rank, RecordsSize, RoomsOf;
    RoomsByRegion(fields, |fields|);
  }

  // ---- References ----

  /** The references of the block, in the order of the visits. */
  function RefLocations(b: StaticFieldsBundle): seq<nat> {
    seq(b.refCount, i requires 0 <= i => b.refs + SLOT * i) + Shifted(b.referenceOffsets, b.records)
  }

  method VisitBundle(b: StaticFieldsBundle) returns (visited: seq<nat>)
    ensures visited == RefLocations(b)
  {
    visited := [];
    for i := 0 to b.refCount
      invariant visited == seq(i, k requires 0 <= k => b.refs + SLOT * k)
    {
      visited := visited + [b.refs + SLOT * i];
    }
    ghost var direct := visited;
    for i := 0 to |b.referenceOffsets|
      invariant visited == direct + Shifted(b.referenceOffsets, b.records)[..i]
    {
      visited := visited + [b.records + b.referenceOffsets[i]];
    }
  }

  lemma {:induction false} RecordRefsSpaced(fields: seq<Field>, n: nat)
    requires n <= |fields| && FieldsOk(fields)
    ensures Spaced(RecordRefs(fields, n), 0, RecordsSize(fields, n))
  {
    hide Spaced, AlignUp, SizeOf, ShapeOf, Refs;
    if n == 0 {
      NoneSpaced(0, 0);
    } else {
      RecordRefsSpaced(fields, n - 1);
      RecordsGrow(fields, n - 1, n);
      var lo, hi := RecordsSize(fields, n - 1), RecordsSize(fields, n);
      if IsSlot(fields, n - 1, RecordSlot) {
        KnownSize(fields[n - 1].ty);
        RefsSpaced(fields[n - 1].ty, lo);
        SpacedWiden(Refs(fields[n - 1].ty, lo), lo, lo + SizeOf(fields[n - 1].ty), lo, hi);
        SpacedConcat(RecordRefs(fields, n - 1), Refs(fields[n - 1].ty, lo), 0, lo, hi);
      } else {
        assert RecordRefs(fields, n) == RecordRefs(fields, n - 1) && lo == hi;
      }
    }
  }

  lemma KnownSize(t: Ty)
    ensures Known(t) ==> SizeOf(t) == ShapeOf(t).size.value
  {
  }

  /** Visited locations are strictly increasing, hence pairwise distinct, and inside the block. */
  lemma VisitedOnce(fields: seq<Field>, b: StaticFieldsBundle)
    requires FieldsOk(fields) && IsBundle(fields, b)
    ensures Spaced(RefLocations(b), b.refs, b.primitives + b.size)
  {
    hide Rank, RecordsSize, RecordRefs, RecordOffsets;
    RecordRefsSpaced(fields, |fields|);
    SpacedShift(b.referenceOffsets, 0, RecordsSize(fields, |fields|), b.records);
    var direct := seq(b.refCount, i requires 0 <= i => b.refs + SLOT * i);
    assert Spaced(direct, b.refs, b.records);
    hide Spaced;
    SpacedConcat(direct, Shifted(b.referenceOffsets, b.records), b.refs, b.records, b.primitives + b.size);
  }

  /** Location `x` holds a reference of static field `k`. */
  ghost predicate IsRefOf(fields: seq<Field>, b: StaticFieldsBundle, k: nat, x: nat)
    requires k < |fields|
  {
    fields[k].isStatic && HasRefAt(fields[k].ty, x - LocationOf(fields, b, k))
  }

  /** A field that is a reference has one at its start, and a primitive has none. */
  lemma RefKinds(t: Ty, o: int)
    ensures KindOf(t) == Reference ==> (HasRefAt(t, o) <==> o == 0)
    ensures KindOf(t) == Primitive ==> !HasRefAt(t, o)
  {
  }

  lemma {:induction false} RecordRefsMembers(fields: seq<Field>, b: StaticFieldsBundle, n: nat, x: nat)
    requires n <= |fields|
    ensures x >= b.records && (x - b.records) as nat in RecordRefs(fields, n) <==>
              exists k: nat :: k < n && KindOf(fields[k].ty) == RecordSlot && IsRefOf(fields, b, k, x)
  {
    hide HasRefAt, Refs, RecordsSize, ShapeOf;
    if n > 0 {
      RecordRefsMembers(fields, b, n - 1, x);
      RecordMember(fields, b, n - 1, x);
    }
  }

  lemma RecordMember(fields: seq<Field>, b: StaticFieldsBundle, k: nat, x: nat)
    requires k < |fields|
    ensures IsSlot(fields, k, RecordSlot) ==>
              (x >= b.records && (x - b.records) as nat in Refs(fields[k].ty, RecordsSize(fields, k)) <==>
                  IsRefOf(fields, b, k, x))
  {
    hide HasRefAt, Refs, RecordsSize, ShapeOf;
    if IsSlot(fields, k, RecordSlot) {
      if x >= b.records {
        RefsExact(fields[k].ty, RecordsSize(fields, k), x - b.records);
        assert x - b.records - RecordsSize(fields, k) == x - LocationOf(fields, b, k);
      } else {
        NoRefBefore(fields[k].ty, x - LocationOf(fields, b, k));
      }
    }
  }

  lemma {:induction false} RankMember(fields: seq<Field>, n: nat, i: nat) returns (k: nat)
    requires n <= |fields| && i < Rank(fields, n, Reference)
    ensures k < n && IsSlot(fields, k, Reference) && Rank(fields, k, Reference) == i
  {
    if i < Rank(fields, n - 1, Reference) { k := RankMember(fields, n - 1, i); } else { k := n - 1; }
  }

  /** The visited locations are exactly the references among the static fields. */
  lemma VisitsAllReferences(fields: seq<Field>, b: StaticFieldsBundle, x: nat)
    requires FieldsOk(fields) && IsBundle(fields, b)
    ensures x in RefLocations(b) <==> exists k: nat :: k < |fields| && IsRefOf(fields, b, k, x)
  {
    hide HasRefAt, Refs, RecordsSize, ShapeOf, RecordRefs, RecordOffsets, Rank, FieldsOk;
    var direct := seq(b.refCount, i requires 0 <= i => b.refs + SLOT * i);
    ShiftedMembers(b.referenceOffsets, b.records, x);
    RecordRefsMembers(fields, b, |fields|, x);
    if x in direct {
      var i :| 0 <= i < |direct| && direct[i] == x;
      var k := RankMember(fields, |fields|, i);
      RefKinds(fields[k].ty, x - LocationOf(fields, b, k));
      assert IsRefOf(fields, b, k, x);
    }
    forall k | 0 <= k < |fields| && IsRefOf(fields, b, k, x) ensures KindOf(fields[k].ty) != Primitive {
      RefKinds(fields[k].ty, x - LocationOf(fields, b, k));
    }
    if k: nat :| k < |fields| && IsRefOf(fields, b, k, x) && KindOf(fields[k].ty) == Reference {
      RefKinds(fields[k].ty, x - LocationOf(fields, b, k));
      RankGrows(fields, k, |fields|, Reference);
      assert direct[Rank(fields, k, Reference)] == x;
    }
  }

  // ---- All types ----

  function BlockSize(fields: seq<Field>): nat {
    SLOT * Rank(fields, |fields|, Primitive) + SLOT * Rank(fields, |fields|, Reference) + RecordsSize(fields, |fields|)
  }

  predicate BlocksApart(a: StaticFieldsBundle, b: StaticFieldsBundle) {
    a.primitives + a.size <= b.primitives || b.primitives + b.size <= a.primitives
  }

  /** Every known type has its bundle, in a block of its own. */
  ghost predicate BundlesOk(fieldsOf: TypeIdent -> seq<Field>, bundles: map<TypeIdent, StaticFieldsBundle>) {
    && (forall t :: t in bundles ==> FieldsOk(fieldsOf(t)) && IsBundle(fieldsOf(t), bundles[t]))
    && (forall t, u :: t in bundles && u in bundles && t != u ==> BlocksApart(bundles[t], bundles[u]))
  }

  /** What the allocator promises: no existing block overlaps the new one. */
  ghost predicate FreshBlock(bundles: map<TypeIdent, StaticFieldsBundle>, mem: nat, size: nat) {
    forall t :: t in bundles ==> bundles[t].primitives + bundles[t].size <= mem || mem + size <= bundles[t].primitives
  }

  lemma BundleSize(fields: seq<Field>, b: StaticFieldsBundle)
    requires IsBundle(fields, b)
    ensures b.size == BlockSize(fields)
  {
  }

  class StaticsManager {
    const fieldsOf: TypeIdent -> seq<Field>
    var bundles: map<TypeIdent, StaticFieldsBundle>

    ghost predicate Valid()
      reads this
    {
      BundlesOk(fieldsOf, bundles)
    }

    constructor (fieldsOf: TypeIdent -> seq<Field>)
      ensures Valid() && bundles == map[] && this.fieldsOf == fieldsOf
    {
      this.fieldsOf, bundles := fieldsOf, map[];
    }

    /** The location of a static field; `mem` is the block for a type that has none yet. A type keeps its
        bundle for good, so a location never changes. */
    method GetLocation(type': TypeIdent, fieldIdent: FieldIdent, mem: nat, ghost k: nat) returns (location: nat)
      requires Valid() && FieldsOk(fieldsOf(type')) && FreshBlock(bundles, mem, BlockSize(fieldsOf(type')))
      requires k < |fieldsOf(type')| && fieldsOf(type')[k].ident == fieldIdent && fieldsOf(type')[k].isStatic
      modifies this
      ensures Valid() && type' in bundles && location == LocationOf(fieldsOf(type'), bundles[type'], k)
      ensures forall t :: t in old(bundles) ==> t in bundles && bundles[t] == old(bundles)[t]
      ensures forall t :: t in bundles ==> t in old(bundles) || t == type'
      ensures type' !in old(bundles) ==> bundles[type'].primitives == mem
    {
      hide IsBundle, FieldsOk, LocationOf, BlockSize;
      if type' !in bundles {
        var bundle := CreateBundle(fieldsOf(type'), mem);
        BundleSize(fieldsOf(type'), bundle);
        bundles := bundles[type' := bundle];
      }
      location := LocateField(fieldsOf(type'), bundles[type'], fieldIdent, k);
    }

    /** Visits every bundle once, in any order. */
    method VisitRefLocations() returns (visited: map<TypeIdent, seq<nat>>)
      requires Valid()
      ensures visited.Keys == bundles.Keys && forall t :: t in bundles ==> visited[t] == RefLocations(bundles[t])
    {
      hide BundlesOk, RefLocations;
      visited := map[];
      var todo := bundles.Keys;
      while todo != {}
        invariant todo <= bundles.Keys && visited.Keys == bundles.Keys - todo
        invariant forall t :: t in visited ==> visited[t] == RefLocations(bundles[t])
        decreases |todo|
      {
        var t :| t in todo;
        var locations := VisitBundle(bundles[t]);
        visited := visited[t := locations];
        todo := todo - {t};
      }
    }
  }

  /** Over any history of queries, no two static fields of any two types overlap. */
  lemma AllStaticsDisjoint(
    fieldsOf: TypeIdent -> seq<Field>, bundles: map<TypeIdent, StaticFieldsBundle>, t: TypeIdent, j: nat, u: TypeIdent,
    k: nat)
    requires BundlesOk(fieldsOf, bundles) && t in bundles && u in bundles && (t != u || j != k)
    requires j < |fieldsOf(t)| && fieldsOf(t)[j].isStatic && k < |fieldsOf(u)| && fieldsOf(u)[k].isStatic
    ensures var a, b := LocationOf(fieldsOf(t), bundles[t], j), LocationOf(fieldsOf(u), bundles[u], k);
            a + Room(fieldsOf(t)[j].ty) <= b || b + Room(fieldsOf(u)[k].ty) <= a
  {
    hide IsBundle, FieldsOk, LocationOf, Room;
    if t == u {
      StaticsDisjoint(fieldsOf(t), bundles[t], j, k);
    } else {
      Within(fieldsOf(t), bundles[t], j);
      Within(fieldsOf(u), bundles[u], k);
    }
  }

  lemma Within(fields: seq<Field>, b: StaticFieldsBundle, k: nat)
    requires IsBundle(fields, b) && k < |fields| && fields[k].isStatic
    ensures b.primitives <= LocationOf(fields, b, k)
    ensures LocationOf(fields, b, k) + Room(fields[k].ty) <= b.primitives + b.size
  {
    hide IsBundle, Rank, RecordsSize, SizeOf, KindOf, Room;
    RoomOfKind(fields[k].ty);
    InRegion(fields, b, k);
  }
}
