/** What a staged call has to put where: the demands behind a list of collected assignments. */
module Demands {
  import opened Machine
  import opened MoveEmission
  import opened Resolution

  /** A value to be copied from a location, or to be fetched from memory through an address. */
  datatype What = Copy(src: Location) | Fetch(addr: Location, offset: nat, ldk: LoadKind)

  datatype Demand = Demand(dst: Location, what: What)

  function DemandValue(d: Demand, s: State): Word {
    match d.what
    case Copy(src) => s.Get(src)
    case Fetch(addr, offset, ldk) => s.load(s.Get(addr) + offset, ldk)
  }

  predicate DemandOk(d: Demand) {
    && d.dst >= 0
    && match d.what
       case Copy(src) => src >= 0
       case Fetch(addr, _, ldk) =>
         KindOf(addr) in {Kind.IReg, Kind.Slot} && (IsFloatLoad(ldk) <==> KindOf(d.dst) == Kind.FReg)
  }

  ghost predicate DemandsOk(ds: seq<Demand>) {
    && (forall i :: 0 <= i < |ds| ==> DemandOk(ds[i]))
    && (forall i, j :: 0 <= i < j < |ds| ==> ds[i].dst != ds[j].dst)
  }

  ghost predicate IsTarget(ds: seq<Demand>, l: Location) { exists i :: 0 <= i < |ds| && ds[i].dst == l }

  /** AddMove drops a register moved to itself. */
  predicate Dropped(d: Demand) { d.what.Copy? && IsReg(d.dst) && d.what.src == d.dst }

  function AssignmentOf(d: Demand): Assignment {
    match d.what
    case Copy(src) => Assignment(d.dst, src, 0, LoadKind.U64, false)
    case Fetch(addr, offset, ldk) => Assignment(d.dst, addr, offset, ldk, true)
  }

  /** What MoveResolver has collected after the demands were added in order. */
  function AssignmentsOf(ds: seq<Demand>): seq<Assignment> {
    if ds == [] then [] else
      var n := |ds| - 1;
      AssignmentsOf(ds[..n]) + if Dropped(ds[n]) then [] else [AssignmentOf(ds[n])]
  }

  lemma AssignmentsAppend(ds: seq<Demand>, d: Demand)
    ensures AssignmentsOf(ds + [d]) == AssignmentsOf(ds) + if Dropped(d) then [] else [AssignmentOf(d)]
  {
    assert (ds + [d])[..|ds|] == ds;
  }

  ghost predicate Stems(ds: seq<Demand>, a: Assignment) {
    exists k :: 0 <= k < |ds| && a == AssignmentOf(ds[k]) && !Dropped(ds[k])
  }

  lemma {:induction false} AssignmentsStem(ds: seq<Demand>)
    ensures forall i :: 0 <= i < |AssignmentsOf(ds)| ==> Stems(ds, AssignmentsOf(ds)[i])
    ensures forall k :: 0 <= k < |ds| && !Dropped(ds[k]) ==> AssignmentOf(ds[k]) in AssignmentsOf(ds)
  {
    if ds != [] {
      var n := |ds| - 1;
      AssignmentsStem(ds[..n]);
      forall i | 0 <= i < |AssignmentsOf(ds)| ensures Stems(ds, AssignmentsOf(ds)[i]) {
        if i < |AssignmentsOf(ds[..n])| {
          var a := AssignmentsOf(ds[..n])[i];
          var k :| 0 <= k < n && a == AssignmentOf(ds[..n][k]) && !Dropped(ds[..n][k]);
          assert ds[k] == ds[..n][k];
        } else {
          assert AssignmentsOf(ds)[i] == AssignmentOf(ds[n]);
        }
      }
      forall k | 0 <= k < |ds| && !Dropped(ds[k]) ensures AssignmentOf(ds[k]) in AssignmentsOf(ds) {
        if k < n { assert ds[..n][k] == ds[k]; }
      }
    }
  }

  lemma {:induction false} AssignmentsCollected(ds: seq<Demand>)
    requires DemandsOk(ds)
    ensures Collected(AssignmentsOf(ds))
    ensures forall l :: IsDst(AssignmentsOf(ds), l) ==> IsTarget(ds, l)
  {
    if ds != [] {
      var n := |ds| - 1;
      AssignmentsCollected(ds[..n]);
      AssignmentsStem(ds);
      var xs := AssignmentsOf(ds[..n]);
      if !Dropped(ds[n]) {
        forall i | 0 <= i < |xs| ensures xs[i].dst != ds[n].dst {
          assert IsDst(xs, xs[i].dst);
        }
      }
      forall l | IsDst(AssignmentsOf(ds), l) ensures IsTarget(ds, l) {
        var i :| 0 <= i < |AssignmentsOf(ds)| && AssignmentsOf(ds)[i].dst == l;
        assert Stems(ds, AssignmentsOf(ds)[i]);
      }
    }
  }

  /** A dropped self-move leaves its register to nobody else. */
  lemma {:induction false} DroppedIsFree(ds: seq<Demand>, k: nat)
    requires DemandsOk(ds) && k < |ds| && Dropped(ds[k])
    ensures !IsDst(AssignmentsOf(ds), ds[k].dst)
  {
    AssignmentsStem(ds);
    forall i | 0 <= i < |AssignmentsOf(ds)| ensures AssignmentsOf(ds)[i].dst != ds[k].dst {
      var j :| 0 <= j < |ds| && AssignmentsOf(ds)[i] == AssignmentOf(ds[j]) && !Dropped(ds[j]);
      assert ds[j].dst == AssignmentsOf(ds)[i].dst;
    }
  }

  /** Performing the collected assignments meets every demand. */
  lemma {:induction false} DemandsMet(ds: seq<Demand>, iTemp: Reg, fTemp: Reg, s: State, t: State, k: nat)
    requires DemandsOk(ds) && !IsTarget(ds, iTemp) && !IsTarget(ds, fTemp) && k < |ds|
    requires Assigned(AssignmentsOf(ds), iTemp, fTemp, s, t)
    ensures Holds(t, ds[k].dst, DemandValue(ds[k], s))
  {
    hide Holds, AssignmentsOf, LoadsFrom, ParamsKept, DemandsOk, IsDst;
    if Dropped(ds[k]) {
      DroppedIsFree(ds, k);
      assert IsTarget(ds, ds[k].dst);
      UntouchedHolds(t, ds[k].dst, s);
    } else {
      AssignmentsStem(ds);
      var i :| 0 <= i < |AssignmentsOf(ds)| && AssignmentsOf(ds)[i] == AssignmentOf(ds[k]);
      assert Value(AssignmentOf(ds[k]), s) == DemandValue(ds[k], s);
    }
  }

  lemma UntouchedHolds(t: State, r: Reg, s: State)
    requires t.Get(r) == s.Get(r)
    ensures Holds(t, r, s.Get(r))
  {
  }

  /** Slot indices of the demands fit their 16-bit encodings and their areas. */
  ghost predicate DemandsFit(ds: seq<Demand>, frame: Frame) {
    forall i :: 0 <= i < |ds| ==>
      && (KindOf(ds[i].dst) == Kind.Slot ==> ParamFits(ds[i].dst - REG_COUNT, frame))
      && SourceFits(if ds[i].what.Copy? then ds[i].what.src else ds[i].what.addr, frame)
  }

  predicate SourceFits(l: Location, frame: Frame) { KindOf(l) == Kind.Slot ==> SlotFits(l - REG_COUNT, frame) }

  /** ... so the operations resolved from them can be lowered faithfully. */
  lemma {:induction false} DemandsLowerable(ds: seq<Demand>, frame: Frame, op: Op)
    requires DemandsOk(ds) && DemandsFit(ds, frame) && OpFrom(AssignmentsOf(ds), op)
    ensures Lowerable(op, frame)
  {
    hide AssignmentsOf, DemandsOk, DemandsFit, ParamFits, SlotFits;
    if KindOf(op.Dst()) == Kind.Slot { DstFits(ds, frame, op.Dst()); }
    if KindOf(op.Src()) == Kind.Slot { SrcFits(ds, frame, op.Src()); }
    if op.IsLoad() {
      LoadFits(ds, op.offset, op.ldk, KindOf(op.Dst()));
      LoadDstKind(op);
    }
  }

  lemma DstFits(ds: seq<Demand>, frame: Frame, l: Location)
    requires DemandsFit(ds, frame) && IsDst(AssignmentsOf(ds), l) && KindOf(l) == Kind.Slot
    ensures ParamFits(l - REG_COUNT, frame)
  {
    AssignmentsStem(ds);
    hide AssignmentsOf, ParamFits, SlotFits;
    var xs := AssignmentsOf(ds);
    var i :| 0 <= i < |xs| && xs[i].dst == l;
    assert Stems(ds, xs[i]);
  }

  lemma SrcFits(ds: seq<Demand>, frame: Frame, l: Location)
    requires DemandsFit(ds, frame) && IsSrc(AssignmentsOf(ds), l) && KindOf(l) == Kind.Slot
    ensures SlotFits(l - REG_COUNT, frame)
  {
    AssignmentsStem(ds);
    hide AssignmentsOf, ParamFits, SlotFits;
    var xs := AssignmentsOf(ds);
    var i :| 0 <= i < |xs| && xs[i].src == l;
    assert Stems(ds, xs[i]);
  }

  lemma LoadFits(ds: seq<Demand>, offset: int, ldk: LoadKind, dst: Kind)
    requires DemandsOk(ds) && IsLoadOf(AssignmentsOf(ds), offset, ldk, dst)
    ensures 0 <= offset && (IsFloatLoad(ldk) <==> dst == Kind.FReg)
  {
    AssignmentsStem(ds);
    hide AssignmentsOf;
    var xs := AssignmentsOf(ds);
    var i :| 0 <= i < |xs| && xs[i].fromAddr && xs[i].offset == offset && xs[i].ldk == ldk && KindOf(xs[i].dst) == dst;
    assert Stems(ds, xs[i]);
  }

  lemma LoadDstKind(op: Op)
    requires op.InRange() && op.IsLoad()
    ensures op.AssignFRegFromAddr? <==> KindOf(op.Dst()) == Kind.FReg
  {
  }

  /** Addresses loaded from are those of fetch demands. */
  lemma {:induction false} DemandLoads(ds: seq<Demand>, s: State, x: int)
    requires LoadsFrom(AssignmentsOf(ds), s, x)
    ensures exists k :: 0 <= k < |ds| && ds[k].what.Fetch? && x == s.Get(ds[k].what.addr) + ds[k].what.offset
  {
    AssignmentsStem(ds);
    var xs := AssignmentsOf(ds);
    var i :| 0 <= i < |xs| && xs[i].fromAddr && x == s.Get(xs[i].src) + xs[i].offset;
    assert Stems(ds, xs[i]);
  }
}
