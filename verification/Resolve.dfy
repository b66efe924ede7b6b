/** class MoveResolver: collects simultaneous assignments and resolves them into single moves. */
module Resolution {
  import opened Machine
  import opened MoveEmission
  import opened Permutations
  import opened Shuffle
  import opened MoveResolution

  /** `dst <- src`, or `dst <- *(src + offset)` when `fromAddr`. */
  datatype Assignment = Assignment(dst: Location, src: Location, offset: int, ldk: LoadKind, fromAddr: bool)

  /** The value the assignment denotes in state `s`. */
  function Value(a: Assignment, s: State): Word {
    if a.fromAddr then s.load(s.Get(a.src) + a.offset, a.ldk) else s.Get(a.src)
  }

  /** What AddMove and AddLoadFromAddr assert about their arguments, and the self-moves they drop. */
  predicate WellFormed(a: Assignment) {
    && a.dst >= 0 && a.src >= 0
    && (a.fromAddr ==> KindOf(a.src) != Kind.FReg)
    && (!a.fromAddr && IsReg(a.dst) ==> a.src != a.dst)
  }

  /** A move between an integer and a float register, the one unsupported case. */
  predicate MixesKinds(a: Assignment) {
    !a.fromAddr && IsReg(a.dst) && IsReg(a.src) && KindOf(a.dst) != KindOf(a.src)
  }

  ghost predicate Collected(xs: seq<Assignment>) {
    && (forall i :: 0 <= i < |xs| ==> WellFormed(xs[i]))
    && (forall i, j :: 0 <= i < j < |xs| ==> xs[i].dst != xs[j].dst)
  }

  ghost predicate Unmixed(xs: seq<Assignment>) { forall i :: 0 <= i < |xs| ==> !MixesKinds(xs[i]) }

  ghost predicate IsDst(xs: seq<Assignment>, l: Location) { exists i :: 0 <= i < |xs| && xs[i].dst == l }

  ghost predicate AvoidsTemps(xs: seq<Assignment>, iTemp: Reg, fTemp: Reg) {
    !IsDst(xs, iTemp) && !IsDst(xs, fTemp)
  }

  /** What a destination holds: a register's contents, or a parameter slot's if it was written. */
  ghost predicate Holds(t: State, dst: Location, v: Word) {
    if IsReg(dst) then t.Get(dst) == v
    else dst >= 0 && dst - REG_COUNT in t.params && t.params[dst - REG_COUNT] == v
  }

  /** The address is that of a load in the list, as it was in `s`. */
  ghost predicate LoadsFrom(xs: seq<Assignment>, s: State, x: int) {
    exists i :: 0 <= i < |xs| && xs[i].fromAddr && x == s.Get(xs[i].src) + xs[i].offset
  }

  /** The simultaneous assignment: in `t` every destination has the value its assignment denotes
      in `s`; all else is as in `s`, except possibly the two temporaries. */
  ghost predicate Assigned(xs: seq<Assignment>, iTemp: Reg, fTemp: Reg, s: State, t: State) {
    && (forall i :: 0 <= i < |xs| ==> Holds(t, xs[i].dst, Value(xs[i], s)))
    && (forall r: Reg :: !IsDst(xs, r) && r != iTemp && r != fTemp ==> t.Get(r) == s.Get(r))
    && ParamsKept(xs, s.params, t.params)
    && (forall x :: x in t.loaded && x !in s.loaded ==> LoadsFrom(xs, s, x))
  }

  ghost predicate ParamsKept(xs: seq<Assignment>, p: map<nat, Word>, q: map<nat, Word>) {
    forall k: nat :: !IsDst(xs, SlotLocation(k)) ==> (k in p <==> k in q) && (k in p ==> p[k] == q[k])
  }

  // ---- The three phases ----

  predicate IsEarly(a: Assignment) { KindOf(a.dst) == Kind.Slot }

  predicate IsLate(a: Assignment) { IsReg(a.dst) && KindOf(a.src) == Kind.Slot }

  /** Assignments between registers are nodes of the graph. */
  predicate InGraph(a: Assignment) { IsReg(a.dst) && IsReg(a.src) }

  /** A parameter slot is assigned at once. */
  function EarlyOp(a: Assignment): Op
    requires WellFormed(a) && IsEarly(a)
  {
    var p := a.dst - REG_COUNT;
    if a.fromAddr then Op.AssignSlotFromAddr(p, a.src, a.offset, a.ldk)
    else if KindOf(a.src) == Kind.IReg then Op.AssignSlotFromIReg(p, a.src)
    else if KindOf(a.src) == Kind.FReg then Op.AssignSlotFromFReg(p, a.src - VIRT_IREGS)
    else Op.AssignParamSlot(p, a.src - REG_COUNT)
  }

  /** A register is assigned from a frame slot after the shuffle. */
  function LateOp(a: Assignment): Op
    requires WellFormed(a) && IsLate(a)
  {
    if a.fromAddr then
      if KindOf(a.dst) == Kind.IReg then Op.AssignIRegFromAddr(a.dst, a.src, a.offset, a.ldk)
      else Op.AssignFRegFromAddr(a.dst - VIRT_IREGS, a.src, a.offset, a.ldk)
    else if KindOf(a.dst) == Kind.IReg then Op.AssignIRegFromSlot(a.dst, a.src - REG_COUNT)
    else Op.AssignFRegFromSlot(a.dst - VIRT_IREGS, a.src - REG_COUNT)
  }

  function NodeOf(a: Assignment): Node
    requires InGraph(a)
  {
    if a.fromAddr then LoadFrom(a.src, a.offset, a.ldk) else Move(a.src)
  }

  function EarlyOps(xs: seq<Assignment>): seq<Op>
    requires forall i :: 0 <= i < |xs| ==> WellFormed(xs[i])
  {
    if xs == [] then [] else
      var n := |xs| - 1;
      EarlyOps(xs[..n]) + if IsEarly(xs[n]) then [EarlyOp(xs[n])] else []
  }

  function LateOps(xs: seq<Assignment>): seq<Op>
    requires forall i :: 0 <= i < |xs| ==> WellFormed(xs[i])
  {
    if xs == [] then [] else
      var n := |xs| - 1;
      LateOps(xs[..n]) + if IsLate(xs[n]) then [LateOp(xs[n])] else []
  }

  /** The assignment graph: identity except at the register destinations. */
  function Graph(xs: seq<Assignment>): (g: seq<Node>)
    ensures |g| == REG_COUNT
  {
    if xs == [] then seq(REG_COUNT, l requires 0 <= l < REG_COUNT => Move(l)) else
      var n := |xs| - 1;
      var g := Graph(xs[..n]);
      if InGraph(xs[n]) then g[xs[n].dst := NodeOf(xs[n])] else g
  }

  lemma Prefix(xs: seq<Assignment>)
    requires Collected(xs) && xs != []
    ensures Collected(xs[..|xs| - 1])
    ensures forall l :: IsDst(xs, l) <==> IsDst(xs[..|xs| - 1], l) || l == xs[|xs| - 1].dst
    ensures !IsDst(xs[..|xs| - 1], xs[|xs| - 1].dst)
    ensures forall s, x :: LoadsFrom(xs[..|xs| - 1], s, x) ==> LoadsFrom(xs, s, x)
  {
    var ys := xs[..|xs| - 1];
    forall l | IsDst(xs, l) ensures IsDst(ys, l) || l == xs[|xs| - 1].dst {
      var i :| 0 <= i < |xs| && xs[i].dst == l;
      if i < |ys| { assert ys[i].dst == l; }
    }
    forall l | IsDst(ys, l) ensures IsDst(xs, l) {
      var i :| 0 <= i < |ys| && ys[i].dst == l;
      assert xs[i].dst == l;
    }
    forall s, x | LoadsFrom(ys, s, x) ensures LoadsFrom(xs, s, x) {
      var i :| 0 <= i < |ys| && ys[i].fromAddr && x == s.Get(ys[i].src) + ys[i].offset;
      assert xs[i].fromAddr;
    }
  }

  /** The graph is well formed when no assignment mixes kinds, and it represents the list. */
  lemma {:induction false} GraphMeaning(xs: seq<Assignment>)
    requires Collected(xs) && Unmixed(xs)
    ensures GraphOk(Graph(xs))
    ensures forall i :: 0 <= i < |xs| && InGraph(xs[i]) ==> Graph(xs)[xs[i].dst] == NodeOf(xs[i])
    ensures forall r: Reg :: !IsDst(xs, r) ==> Graph(xs)[r] == Move(r)
  {
    if xs != [] {
      hide NodeOk, IsDst, WellFormed, LoadsFrom;
      var n := |xs| - 1;
      Prefix(xs);
      GraphMeaning(xs[..n]);
      DistinctLast(xs);
      if InGraph(xs[n]) { NodeOfOk(xs[n]); }
    }
  }

  /** Every load node stems from a load of the list. */
  lemma {:induction false} GraphLoads(xs: seq<Assignment>, s: State, r: Reg)
    ensures var n := Graph(xs)[r]; n.LoadFrom? ==> LoadsFrom(xs, s, s.Get(n.src) + n.offset)
  {
    if xs != [] {
      var k := |xs| - 1;
      if InGraph(xs[k]) && xs[k].dst == r {
        LoadOf(xs, k, s);
      } else {
        var n := Graph(xs[..k])[r];
        GraphLoads(xs[..k], s, r);
        if n.LoadFrom? {
          var i :| 0 <= i < k && xs[..k][i].fromAddr
              && s.Get(n.src) + n.offset == s.Get(xs[..k][i].src) + xs[..k][i].offset;
          assert xs[i].fromAddr;
        }
      }
    }
  }

  lemma NodeOfOk(a: Assignment)
    requires WellFormed(a) && InGraph(a) && !MixesKinds(a)
    ensures NodeOk(a.dst, NodeOf(a))
  {
  }

  lemma EarlyOpStep(a: Assignment, s: State)
    requires WellFormed(a) && IsEarly(a) && s.Valid()
    ensures var t := Step(EarlyOp(a), s);
      && t.regs == s.regs && t.params == s.params[a.dst - REG_COUNT := Value(a, s)]
      && t.slots == s.slots && t.load == s.load
      && t.loaded == if a.fromAddr then s.loaded + {s.Get(a.src) + a.offset} else s.loaded
  {
  }

  lemma LateOpStep(a: Assignment, s: State)
    requires WellFormed(a) && IsLate(a) && s.Valid()
    ensures var t := Step(LateOp(a), s);
      && t.regs == s.regs[a.dst := Value(a, s)] && t.params == s.params
      && t.slots == s.slots && t.load == s.load
      && t.loaded == if a.fromAddr then s.loaded + {s.Get(a.src) + a.offset} else s.loaded
  {
  }

  /** What the first phase achieves: it writes the parameter slots and leaves the registers alone. */
  ghost predicate EarlyDone(xs: seq<Assignment>, s: State, t: State) {
    && t.regs == s.regs && t.slots == s.slots && t.load == s.load && ParamsKept(xs, s.params, t.params)
    && (forall i :: 0 <= i < |xs| && IsEarly(xs[i]) ==> Holds(t, xs[i].dst, Value(xs[i], s)))
    && (forall x :: x in t.loaded && x !in s.loaded ==> LoadsFrom(xs, s, x))
  }

  lemma LoadOf(xs: seq<Assignment>, i: nat, s: State)
    requires i < |xs|
    ensures xs[i].fromAddr ==> LoadsFrom(xs, s, s.Get(xs[i].src) + xs[i].offset)
  {
  }

  lemma EarlyStep(xs: seq<Assignment>, s: State, m: State)
    requires Collected(xs) && xs != [] && s.Valid()
    requires EarlyDone(xs[..|xs| - 1], s, m)
    ensures EarlyDone(xs, s, if IsEarly(xs[|xs| - 1]) then Step(EarlyOp(xs[|xs| - 1]), m) else m)
  {
    hide LoadsFrom, Step, EarlyOp, Collected, IsDst;
    var n := |xs| - 1;
    Prefix(xs);
    LoadOf(xs, n, s);
    DistinctLast(xs);
    if IsEarly(xs[n]) {
      EarlyOpStep(xs[n], m);
      assert Value(xs[n], m) == Value(xs[n], s);
    }
  }

  lemma DistinctLast(xs: seq<Assignment>)
    requires Collected(xs) && xs != []
    ensures forall i :: 0 <= i < |xs| - 1 ==> xs[i].dst != xs[|xs| - 1].dst && xs[..|xs| - 1][i] == xs[i]
    ensures WellFormed(xs[|xs| - 1])
  {
  }

  lemma {:induction false} EarlyMeaning(xs: seq<Assignment>, s: State)
    requires Collected(xs) && s.Valid()
    ensures EarlyDone(xs, s, Exec(EarlyOps(xs), s))
  {
    if xs != [] {
      hide EarlyDone, Step, EarlyOp;
      var n := |xs| - 1;
      Prefix(xs);
      EarlyMeaning(xs[..n], s);
      EarlyStep(xs, s, Exec(EarlyOps(xs[..n]), s));
      if IsEarly(xs[n]) {
        ExecAppend(EarlyOps(xs[..n]), EarlyOp(xs[n]), s);
      } else {
        assert EarlyOps(xs[..n]) + [] == EarlyOps(xs[..n]);
      }
    }
  }

  /** What the last phase achieves: registers assigned from frame slots. */
  ghost predicate LateDone(xs: seq<Assignment>, s: State, t: State) {
    && t.Valid() && t.params == s.params && t.slots == s.slots && t.load == s.load
    && (forall r: Reg :: !LateDst(xs, r) ==> t.Get(r) == s.Get(r))
    && (forall i :: 0 <= i < |xs| && IsLate(xs[i]) ==> t.Get(xs[i].dst) == Value(xs[i], s))
    && (forall x :: x in t.loaded && x !in s.loaded ==> LateLoad(xs, s, x))
  }

  ghost predicate LateDst(xs: seq<Assignment>, r: Reg) {
    exists i :: 0 <= i < |xs| && IsLate(xs[i]) && xs[i].dst == r
  }

  ghost predicate LateLoad(xs: seq<Assignment>, s: State, x: int) {
    exists i :: 0 <= i < |xs| && IsLate(xs[i]) && xs[i].fromAddr && x == s.Get(xs[i].src) + xs[i].offset
  }

  lemma LatePrefix(xs: seq<Assignment>, s: State)
    requires xs != []
    ensures forall r: Reg :: LateDst(xs[..|xs| - 1], r) ==> LateDst(xs, r)
    ensures forall x :: LateLoad(xs[..|xs| - 1], s, x) ==> LateLoad(xs, s, x)
    ensures var a := xs[|xs| - 1];
            IsLate(a) ==> LateDst(xs, a.dst) && (a.fromAddr ==> LateLoad(xs, s, s.Get(a.src) + a.offset))
  {
    var ys := xs[..|xs| - 1];
    forall r: Reg | LateDst(ys, r) ensures LateDst(xs, r) {
      var i :| 0 <= i < |ys| && IsLate(ys[i]) && ys[i].dst == r;
      assert xs[i] == ys[i];
    }
    forall x | LateLoad(ys, s, x) ensures LateLoad(xs, s, x) {
      var i :| 0 <= i < |ys| && IsLate(ys[i]) && ys[i].fromAddr && x == s.Get(ys[i].src) + ys[i].offset;
      assert xs[i] == ys[i];
    }
  }

  lemma LateStep(xs: seq<Assignment>, s: State, m: State)
    requires Collected(xs) && xs != [] && s.Valid()
    requires LateDone(xs[..|xs| - 1], s, m)
    ensures LateDone(xs, s, if IsLate(xs[|xs| - 1]) then Step(LateOp(xs[|xs| - 1]), m) else m)
  {
    hide LateDst, LateLoad, Step, LateOp, Collected;
    var n := |xs| - 1;
    LatePrefix(xs, s);
    DistinctLast(xs);
    if IsLate(xs[n]) {
      LateOpStep(xs[n], m);
      assert Value(xs[n], m) == Value(xs[n], s);
    }
  }

  lemma {:induction false} LateMeaning(xs: seq<Assignment>, s: State)
    requires Collected(xs) && s.Valid()
    ensures LateDone(xs, s, Exec(LateOps(xs), s))
  {
    if xs != [] {
      hide LateDone, Step, LateOp;
      var n := |xs| - 1;
      Prefix(xs);
      LateMeaning(xs[..n], s);
      LateStep(xs, s, Exec(LateOps(xs[..n]), s));
      if IsLate(xs[n]) {
        ExecAppend(LateOps(xs[..n]), LateOp(xs[n]), s);
      } else {
        assert LateOps(xs[..n]) + [] == LateOps(xs[..n]);
      }
    }
  }

  // ---- The three phases together ----

  /** `m` is reached after the shuffle from `s1`, and `t` after the last phase from `m`. */
  ghost predicate Phases(xs: seq<Assignment>, iTemp: Reg, fTemp: Reg, s: State, s1: State, m: State, t: State) {
    && s.Valid() && Collected(xs) && Unmixed(xs) && AvoidsTemps(xs, iTemp, fTemp)
    && EarlyDone(xs, s, s1)
    && m.Valid() && m.params == s1.params && m.slots == s1.slots && m.load == s1.load
    && (forall l: Reg :: l != iTemp && l != fTemp ==> m.Get(l) == NodeValue(Graph(xs)[l], s1))
    && (forall x :: x in m.loaded && x !in s1.loaded ==> IsLoadAddr(Graph(xs), s1, x))
    && LateDone(xs, m, t)
  }

  lemma NotLate(xs: seq<Assignment>, i: nat)
    requires Collected(xs) && i < |xs| && IsReg(xs[i].dst) && !IsLate(xs[i])
    ensures !LateDst(xs, xs[i].dst)
  {
  }

  lemma PhasesHold(
    xs: seq<Assignment>, iTemp: Reg, fTemp: Reg, s: State, s1: State, m: State, t: State, i: nat)
    requires Phases(xs, iTemp, fTemp, s, s1, m, t) && i < |xs|
    ensures Holds(t, xs[i].dst, Value(xs[i], s))
  {
    hide LateDst, IsDst, IsLoadAddr, LateLoad, LoadsFrom, ParamsKept, Graph;
    var a := xs[i];
    assert WellFormed(a);
    if IsEarly(a) {
    } else if IsLate(a) {
      assert Value(a, m) == Value(a, s);
    } else {
      NotTemp(xs, iTemp, fTemp, i);
      NotLate(xs, i);
      GraphMeaning(xs);
      assert NodeValue(NodeOf(a), s1) == Value(a, s);
    }
  }

  lemma NotTemp(xs: seq<Assignment>, iTemp: Reg, fTemp: Reg, i: nat)
    requires AvoidsTemps(xs, iTemp, fTemp) && i < |xs|
    ensures xs[i].dst != iTemp && xs[i].dst != fTemp
  {
  }

  lemma PhasesKeep(xs: seq<Assignment>, iTemp: Reg, fTemp: Reg, s: State, s1: State, m: State, t: State, r: Reg)
    requires Phases(xs, iTemp, fTemp, s, s1, m, t) && !IsDst(xs, r) && r != iTemp && r != fTemp
    ensures t.Get(r) == s.Get(r)
  {
    hide IsLoadAddr, LateLoad, LoadsFrom, ParamsKept, Graph;
    GraphMeaning(xs);
    assert !LateDst(xs, r);
  }

  lemma PhasesLoad(xs: seq<Assignment>, iTemp: Reg, fTemp: Reg, s: State, s1: State, m: State, t: State, x: int)
    requires Phases(xs, iTemp, fTemp, s, s1, m, t) && x in t.loaded && x !in s.loaded
    ensures LoadsFrom(xs, s, x)
  {
    hide LateDst, IsDst, ParamsKept, Graph, Unmixed, WellFormed;
    if x in s1.loaded {
    } else if x in m.loaded {
      var l: Reg :| Graph(xs)[l].LoadFrom? && x == s1.Get(Graph(xs)[l].src) + Graph(xs)[l].offset;
      GraphLoads(xs, s1, l);
      var i :| 0 <= i < |xs| && xs[i].fromAddr && x == s1.Get(xs[i].src) + xs[i].offset;
      assert s.Get(xs[i].src) == s1.Get(xs[i].src);
    } else {
      assert LateLoad(xs, m, x);
      var i :| 0 <= i < |xs| && IsLate(xs[i]) && xs[i].fromAddr && x == m.Get(xs[i].src) + xs[i].offset;
      assert s.Get(xs[i].src) == m.Get(xs[i].src);
    }
  }

  /** The resolved sequence performs the simultaneous assignment, from any state. */
  lemma ResolvedMeaning(xs: seq<Assignment>, iTemp: Reg, fTemp: Reg, shuffle: seq<Op>, s: State)
    requires Collected(xs) && Unmixed(xs) && AvoidsTemps(xs, iTemp, fTemp) && s.Valid()
    requires Shuffled(Graph(xs), iTemp, fTemp, shuffle)
    ensures Assigned(xs, iTemp, fTemp, s, Exec(EarlyOps(xs) + shuffle + LateOps(xs), s))
  {
    hide EarlyDone, LateDone, Holds, LoadsFrom, IsLoadAddr, Graph, EarlyOps, LateOps, NodeValue;
    ExecConcat(EarlyOps(xs) + shuffle, LateOps(xs), s);
    ExecConcat(EarlyOps(xs), shuffle, s);
    EarlyMeaning(xs, s);
    var s1 := Exec(EarlyOps(xs), s);
    var m := Exec(shuffle, s1);
    var t := Exec(LateOps(xs), m);
    LateMeaning(xs, m);
    PhasesAssign(xs, iTemp, fTemp, s, s1, m, t);
  }

  lemma PhasesAssign(xs: seq<Assignment>, iTemp: Reg, fTemp: Reg, s: State, s1: State, m: State, t: State)
    requires Phases(xs, iTemp, fTemp, s, s1, m, t)
    ensures Assigned(xs, iTemp, fTemp, s, t)
  {
    assert ParamsKept(xs, s.params, t.params);
    hide Phases, Holds, IsDst, LoadsFrom, Value, ParamsKept;
    forall i | 0 <= i < |xs| ensures Holds(t, xs[i].dst, Value(xs[i], s)) {
      PhasesHold(xs, iTemp, fTemp, s, s1, m, t, i);
    }
    forall r: Reg | !IsDst(xs, r) && r != iTemp && r != fTemp ensures t.Get(r) == s.Get(r) {
      PhasesKeep(xs, iTemp, fTemp, s, s1, m, t, r);
    }
    forall x | x in t.loaded && x !in s.loaded ensures LoadsFrom(xs, s, x) {
      PhasesLoad(xs, iTemp, fTemp, s, s1, m, t, x);
    }
  }

  // ---- Where operations come from ----

  /** The operation uses slots and performs loads of the list only. */
  ghost predicate OpFrom(xs: seq<Assignment>, op: Op) {
    && op.InRange()
    && (KindOf(op.Dst()) == Kind.Slot ==> IsDst(xs, op.Dst()))
    && (KindOf(op.Src()) == Kind.Slot ==> IsSrc(xs, op.Src()))
    && (op.IsLoad() ==> IsLoadOf(xs, op.offset, op.ldk, KindOf(op.Dst())))
  }

  ghost predicate IsSrc(xs: seq<Assignment>, l: Location) { exists i :: 0 <= i < |xs| && xs[i].src == l }

  ghost predicate IsLoadOf(xs: seq<Assignment>, offset: int, ldk: LoadKind, dst: Kind) {
    exists i :: 0 <= i < |xs| && xs[i].fromAddr && xs[i].offset == offset && xs[i].ldk == ldk
        && KindOf(xs[i].dst) == dst
  }

  ghost predicate AllFrom(xs: seq<Assignment>, ops: seq<Op>) { forall i :: 0 <= i < |ops| ==> OpFrom(xs, ops[i]) }

  lemma MemberFrom(xs: seq<Assignment>, i: nat)
    requires i < |xs|
    ensures IsDst(xs, xs[i].dst) && IsSrc(xs, xs[i].src)
    ensures xs[i].fromAddr ==> IsLoadOf(xs, xs[i].offset, xs[i].ldk, KindOf(xs[i].dst))
  {
  }

  lemma PrefixFrom(xs: seq<Assignment>, op: Op)
    requires xs != [] && OpFrom(xs[..|xs| - 1], op)
    ensures OpFrom(xs, op)
  {
    var ys := xs[..|xs| - 1];
    if KindOf(op.Dst()) == Kind.Slot {
      var i :| 0 <= i < |ys| && ys[i].dst == op.Dst();
      MemberFrom(xs, i);
    }
    if KindOf(op.Src()) == Kind.Slot {
      var i :| 0 <= i < |ys| && ys[i].src == op.Src();
      MemberFrom(xs, i);
    }
    if op.IsLoad() {
      var i :| 0 <= i < |ys| && ys[i].fromAddr && ys[i].offset == op.offset && ys[i].ldk == op.ldk
          && KindOf(ys[i].dst) == KindOf(op.Dst());
      MemberFrom(xs, i);
    }
  }

  lemma EarlyFrom(xs: seq<Assignment>, i: nat)
    requires i < |xs| && WellFormed(xs[i])
    ensures IsEarly(xs[i]) ==> OpFrom(xs, EarlyOp(xs[i]))
    ensures IsLate(xs[i]) ==> OpFrom(xs, LateOp(xs[i]))
  {
    MemberFrom(xs, i);
    hide IsDst, IsSrc, IsLoadOf;
  }

  lemma {:induction false} SlotOpsFrom(xs: seq<Assignment>)
    requires Collected(xs)
    ensures AllFrom(xs, EarlyOps(xs)) && AllFrom(xs, LateOps(xs))
  {
    if xs != [] {
      hide OpFrom, EarlyOp, LateOp, WellFormed;
      var n := |xs| - 1;
      Prefix(xs);
      SlotOpsFrom(xs[..n]);
      EarlyFrom(xs, n);
      forall i | 0 <= i < |EarlyOps(xs[..n])| ensures OpFrom(xs, EarlyOps(xs[..n])[i]) {
        PrefixFrom(xs, EarlyOps(xs[..n])[i]);
      }
      forall i | 0 <= i < |LateOps(xs[..n])| ensures OpFrom(xs, LateOps(xs[..n])[i]) {
        PrefixFrom(xs, LateOps(xs[..n])[i]);
      }
    }
  }

  lemma {:induction false} NodeFrom(xs: seq<Assignment>, r: Reg)
    ensures var n := Graph(xs)[r]; n.LoadFrom? ==> IsLoadOf(xs, n.offset, n.ldk, KindOf(r))
  {
    if xs != [] {
      var k := |xs| - 1;
      if InGraph(xs[k]) && xs[k].dst == r {
        MemberFrom(xs, k);
      } else {
        var n := Graph(xs[..k])[r];
        NodeFrom(xs[..k], r);
        if n.LoadFrom? {
          var i :| 0 <= i < k && xs[..k][i].fromAddr && xs[..k][i].offset == n.offset && xs[..k][i].ldk == n.ldk
              && KindOf(xs[..k][i].dst) == KindOf(r);
          MemberFrom(xs, i);
        }
      }
    }
  }

  lemma ResolvedFrom(xs: seq<Assignment>, shuffle: seq<Op>)
    requires Collected(xs) && AllFromGraph(Graph(xs), shuffle)
    ensures AllFrom(xs, EarlyOps(xs) + shuffle + LateOps(xs))
  {
    SlotOpsFrom(xs);
    forall i | 0 <= i < |shuffle| ensures OpFrom(xs, shuffle[i]) {
      assert FromGraph(Graph(xs), shuffle[i]);
      if shuffle[i].IsLoad() {
        var op := shuffle[i];
        var l: Reg :| Graph(xs)[l].LoadFrom? && Graph(xs)[l].offset == op.offset && Graph(xs)[l].ldk == op.ldk
            && KindOf(l) == KindOf(op.Dst());
        NodeFrom(xs, l);
      }
    }
  }

  // ---- The cost ----

  /** Every assignment costs exactly one operation before cycles are counted. */
  lemma {:induction false} OnePerAssignment(xs: seq<Assignment>)
    requires Collected(xs)
    ensures |EarlyOps(xs)| + |Pending(InitiallyDone(Graph(xs)))| + |LateOps(xs)| == |xs|
  {
    if xs == [] {
      assert Pending(InitiallyDone(Graph(xs))) == {};
    } else {
      var n := |xs| - 1;
      Prefix(xs);
      OnePerAssignment(xs[..n]);
      DistinctLast(xs);
      if InGraph(xs[n]) {
        OneMorePending(xs);
      }
    }
  }

  lemma OneMorePending(xs: seq<Assignment>)
    requires Collected(xs) && xs != [] && InGraph(xs[|xs| - 1])
    ensures |Pending(InitiallyDone(Graph(xs)))| == |Pending(InitiallyDone(Graph(xs[..|xs| - 1])))| + 1
  {
    var n := |xs| - 1;
    Prefix(xs);
    Untouched(xs[..n], xs[n].dst);
    DistinctLast(xs);
    PendingGrows(Graph(xs[..n]), xs[n].dst, NodeOf(xs[n]));
  }

  lemma PendingGrows(g: seq<Node>, d: Reg, n: Node)
    requires |g| == REG_COUNT && g[d] == Move(d) && n != Move(d)
    ensures |Pending(InitiallyDone(g[d := n]))| == |Pending(InitiallyDone(g))| + 1
  {
    assert Pending(InitiallyDone(g[d := n])) == Pending(InitiallyDone(g)) + {d as nat};
  }

  lemma {:induction false} Untouched(xs: seq<Assignment>, r: Reg)
    requires Collected(xs) && !IsDst(xs, r)
    ensures Graph(xs)[r] == Move(r)
  {
    if xs != [] {
      Prefix(xs);
      Untouched(xs[..|xs| - 1], r);
    }
  }

  // ---- The class ----

  class MoveResolver {
    var assignments: seq<Assignment>
    const iRegTemp: Reg
    const fRegTemp: Reg

    ghost predicate Valid()
      reads this
    {
      && KindOf(iRegTemp) == Kind.IReg && KindOf(fRegTemp) == Kind.FReg
      && (forall i :: 0 <= i < |assignments| ==> WellFormed(assignments[i]))
    }

    constructor (iRegTemp: nat, fRegTemp: nat)
      requires iRegTemp < VIRT_IREGS && fRegTemp < FREGS
      ensures Valid() && assignments == []
      ensures this.iRegTemp == iRegTemp && this.fRegTemp == FRegLocation(fRegTemp)
    {
      this.iRegTemp := iRegTemp;
      this.fRegTemp := FRegLocation(fRegTemp);
      assignments := [];
    }

    method Clear()
      requires Valid()
      modifies this
      ensures Valid() && assignments == []
    {
      assignments := [];
    }

    method AddMove(dst: Location, src: Location)
      requires Valid() && dst >= 0 && src >= 0
      modifies this
      ensures Valid()
      ensures assignments == old(assignments) +
                if IsReg(dst) && src == dst then [] else [Assignment(dst, src, 0, LoadKind.U64, false)]
    {
      if KindOf(dst) != Kind.Slot && src == dst {
        return;
      }
      assignments := assignments + [Assignment(dst, src, 0, LoadKind.U64, false)];
    }

    method AddLoadFromAddr(dst: Location, srcAddr: Location, offset: int, ldk: LoadKind)
      requires Valid() && dst >= 0 && KindOf(srcAddr) in {Kind.IReg, Kind.Slot}
      modifies this
      ensures Valid()
      ensures assignments == old(assignments) + [Assignment(dst, srcAddr, offset, ldk, true)]
    {
      assignments := assignments + [Assignment(dst, srcAddr, offset, ldk, true)];
    }

    /** Resolves the collected assignments through the emitter. It fails exactly when one of them
        mixes register kinds. Otherwise the emitted operations perform all assignments at once
        from any start state, with one operation for each plus one for each set of cycles. */
    method Resolve(e: RewriterMoveEmitter)
      returns (ok: bool, ghost ops: seq<Op>, ghost cycles: seq<set<nat>>)
      requires Valid() && e.Valid() && e as object != this
      requires Collected(assignments) && AvoidsTemps(assignments, iRegTemp, fRegTemp)
      modifies e
      ensures e.Valid() && e.ops == old(e.ops) + ops
      ensures ok <==> Unmixed(assignments)
      ensures ok ==> forall s: State :: s.Valid() ==> Assigned(assignments, iRegTemp, fRegTemp, s, Exec(ops, s))
      ensures ok ==> |ops| == |assignments| + |cycles| && 2 * |cycles| <= |assignments|
      ensures ok ==> AllFrom(assignments, ops)
      ensures ok ==> AreCycles(Graph(assignments), cycles)
      ensures ok && cycles == [] ==> forall c :: Permutes(Srcs(Graph(assignments)), c) ==> c == {}
    {
      hide LowerAll, Shuffled, Cost, Assigned, Graph, EarlyOps, LateOps, GraphOk, TempsFree, AvoidsTemps, AllFrom,
        AllFromGraph;
      cycles := [];
      var nodes := new Node[REG_COUNT](dst requires 0 <= dst < REG_COUNT => Move(dst));
      EmptyGraph(nodes[..]);
      ok, ops := BuildGraph(nodes, e);
      if !ok { return; }
      ghost var early := ops;
      ghost var shuffle, late;
      GraphMeaning(assignments);
      TempsAreFree(assignments, iRegTemp, fRegTemp);
      shuffle, cycles := CycleResolver(nodes, e, iRegTemp, fRegTemp);
      late := LoadSlots(e);
      ops := early + shuffle + late;
      forall s: State | s.Valid() ensures Assigned(assignments, iRegTemp, fRegTemp, s, Exec(ops, s)) {
        ResolvedMeaning(assignments, iRegTemp, fRegTemp, shuffle, s);
      }
      ResolvedFrom(assignments, shuffle);
      CostsAdd(assignments, shuffle, cycles);
      CostCycles(Graph(assignments), shuffle, cycles);
    }

    /** The first loop of Resolve: fills the graph and assigns the parameter slots. */
    method BuildGraph(nodes: array<Node>, e: RewriterMoveEmitter) returns (ok: bool, ghost ops: seq<Op>)
      requires Valid() && e.Valid() && e as object != this && Collected(assignments)
      requires nodes.Length == REG_COUNT && nodes[..] == Graph([])
      modifies nodes, e
      ensures e.Valid() && e.ops == old(e.ops) + ops
      ensures ok <==> Unmixed(assignments)
      ensures ok ==> nodes[..] == Graph(assignments) && ops == EarlyOps(assignments)
    {
      hide LowerAll;
      ops := [];
      for i := 0 to |assignments|
        invariant e.Valid() && e.ops == old(e.ops) + ops
        invariant nodes[..] == Graph(assignments[..i]) && ops == EarlyOps(assignments[..i])
        invariant Unmixed(assignments[..i])
      {
        var a := assignments[i];
        assert assignments[..i + 1][..i] == assignments[..i];
        ghost var more;
        ok, more := AddNode(nodes, e, a);
        ops := ops + more;
        if !ok { return; }
      }
      assert assignments[..|assignments|] == assignments;
      ok := true;
    }

    /** The switch over the kinds of one assignment. */
    method AddNode(nodes: array<Node>, e: RewriterMoveEmitter, a: Assignment) returns (ok: bool, ghost ops: seq<Op>)
      requires e.Valid() && e as object != this && WellFormed(a) && nodes.Length == REG_COUNT
      modifies nodes, e
      ensures e.Valid() && e.ops == old(e.ops) + ops
      ensures ok <==> !MixesKinds(a)
      ensures ok ==> ops == if IsEarly(a) then [EarlyOp(a)] else []
      ensures ok ==> nodes[..] == if InGraph(a) then old(nodes[..])[a.dst := NodeOf(a)] else old(nodes[..])
    {
      hide LowerAll;
      ok, ops := true, [];
      var dst, src := a.dst, a.src;
      if KindOf(dst) == Kind.Slot {
        ops := [EarlyOp(a)];
        if a.fromAddr {
          e.AssignSlotFromAddr(dst - REG_COUNT, src, a.offset, a.ldk);
        } else if KindOf(src) == Kind.IReg {
          e.AssignSlotFromIReg(dst - REG_COUNT, src);
        } else if KindOf(src) == Kind.FReg {
          e.AssignSlotFromFReg(dst - REG_COUNT, src - VIRT_IREGS);
        } else {
          e.AssignParamSlot(dst - REG_COUNT, src - REG_COUNT);
        }
      } else if KindOf(src) == Kind.Slot {
        // Untyped slots are immutable: processed after the register shuffle.
      } else if a.fromAddr {
        nodes[dst] := LoadFrom(src, a.offset, a.ldk);
      } else if KindOf(src) == KindOf(dst) {
        nodes[dst] := Move(src);
      } else {
        ok := false;
      }
    }

    /** The last loop of Resolve: registers assigned from frame slots. */
    method LoadSlots(e: RewriterMoveEmitter) returns (ghost ops: seq<Op>)
      requires Valid() && e.Valid() && e as object != this && Collected(assignments)
      modifies e
      ensures e.Valid() && e.ops == old(e.ops) + ops && ops == LateOps(assignments)
    {
      hide LowerAll;
      ops := [];
      for i := 0 to |assignments|
        invariant e.Valid() && e.ops == old(e.ops) + ops && ops == LateOps(assignments[..i])
      {
        var a := assignments[i];
        assert assignments[..i + 1][..i] == assignments[..i];
        ghost var more := LoadSlot(e, a);
        ops := ops + more;
      }
      assert assignments[..|assignments|] == assignments;
    }

    method LoadSlot(e: RewriterMoveEmitter, a: Assignment) returns (ghost ops: seq<Op>)
      requires e.Valid() && WellFormed(a)
      modifies e
      ensures e.Valid() && e.ops == old(e.ops) + ops && ops == if IsLate(a) then [LateOp(a)] else []
    {
      hide LowerAll;
      var dst, src := a.dst, a.src;
      ops := [];
      if a.fromAddr && KindOf(src) == Kind.Slot && KindOf(dst) != Kind.Slot {
        ops := [LateOp(a)];
        if KindOf(dst) == Kind.IReg {
          e.AssignIRegFromAddr(dst, src, a.offset, a.ldk);
        } else {
          e.AssignFRegFromAddr(dst - VIRT_IREGS, src, a.offset, a.ldk);
        }
      } else if KindOf(src) == Kind.Slot && KindOf(dst) == Kind.IReg {
        ops := [LateOp(a)];
        e.AssignIRegFromSlot(dst, src - REG_COUNT);
      } else if KindOf(src) == Kind.Slot && KindOf(dst) == Kind.FReg {
        ops := [LateOp(a)];
        e.AssignFRegFromSlot(dst - VIRT_IREGS, src - REG_COUNT);
      }
    }
  }

  lemma TempsAreFree(xs: seq<Assignment>, iTemp: Reg, fTemp: Reg)
    requires Collected(xs) && Unmixed(xs) && AvoidsTemps(xs, iTemp, fTemp)
    requires KindOf(iTemp) == Kind.IReg && KindOf(fTemp) == Kind.FReg
    ensures TempsFree(Graph(xs), iTemp, fTemp)
  {
    GraphMeaning(xs);
  }

  lemma EmptyGraph(g: seq<Node>)
    requires |g| == REG_COUNT && forall l: Reg :: g[l] == Move(l)
    ensures g == Graph([])
  {
    forall l | 0 <= l < REG_COUNT ensures g[l] == Graph([])[l] { var r: Reg := l; }
  }

  lemma CostCycles(g: seq<Node>, shuffle: seq<Op>, cycles: seq<set<nat>>)
    requires |g| == REG_COUNT && Cost(g, shuffle, cycles)
    ensures AreCycles(g, cycles) && (cycles == [] ==> forall c :: Permutes(Srcs(g), c) ==> c == {})
  {
  }

  lemma CostsAdd(xs: seq<Assignment>, shuffle: seq<Op>, cycles: seq<set<nat>>)
    requires Collected(xs) && Cost(Graph(xs), shuffle, cycles)
    ensures |EarlyOps(xs) + shuffle + LateOps(xs)| == |xs| + |cycles| && 2 * |cycles| <= |xs|
  {
    OnePerAssignment(xs);
    CostBound(Graph(xs), shuffle, cycles);
  }
}
