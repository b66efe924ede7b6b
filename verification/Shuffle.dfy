/** The register shuffle of MoveResolver::Resolve: the assignment graph and the fixed-point
    loop that emits chains and breaks cycles through a temporary. */
module Shuffle {
  import opened Machine
  import opened Permutations

  /** A graph node: a move or a load. `src` is the register the node reads. */
  datatype Node = Move(src: Reg) | LoadFrom(src: Reg, offset: int, ldk: LoadKind)

  function NodeValue(n: Node, s: State): Word {
    match n
    case Move(src) => s.Get(src)
    case LoadFrom(src, offset, ldk) => s.load(s.Get(src) + offset, ldk)
  }

  /** Nodes respect register kinds: a move stays within a kind, a load reads an integer register. */
  predicate NodeOk(l: Reg, n: Node) {
    if n.Move? then KindOf(n.src) == KindOf(l) else KindOf(n.src) == Kind.IReg
  }

  ghost predicate GraphOk(g: seq<Node>) {
    |g| == REG_COUNT && forall l: Reg :: NodeOk(l, g[l])
  }

  /** The single operation for `l <- n`, as the `assign` lambda chooses it. */
  function OpFor(l: Reg, n: Node): Op
    requires NodeOk(l, n)
  {
    match n
    case Move(src) =>
      if KindOf(l) == Kind.IReg then Op.AssignIReg(l, src)
      else Op.AssignFReg(l - VIRT_IREGS, src - VIRT_IREGS)
    case LoadFrom(src, offset, ldk) =>
      if KindOf(l) == Kind.IReg then Op.AssignIRegFromAddr(l, src, offset, ldk)
      else Op.AssignFRegFromAddr(l - VIRT_IREGS, src, offset, ldk)
  }

  lemma OpForStep(l: Reg, n: Node, s: State)
    requires NodeOk(l, n)
    ensures Step(OpFor(l, n), s).regs == s.Put(l, NodeValue(n, s)).regs
    ensures Step(OpFor(l, n), s).params == s.Put(l, NodeValue(n, s)).params
    ensures Step(OpFor(l, n), s).slots == s.slots && Step(OpFor(l, n), s).load == s.load
    ensures Step(OpFor(l, n), s).loaded
         == if n.Move? then s.loaded else s.loaded + {s.Get(n.src) + n.offset}
  {
  }

  /** The operation moves between registers or performs a load of the graph. */
  ghost predicate FromGraph(g0: seq<Node>, op: Op)
    requires |g0| == REG_COUNT
  {
    && op.InRange() && IsReg(op.Dst()) && IsReg(op.Src())
    && (op.IsLoad() ==> exists l: Reg ::
          g0[l].LoadFrom? && g0[l].offset == op.offset && g0[l].ldk == op.ldk && KindOf(l) == KindOf(op.Dst()))
  }

  ghost predicate AllFromGraph(g0: seq<Node>, ops: seq<Op>)
    requires |g0| == REG_COUNT
  {
    forall i :: 0 <= i < |ops| ==> FromGraph(g0, ops[i])
  }

  /** Nodes are the original ones or moves. */
  ghost predicate NodesFrom(g0: seq<Node>, g: seq<Node>)
    requires |g0| == |g| == REG_COUNT
  {
    forall l: Reg :: g[l].Move? || g[l] == g0[l]
  }

  lemma OpForFrom(g0: seq<Node>, g: seq<Node>, l: Reg, d: Reg)
    requires |g0| == |g| == REG_COUNT && NodesFrom(g0, g) && NodeOk(l, g[d]) && KindOf(l) == KindOf(d)
    ensures FromGraph(g0, OpFor(l, g[d]))
  {
  }

  // ---- Unfinished nodes ----

  /** What each register reads. */
  function Srcs(g: seq<Node>): (f: seq<nat>)
    ensures |f| == |g|
  {
    seq(|g|, i requires 0 <= i < |g| => g[i].src)
  }

  /** Registers not marked DONE. */
  ghost function Pending(done: seq<bool>): set<nat>
    requires |done| == REG_COUNT
  {
    set l: nat | l < REG_COUNT && !done[l]
  }

  /** Nodes that are not a register moved to itself. */
  function InitiallyDone(g: seq<Node>): (done: seq<bool>)
    requires |g| == REG_COUNT
    ensures |done| == REG_COUNT
  {
    seq(REG_COUNT, l requires 0 <= l < REG_COUNT => g[l].Move? && g[l].src == l)
  }

  /** Some other unfinished node reads `dst`. */
  ghost predicate Needed(g: seq<Node>, done: seq<bool>, dst: Reg)
    requires |g| == |done| == REG_COUNT
  {
    exists other: nat :: other < REG_COUNT && !done[other] && other != dst && g[other].src == dst
  }

  /** A union of cycles of the graph, each within one register kind. */
  ghost predicate IsCycles(g: seq<Node>, c: set<nat>)
    requires |g| == REG_COUNT
  {
    && c != {} && Permutes(Srcs(g), c)
    && (forall u {:trigger g[u]} :: u in c ==> KindOf(g[u].src) == KindOf(u))
  }

  /** The pigeonhole step: when every unfinished register is read by another unfinished node,
      the unfinished nodes form cycles, each within one kind, and no float register among
      them is a load. */
  lemma NoProgressIsCycles(g: seq<Node>, done: seq<bool>)
    requires GraphOk(g) && |done| == REG_COUNT && Pending(done) != {}
    requires forall d: Reg :: d in Pending(done) ==> Needed(g, done, d)
    ensures IsCycles(g, Pending(done))
    ensures forall u: Reg :: u in Pending(done) && KindOf(u) == Kind.FReg ==> g[u].Move?
  {
    var p := Pending(done);
    var f := Srcs(g);
    forall d | d in p ensures exists u :: u in p && f[u] == d {
      var r: Reg := d;
      var other: nat :| other < REG_COUNT && !done[other] && other != r && g[other].src == r;
      assert other in p && f[other] == d;
    }
    CoveredIsPermuted(f, p);
    NoFixedPoint(g, done);
    KindsKept(g, p);
  }

  lemma KindsKept(g: seq<Node>, p: set<nat>)
    requires GraphOk(g) && Within(Srcs(g), p) && Closed(Srcs(g), p) && InjectiveOn(Srcs(g), p)
    ensures forall u {:trigger g[u]} :: u in p ==>
              KindOf(g[u].src) == KindOf(u) && (KindOf(u) == Kind.FReg ==> g[u].Move?)
  {
    KindsSeparate(g, p);
    forall u {:trigger g[u]} | u in p ensures KindOf(g[u].src) == KindOf(u) && (KindOf(u) == Kind.FReg ==> g[u].Move?) {
      var r: Reg := u;
      assert NodeOk(r, g[r]);
    }
  }

  lemma NoFixedPoint(g: seq<Node>, done: seq<bool>)
    requires |g| == |done| == REG_COUNT
    requires forall d: Reg :: d in Pending(done) ==> Needed(g, done, d)
    requires InjectiveOn(Srcs(g), Pending(done)) && Closed(Srcs(g), Pending(done))
    ensures forall u {:trigger Srcs(g)[u]} :: u in Pending(done) ==> Srcs(g)[u] != u
  {
    var f := Srcs(g);
    forall u {:trigger f[u]} | u in Pending(done) ensures f[u] != u {
      var r: Reg := u;
      var other: nat :| other < REG_COUNT && !done[other] && other != r && g[other].src == r;
      assert other in Pending(done) && f[other] == u;
    }
  }

  /** In a permuted set the integer registers are permuted among themselves, so no float
      register reads one of them. */
  lemma KindsSeparate(g: seq<Node>, p: set<nat>)
    requires GraphOk(g) && Within(Srcs(g), p) && Closed(Srcs(g), p) && InjectiveOn(Srcs(g), p)
    ensures forall u {:trigger g[u]} :: u in p && KindOf(g[u].src) == Kind.IReg ==> KindOf(u) == Kind.IReg
  {
    var f := Srcs(g);
    var ints := set u | u in p && KindOf(u) == Kind.IReg;
    forall u {:trigger f[u]} | u in ints ensures f[u] in ints {
      var r: Reg := u;
      assert NodeOk(r, g[r]);
    }
    forall u {:trigger g[u]} | u in p && KindOf(g[u].src) == Kind.IReg ensures KindOf(u) == Kind.IReg {
      assert f[u] in p;
      var v := Preimage(f, ints, f[u]);
    }
  }

  /** A cycle whose nodes are all unfinished stays needed through and through. */
  lemma CycleIsNeeded(g: seq<Node>, done: seq<bool>, c: set<nat>, d: Reg)
    requires |g| == |done| == REG_COUNT && Permutes(Srcs(g), c) && c <= Pending(done) && d in c
    ensures Needed(g, done, d)
  {
    var u := Preimage(Srcs(g), c, d);
    assert u in Pending(done);
  }

  // ---- Meaning of a partly emitted shuffle ----

  /** An unfinished node will still deliver the value it denoted at the start: its source is
      intact, or its value was parked in a temporary. */
  ghost predicate Ready(n0: Node, n: Node, iTemp: Reg, fTemp: Reg, s: State, t: State) {
    || (n == n0 && t.Get(n.src) == s.Get(n.src))
    || (n.Move? && (n.src == iTemp || n.src == fTemp) && t.Get(n.src) == NodeValue(n0, s))
  }

  ghost predicate AllReady(
    g0: seq<Node>, g: seq<Node>, done: seq<bool>, iTemp: Reg, fTemp: Reg, s: State, t: State)
    requires |g0| == |g| == |done| == REG_COUNT
  {
    forall l: Reg :: !done[l] ==> Ready(g0[l], g[l], iTemp, fTemp, s, t)
  }

  /** `x` is the address of a load node, as it was at the start. */
  ghost predicate IsLoadAddr(g: seq<Node>, s: State, x: int)
    requires |g| == REG_COUNT
  {
    exists l: Reg :: g[l].LoadFrom? && x == s.Get(g[l].src) + g[l].offset
  }

  /** From start state `s`, execution has reached `t`. */
  ghost predicate SimAt(
    g0: seq<Node>, g: seq<Node>, done: seq<bool>, iTemp: Reg, fTemp: Reg, s: State, t: State)
    requires |g0| == |g| == |done| == REG_COUNT
  {
    && t.Valid() && t.params == s.params && t.slots == s.slots && t.load == s.load
    && (forall l: Reg :: done[l] && l != iTemp && l != fTemp ==> t.Get(l) == NodeValue(g0[l], s))
    && AllReady(g0, g, done, iTemp, fTemp, s, t)
    && (forall x :: x in t.loaded && x !in s.loaded ==> IsLoadAddr(g0, s, x))
  }

  ghost predicate Sim(
    g0: seq<Node>, g: seq<Node>, done: seq<bool>, iTemp: Reg, fTemp: Reg, ops: seq<Op>)
    requires |g0| == |g| == |done| == REG_COUNT
  {
    forall s: State :: s.Valid() ==> SimAt(g0, g, done, iTemp, fTemp, s, Exec(ops, s))
  }

  lemma SimStart(g: seq<Node>, iTemp: Reg, fTemp: Reg)
    requires |g| == REG_COUNT
    ensures Sim(g, g, InitiallyDone(g), iTemp, fTemp, [])
  {
    forall s: State | s.Valid() ensures SimAt(g, g, InitiallyDone(g), iTemp, fTemp, s, Exec([], s)) {
    }
  }

  /** The load a node performs now reads the address it had at the start. */
  lemma LoadAddrKept(
    g0: seq<Node>, g: seq<Node>, done: seq<bool>, iTemp: Reg, fTemp: Reg, s: State, t: State, d: Reg)
    requires |g0| == |g| == |done| == REG_COUNT && AllReady(g0, g, done, iTemp, fTemp, s, t) && !done[d]
    requires t.load == s.load
    ensures g[d].LoadFrom? ==> IsLoadAddr(g0, s, t.Get(g[d].src) + g[d].offset)
    ensures NodeValue(g[d], t) == NodeValue(g0[d], s)
  {
    assert Ready(g0[d], g[d], iTemp, fTemp, s, t);
  }

  lemma AllReadyAfterAssign(
    g0: seq<Node>, g: seq<Node>, done: seq<bool>, iTemp: Reg, fTemp: Reg, d: Reg, s: State, t: State, t': State)
    requires |g0| == |g| == |done| == REG_COUNT && AllReady(g0, g, done, iTemp, fTemp, s, t)
    requires t.Valid() && !Needed(g, done, d) && t'.regs == t.Put(d, NodeValue(g[d], t)).regs
    ensures AllReady(g0, g, done[d := true], iTemp, fTemp, s, t')
  {
    hide NodeValue;
    forall l: Reg | !done[d := true][l] ensures Ready(g0[l], g[l], iTemp, fTemp, s, t') {
      assert Ready(g0[l], g[l], iTemp, fTemp, s, t);
      assert g[l].src != d;
    }
  }

  lemma AssignStepAt(
    g0: seq<Node>, g: seq<Node>, done: seq<bool>, iTemp: Reg, fTemp: Reg, d: Reg, s: State, t: State)
    requires |g0| == |done| == REG_COUNT && GraphOk(g) && s.Valid()
    requires SimAt(g0, g, done, iTemp, fTemp, s, t)
    requires done[iTemp] && done[fTemp] && !done[d] && !Needed(g, done, d)
    ensures SimAt(g0, g, done[d := true], iTemp, fTemp, s, Step(OpFor(d, g[d]), t))
  {
    hide Step, OpFor, AllReady, Needed, IsLoadAddr, NodeValue;
    assert NodeOk(d, g[d]);
    OpForStep(d, g[d], t);
    LoadAddrKept(g0, g, done, iTemp, fTemp, s, t, d);
    AllReadyAfterAssign(g0, g, done, iTemp, fTemp, d, s, t, Step(OpFor(d, g[d]), t));
  }

  /** Emitting an unfinished node nobody else needs. */
  lemma AssignStep(
    g0: seq<Node>, g: seq<Node>, done: seq<bool>, iTemp: Reg, fTemp: Reg, ops: seq<Op>, d: Reg)
    requires |g0| == |done| == REG_COUNT && GraphOk(g)
    requires Sim(g0, g, done, iTemp, fTemp, ops)
    requires done[iTemp] && done[fTemp] && !done[d] && !Needed(g, done, d)
    ensures Sim(g0, g, done[d := true], iTemp, fTemp, ops + [OpFor(d, g[d])])
  {
    hide SimAt, Step, OpFor, Needed;
    forall s: State | s.Valid()
      ensures SimAt(g0, g, done[d := true], iTemp, fTemp, s, Exec(ops + [OpFor(d, g[d])], s))
    {
      ExecAppend(ops, OpFor(d, g[d]), s);
      AssignStepAt(g0, g, done, iTemp, fTemp, d, s, Exec(ops, s));
    }
  }

  function TempFor(d: Reg, iTemp: Reg, fTemp: Reg): Reg {
    if KindOf(d) == Kind.IReg then iTemp else fTemp
  }

  lemma ParkedReady(n0: Node, n: Node, tmp: Reg, iTemp: Reg, fTemp: Reg, s: State, t: State, t': State)
    requires Ready(n0, n, iTemp, fTemp, s, t) && t.load == s.load
    requires (tmp == iTemp || tmp == fTemp) && t'.Get(tmp) == NodeValue(n, t)
    ensures Ready(n0, Move(tmp), iTemp, fTemp, s, t')
  {
  }

  lemma AllReadyAfterBreak(
    g0: seq<Node>, g: seq<Node>, done: seq<bool>, iTemp: Reg, fTemp: Reg, d: Reg, tmp: Reg,
    s: State, t: State, t': State)
    requires |g0| == |g| == |done| == REG_COUNT && AllReady(g0, g, done, iTemp, fTemp, s, t)
    requires !done[d] && t.Valid() && t.load == s.load && (tmp == iTemp || tmp == fTemp) && done[tmp]
    requires forall l: Reg :: !done[l] ==> !done[g[l].src]
    requires t'.regs == t.Put(tmp, NodeValue(g[d], t)).regs
    ensures AllReady(g0, g[d := Move(tmp)], done, iTemp, fTemp, s, t')
  {
    assert Ready(g0[d], g[d], iTemp, fTemp, s, t);
    ParkedReady(g0[d], g[d], tmp, iTemp, fTemp, s, t, t');
    hide NodeValue;
    forall l: Reg | !done[l] && l != d ensures Ready(g0[l], g[l], iTemp, fTemp, s, t') {
      assert Ready(g0[l], g[l], iTemp, fTemp, s, t);
    }
  }

  lemma BreakStepAt(
    g0: seq<Node>, g: seq<Node>, done: seq<bool>, iTemp: Reg, fTemp: Reg, d: Reg, s: State, t: State)
    requires |g0| == |g| == |done| == REG_COUNT && s.Valid()
    requires SimAt(g0, g, done, iTemp, fTemp, s, t)
    requires done[iTemp] && done[fTemp] && !done[d]
    requires forall l: Reg :: !done[l] ==> !done[g[l].src]
    requires NodeOk(TempFor(d, iTemp, fTemp), g[d])
    ensures SimAt(g0, g[d := Move(TempFor(d, iTemp, fTemp))], done, iTemp, fTemp, s,
                  Step(OpFor(TempFor(d, iTemp, fTemp), g[d]), t))
  {
    hide Step, OpFor, NodeOk, IsLoadAddr, AllReady, NodeValue;
    var tmp := TempFor(d, iTemp, fTemp);
    OpForStep(tmp, g[d], t);
    LoadAddrKept(g0, g, done, iTemp, fTemp, s, t, d);
    AllReadyAfterBreak(g0, g, done, iTemp, fTemp, d, tmp, s, t, Step(OpFor(tmp, g[d]), t));
  }

  /** Parking the value of a node of a cycle in the temporary of its kind. */
  lemma BreakStep(
    g0: seq<Node>, g: seq<Node>, done: seq<bool>, iTemp: Reg, fTemp: Reg, ops: seq<Op>, d: Reg)
    requires |g0| == |done| == REG_COUNT && GraphOk(g)
    requires Sim(g0, g, done, iTemp, fTemp, ops)
    requires done[iTemp] && done[fTemp] && !done[d]
    requires forall l: Reg :: !done[l] ==> !done[g[l].src]
    requires NodeOk(TempFor(d, iTemp, fTemp), g[d])
    ensures var tmp := TempFor(d, iTemp, fTemp);
            Sim(g0, g[d := Move(tmp)], done, iTemp, fTemp, ops + [OpFor(tmp, g[d])])
  {
    hide SimAt, Step, OpFor;
    var tmp := TempFor(d, iTemp, fTemp);
    forall s: State | s.Valid()
      ensures SimAt(g0, g[d := Move(tmp)], done, iTemp, fTemp, s, Exec(ops + [OpFor(tmp, g[d])], s))
    {
      ExecAppend(ops, OpFor(tmp, g[d]), s);
      BreakStepAt(g0, g, done, iTemp, fTemp, d, s, Exec(ops, s));
    }
  }
}
