/** MoveResolver: a set of simultaneous assignments becomes a sequence of single moves. */
module MoveResolution {
  import opened Machine
  import opened MoveEmission
  import opened Permutations
  import opened Shuffle

  // ---- The cycle resolver ----

  /** The `assign` lambda: one node through the emitter. */
  method AssignNode(e: RewriterMoveEmitter, dst: Reg, info: Node)
    requires e.Valid() && NodeOk(dst, info)
    modifies e
    ensures e.Valid() && e.ops == old(e.ops) + [OpFor(dst, info)]
  {
    match info {
      case LoadFrom(src, offset, ldk) =>
        if KindOf(dst) == Kind.IReg {
          e.AssignIRegFromAddr(dst, src, offset, ldk);
        } else {
          e.AssignFRegFromAddr(dst - VIRT_IREGS, src, offset, ldk);
        }
      case Move(src) =>
        if KindOf(dst) == Kind.IReg {
          e.AssignIReg(dst, src);
        } else {
          e.AssignFReg(dst - VIRT_IREGS, src - VIRT_IREGS);
        }
    }
  }

  method IsNeeded(nodes: array<Node>, state: array<bool>, dst: Reg) returns (needed: bool)
    requires nodes.Length == state.Length == REG_COUNT
    ensures needed <==> Needed(nodes[..], state[..], dst)
  {
    needed := false;
    for other := 0 to REG_COUNT
      invariant !needed
      invariant forall o: nat :: o < other && !state[o] && o != dst ==> nodes[o].src != dst
    {
      if state[other] || other == dst { continue; }
      if nodes[other].src == dst {
        assert !state[..][other] && nodes[..][other].src == dst;
        return true;
      }
    }
  }

  lemma MarkDone(done: seq<bool>, d: Reg)
    requires |done| == REG_COUNT && !done[d]
    ensures Pending(done[d := true]) == Pending(done) - {d}
    ensures |Pending(done[d := true])| == |Pending(done)| - 1
  {
    assert Pending(done) == Pending(done[d := true]) + {d};
  }

  /** What a chain pass keeps: marks only grow, one operation per mark, and no cycle that was
      unfinished loses a register. */
  ghost predicate PassKeeps(g: seq<Node>, before: seq<bool>, after: seq<bool>, emitted: int)
    requires |g| == |before| == |after| == REG_COUNT
  {
    && (forall l: Reg :: before[l] ==> after[l])
    && emitted == |Pending(before)| - |Pending(after)|
    && (forall c :: Permutes(Srcs(g), c) && c <= Pending(before) ==> c <= Pending(after))
  }

  lemma PassStep(g: seq<Node>, before: seq<bool>, now: seq<bool>, emitted: int, d: Reg)
    requires |g| == |before| == |now| == REG_COUNT && PassKeeps(g, before, now, emitted)
    requires !now[d] && !Needed(g, now, d)
    ensures PassKeeps(g, before, now[d := true], emitted + 1)
  {
    hide Permutes, Needed;
    MarkDone(now, d);
    forall c | Permutes(Srcs(g), c) && c <= Pending(before) ensures c <= Pending(now[d := true]) {
      if d in c { CycleIsNeeded(g, now, c, d); }
    }
  }

  /** The state of a chain pass: `start` are the marks and `before` the operations it began with. */
  ghost predicate Passing(
    g0: seq<Node>, g: seq<Node>, start: seq<bool>, now: seq<bool>, iTemp: Reg, fTemp: Reg,
    before: seq<Op>, ops: seq<Op>)
  {
    && |g0| == |g| == |start| == |now| == REG_COUNT && GraphOk(g)
    && now[iTemp] && now[fTemp]
    && Sim(g0, g, now, iTemp, fTemp, before + ops)
    && NodesFrom(g0, g) && AllFromGraph(g0, before + ops)
    && PassKeeps(g, start, now, |ops|)
  }

  lemma PassingStep(
    g0: seq<Node>, g: seq<Node>, start: seq<bool>, now: seq<bool>, iTemp: Reg, fTemp: Reg,
    before: seq<Op>, ops: seq<Op>, d: Reg)
    requires Passing(g0, g, start, now, iTemp, fTemp, before, ops) && !now[d] && !Needed(g, now, d)
    ensures NodeOk(d, g[d])
    ensures Passing(g0, g, start, now[d := true], iTemp, fTemp, before, ops + [OpFor(d, g[d])])
  {
    hide Sim, PassKeeps, Needed, OpFor, FromGraph, NodesFrom;
    OpForFrom(g0, g, d, d);
    AssignStep(g0, g, now, iTemp, fTemp, before + ops, d);
    PassStep(g, start, now, |ops|, d);
    assert before + ops + [OpFor(d, g[d])] == before + (ops + [OpFor(d, g[d])]);
  }

  /** One pass over the registers, finishing every node nobody needs. */
  method ChainPass(
    nodes: array<Node>, state: array<bool>, e: RewriterMoveEmitter, iTemp: Reg, fTemp: Reg,
    ghost g0: seq<Node>, ghost before: seq<Op>) returns (changed: bool, ghost ops: seq<Op>)
    requires nodes.Length == state.Length == REG_COUNT && e.Valid()
    requires Passing(g0, nodes[..], state[..], state[..], iTemp, fTemp, before, [])
    modifies state, e
    ensures e.Valid() && e.ops == old(e.ops) + ops
    ensures Passing(g0, nodes[..], old(state[..]), state[..], iTemp, fTemp, before, ops)
    ensures changed <==> ops != []
    ensures !changed ==> forall d: Reg :: !state[d] ==> Needed(nodes[..], state[..], d)
  {
    hide Passing, Needed, LowerAll;
    changed, ops := false, [];
    ghost var start := state[..];
    for dst := 0 to REG_COUNT
      invariant e.Valid() && e.ops == old(e.ops) + ops
      invariant Passing(g0, nodes[..], start, state[..], iTemp, fTemp, before, ops)
      invariant changed <==> ops != []
      invariant !changed ==> forall d: Reg :: d < dst && !state[d] ==> Needed(nodes[..], state[..], d)
    {
      if !state[dst] {
        var needed := IsNeeded(nodes, state, dst);
        if !needed {
          PassingStep(g0, nodes[..], start, state[..], iTemp, fTemp, before, ops, dst);
          ops := ops + [OpFor(dst, nodes[dst])];
          Finish(nodes, state, e, dst);
          changed := true;
        }
      }
    }
  }

  method Finish(nodes: array<Node>, state: array<bool>, e: RewriterMoveEmitter, dst: Reg)
    requires nodes.Length == state.Length == REG_COUNT && e.Valid() && NodeOk(dst, nodes[dst])
    modifies state, e
    ensures e.Valid() && e.ops == old(e.ops) + [OpFor(dst, nodes[dst])]
    ensures state[..] == old(state[..])[dst := true]
  {
    AssignNode(e, dst, nodes[dst]);
    state[dst] := true;
  }

  // ---- The whole fixed point ----

  /** Bookkeeping of the cycle resolver: the operations so far and, once a cycle was `broken`,
      the nodes `last` that were unfinished then and the node `at` whose value was parked;
      `cycles` are those emitted completely. */
  datatype Progress = Progress(ops: seq<Op>, broken: bool, last: set<nat>, at: Reg, cycles: seq<set<nat>>) {

    /** The cycles emitted completely when `now` is what is left. */
    ghost function Emitted(now: set<nat>): seq<set<nat>> {
      if broken then cycles + [last - now] else cycles
    }

    ghost function Broke(now: set<nat>, d: Reg, op: Op): Progress {
      Progress(ops + [op], true, now, d, Emitted(now))
    }
  }

  ghost predicate Resolving(
    g0: seq<Node>, g: seq<Node>, done: seq<bool>, iTemp: Reg, fTemp: Reg, p: Progress)
  {
    && |g0| == |g| == |done| == REG_COUNT && GraphOk(g)
    && done[iTemp] && done[fTemp] && KindOf(iTemp) == Kind.IReg && KindOf(fTemp) == Kind.FReg
    && Sim(g0, g, done, iTemp, fTemp, p.ops)
    && NodesFrom(g0, g) && AllFromGraph(g0, p.ops)
    && (forall l: Reg :: !done[l] ==> g[l] == g0[l] || done[g[l].src])
    && |p.ops| + |Pending(done)| == |Pending(InitiallyDone(g0))| + |p.cycles| + (if p.broken then 1 else 0)
    && AreCycles(g0, p.cycles)
    && (if p.broken then
          && IsCycles(g0, p.last) && Pending(done) <= p.last && p.at in p.last
          && (done[p.at] || done[g[p.at].src])
          && (forall i :: 0 <= i < |p.cycles| ==> p.cycles[i] !! p.last)
        else
          && p.cycles == [] && g == g0
          && (forall c :: Permutes(Srcs(g0), c) ==> c <= Pending(done)))
  }

  /** Pairwise disjoint unions of cycles of the graph. */
  ghost predicate AreCycles(g0: seq<Node>, cycles: seq<set<nat>>)
    requires |g0| == REG_COUNT
  {
    PairwiseDisjoint(cycles) && forall i :: 0 <= i < |cycles| ==> IsCycles(g0, cycles[i])
  }

  /** The temporaries are of their kinds and nobody's destination. */
  predicate TempsFree(g: seq<Node>, iTemp: Reg, fTemp: Reg)
    requires |g| == REG_COUNT
  {
    && KindOf(iTemp) == Kind.IReg && KindOf(fTemp) == Kind.FReg
    && g[iTemp] == Move(iTemp) && g[fTemp] == Move(fTemp)
  }

  lemma ResolvingStart(g: seq<Node>, iTemp: Reg, fTemp: Reg)
    requires GraphOk(g) && TempsFree(g, iTemp, fTemp)
    ensures Resolving(g, g, InitiallyDone(g), iTemp, fTemp, Progress([], false, {}, iTemp, []))
  {
    hide Sim;
    SimStart(g, iTemp, fTemp);
    forall c | Permutes(Srcs(g), c) ensures c <= Pending(InitiallyDone(g)) {
      forall u | u in c ensures u in Pending(InitiallyDone(g)) { assert Srcs(g)[u] != u; }
    }
  }

  lemma ResolvingPass(
    g0: seq<Node>, g: seq<Node>, done: seq<bool>, done': seq<bool>, iTemp: Reg, fTemp: Reg,
    p: Progress, more: seq<Op>)
    requires Resolving(g0, g, done, iTemp, fTemp, p)
    requires Passing(g0, g, done, done', iTemp, fTemp, p.ops, more)
    ensures Resolving(g0, g, done', iTemp, fTemp, p.(ops := p.ops + more))
    ensures |Pending(done')| == |Pending(done)| - |more|
    ensures more == [] ==> done' == done
  {
    hide Sim, GraphOk, IsCycles, AreCycles, Permutes, NodesFrom, AllFromGraph;
    assert Pending(done') <= Pending(done);
    SubsetSize(Pending(done'), Pending(done));
    if more == [] {
      forall l: Reg ensures done'[l] == done[l] { assert l in Pending(done) <==> l in Pending(done'); }
      assert forall l :: 0 <= l < REG_COUNT ==> done'[l] == done[l];
    }
  }

  /** The unfinished nodes when nothing moves: a set of cycles of the original graph. */
  lemma StuckIsCycles(
    g0: seq<Node>, g: seq<Node>, done: seq<bool>, iTemp: Reg, fTemp: Reg, p: Progress)
    requires Resolving(g0, g, done, iTemp, fTemp, p)
    requires Pending(done) != {} && forall d: Reg :: !done[d] ==> Needed(g, done, d)
    ensures IsCycles(g, Pending(done)) && IsCycles(g0, Pending(done))
    ensures forall u: Reg :: !done[u] ==> !done[g[u].src] && g[u] == g0[u] && NodeOk(TempFor(u, iTemp, fTemp), g[u])
  {
    hide Sim, AreCycles, Needed, NodesFrom, AllFromGraph;
    NoProgressIsCycles(g, done);
    forall u: Reg | !done[u] ensures !done[g[u].src] && g[u] == g0[u] && NodeOk(TempFor(u, iTemp, fTemp), g[u]) {
      CycleNode(g, done, iTemp, fTemp, u);
    }
    SameOn(g0, g, Pending(done));
  }

  lemma CycleNode(g: seq<Node>, done: seq<bool>, iTemp: Reg, fTemp: Reg, u: Reg)
    requires |done| == REG_COUNT && GraphOk(g) && IsCycles(g, Pending(done)) && !done[u]
    requires KindOf(u) == Kind.FReg ==> g[u].Move?
    requires KindOf(iTemp) == Kind.IReg && KindOf(fTemp) == Kind.FReg
    ensures !done[g[u].src] && NodeOk(TempFor(u, iTemp, fTemp), g[u])
  {
    assert u in Pending(done) && Srcs(g)[u] in Pending(done);
    assert NodeOk(u, g[u]);
  }

  lemma SameOn(g0: seq<Node>, g: seq<Node>, c: set<nat>)
    requires |g0| == |g| == REG_COUNT && IsCycles(g, c) && forall u: Reg :: u in c ==> g[u] == g0[u]
    ensures IsCycles(g0, c)
  {
    forall u {:trigger g0[u]} | u in c ensures g0[u] == g[u] { var r: Reg := u; }
    assert forall u {:trigger Srcs(g0)[u]} :: u in c ==> Srcs(g0)[u] == Srcs(g)[u];
  }

  lemma CyclesClose(g0: seq<Node>, last: set<nat>, now: set<nat>, at: nat, cycles: seq<set<nat>>)
    requires |g0| == REG_COUNT && AreCycles(g0, cycles) && IsCycles(g0, last) && (now == {} || IsCycles(g0, now))
    requires now <= last && at in last && at !in now
    requires forall i :: 0 <= i < |cycles| ==> cycles[i] !! last
    ensures AreCycles(g0, cycles + [last - now])
    ensures forall i :: 0 <= i < |cycles + [last - now]| ==> (cycles + [last - now])[i] !! now
  {
    assert Permutes(Srcs(g0), now);
    Difference(Srcs(g0), last, now);
    assert at in last - now;
  }

  /** Breaking a cycle at `d` when nothing moves. */
  lemma ResolvingBreak(
    g0: seq<Node>, g: seq<Node>, done: seq<bool>, iTemp: Reg, fTemp: Reg, p: Progress, d: Reg)
    requires Resolving(g0, g, done, iTemp, fTemp, p)
    requires !done[d] && forall l: Reg :: !done[l] ==> Needed(g, done, l)
    ensures var tmp := TempFor(d, iTemp, fTemp);
            NodeOk(tmp, g[d]) &&
            Resolving(g0, g[d := Move(tmp)], done, iTemp, fTemp, p.Broke(Pending(done), d, OpFor(tmp, g[d])))
    ensures |Reading(g[d := Move(TempFor(d, iTemp, fTemp))], done)| < |Reading(g, done)|
  {
    hide Sim, Needed, OpFor, AreCycles, IsCycles, NodeOk, FromGraph, AllFromGraph, NodesFrom, GraphOk;
    assert d in Pending(done);
    StuckIsCycles(g0, g, done, iTemp, fTemp, p);
    BreakStep(g0, g, done, iTemp, fTemp, p.ops, d);
    OpForFrom(g0, g, TempFor(d, iTemp, fTemp), d);
    FromAppended(g0, p.ops, OpFor(TempFor(d, iTemp, fTemp), g[d]));
    if p.broken { CyclesClose(g0, p.last, Pending(done), p.at, p.cycles); }
    BreakKeepsGraph(g0, g, done, iTemp, fTemp, d);
  }

  lemma FromAppended(g0: seq<Node>, ops: seq<Op>, op: Op)
    requires |g0| == REG_COUNT && AllFromGraph(g0, ops) && FromGraph(g0, op)
    ensures AllFromGraph(g0, ops + [op])
  {
    hide FromGraph;
  }

  /** Unfinished nodes that read an unfinished register. */
  ghost function Reading(g: seq<Node>, done: seq<bool>): set<nat>
    requires |g| == |done| == REG_COUNT
  {
    set l: nat | l < REG_COUNT && !done[l] && !done[g[l].src]
  }

  lemma BreakKeepsGraph(g0: seq<Node>, g: seq<Node>, done: seq<bool>, iTemp: Reg, fTemp: Reg, d: Reg)
    requires |g0| == |done| == REG_COUNT && GraphOk(g) && NodesFrom(g0, g) && done[iTemp] && done[fTemp] && !done[d]
    requires !done[g[d].src]
    requires KindOf(iTemp) == Kind.IReg && KindOf(fTemp) == Kind.FReg
    ensures GraphOk(g[d := Move(TempFor(d, iTemp, fTemp))]) && NodesFrom(g0, g[d := Move(TempFor(d, iTemp, fTemp))])
    ensures |Reading(g[d := Move(TempFor(d, iTemp, fTemp))], done)| < |Reading(g, done)|
  {
    assert d in Reading(g, done);
    SubsetSize(Reading(g[d := Move(TempFor(d, iTemp, fTemp))], done), Reading(g, done));
  }

  // ---- What the shuffle achieves ----

  /** Executing `ops` from any state gives every register but the temporaries the value its node
      had there, touches no slot, and loads only from the addresses of the graph. */
  ghost predicate Shuffled(g0: seq<Node>, iTemp: Reg, fTemp: Reg, ops: seq<Op>)
    requires |g0| == REG_COUNT
  {
    forall s: State :: s.Valid() ==>
      var t := Exec(ops, s);
      && t.params == s.params
      && (forall l: Reg :: l != iTemp && l != fTemp ==> t.Get(l) == NodeValue(g0[l], s))
      && (forall x :: x in t.loaded && x !in s.loaded ==> IsLoadAddr(g0, s, x))
  }

  /** The price: one operation for each node that is not a self-move, plus one for each of the
      disjoint cycle sets in `cycles`; there are none exactly when the graph has no cycle. */
  ghost predicate Cost(g0: seq<Node>, ops: seq<Op>, cycles: seq<set<nat>>)
    requires |g0| == REG_COUNT
  {
    && AreCycles(g0, cycles)
    && |ops| == |Pending(InitiallyDone(g0))| + |cycles|
    && (cycles == [] ==> forall c :: Permutes(Srcs(g0), c) ==> c == {})
  }

  lemma ResolvingEnd(
    g0: seq<Node>, g: seq<Node>, done: seq<bool>, iTemp: Reg, fTemp: Reg, p: Progress)
    requires Resolving(g0, g, done, iTemp, fTemp, p)
    requires forall l: Reg :: done[l]
    ensures Shuffled(g0, iTemp, fTemp, p.ops)
    ensures Cost(g0, p.ops, p.Emitted({}))
    ensures AllFromGraph(g0, p.ops)
  {
    hide Permutes, AllFromGraph, NodesFrom;
    assert Pending(done) == {};
    if p.broken { CyclesClose(g0, p.last, {}, p.at, p.cycles); }
    EndShuffled(g0, g, done, iTemp, fTemp, p.ops);
  }

  lemma EndShuffled(g0: seq<Node>, g: seq<Node>, done: seq<bool>, iTemp: Reg, fTemp: Reg, ops: seq<Op>)
    requires |g0| == |g| == |done| == REG_COUNT && Sim(g0, g, done, iTemp, fTemp, ops) && forall l: Reg :: done[l]
    ensures Shuffled(g0, iTemp, fTemp, ops)
  {
    hide IsLoadAddr;
    forall s: State | s.Valid()
      ensures var t := Exec(ops, s);
        && t.params == s.params
        && (forall l: Reg :: l != iTemp && l != fTemp ==> t.Get(l) == NodeValue(g0[l], s))
        && (forall x :: x in t.loaded && x !in s.loaded ==> IsLoadAddr(g0, s, x))
    {
      assert SimAt(g0, g, done, iTemp, fTemp, s, Exec(ops, s));
    }
  }

  /** At most one extra operation for every two registers assigned. */
  lemma CostBound(g0: seq<Node>, ops: seq<Op>, cycles: seq<set<nat>>)
    requires |g0| == REG_COUNT && Cost(g0, ops, cycles)
    ensures var n := |Pending(InitiallyDone(g0))|; |ops| <= n + n / 2
  {
    var all := Pending(InitiallyDone(g0));
    forall i | 0 <= i < |cycles| ensures cycles[i] <= all {
      assert IsCycles(g0, cycles[i]);
      CyclesUnfinished(g0, cycles[i]);
    }
    CyclesAreFew(Srcs(g0), cycles, all);
  }

  lemma CyclesUnfinished(g0: seq<Node>, c: set<nat>)
    requires |g0| == REG_COUNT && Permutes(Srcs(g0), c)
    ensures c <= Pending(InitiallyDone(g0))
  {
    forall u | u in c ensures u in Pending(InitiallyDone(g0)) { assert Srcs(g0)[u] != u; }
  }

  method FirstUnfinished(state: array<bool>) returns (dst: nat)
    requires state.Length == REG_COUNT
    ensures dst <= REG_COUNT && (dst < REG_COUNT ==> !state[dst])
    ensures forall l :: 0 <= l < dst ==> state[l]
  {
    dst := 0;
    while dst < REG_COUNT && state[dst]
      invariant dst <= REG_COUNT && forall l :: 0 <= l < dst ==> state[l]
    {
      dst := dst + 1;
    }
  }

  method MarkSelfMoves(nodes: array<Node>) returns (state: array<bool>)
    requires nodes.Length == REG_COUNT
    ensures fresh(state) && state.Length == REG_COUNT && state[..] == InitiallyDone(nodes[..])
  {
    state := new bool[REG_COUNT](_ => false);
    for dst := 0 to REG_COUNT
      invariant forall l :: 0 <= l < REG_COUNT ==> state[l] == (l < dst && nodes[l].Move? && nodes[l].src == l)
    {
      if nodes[dst].src == dst && nodes[dst].Move? {
        state[dst] := true;
      }
    }
  }

  /** Executes the node of `dst` into `tmp` and rewrites it to `dst <- tmp`. */
  method Park(nodes: array<Node>, e: RewriterMoveEmitter, dst: Reg, tmp: Reg)
    requires nodes.Length == REG_COUNT && e.Valid() && NodeOk(tmp, nodes[dst])
    modifies nodes, e
    ensures e.Valid() && e.ops == old(e.ops) + [OpFor(tmp, old(nodes[dst]))]
    ensures nodes[..] == old(nodes[..])[dst := Move(tmp)]
  {
    AssignNode(e, tmp, nodes[dst]);
    nodes[dst] := Move(tmp);
  }

  /** The `cycleResolver` lambda. */
  method CycleResolver(nodes: array<Node>, e: RewriterMoveEmitter, iTemp: Reg, fTemp: Reg)
    returns (ghost ops: seq<Op>, ghost cycles: seq<set<nat>>)
    requires nodes.Length == REG_COUNT && GraphOk(nodes[..]) && TempsFree(nodes[..], iTemp, fTemp) && e.Valid()
    modifies nodes, e
    ensures e.Valid() && e.ops == old(e.ops) + ops
    ensures Shuffled(old(nodes[..]), iTemp, fTemp, ops)
    ensures Cost(old(nodes[..]), ops, cycles)
    ensures AllFromGraph(old(nodes[..]), ops)
  {
    hide Resolving, Pending, Reading, Shuffled, Cost, LowerAll, AllFromGraph;
    ghost var g0 := nodes[..];
    var state := MarkSelfMoves(nodes);
    ResolvingStart(g0, iTemp, fTemp);
    ghost var p := Progress([], false, {}, iTemp, []);
    var changed := true;
    while changed
      invariant e.Valid() && e.ops == old(e.ops) + p.ops
      invariant Resolving(g0, nodes[..], state[..], iTemp, fTemp, p)
      invariant !changed ==> forall l: Reg :: state[l]
      decreases |Pending(state[..])|, |Reading(nodes[..], state[..])|, changed
    {
      changed, p := Round(nodes, state, e, iTemp, fTemp, g0, old(e.ops), p);
    }
    ResolvingEnd(g0, nodes[..], state[..], iTemp, fTemp, p);
    ops, cycles := p.ops, p.Emitted({});
  }

  /** One iteration: a chain pass and, when it changed nothing, the breaking of one cycle. */
  method Round(
    nodes: array<Node>, state: array<bool>, e: RewriterMoveEmitter, iTemp: Reg, fTemp: Reg,
    ghost g0: seq<Node>, ghost before: seq<Op>, ghost p: Progress) returns (changed: bool, ghost q: Progress)
    requires nodes.Length == state.Length == REG_COUNT && e.Valid() && e.ops == before + p.ops
    requires Resolving(g0, nodes[..], state[..], iTemp, fTemp, p)
    modifies nodes, state, e
    ensures e.Valid() && e.ops == before + q.ops
    ensures Resolving(g0, nodes[..], state[..], iTemp, fTemp, q)
    ensures !changed ==> forall l: Reg :: state[l]
    ensures Decreases(old(nodes[..]), old(state[..]), nodes[..], state[..], changed)
  {
    hide Resolving, Passing, Needed, Pending, Reading, OpFor, NodeOk, LowerAll;
    hide Decreases;
    ghost var g, was := nodes[..], state[..];
    PassingStart(g0, g, was, iTemp, fTemp, p);
    ghost var more;
    changed, more := ChainPass(nodes, state, e, iTemp, fTemp, g0, p.ops);
    assert nodes[..] == g;
    ResolvingPass(g0, g, was, state[..], iTemp, fTemp, p, more);
    PassDecreases(g, was, state[..]);
    q := p.(ops := p.ops + more);
    if !changed {
      changed, q := BreakCycle(nodes, state, e, iTemp, fTemp, g0, before, q);
    }
  }

  /** Progress of an iteration: fewer unfinished nodes, or fewer that read an unfinished one. */
  ghost predicate Decreases(g: seq<Node>, done: seq<bool>, g': seq<Node>, done': seq<bool>, changed: bool)
    requires |g| == |done| == |g'| == |done'| == REG_COUNT
  {
    if !changed then g == g' && done == done'
    else |Pending(done')| < |Pending(done)| || (done' == done && |Reading(g', done)| < |Reading(g, done)|)
  }

  lemma PassDecreases(g: seq<Node>, done: seq<bool>, done': seq<bool>)
    requires |g| == |done| == |done'| == REG_COUNT
    ensures |Pending(done')| < |Pending(done)| ==> Decreases(g, done, g, done', true)
  {
  }

  /** When only cycles are left, breaks one through the temporary of its kind. */
  method BreakCycle(
    nodes: array<Node>, state: array<bool>, e: RewriterMoveEmitter, iTemp: Reg, fTemp: Reg,
    ghost g0: seq<Node>, ghost before: seq<Op>, ghost p: Progress) returns (changed: bool, ghost q: Progress)
    requires nodes.Length == state.Length == REG_COUNT && e.Valid() && e.ops == before + p.ops
    requires Resolving(g0, nodes[..], state[..], iTemp, fTemp, p)
    requires forall d: Reg :: !state[d] ==> Needed(nodes[..], state[..], d)
    modifies nodes, e
    ensures e.Valid() && e.ops == before + q.ops
    ensures Resolving(g0, nodes[..], state[..], iTemp, fTemp, q)
    ensures !changed ==> forall l: Reg :: state[l]
    ensures Decreases(old(nodes[..]), state[..], nodes[..], state[..], changed)
  {
    hide Resolving, Passing, Needed, Pending, Reading, OpFor, NodeOk, LowerAll;
    var dst := FirstUnfinished(state);
    if dst == REG_COUNT { return false, p; }
    var tmp := TempFor(dst, iTemp, fTemp);
    ResolvingBreak(g0, nodes[..], state[..], iTemp, fTemp, p, dst);
    q := p.Broke(Pending(state[..]), dst, OpFor(tmp, nodes[dst]));
    Park(nodes, e, dst, tmp);
    changed := true;
  }

  lemma PassingStart(
    g0: seq<Node>, g: seq<Node>, done: seq<bool>, iTemp: Reg, fTemp: Reg, p: Progress)
    requires Resolving(g0, g, done, iTemp, fTemp, p)
    ensures Passing(g0, g, done, done, iTemp, fTemp, p.ops, [])
  {
    hide Sim, AreCycles, IsCycles, GraphOk, AllFromGraph, NodesFrom;
    assert p.ops + [] == p.ops;
  }
}
