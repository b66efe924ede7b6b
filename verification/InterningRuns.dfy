/** Concurrent globalization: threads interleave at the locked lookup-or-insert steps of Globalize
    and still agree on one global term for every structure. */
module InterningRuns {
  import opened Terms

  /** A global term: its index among all global terms, the builtin ones first. */
  type Handle = nat

  /** What the cache compares: the identifier and, by pointer, the global subterms. */
  datatype Key = Key(id: TermId, subs: seq<Handle>)

  /** Subterms are interned before the terms that contain them; no key is interned twice. */
  ghost predicate CacheOk(cache: seq<Key>) {
    && (forall k, i :: 0 <= k < |cache| && 0 <= i < |cache[k].subs| ==> cache[k].subs[i] < k)
    && (forall k, m :: 0 <= k < m < |cache| ==> cache[k] != cache[m])
  }

  function StructureOf(cache: seq<Key>, k: Handle): Tree
    requires CacheOk(cache) && k < |cache|
    decreases k
  {
    Tree(cache[k].id, seq(|cache[k].subs|, i requires 0 <= i < |cache[k].subs| => StructureOf(cache, cache[k].subs[i])))
  }

  lemma {:induction false} StructurePrefix(cache: seq<Key>, cache': seq<Key>, k: Handle)
    requires CacheOk(cache) && CacheOk(cache') && cache <= cache' && k < |cache|
    ensures StructureOf(cache', k) == StructureOf(cache, k)
    decreases k
  {
    assert cache'[k] == cache[k];
    forall i | 0 <= i < |cache[k].subs| ensures StructureOf(cache', cache[k].subs[i])
        == StructureOf(cache, cache[k].subs[i]) {
      StructurePrefix(cache, cache', cache[k].subs[i]);
    }
    assert StructureOf(cache', k).subs == StructureOf(cache, k).subs;
  }

  /** Interning is canonical: different global terms have different structures. */
  lemma {:induction false} Canonical(cache: seq<Key>, k: Handle, m: Handle)
    requires CacheOk(cache) && k < |cache| && m < |cache| && StructureOf(cache, k) == StructureOf(cache, m)
    ensures k == m
    decreases k
  {
    var s, t := StructureOf(cache, k), StructureOf(cache, m);
    forall i | 0 <= i < |cache[k].subs| ensures cache[k].subs[i] == cache[m].subs[i] {
      assert s.subs[i] == t.subs[i];
      Canonical(cache, cache[k].subs[i], cache[m].subs[i]);
    }
    assert |s.subs| == |cache[k].subs| && |t.subs| == |cache[m].subs|;
    assert cache[k] == cache[m];
  }

  // ---- Threads ----

  /** A term to globalize: a global one, or a local one over such terms. */
  datatype Input = Global(handle: Handle) | Local(id: TermId, subs: seq<Input>)

  /** Local terms are never builtins, so the lookup never meets those: they are outside the cache proper. */
  ghost predicate InputOk(cache: seq<Key>, x: Input) {
    match x
    case Global(k) => k < |cache|
    case Local(id, subs) => !IsBuiltin(id) && forall i :: 0 <= i < |subs| ==> InputOk(cache, subs[i])
  }

  function InputTree(cache: seq<Key>, x: Input): Tree
    requires CacheOk(cache) && InputOk(cache, x)
  {
    match x
    case Global(k) => StructureOf(cache, k)
    case Local(id, subs) => Tree(id, seq(|subs|, i requires 0 <= i < |subs| => InputTree(cache, subs[i])))
  }

  lemma {:induction false} InputPrefix(cache: seq<Key>, cache': seq<Key>, x: Input)
    requires CacheOk(cache) && CacheOk(cache') && cache <= cache' && InputOk(cache, x)
    ensures InputOk(cache', x) && InputTree(cache', x) == InputTree(cache, x)
  {
    match x
    case Global(k) => StructurePrefix(cache, cache', k);
    case Local(_, subs) =>
      forall i | 0 <= i < |subs| ensures InputOk(cache', subs[i])
          && InputTree(cache', subs[i]) == InputTree(cache, subs[i]) {
        InputPrefix(cache, cache', subs[i]);
      }
      assert InputTree(cache', x).subs == InputTree(cache, x).subs;
  }

  /** An activation of Globalize: a local term and the global subterms it has so far. */
  datatype Frame = Frame(term: Input, done: seq<Handle>)

  /** The stack of activations, outermost first, or the result. */
  datatype Thread = Running(stack: seq<Frame>) | Finished(handle: Handle)

  function Start(x: Input): Thread { if x.Global? then Finished(x.handle) else Running([Frame(x, [])]) }

  /** cache.find, or cache.insert when there is none: one atomic step under the lock. */
  ghost function LookupOrInsert(cache: seq<Key>, key: Key): (Handle, seq<Key>) {
    if k: nat :| k < |cache| && cache[k] == key then (k, cache) else (|cache|, cache + [key])
  }

  /** An activation receives the global term of its next subterm. */
  function Receive(stack: seq<Frame>, k: Handle): Thread {
    if stack == [] then Finished(k) else
      var n := |stack| - 1;
      Running(stack[n := Frame(stack[n].term, stack[n].done + [k])])
  }

  /** The next step of a thread: descend into a subterm, or intern the finished one. */
  ghost function Next(cache: seq<Key>, t: Thread): (Thread, seq<Key>) {
    if t.Finished? || t.stack == [] || t.stack[|t.stack| - 1].term.Global? then (t, cache) else
      var n := |t.stack| - 1;
      var top := t.stack[n];
      if |top.done| < |top.term.subs| then
        var x := top.term.subs[|top.done|];
        (if x.Global? then Receive(t.stack, x.handle) else Running(t.stack + [Frame(x, [])]), cache)
      else
        var r := LookupOrInsert(cache, Key(top.term.id, top.done));
        (Receive(t.stack[..n], r.0), r.1)
  }

  // ---- The invariant ----

  /** The subterms done so far have the structures they should have. */
  ghost predicate FrameOk(cache: seq<Key>, f: Frame)
    requires CacheOk(cache)
  {
    && f.term.Local? && InputOk(cache, f.term) && |f.done| <= |f.term.subs|
    && forall i :: 0 <= i < |f.done| ==>
         f.done[i] < |cache| && InputOk(cache, f.term.subs[i])
             && StructureOf(cache, f.done[i]) == InputTree(cache, f.term.subs[i])
  }

  /** Each activation works on the next subterm of the one that called it. */
  ghost predicate ThreadOk(cache: seq<Key>, x: Input, t: Thread)
    requires CacheOk(cache)
  {
    && InputOk(cache, x)
    && match t
       case Finished(k) => k < |cache| && StructureOf(cache, k) == InputTree(cache, x)
       case Running(stack) =>
         && stack != [] && stack[0].term == x
         && (forall i :: 0 <= i < |stack| ==> FrameOk(cache, stack[i]))
         && (forall i :: 0 <= i < |stack| - 1 ==>
               |stack[i].done| < |stack[i].term.subs| && stack[i].term.subs[|stack[i].done|] == stack[i + 1].term)
  }

  lemma FramePrefix(cache: seq<Key>, cache': seq<Key>, f: Frame)
    requires CacheOk(cache) && CacheOk(cache') && cache <= cache' && FrameOk(cache, f)
    ensures FrameOk(cache', f)
  {
    InputPrefix(cache, cache', f.term);
    forall i | 0 <= i < |f.done|
      ensures f.done[i] < |cache'| && InputOk(cache', f.term.subs[i])
      ensures StructureOf(cache', f.done[i]) == InputTree(cache', f.term.subs[i])
    {
      StructurePrefix(cache, cache', f.done[i]);
      InputPrefix(cache, cache', f.term.subs[i]);
    }
  }

  /** What other threads add to the cache does not disturb a thread. */
  lemma ThreadPrefix(cache: seq<Key>, cache': seq<Key>, x: Input, t: Thread)
    requires CacheOk(cache) && CacheOk(cache') && cache <= cache' && ThreadOk(cache, x, t)
    ensures ThreadOk(cache', x, t)
  {
    hide FrameOk, StructureOf, InputTree;
    InputPrefix(cache, cache', x);
    match t
    case Finished(k) => StructurePrefix(cache, cache', k);
    case Running(stack) =>
      forall i | 0 <= i < |stack| ensures FrameOk(cache', stack[i]) { FramePrefix(cache, cache', stack[i]); }
  }

  lemma InternOk(cache: seq<Key>, f: Frame)
    requires CacheOk(cache) && FrameOk(cache, f) && |f.done| == |f.term.subs|
    ensures var r := LookupOrInsert(cache, Key(f.term.id, f.done));
            && cache <= r.1 && CacheOk(r.1) && r.0 < |r.1| && InputOk(r.1, f.term)
            && StructureOf(r.1, r.0) == InputTree(r.1, f.term)
  {
    var r := LookupOrInsert(cache, Key(f.term.id, f.done));
    assert cache <= r.1 && CacheOk(r.1) && r.0 < |r.1| && r.1[r.0] == Key(f.term.id, f.done) by {
      hide StructureOf, InputTree, InputOk;
    }
    FramePrefix(cache, r.1, f);
    assert StructureOf(r.1, r.0).subs == InputTree(r.1, f.term).subs;
  }

  /** The innermost activation waits for the global term of `term`. */
  predicate Awaits(stack: seq<Frame>, term: Input) {
    stack != [] &&
    var top := stack[|stack| - 1];
    top.term.Local? && |top.done| < |top.term.subs| && top.term.subs[|top.done|] == term
  }

  /** A subterm's global term is what the activation below was waiting for. */
  lemma ReceiveOk(cache: seq<Key>, x: Input, stack: seq<Frame>, k: Handle, term: Input)
    requires CacheOk(cache) && InputOk(cache, x) && InputOk(cache, term)
    requires k < |cache| && StructureOf(cache, k) == InputTree(cache, term)
    requires stack == [] ==> term == x
    requires stack != [] ==> ThreadOk(cache, x, Running(stack)) && Awaits(stack, term)
    ensures ThreadOk(cache, x, Receive(stack, k))
  {
    hide StructureOf, InputTree, InputOk;
    if stack != [] {
      var n := |stack| - 1;
      var top := stack[n];
      var f := Frame(top.term, top.done + [k]);
      assert FrameOk(cache, top);
      assert FrameOk(cache, f);
      hide FrameOk;
      var stack' := stack[n := f];
      forall i | 0 <= i < |stack'| ensures FrameOk(cache, stack'[i]) {}
    }
  }

  /** Every step of a thread keeps the cache canonical and the thread on its way. */
  lemma NextOk(cache: seq<Key>, x: Input, t: Thread)
    requires CacheOk(cache) && ThreadOk(cache, x, t)
    ensures var r := Next(cache, t); cache <= r.1 && CacheOk(r.1) && ThreadOk(r.1, x, r.0)
  {
    hide StructureOf, InputTree, LookupOrInsert, Receive, CacheOk;
    if t.Running? {
      var n := |t.stack| - 1;
      var top := t.stack[n];
      assert FrameOk(cache, top);
      if |top.done| < |top.term.subs| {
        var y := top.term.subs[|top.done|];
        if y.Global? {
          GlobalTree(cache, y);
          ReceiveOk(cache, x, t.stack, y.handle, y);
        } else {
          assert FrameOk(cache, Frame(y, []));
        }
      } else {
        InternOk(cache, top);
        var r := LookupOrInsert(cache, Key(top.term.id, top.done));
        ThreadPrefix(cache, r.1, x, t);
        hide FrameOk;
        PopOk(r.1, x, t.stack);
        ReceiveOk(r.1, x, t.stack[..n], r.0, top.term);
      }
    }
  }

  lemma GlobalTree(cache: seq<Key>, y: Input)
    requires CacheOk(cache) && InputOk(cache, y) && y.Global?
    ensures InputTree(cache, y) == StructureOf(cache, y.handle)
  {
  }

  lemma PopOk(cache: seq<Key>, x: Input, stack: seq<Frame>)
    requires CacheOk(cache) && ThreadOk(cache, x, Running(stack))
    ensures var n := |stack| - 1;
            if n == 0 then stack[0].term == x
            else ThreadOk(cache, x, Running(stack[..n])) && Awaits(stack[..n], stack[n].term)
  {
    hide InputOk, StructureOf, InputTree;
    var n := |stack| - 1;
    if n > 0 { assert FrameOk(cache, stack[n - 1]); }
  }

  // ---- Runs ----

  /** All threads share the cache; thread `i` globalizes input `i`. */
  datatype System = System(cache: seq<Key>, threads: seq<Thread>)

  ghost predicate SystemOk(inputs: seq<Input>, s: System) {
    CacheOk(s.cache) && |s.threads| == |inputs| && forall i :: 0 <= i < |inputs| ==>
        ThreadOk(s.cache, inputs[i], s.threads[i])
  }

  /** Any schedule: the threads named by it take their next steps in that order. */
  ghost function Run(s: System, schedule: seq<nat>): System {
    if schedule == [] then s else
      var n := |schedule| - 1;
      var m := Run(s, schedule[..n]);
      var i := schedule[n];
      if i < |m.threads| then
        var r := Next(m.cache, m.threads[i]);
        System(r.1, m.threads[i := r.0])
      else m
  }

  lemma {:induction false} RunOk(inputs: seq<Input>, s: System, schedule: seq<nat>)
    requires SystemOk(inputs, s)
    ensures SystemOk(inputs, Run(s, schedule)) && s.cache <= Run(s, schedule).cache
  {
    if schedule != [] {
      hide ThreadOk, CacheOk, Next;
      var n := |schedule| - 1;
      RunOk(inputs, s, schedule[..n]);
      var m, i := Run(s, schedule[..n]), schedule[n];
      if i < |m.threads| {
        NextOk(m.cache, inputs[i], m.threads[i]);
        var r := Next(m.cache, m.threads[i]);
        forall k | 0 <= k < |inputs| ensures ThreadOk(r.1, inputs[k], m.threads[i := r.0][k]) {
          if k != i { ThreadPrefix(m.cache, r.1, inputs[k], m.threads[k]); }
        }
      }
    }
  }

  lemma StartOk(cache: seq<Key>, inputs: seq<Input>)
    requires CacheOk(cache) && forall i :: 0 <= i < |inputs| ==> InputOk(cache, inputs[i])
    ensures SystemOk(inputs, System(cache, seq(|inputs|, i requires 0 <= i < |inputs| => Start(inputs[i]))))
  {
    hide StructureOf, CacheOk;
    forall i | 0 <= i < |inputs| ensures ThreadOk(cache, inputs[i], Start(inputs[i])) {
      if inputs[i].Global? { GlobalTree(cache, inputs[i]); }
    }
  }

  /** However the threads interleave: a finished thread has a global term of the structure of its
      input, and two finished threads have the same global term exactly when their inputs have the
      same structure. */
  lemma InterleavedGlobalize(cache: seq<Key>, inputs: seq<Input>, schedule: seq<nat>, i: nat, j: nat)
    requires CacheOk(cache) && forall i :: 0 <= i < |inputs| ==> InputOk(cache, inputs[i])
    requires i < |inputs| && j < |inputs|
    ensures var s := Run(System(cache, seq(|inputs|, i requires 0 <= i < |inputs| => Start(inputs[i]))), schedule);
            |s.threads| == |inputs| && (s.threads[i].Finished? && s.threads[j].Finished? ==>
              && CacheOk(s.cache) && s.threads[i].handle < |s.cache|
              && StructureOf(s.cache, s.threads[i].handle) == InputTree(cache, inputs[i])
              && (s.threads[i].handle == s.threads[j].handle <==>
                  InputTree(cache, inputs[i]) == InputTree(cache, inputs[j])))
  {
    hide StructureOf, InputTree, CacheOk, InputOk, FrameOk;
    var s0 := System(cache, seq(|inputs|, i requires 0 <= i < |inputs| => Start(inputs[i])));
    StartOk(cache, inputs);
    RunOk(inputs, s0, schedule);
    var s := Run(s0, schedule);
    assert ThreadOk(s.cache, inputs[i], s.threads[i]) && ThreadOk(s.cache, inputs[j], s.threads[j]);
    if s.threads[i].Finished? && s.threads[j].Finished? {
      InputPrefix(cache, s.cache, inputs[i]);
      InputPrefix(cache, s.cache, inputs[j]);
      if InputTree(cache, inputs[i]) == InputTree(cache, inputs[j]) {
        Canonical(s.cache, s.threads[i].handle, s.threads[j].handle);
      }
    }
  }

  // ---- Progress ----

  /** The steps that globalizing an input takes a thread, one for entering it included. */
  function Work(x: Input): nat
    decreases x, if x.Local? then |x.subs| + 1 else 0
  {
    if x.Global? then 1 else 2 + WorkFrom(x, 0)
  }

  /** ... and those for its subterms from position `k` on. */
  function WorkFrom(x: Input, k: nat): nat
    requires x.Local?
    decreases x, if k < |x.subs| then |x.subs| - k else 0
  {
    if k >= |x.subs| then 0 else Work(x.subs[k]) + WorkFrom(x, k + 1)
  }

  /** What is left of the activations below the innermost one: the subterm each waits for is left out. */
  function WorkBelow(stack: seq<Frame>): nat {
    if stack == [] then 0 else
      var f := stack[|stack| - 1];
      WorkBelow(stack[..|stack| - 1]) + if f.term.Local? then 1 + WorkFrom(f.term, |f.done| + 1) else 0
  }

  function Remaining(t: Thread): nat {
    if t.Finished? || t.stack == [] then 0 else
      var n := |t.stack| - 1;
      WorkBelow(t.stack[..n]) + if t.stack[n].term.Local? then 1 + WorkFrom(t.stack[n].term, |t.stack[n].done|) else 0
  }

  lemma ReceiveWorks(stack: seq<Frame>, k: Handle)
    requires stack != [] ==> stack[|stack| - 1].term.Local?
    ensures Remaining(Receive(stack, k)) == WorkBelow(stack)
  {
    hide WorkFrom;
    if stack != [] {
      var n := |stack| - 1;
      assert stack[n := Frame(stack[n].term, stack[n].done + [k])][..n] == stack[..n];
    }
  }

  /** Every step of a running thread is one step less to go. */
  lemma NextWorks(cache: seq<Key>, x: Input, t: Thread)
    requires CacheOk(cache) && ThreadOk(cache, x, t) && t.Running?
    ensures Remaining(t) > 0 && Remaining(Next(cache, t).0) == Remaining(t) - 1
  {
    hide LookupOrInsert, Receive, CacheOk, StructureOf, InputTree, InputOk;
    var n := |t.stack| - 1;
    var top := t.stack[n];
    assert FrameOk(cache, top);
    if |top.done| < |top.term.subs| {
      var y := top.term.subs[|top.done|];
      if y.Global? {
        ReceiveWorks(t.stack, y.handle);
        assert Work(y) == 1 && WorkFrom(top.term, |top.done|) == Work(y) + WorkFrom(top.term, |top.done| + 1);
        assert WorkBelow(t.stack) == WorkBelow(t.stack[..n]) + 1 + WorkFrom(top.term, |top.done| + 1);
      } else {
        assert (t.stack + [Frame(y, [])])[..n + 1] == t.stack;
        assert Work(y) == 2 + WorkFrom(y, 0);
      }
    } else {
      if n > 0 { assert FrameOk(cache, t.stack[n - 1]); }
      ReceiveWorks(t.stack[..n], LookupOrInsert(cache, Key(top.term.id, top.done)).0);
    }
  }

  /** How often a schedule names a thread. */
  function Turns(schedule: seq<nat>, i: nat): nat {
    if schedule == [] then 0
    else Turns(schedule[..|schedule| - 1], i) + if schedule[|schedule| - 1] == i then 1 else 0
  }

  lemma {:induction false} RunWorks(inputs: seq<Input>, s: System, schedule: seq<nat>, i: nat)
    requires SystemOk(inputs, s) && i < |inputs|
    ensures |Run(s, schedule).threads| == |inputs|
    ensures Remaining(Run(s, schedule).threads[i])
         == if Turns(schedule, i) <= Remaining(s.threads[i]) then Remaining(s.threads[i]) - Turns(schedule, i) else 0
  {
    RunOk(inputs, s, schedule);
    hide ThreadOk, CacheOk, Next, Remaining;
    if schedule != [] {
      var n := |schedule| - 1;
      RunOk(inputs, s, schedule[..n]);
      RunWorks(inputs, s, schedule[..n], i);
      var m := Run(s, schedule[..n]);
      if schedule[n] == i {
        if m.threads[i].Running? {
          NextWorks(m.cache, inputs[i], m.threads[i]);
        } else {
          FinishedStays(m.cache, m.threads[i]);
        }
      }
    }
  }

  lemma FinishedStays(cache: seq<Key>, t: Thread)
    requires t.Finished?
    ensures Next(cache, t).0 == t && Remaining(t) == 0
  {
  }

  /** No thread can be held up by others: one that had as many turns as its input takes is finished. */
  lemma GlobalizeFinishes(cache: seq<Key>, inputs: seq<Input>, schedule: seq<nat>, i: nat)
    requires CacheOk(cache) && forall i :: 0 <= i < |inputs| ==> InputOk(cache, inputs[i])
    requires i < |inputs| && Turns(schedule, i) >= Work(inputs[i])
    ensures var s := Run(System(cache, seq(|inputs|, i requires 0 <= i < |inputs| => Start(inputs[i]))), schedule);
            |s.threads| == |inputs| && s.threads[i].Finished?
  {
    hide StructureOf, InputTree, CacheOk, InputOk, FrameOk;
    var s0 := System(cache, seq(|inputs|, i requires 0 <= i < |inputs| => Start(inputs[i])));
    StartOk(cache, inputs);
    StartWorks(inputs[i]);
    RunOk(inputs, s0, schedule);
    RunWorks(inputs, s0, schedule, i);
    var s := Run(s0, schedule);
    assert ThreadOk(s.cache, inputs[i], s.threads[i]);
    RunningWorks(s.cache, inputs[i], s.threads[i]);
  }

  lemma StartWorks(x: Input)
    ensures Remaining(Start(x)) <= Work(x)
  {
  }

  lemma RunningWorks(cache: seq<Key>, x: Input, t: Thread)
    requires CacheOk(cache) && ThreadOk(cache, x, t) && Remaining(t) == 0
    ensures t.Finished?
  {
    hide Next;
    if t.Running? { NextWorks(cache, x, t); }
  }
}
