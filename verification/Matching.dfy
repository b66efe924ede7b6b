/** TermMatcher: one-way matching of a pattern against a term. */
module Matching {
  import opened Terms
  import opened Substitutions

  function NilTree(): Tree { Tree(TermId(NIL, 0), []) }

  /** A target of matching: no NIL inside. */
  ghost predicate Plain(t: Tree) {
    t.id.kind != NIL && forall i :: 0 <= i < |t.subs| ==> Plain(t.subs[i])
  }

  /** `x` is a class variable of `t`. */
  ghost predicate Occurs(x: Tree, t: Tree) {
    if IsClassVar(t) then x == t else exists i :: 0 <= i < |t.subs| && Occurs(x, t.subs[i])
  }

  /** Pattern and target have a class variable in common. */
  ghost predicate Share(p: Tree, t: Tree) { exists x :: Occurs(x, p) && Occurs(x, t) }

  lemma ShareSubs(p: Tree, t: Tree, i: nat)
    requires !IsClassVar(p) && i < |p.subs| && i < |t.subs| && p.id == t.id && Share(p.subs[i], t.subs[i])
    ensures Share(p, t)
  {
    var x :| Occurs(x, p.subs[i]) && Occurs(x, t.subs[i]);
    assert Occurs(x, p) && Occurs(x, t);
  }

  /** What variable `v` stands for; NIL when it is not bound. */
  function Binding(env: seq<Tree>, v: nat): Tree { if v < |env| then env[v] else NilTree() }

  /** `later` keeps every binding of `env`. */
  ghost predicate Extends(env: seq<Tree>, later: seq<Tree>) {
    forall v: nat :: Binding(env, v) != NilTree() ==> Binding(later, v) == Binding(env, v)
  }

  /** The pattern becomes the target: all its class variables are bound, to the right subterms. */
  ghost predicate Agrees(env: seq<Tree>, p: Tree, t: Tree) {
    if IsClassVar(p) then Binding(env, p.id.info) == t
    else p.id == t.id && |p.subs| == |t.subs| && forall i :: 0 <= i < |p.subs| ==> Agrees(env, p.subs[i], t.subs[i])
  }

  /** Agreement is substitution: for plain targets, `env` agrees on `p` and `t` exactly when it covers
      the variables of `p` and substituting it gives `t`. */
  lemma {:induction false} AgreesIsSubst(env: seq<Tree>, p: Tree, t: Tree)
    requires Plain(t) && WellFormed(p)
    ensures Agrees(env, p, t) <==> VarsBelow(|env|, p) && ClassSubst(env, p) == t
  {
    if !IsClassVar(p) {
      var s := ClassSubst(env, p);
      if p.id == t.id && |p.subs| == |t.subs| {
        forall i | 0 <= i < |p.subs|
          ensures Agrees(env, p.subs[i], t.subs[i]) <==> VarsBelow(|env|, p.subs[i]) && s.subs[i] == t.subs[i]
        {
          AgreesIsSubst(env, p.subs[i], t.subs[i]);
        }
        assert s == t <==> forall i :: 0 <= i < |p.subs| ==> s.subs[i] == t.subs[i] by { SameSubs(s, t); }
      }
    } else {
      PlainIsNotNil(t);
    }
  }

  lemma SameSubs(s: Tree, t: Tree)
    requires s.id == t.id && |s.subs| == |t.subs|
    ensures s == t <==> forall i :: 0 <= i < |s.subs| ==> s.subs[i] == t.subs[i]
  {
    if forall i :: 0 <= i < |s.subs| ==> s.subs[i] == t.subs[i] { assert s.subs == t.subs; }
  }

  lemma PlainIsNotNil(t: Tree)
    requires Plain(t)
    ensures t != NilTree()
  {
  }

  lemma {:induction false} AgreesExtends(env: seq<Tree>, later: seq<Tree>, p: Tree, t: Tree)
    requires Plain(t) && Agrees(env, p, t) && Extends(env, later)
    ensures Agrees(later, p, t)
  {
    if IsClassVar(p) {
      PlainIsNotNil(t);
    } else {
      forall i | 0 <= i < |p.subs| ensures Agrees(later, p.subs[i], t.subs[i]) {
        AgreesExtends(env, later, p.subs[i], t.subs[i]);
      }
    }
  }

  /** Bindings turn a pattern into itself exactly when they bind each of its variables to itself. */
  lemma {:induction false} AgreesItself(env: seq<Tree>, t: Tree)
    ensures Agrees(env, t, t) <==> forall x :: Occurs(x, t) ==> Binding(env, x.id.info) == x
  {
    if !IsClassVar(t) {
      forall i | 0 <= i < |t.subs|
        ensures Agrees(env, t.subs[i], t.subs[i]) <==> forall x :: Occurs(x, t.subs[i]) ==> Binding(env, x.id.info) == x
      {
        AgreesItself(env, t.subs[i]);
      }
      hide Binding;
      forall x, i | 0 <= i < |t.subs| && Occurs(x, t.subs[i]) ensures Occurs(x, t) {}
    } else {
      assert forall x :: Occurs(x, t) <==> x == t;
    }
  }

  /** So the pointer shortcut, which says yes to a term compared with itself and binds nothing, is right exactly
      when each of its variables is bound to itself already. */
  lemma ShortcutExact(env: seq<Tree>, t: Tree)
    ensures Sound(env, false, env, false, true, t, t) <==> forall x :: Occurs(x, t) ==> Binding(env, x.id.info) == x
  {
    AgreesItself(env, t);
    hide Agrees, Occurs, Binding;
  }

  /** A variable compared with itself: the shortcut accepts it without binding it. */
  lemma SharedVariable(v: nat)
    ensures var x := Tree(TermId(CLASS_TYPE_VAR, v), []);
            Share(x, x) && !Sound([], false, [], false, true, x, x)
  {
    var x := Tree(TermId(CLASS_TYPE_VAR, v), []);
    assert Occurs(x, x);
  }

  // ---- One comparison, and a loop of them ----

  /** Every extension of `env` that makes the pattern the target is found: the comparison says yes
      without an error, and what it binds is part of that extension. */
  ghost predicate Complete(env: seq<Tree>, err: bool, env': seq<Tree>, err': bool, ok: bool, p: Tree, t: Tree) {
    forall e: seq<Tree> :: Extends(env, e) && Agrees(e, p, t) ==> ok && err' == err && Extends(env', e)
  }

  /** A yes without an error is right. */
  ghost predicate Sound(env: seq<Tree>, err: bool, env': seq<Tree>, err': bool, ok: bool, p: Tree, t: Tree) {
    Extends(env, env') && (err ==> err') && (ok && !err' ==> Agrees(env', p, t))
  }

  ghost predicate AgreesUpTo(env: seq<Tree>, p: Tree, t: Tree, n: nat)
    requires n <= |p.subs| && n <= |t.subs|
  {
    forall i :: 0 <= i < n ==> Agrees(env, p.subs[i], t.subs[i])
  }

  ghost predicate LoopComplete(env: seq<Tree>, err: bool, env': seq<Tree>, err': bool, p: Tree, t: Tree, n: nat)
    requires n <= |p.subs| && n <= |t.subs|
  {
    forall e: seq<Tree> :: Extends(env, e) && AgreesUpTo(e, p, t, n) ==> err' == err && Extends(env', e)
  }

  ghost predicate LoopSound(env: seq<Tree>, err: bool, env': seq<Tree>, err': bool, p: Tree, t: Tree, n: nat)
    requires n <= |p.subs| && n <= |t.subs|
  {
    Extends(env, env') && (err ==> err') && (!err' ==> AgreesUpTo(env', p, t, n))
  }

  lemma LoopStart(env: seq<Tree>, err: bool, p: Tree, t: Tree)
    ensures LoopSound(env, err, env, err, p, t, 0) && LoopComplete(env, err, env, err, p, t, 0)
  {
  }

  lemma LoopStep(
    env: seq<Tree>, err: bool, env1: seq<Tree>, err1: bool, env2: seq<Tree>, err2: bool, p: Tree, t: Tree, n: nat)
    requires n < |p.subs| && n < |t.subs| && Plain(t)
    requires LoopSound(env, err, env1, err1, p, t, n) && LoopComplete(env, err, env1, err1, p, t, n)
    requires Sound(env1, err1, env2, err2, true, p.subs[n], t.subs[n])
    requires Complete(env1, err1, env2, err2, true, p.subs[n], t.subs[n])
    ensures LoopSound(env, err, env2, err2, p, t, n + 1) && LoopComplete(env, err, env2, err2, p, t, n + 1)
  {
    hide Extends, Agrees, LoopSound, LoopComplete, Sound, Complete;
    LoopStepSound(env, err, env1, err1, env2, err2, p, t, n);
    LoopStepComplete(env, err, env1, err1, env2, err2, p, t, n);
  }

  lemma LoopStepSound(
    env: seq<Tree>, err: bool, env1: seq<Tree>, err1: bool, env2: seq<Tree>, err2: bool, p: Tree, t: Tree, n: nat)
    requires n < |p.subs| && n < |t.subs| && Plain(t)
    requires LoopSound(env, err, env1, err1, p, t, n) && Sound(env1, err1, env2, err2, true, p.subs[n], t.subs[n])
    ensures LoopSound(env, err, env2, err2, p, t, n + 1)
  {
    ExtendsTransitive(env, env1, env2);
    hide Extends, Agrees, AgreesUpTo, Plain;
    if !err2 {
      AgreesUpToExtends(env1, env2, p, t, n);
      AgreesAbove(env2, p, t, n);
    }
  }

  lemma AgreesUpToExtends(env: seq<Tree>, later: seq<Tree>, p: Tree, t: Tree, n: nat)
    requires n <= |p.subs| && n <= |t.subs| && Plain(t) && AgreesUpTo(env, p, t, n) && Extends(env, later)
    ensures AgreesUpTo(later, p, t, n)
  {
    hide Extends, Agrees;
    forall k | 0 <= k < n ensures Agrees(later, p.subs[k], t.subs[k]) {
      assert Plain(t.subs[k]);
      hide Plain;
      AgreesExtends(env, later, p.subs[k], t.subs[k]);
    }
  }

  lemma AgreesAbove(e: seq<Tree>, p: Tree, t: Tree, n: nat)
    requires n < |p.subs| && n < |t.subs| && AgreesUpTo(e, p, t, n) && Agrees(e, p.subs[n], t.subs[n])
    ensures AgreesUpTo(e, p, t, n + 1)
  {
    hide Agrees;
  }

  lemma LoopStepComplete(
    env: seq<Tree>, err: bool, env1: seq<Tree>, err1: bool, env2: seq<Tree>, err2: bool, p: Tree, t: Tree, n: nat)
    requires n < |p.subs| && n < |t.subs|
    requires LoopComplete(env, err, env1, err1, p, t, n) && Complete(env1, err1, env2, err2, true, p.subs[n], t.subs[n])
    ensures LoopComplete(env, err, env2, err2, p, t, n + 1)
  {
    hide Extends, Agrees;
    forall e: seq<Tree> | Extends(env, e) && AgreesUpTo(e, p, t, n + 1) ensures err2 == err && Extends(env2, e) {
      AgreesBelow(e, p, t, n);
      hide AgreesUpTo;
    }
  }

  lemma ExtendsTransitive(env: seq<Tree>, env1: seq<Tree>, env2: seq<Tree>)
    requires Extends(env, env1) && Extends(env1, env2)
    ensures Extends(env, env2)
  {
  }

  lemma AgreesBelow(e: seq<Tree>, p: Tree, t: Tree, n: nat)
    requires n < |p.subs| && n < |t.subs| && AgreesUpTo(e, p, t, n + 1)
    ensures AgreesUpTo(e, p, t, n) && Agrees(e, p.subs[n], t.subs[n])
  {
    hide Agrees;
  }

  lemma AgreesNext(env: seq<Tree>, p: Tree, t: Tree, n: nat)
    requires n < |p.subs| == |t.subs| && !IsClassVar(p)
    ensures Agrees(env, p, t) ==> AgreesUpTo(env, p, t, n) && Agrees(env, p.subs[n], t.subs[n])
  {
  }

  lemma LoopFails(
    env: seq<Tree>, err: bool, env1: seq<Tree>, err1: bool, env2: seq<Tree>, err2: bool, p: Tree, t: Tree, n: nat)
    requires n < |p.subs| == |t.subs| && !IsClassVar(p)
    requires LoopSound(env, err, env1, err1, p, t, n) && LoopComplete(env, err, env1, err1, p, t, n)
    requires Sound(env1, err1, env2, err2, false, p.subs[n], t.subs[n])
    requires Complete(env1, err1, env2, err2, false, p.subs[n], t.subs[n])
    ensures Sound(env, err, env2, err2, false, p, t) && Complete(env, err, env2, err2, false, p, t)
  {
    assert Extends(env, env2);
    hide Extends;
    forall e: seq<Tree> | Extends(env, e) ensures !Agrees(e, p, t) { AgreesNext(e, p, t, n); }
  }

  lemma LoopEnd(env: seq<Tree>, err: bool, env1: seq<Tree>, err1: bool, p: Tree, t: Tree)
    requires p.id == t.id && |p.subs| == |t.subs| && !IsClassVar(p)
    requires LoopSound(env, err, env1, err1, p, t, |p.subs|) && LoopComplete(env, err, env1, err1, p, t, |p.subs|)
    ensures Sound(env, err, env1, err1, true, p, t) && Complete(env, err, env1, err1, true, p, t)
  {
    hide Extends;
    forall e: seq<Tree> | Extends(env, e) && Agrees(e, p, t) ensures err1 == err && Extends(env1, e) {
      assert AgreesUpTo(e, p, t, |p.subs|);
    }
  }

  lemma PlainSubs(t: Tree, i: nat)
    requires Plain(t) && i < |t.subs|
    ensures Plain(t.subs[i])
  {
  }

  lemma Mismatch(env: seq<Tree>, err: bool, p: Tree, t: Tree)
    requires !IsClassVar(p) && (p.id != t.id || |p.subs| != |t.subs|)
    ensures Sound(env, err, env, err, false, p, t) && Complete(env, err, env, err, false, p, t)
  {
  }

  lemma Same(env: seq<Tree>, err: bool, t: Tree)
    requires !Share(t, t)
    ensures Sound(env, err, env, err, true, t, t) && Complete(env, err, env, err, true, t, t)
  {
    AgreesItself(env, t);
    hide Agrees, Occurs, Binding;
    assert forall x :: !Occurs(x, t);
  }

  /** A variable was bound, found bound to the target already, or found bound to something else. */
  lemma Bound(env: seq<Tree>, err: bool, env': seq<Tree>, err': bool, p: Tree, t: Tree)
    requires IsClassVar(p) && Plain(t) && Extends(env, env')
    requires var was := Binding(env, p.id.info);
             if was != NilTree() && was != t then err' && Binding(env', p.id.info) == was
             else err' == err && Binding(env', p.id.info) == t
    requires forall v: nat :: v != p.id.info ==> Binding(env', v) == Binding(env, v)
    ensures Sound(env, err, env', err', true, p, t) && Complete(env, err, env', err', true, p, t)
  {
    PlainIsNotNil(t);
    hide Plain;
    forall e: seq<Tree> | Extends(env, e) && Agrees(e, p, t) ensures err' == err && Extends(env', e) {
      assert Binding(e, p.id.info) == t;
    }
  }

  /** The bindings after PutVariable. */
  function Put(env: seq<Tree>, v: nat, t: Tree): seq<Tree> {
    var e := if v < |env| then env else env + seq(v + 1 - |env|, _ => NilTree());
    if e[v] == NilTree() then e[v := t] else e
  }

  /** A pattern with one variable twice only becomes a term with equal parts. */
  lemma VariableTwice(env: seq<Tree>, id: TermId, p: Tree, x: Tree, y: Tree)
    requires id.kind != CLASS_TYPE_VAR && IsClassVar(p)
    ensures Agrees(env, Tree(id, [p, p]), Tree(id, [x, y])) ==> x == y
  {
    var q, t := Tree(id, [p, p]), Tree(id, [x, y]);
    assert q.subs[0] == p && q.subs[1] == p && t.subs[0] == x && t.subs[1] == y;
    hide Binding;
    assert Agrees(env, q, t) ==> Agrees(env, q.subs[0], t.subs[0]) && Agrees(env, q.subs[1], t.subs[1]);
  }

  /** A variable that is bound to NIL counts as unbound: the pattern with a variable twice accepts NIL and another
      term for the two, binding the variable to the one and then, without an error, to the other. */
  lemma NilTarget(id: TermId, v: nat, x: Tree)
    requires id.kind != CLASS_TYPE_VAR && x != NilTree()
    ensures var p, env1 := Tree(TermId(CLASS_TYPE_VAR, v), []), Put([], v, NilTree());
            && Binding([], v) == NilTree() && Binding(env1, v) == NilTree() && Binding(Put(env1, v, x), v) == x
            && forall env: seq<Tree> :: !Agrees(env, Tree(id, [p, p]), Tree(id, [NilTree(), x]))
  {
    var p := Tree(TermId(CLASS_TYPE_VAR, v), []);
    forall env: seq<Tree> ensures !Agrees(env, Tree(id, [p, p]), Tree(id, [NilTree(), x])) {
      VariableTwice(env, id, p, NilTree(), x);
    }
  }

  class TermMatcher {
    const h: Hashing
    const nil: Term
    var vars: seq<Term>
    var hasErrors: bool

    ghost predicate Valid()
      reads this
    {
      && Exact(h, nil) && TreeOf(nil) == NilTree()
      && forall i :: 0 <= i < |vars| ==> Exact(h, vars[i])
    }

    ghost function Env(): seq<Tree>
      reads this
    {
      TreesOf(vars)
    }

    constructor (h: Hashing, nil: Term)
      requires Exact(h, nil) && TreeOf(nil) == NilTree()
      ensures Valid() && vars == [] && !hasErrors
    {
      this.h, this.nil, vars, hasErrors := h, nil, [], false;
    }

    method Clear()
      requires Valid()
      modifies this
      ensures Valid() && vars == [] && !hasErrors
    {
      vars, hasErrors := [], false;
    }

    /** Binds the variable, or reports that it is bound to something else. */
    method PutVariable(varId: nat, t: Term)
      requires Valid() && Exact(h, t)
      modifies this
      ensures Valid() && Env() == Put(old(Env()), varId, TreeOf(t)) && Extends(old(Env()), Env())
      ensures var was := Binding(old(Env()), varId);
              if was != NilTree() && was != TreeOf(t) then hasErrors && Binding(Env(), varId) == was
              else hasErrors == old(hasErrors) && Binding(Env(), varId) == TreeOf(t)
      ensures forall v: nat :: v != varId ==> Binding(Env(), v) == Binding(old(Env()), v)
    {
      hide Exact, TreeOf;
      if varId >= |vars| {
        vars := vars + seq(varId + 1 - |vars|, _ => nil);
      }
      assert Extends(old(Env()), Env()) && forall v: nat :: Binding(Env(), v) == Binding(old(Env()), v);
      var bound := EqualTerms(h, vars[varId], t);
      if bound { return; }
      bound := EqualTerms(h, vars[varId], nil);
      if bound {
        vars := vars[varId := t];
        return;
      }
      hasErrors := true;
    }

    /** CompareTermData with CheckForTypeVar. The answer and the error flag together tell whether some
        extension of the bindings turns the pattern into the target, and the bindings are then one. */
    method IsPrefix(prefix: Term, t: Term) returns (ok: bool)
      requires Valid() && Exact(h, prefix) && Exact(h, t) && Plain(TreeOf(t))
      requires !Share(TreeOf(prefix), TreeOf(t))
      modifies this
      ensures Valid()
      ensures Sound(old(Env()), old(hasErrors), Env(), hasErrors, ok, TreeOf(prefix), TreeOf(t))
      ensures Complete(old(Env()), old(hasErrors), Env(), hasErrors, ok, TreeOf(prefix), TreeOf(t))
      decreases prefix
    {
      hide Sound, Complete, LoopSound, LoopComplete, HashOf, HasTypeVar, Plain, Agrees, Extends, Share, Put;
      ghost var p, q := TreeOf(prefix), TreeOf(t);
      var samePointer := *;
      if samePointer && prefix == t {
        Same(Env(), hasErrors, q);
        return true;
      }
      if prefix.id.kind == CLASS_TYPE_VAR {
        PutVariable(prefix.id.info, t);
        Bound(old(Env()), old(hasErrors), Env(), hasErrors, p, q);
        return true;
      }
      if prefix.id != t.id || |prefix.subterms| != |t.subterms| {
        Mismatch(Env(), hasErrors, p, q);
        return false;
      }
      LoopStart(Env(), hasErrors, p, q);
      for i := 0 to |prefix.subterms|
        invariant Valid()
        invariant LoopSound(old(Env()), old(hasErrors), Env(), hasErrors, p, q, i)
        invariant LoopComplete(old(Env()), old(hasErrors), Env(), hasErrors, p, q, i)
      {
        ghost var env1, err1 := Env(), hasErrors;
        PlainSubs(q, i);
        if Share(p.subs[i], q.subs[i]) { ShareSubs(p, q, i); }
        assert p.subs[i] == TreeOf(prefix.subterms[i]) && q.subs[i] == TreeOf(t.subterms[i]);
        ok := IsPrefix(prefix.subterms[i], t.subterms[i]);
        if !ok {
          LoopFails(old(Env()), old(hasErrors), env1, err1, Env(), hasErrors, p, q, i);
          return false;
        }
        LoopStep(old(Env()), old(hasErrors), env1, err1, Env(), hasErrors, p, q, i);
      }
      LoopEnd(old(Env()), old(hasErrors), Env(), hasErrors, p, q);
      return true;
    }

    /** A cleared matcher answers yes without an error exactly when some substitution turns the pattern
        into the target; the bindings it then holds are such a substitution. */
    method Matches(prefix: Term, t: Term) returns (ok: bool)
      requires Valid() && Exact(h, prefix) && Exact(h, t) && Plain(TreeOf(t))
      requires !Share(TreeOf(prefix), TreeOf(t))
      modifies this
      ensures Valid()
      ensures ok <==> exists env: seq<Tree> ::
                VarsBelow(|env|, TreeOf(prefix)) && ClassSubst(env, TreeOf(prefix)) == TreeOf(t)
      ensures ok ==> VarsBelow(|vars|, TreeOf(prefix)) && ClassSubst(Env(), TreeOf(prefix)) == TreeOf(t)
    {
      hide HashOf, HasTypeVar, Plain, Agrees, VarsBelow, Share;
      Clear();
      ok := IsPrefix(prefix, t);
      ok := ok && !hasErrors;
      ExactWellFormed(h, prefix);
      forall env: seq<Tree> ensures Agrees(env, TreeOf(prefix), TreeOf(t)) <==>
        VarsBelow(|env|, TreeOf(prefix)) && ClassSubst(env, TreeOf(prefix)) == TreeOf(t)
      {
        AgreesIsSubst(env, TreeOf(prefix), TreeOf(t));
      }
    }
  }
}
