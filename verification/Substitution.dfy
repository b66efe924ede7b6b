/** Substitution of type variables: the traversal with its shortcut for closed terms, and the two
    substitutions the engine uses. */
module Substitutions {
  import opened Terms

  // ---- Reference semantics on structures ----

  /** Naive full substitution of class variables; function variables stay. */
  function ClassSubst(sigma: seq<Tree>, t: Tree): Tree {
    if IsClassVar(t) then if t.id.info < |sigma| then sigma[t.id.info] else t
    else Tree(t.id, seq(|t.subs|, i requires 0 <= i < |t.subs| => ClassSubst(sigma, t.subs[i])))
  }

  /** All class variables of the term are below `n`. */
  ghost predicate VarsBelow(n: nat, t: Tree) {
    (IsClassVar(t) ==> t.id.info < n) && forall i :: 0 <= i < |t.subs| ==> VarsBelow(n, t.subs[i])
  }

  function Composed(sigma: seq<Tree>, tau: seq<Tree>): (r: seq<Tree>)
    ensures |r| == |tau| && forall i :: 0 <= i < |tau| ==> r[i] == ClassSubst(sigma, tau[i])
  {
    seq(|tau|, i requires 0 <= i < |tau| => ClassSubst(sigma, tau[i]))
  }

  /** Substitutions compose. */
  lemma {:induction false} ClassSubstComposes(sigma: seq<Tree>, tau: seq<Tree>, t: Tree)
    requires VarsBelow(|tau|, t)
    ensures ClassSubst(sigma, ClassSubst(tau, t)) == ClassSubst(Composed(sigma, tau), t)
  {
    if !IsClassVar(t) {
      forall i | 0 <= i < |t.subs|
        ensures ClassSubst(sigma, ClassSubst(tau, t.subs[i])) == ClassSubst(Composed(sigma, tau), t.subs[i])
      {
        ClassSubstComposes(sigma, tau, t.subs[i]);
      }
      assert ClassSubst(sigma, ClassSubst(tau, t)).subs == ClassSubst(Composed(sigma, tau), t).subs;
    }
  }

  ghost predicate HasClassVar(t: Tree) { IsClassVar(t) || exists i :: 0 <= i < |t.subs| && HasClassVar(t.subs[i]) }

  lemma {:induction false} ClassVarsAreVars(t: Tree)
    ensures HasClassVar(t) ==> HasTypeVar(t)
  {
    if HasClassVar(t) && !IsClassVar(t) {
      var i :| 0 <= i < |t.subs| && HasClassVar(t.subs[i]);
      ClassVarsAreVars(t.subs[i]);
    }
  }

  /** The shortcut: a term without class variables is its own instance. */
  lemma {:induction false} ClosedIsFixed(sigma: seq<Tree>, t: Tree)
    requires !HasClassVar(t)
    ensures ClassSubst(sigma, t) == t
  {
    forall i | 0 <= i < |t.subs| ensures ClassSubst(sigma, t.subs[i]) == t.subs[i] { ClosedIsFixed(sigma, t.subs[i]); }
    assert ClassSubst(sigma, t).subs == t.subs;
  }

  // ---- Signature substitution ----

  function BoxTree(t: Tree): Tree { Tree(TermId(BOX, 0), [t]) }

  /** The signature substitution at nesting `depth`: `refs[i]` tells that replacement `i` is a reference. */
  function SigSubst(sigma: seq<Tree>, refs: seq<bool>, t: Tree, depth: int): Tree
    requires |refs| == |sigma|
  {
    if IsClassVar(t) then
      if t.id.info >= |sigma| then t
      else if depth == 1 && !refs[t.id.info] then BoxTree(sigma[t.id.info])
      else sigma[t.id.info]
    else Tree(t.id, seq(|t.subs|, i requires 0 <= i < |t.subs| => SigSubst(sigma, refs, t.subs[i], depth + 1)))
  }

  /** Below the arguments of a signature nothing is boxed. */
  lemma {:induction false} DeepSigSubst(sigma: seq<Tree>, refs: seq<bool>, t: Tree, depth: int)
    requires |refs| == |sigma| && depth > 1
    ensures SigSubst(sigma, refs, t, depth) == ClassSubst(sigma, t)
  {
    if !IsClassVar(t) {
      forall i | 0 <= i < |t.subs| ensures SigSubst(sigma, refs, t.subs[i], depth + 1) == ClassSubst(sigma, t.subs[i]) {
        DeepSigSubst(sigma, refs, t.subs[i], depth + 1);
      }
      assert SigSubst(sigma, refs, t, depth).subs == ClassSubst(sigma, t).subs;
    }
  }

  /** The argument is a bare variable replaced by something that is not a reference. */
  predicate Boxed(sigma: seq<Tree>, refs: seq<bool>, arg: Tree)
    requires |refs| == |sigma|
  {
    IsClassVar(arg) && arg.id.info < |sigma| && !refs[arg.id.info]
  }

  /** A method signature is substituted like any term, except for exactly one box around each
      argument that is a bare variable with a replacement that is not a reference. */
  lemma {:induction false} SignatureBoxes(sigma: seq<Tree>, refs: seq<bool>, sig: Tree)
    requires |refs| == |sigma| && !IsClassVar(sig)
    ensures var r := SigSubst(sigma, refs, sig, 0);
            && r.id == sig.id && |r.subs| == |sig.subs|
            && forall i :: 0 <= i < |sig.subs| ==>
                 var plain := ClassSubst(sigma, sig.subs[i]);
                 r.subs[i] == if Boxed(sigma, refs, sig.subs[i]) then BoxTree(plain) else plain
  {
    forall i | 0 <= i < |sig.subs|
      ensures var plain := ClassSubst(sigma, sig.subs[i]);
              SigSubst(sigma, refs, sig.subs[i], 1) == if Boxed(sigma, refs, sig.subs[i]) then BoxTree(plain) else plain
    {
      var t := sig.subs[i];
      if !IsClassVar(t) {
        forall k | 0 <= k < |t.subs| ensures SigSubst(sigma, refs, t.subs[k], 2) == ClassSubst(sigma, t.subs[k]) {
          DeepSigSubst(sigma, refs, t.subs[k], 2);
        }
        assert SigSubst(sigma, refs, t, 1).subs == ClassSubst(sigma, t).subs;
      }
    }
  }

  // ---- The objects ----

  datatype Style = Class | MethodSignature

  function Refs(terms: seq<Term>): (r: seq<bool>)
    ensures |r| == |terms| && forall i :: 0 <= i < |terms| ==> r[i] == terms[i].flags.isReference
  {
    seq(|terms|, i requires 0 <= i < |terms| => terms[i].flags.isReference)
  }

  /** What the substitution at nesting `depth` makes of the structure `t`. */
  function Subst(style: Style, terms: seq<Term>, t: Tree, depth: int): Tree {
    if style.Class? then ClassSubst(TreesOf(terms), t) else SigSubst(TreesOf(terms), Refs(terms), t, depth)
  }

  lemma SubstClosed(style: Style, terms: seq<Term>, t: Tree, depth: int)
    requires !HasTypeVar(t)
    ensures Subst(style, terms, t, depth) == t
  {
    ClassVarsAreVars(t);
    if style.Class? { ClosedIsFixed(TreesOf(terms), t); } else { SigClosed(TreesOf(terms), Refs(terms), t, depth); }
  }

  lemma {:induction false} SigClosed(sigma: seq<Tree>, refs: seq<bool>, t: Tree, depth: int)
    requires |refs| == |sigma| && !HasClassVar(t)
    ensures SigSubst(sigma, refs, t, depth) == t
  {
    forall i | 0 <= i < |t.subs| ensures SigSubst(sigma, refs, t.subs[i], depth + 1) == t.subs[i] {
      SigClosed(sigma, refs, t.subs[i], depth + 1);
    }
    assert SigSubst(sigma, refs, t, depth).subs == t.subs;
  }

  lemma LeafSubst(style: Style, terms: seq<Term>, t: Tree, depth: int)
    requires t.subs == [] && !IsClassVar(t)
    ensures Subst(style, terms, t, depth) == t
  {
  }

  lemma VarSubst(style: Style, terms: seq<Term>, t: Tree, depth: int)
    requires IsClassVar(t) && t.id.info < |terms|
    ensures var s := terms[t.id.info];
            Subst(style, terms, t, depth)
            == if style.MethodSignature? && depth == 1 && !s.flags.isReference then BoxTree(TreeOf(s)) else TreeOf(s)
  {
  }

  lemma NodeSubst(style: Style, terms: seq<Term>, term: Term, depth: int, r: Term)
    requires term.id.kind != CLASS_TYPE_VAR && r.id == term.id && |r.subterms| == |term.subterms|
    requires forall k :: 0 <= k < |r.subterms| ==>
               TreeOf(r.subterms[k]) == Subst(style, terms, TreeOf(term.subterms[k]), depth + 1)
    ensures TreeOf(r) == Subst(style, terms, TreeOf(term), depth)
  {
    assert TreeOf(r).subs == Subst(style, terms, TreeOf(term), depth).subs;
  }

  /** Every node of `r` is new and then local, or one of the pattern, or a replacement. */
  ghost predicate Built(terms: seq<Term>, term: Term, r: Term)
    decreases r
  {
    r == term || r in terms ||
    (r.flags.isLocal && forall i :: 0 <= i < |r.subterms| ==>
       r.subterms[i] in terms || (i < |term.subterms| && Built(terms, term.subterms[i], r.subterms[i])))
  }

  lemma BuiltVar(terms: seq<Term>, term: Term, r: Term)
    requires r in terms || (r.flags.isLocal && forall s :: s in r.subterms ==> s in terms)
    ensures Built(terms, term, r)
  {
  }

  lemma BuiltItself(terms: seq<Term>, term: Term)
    ensures Built(terms, term, term)
  {
  }

  lemma BuiltNode(terms: seq<Term>, term: Term, r: Term)
    requires r.flags.isLocal && |r.subterms| == |term.subterms|
    requires forall i :: 0 <= i < |r.subterms| ==> Built(terms, term.subterms[i], r.subterms[i])
    ensures Built(terms, term, r)
  {
  }

  /** ClassSubstitution and MethodSignatureSubstitution; `optionIsReference` stands for the lookup
      of an option's representation in its definition. */
  class Substitution {
    const h: Hashing
    const style: Style
    const terms: seq<Term>
    const optionIsReference: (TermId, seq<Term>) -> bool
    var depth: int

    ghost predicate Valid() { forall i :: 0 <= i < |terms| ==> Exact(h, terms[i]) }

    constructor (h: Hashing, style: Style, terms: seq<Term>, optionIsReference: (TermId, seq<Term>) -> bool)
      requires forall i :: 0 <= i < |terms| ==> Exact(h, terms[i])
      ensures Valid() && depth == 0 && this.h == h && this.style == style && this.terms == terms
    {
      this.h, this.style, this.terms, this.optionIsReference, depth := h, style, terms, optionIsReference, 0;
    }

    method SubstituteClassTv(typeVar: nat) returns (r: Term)
      requires Valid() && typeVar < |terms|
      ensures Exact(h, r)
      ensures r in terms || (r.flags.isLocal && r.flags.isReference && forall s :: s in r.subterms ==> s in terms)
      ensures TreeOf(r) == if style.MethodSignature? && depth == 1 && !terms[typeVar].flags.isReference
                           then BoxTree(TreeOf(terms[typeVar])) else TreeOf(terms[typeVar])
    {
      r := terms[typeVar];
      if style.MethodSignature? && depth == 1 && !r.flags.isReference {
        var boxed := NewTermWithId(h, TermId(BOX, 0), true, [r]);
        assert TreesOf([r]) == [TreeOf(r)];
        r := boxed;
      }
    }

    /** The loop over the subterms. */
    method SubstituteSubterms(term: Term) returns (newSubterms: seq<Term>, isGeneric: bool)
      requires Valid() && Exact(h, term) && VarsBelow(|terms|, TreeOf(term))
      modifies this
      ensures depth == old(depth) && |newSubterms| == |term.subterms|
      ensures forall k :: 0 <= k < |newSubterms| ==> Exact(h, newSubterms[k])
      ensures forall k :: 0 <= k < |newSubterms| ==>
                TreeOf(newSubterms[k]) == Subst(style, terms, TreeOf(term.subterms[k]), depth)
      ensures forall k :: 0 <= k < |newSubterms| ==> Built(terms, term.subterms[k], newSubterms[k])
      ensures isGeneric <==> exists k :: 0 <= k < |newSubterms| && newSubterms[k].flags.isGeneric
      decreases term, 0
    {
      hide HashOf, HasTypeVar, Subst, Built;
      newSubterms, isGeneric := [], false;
      for i := 0 to |term.subterms|
        invariant depth == old(depth) && |newSubterms| == i
        invariant forall k :: 0 <= k < i ==> Exact(h, newSubterms[k])
        invariant forall k :: 0 <= k < i ==>
                    TreeOf(newSubterms[k]) == Subst(style, terms, TreeOf(term.subterms[k]), depth)
        invariant forall k :: 0 <= k < i ==> Built(terms, term.subterms[k], newSubterms[k])
        invariant isGeneric <==> exists k :: 0 <= k < i && newSubterms[k].flags.isGeneric
      {
        assert TreeOf(term.subterms[i]) == TreeOf(term).subs[i];
        var s := Substitute(term.subterms[i]);
        newSubterms := newSubterms + [s];
        isGeneric := isGeneric || s.flags.isGeneric;
      }
    }

    /** The new node over substituted subterms: local, and an option's representation is looked up anew. */
    method NewNode(term: Term, newSubterms: seq<Term>, isGeneric: bool) returns (r: Term)
      requires Exact(h, term) && !IsBuiltin(term.id) && |newSubterms| == |term.subterms|
      requires forall k :: 0 <= k < |newSubterms| ==> Exact(h, newSubterms[k])
      requires forall k :: 0 <= k < |newSubterms| ==>
                 TreeOf(newSubterms[k]) == Subst(style, terms, TreeOf(term.subterms[k]), depth + 1)
      requires forall k :: 0 <= k < |newSubterms| ==> Built(terms, term.subterms[k], newSubterms[k])
      requires isGeneric <==> exists k :: 0 <= k < |newSubterms| && newSubterms[k].flags.isGeneric
      ensures r.flags.isLocal && r.id == term.id && r.subterms == newSubterms && Exact(h, r)
      ensures TreeOf(r) == Subst(style, terms, TreeOf(term), depth) && Built(terms, term, r)
      ensures var reference := term.id.kind == OPTION && optionIsReference(term.id, newSubterms);
              && r.flags.isReference == (term.flags.isReference || reference)
              && r.flags.isRecord == (term.flags.isRecord || (term.id.kind == OPTION && !reference))
      ensures r.flags.isAotPromoted == term.flags.isAotPromoted && r.flags.isFixedSize == term.flags.isFixedSize
    {
      hide HashOf, HasTypeVar, Subst, Built, TreeOf, Exact;
      var flags := term.flags;
      if term.id.kind == OPTION {
        if optionIsReference(term.id, newSubterms) {
          flags := flags.(isReference := true);
        } else {
          flags := flags.(isRecord := true);
        }
      }
      flags := flags.(isLocal := true, isGeneric := isGeneric);
      r := InitAfterSubterms(h, term.id, flags, newSubterms);
      NodeSubst(style, terms, term, depth, r);
      BuiltNode(terms, term, r);
    }

    /** The result has the structure of the full substitution, its flag and hash are exact again, and the nesting
        depth is restored. Whatever is built is local, and so are all nodes of it that are new. */
    method Substitute(term: Term) returns (r: Term)
      requires Valid() && Exact(h, term) && VarsBelow(|terms|, TreeOf(term))
      modifies this
      ensures depth == old(depth)
      ensures Exact(h, r) && TreeOf(r) == Subst(style, terms, TreeOf(term), depth)
      ensures Built(terms, term, r) && (r.flags.isLocal || r == term || r in terms)
      ensures !term.flags.isGeneric ==> r == term
      ensures term.id.kind == OPTION && term.flags.isGeneric && term.subterms != [] ==>
                r.flags.isLocal &&
                var reference := optionIsReference(term.id, r.subterms);
                && r.flags.isReference == (term.flags.isReference || reference)
                && r.flags.isRecord == (term.flags.isRecord || !reference)
      ensures term.id.kind != CLASS_TYPE_VAR && term.id.kind != OPTION ==>
                r.flags.isReference == term.flags.isReference && r.flags.isRecord == term.flags.isRecord
      ensures term.id.kind != CLASS_TYPE_VAR ==>
                r.flags.isAotPromoted == term.flags.isAotPromoted && r.flags.isFixedSize == term.flags.isFixedSize
      decreases term, 1
    {
      hide HashOf, HasTypeVar, Subst, Built;
      ghost var t := TreeOf(term);
      if !term.flags.isGeneric {
        SubstClosed(style, terms, t, depth);
        BuiltItself(terms, term);
        return term;
      } else if term.id.kind == CLASS_TYPE_VAR {
        r := SubstituteClassTv(term.id.info);
        VarSubst(style, terms, t, depth);
        BuiltVar(terms, term, r);
      } else if term.id.kind == FUNC_TYPE_VAR {
        BuiltItself(terms, term);
        LeafSubst(style, terms, t, depth);
        return term;
      } else if |term.subterms| == 0 {
        BuiltItself(terms, term);
        LeafSubst(style, terms, t, depth);
        return term;
      } else {
        depth := depth + 1;
        var newSubterms, isGeneric := SubstituteSubterms(term);
        depth := depth - 1;
        r := NewNode(term, newSubterms, isGeneric);
      }
    }
  }
}
