/** Terms of the type engine: structure, hashes, and structural equality with the hash shortcut. */
module Terms {

  // ---- Identifiers (enum TermKind, class TermId) ----

  const NIL := 0
  const FIRST_NON_PRIMITIVE := 21
  const BOX := 29
  const CLASS_TYPE_VAR := 32
  const FUNC_TYPE_VAR := 33
  const OPTION := 34

  type TermKind = k: nat | k < 39

  datatype TermId = TermId(kind: TermKind, info: nat)

  /** Primitives and type variables exist as preallocated singletons. */
  predicate IsBuiltin(id: TermId) {
    id.kind < FIRST_NON_PRIMITIVE || id.kind == CLASS_TYPE_VAR || id.kind == FUNC_TYPE_VAR
  }

  predicate IsClassVar(t: Tree) { t.id.kind == CLASS_TYPE_VAR }

  predicate IsTypeVar(t: Tree) { t.id.kind == CLASS_TYPE_VAR || t.id.kind == FUNC_TYPE_VAR }

  /** The structure of a term: what equality of terms is about. */
  datatype Tree = Tree(id: TermId, subs: seq<Tree>)

  /** Builtin terms have no subterms. */
  ghost predicate WellFormed(t: Tree) {
    (IsBuiltin(t.id) ==> t.subs == []) && forall i :: 0 <= i < |t.subs| ==> WellFormed(t.subs[i])
  }

  // ---- Hashes ----

  /** The hash of an identifier, and the one drawn for a builtin term at start-up. */
  datatype Hashing = Hashing(ofId: TermId -> bv32, ofBuiltin: TermId -> bv32)

  function Mix(h: bv32, sub: bv32): bv32 { 31 * h + sub }

  function HashOf(h: Hashing, t: Tree): bv32
    decreases t, |t.subs| + 1
  {
    if IsBuiltin(t.id) then h.ofBuiltin(t.id) else h.ofId(t.id) ^ SubsHash(h, t, |t.subs|)
  }

  /** The loop of InitAfterSubterms over the first `n` subterms. */
  function SubsHash(h: Hashing, t: Tree, n: nat): bv32
    requires n <= |t.subs|
    decreases t, n
  {
    if n == 0 then 0 else Mix(SubsHash(h, t, n - 1), HashOf(h, t.subs[n - 1]))
  }

  /** Primitives and variables have the hash drawn for them; all other terms have theirs computed. */
  lemma NodeHash(h: Hashing, t: Tree)
    ensures t.id.kind < 21 || t.id.kind in {32, 33} ==> IsBuiltin(t.id) && HashOf(h, t) == h.ofBuiltin(t.id)
    ensures t.id.kind >= 21 && t.id.kind !in {32, 33} ==> !IsBuiltin(t.id)
    ensures !IsBuiltin(t.id) ==> HashOf(h, t) == h.ofId(t.id) ^ SubsHash(h, t, |t.subs|)
  {
  }

  lemma SubsStep(h: Hashing, t: Tree, n: nat)
    requires n < |t.subs|
    ensures SubsHash(h, t, 0) == 0 && SubsHash(h, t, n + 1) == Mix(SubsHash(h, t, n), HashOf(h, t.subs[n]))
  {
    hide HashOf, Mix;
  }

  lemma MixStarts(x: bv32)
    ensures Mix(0, x) == x && Mix(1, 0) == 31
  {
  }

  /** The hashes of subterms are mixed in their order, beginning with the first one. */
  lemma PairHash(h: Hashing, t: Tree)
    requires |t.subs| >= 2
    ensures SubsHash(h, t, 1) == HashOf(h, t.subs[0])
    ensures SubsHash(h, t, 2) == Mix(HashOf(h, t.subs[0]), HashOf(h, t.subs[1]))
  {
    hide HashOf, SubsHash, Mix;
    SubsStep(h, t, 0);
    MixStarts(HashOf(h, t.subs[0]));
    SubsStep(h, t, 1);
  }

  // ---- Terms as values ----

  datatype Flags = Flags(
    isLocal: bool, isReference: bool, isAotPromoted: bool, isGeneric: bool, isFixedSize: bool, isRecord: bool)

  /** TermData: a node with its cached hash and flags. */
  datatype Term = Term(id: TermId, hash: bv32, flags: Flags, subterms: seq<Term>)

  function TreeOf(t: Term): Tree {
    Tree(t.id, seq(|t.subterms|, i requires 0 <= i < |t.subterms| => TreeOf(t.subterms[i])))
  }

  function TreesOf(ts: seq<Term>): (r: seq<Tree>)
    ensures |r| == |ts| && forall i :: 0 <= i < |ts| ==> r[i] == TreeOf(ts[i])
  {
    seq(|ts|, i requires 0 <= i < |ts| => TreeOf(ts[i]))
  }

  /** A type variable occurs in the term. */
  ghost predicate HasTypeVar(t: Tree) { IsTypeVar(t) || exists i :: 0 <= i < |t.subs| && HasTypeVar(t.subs[i]) }

  /** `x` is `t` or somewhere below it. */
  ghost predicate Inside(x: Tree, t: Tree) { x == t || exists i :: 0 <= i < |t.subs| && Inside(x, t.subs[i]) }

  /** A type variable occurs exactly when a term of one of the two kinds of variables is inside. */
  lemma {:induction false} TypeVarInside(t: Tree)
    ensures HasTypeVar(t) <==> exists x :: Inside(x, t) && x.id.kind in {CLASS_TYPE_VAR, FUNC_TYPE_VAR}
  {
    forall i | 0 <= i < |t.subs|
      ensures HasTypeVar(t.subs[i]) <==>
                exists x :: Inside(x, t.subs[i]) && x.id.kind in {CLASS_TYPE_VAR, FUNC_TYPE_VAR}
    {
      TypeVarInside(t.subs[i]);
    }
    if HasTypeVar(t) {
      if IsTypeVar(t) {
        assert Inside(t, t);
      } else {
        var i :| 0 <= i < |t.subs| && HasTypeVar(t.subs[i]);
        var x :| Inside(x, t.subs[i]) && x.id.kind in {CLASS_TYPE_VAR, FUNC_TYPE_VAR};
        assert Inside(x, t);
      }
    }
    if x :| Inside(x, t) && x.id.kind in {CLASS_TYPE_VAR, FUNC_TYPE_VAR} && x != t {
      var i :| 0 <= i < |t.subs| && Inside(x, t.subs[i]);
    }
  }

  /** The cached fields of the whole term are right: the hash, and the flag that a variable occurs. */
  ghost predicate Exact(h: Hashing, t: Term) {
    && t.hash == HashOf(h, TreeOf(t))
    && (t.flags.isGeneric <==> HasTypeVar(TreeOf(t)))
    && (IsBuiltin(t.id) ==> t.subterms == [])
    && forall i :: 0 <= i < |t.subterms| ==> Exact(h, t.subterms[i])
  }

  lemma {:induction false} ExactWellFormed(h: Hashing, t: Term)
    requires Exact(h, t)
    ensures WellFormed(TreeOf(t))
  {
    forall i | 0 <= i < |t.subterms| ensures WellFormed(TreeOf(t).subs[i]) { ExactWellFormed(h, t.subterms[i]); }
  }

  // ---- Structural equality ----

  lemma SameLength(l: Term, r: Term)
    ensures TreeOf(l) == TreeOf(r) ==> l.id == r.id && |l.subterms| == |r.subterms|
    ensures TreeOf(l) == TreeOf(r) ==> forall i :: 0 <= i < |l.subterms| ==>
            TreeOf(l.subterms[i]) == TreeOf(r.subterms[i])
  {
    if TreeOf(l) == TreeOf(r) {
      assert |TreeOf(l).subs| == |l.subterms| && |TreeOf(r).subs| == |r.subterms|;
      forall i | 0 <= i < |l.subterms| ensures TreeOf(l.subterms[i]) == TreeOf(r.subterms[i]) {
        assert TreeOf(l).subs[i] == TreeOf(r).subs[i];
      }
    }
  }

  /** Term::operator==, that is CompareTermData with CmpHashes: whether the two pointers happen to be
      the same or not, the answer is structural equality. */
  method EqualTerms(h: Hashing, left: Term, right: Term) returns (eq: bool)
    requires Exact(h, left) && Exact(h, right)
    ensures eq <==> TreeOf(left) == TreeOf(right)
    decreases left
  {
    hide HashOf, HasTypeVar;
    var samePointer := *;
    if samePointer && left == right { return true; }
    SameLength(left, right);
    if left.hash != right.hash { return false; }
    if right.id != left.id { return false; }
    if |right.subterms| != |left.subterms| { return false; }
    for i := 0 to |left.subterms|
      invariant forall k :: 0 <= k < i ==> TreeOf(left.subterms[k]) == TreeOf(right.subterms[k])
    {
      eq := EqualTerms(h, left.subterms[i], right.subterms[i]);
      if !eq { return false; }
    }
    assert TreeOf(left).subs == TreeOf(right).subs;
    return true;
  }

  // ---- Construction ----

  /** A new term over finished subterms; its hash and, given the right flag, its fields are exact. */
  method InitAfterSubterms(h: Hashing, id: TermId, flags: Flags, subterms: seq<Term>) returns (r: Term)
    requires !IsBuiltin(id) && forall i :: 0 <= i < |subterms| ==> Exact(h, subterms[i])
    requires flags.isGeneric <==> exists i :: 0 <= i < |subterms| && subterms[i].flags.isGeneric
    ensures r.id == id && r.flags == flags && r.subterms == subterms && Exact(h, r)
  {
    hide HasTypeVar, TreeOf, HashOf;
    ghost var t := Tree(id, TreesOf(subterms));
    NodeHash(h, t);
    var hash: bv32 := 0;
    for i := 0 to |subterms|
      invariant hash == SubsHash(h, t, i)
    {
      hash := Mix(hash, subterms[i].hash);
    }
    r := Term(id, h.ofId(id) ^ hash, flags, subterms);
    TreeSubs(r);
    GenericExact(h, r);
  }

  /** NewTermWithId: the flag that a variable occurs is gathered from the subterms. */
  method NewTermWithId(h: Hashing, id: TermId, isReference: bool, subterms: seq<Term>) returns (r: Term)
    requires !IsBuiltin(id) && forall i :: 0 <= i < |subterms| ==> Exact(h, subterms[i])
    ensures TreeOf(r) == Tree(id, TreesOf(subterms)) && Exact(h, r) && r.flags.isLocal && r.subterms == subterms
    ensures r.flags.isReference == isReference && r.flags.isRecord == !isReference
    ensures !r.flags.isAotPromoted && !r.flags.isFixedSize
  {
    hide HashOf, HasTypeVar, TreeOf;
    var isGeneric := false;
    for i := 0 to |subterms|
      invariant isGeneric <==> exists k :: 0 <= k < i && subterms[k].flags.isGeneric
    {
      isGeneric := isGeneric || subterms[i].flags.isGeneric;
    }
    r := InitAfterSubterms(h, id, Flags(true, isReference, false, isGeneric, false, !isReference), subterms);
    TreeSubs(r);
  }

  lemma TreeSubs(r: Term)
    ensures TreeOf(r) == Tree(r.id, TreesOf(r.subterms))
  {
  }

  lemma GenericExact(h: Hashing, r: Term)
    requires !IsBuiltin(r.id) && forall i :: 0 <= i < |r.subterms| ==> Exact(h, r.subterms[i])
    ensures HasTypeVar(TreeOf(r)) <==> exists i :: 0 <= i < |r.subterms| && r.subterms[i].flags.isGeneric
  {
    var t := TreeOf(r);
    if HasTypeVar(t) {
      var i :| 0 <= i < |t.subs| && HasTypeVar(t.subs[i]);
      assert r.subterms[i].flags.isGeneric;
    }
    if i :| 0 <= i < |r.subterms| && r.subterms[i].flags.isGeneric {
      assert HasTypeVar(t.subs[i]);
    }
  }
}
