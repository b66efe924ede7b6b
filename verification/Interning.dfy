/** TermManager: canonical global terms, by in-place globalization and a cache. */
module Interning {
  import opened Terms

  class TermData {
    const id: TermId
    const hash: bv32
    const flags: Flags
    const subterms: array<TermData>
    /** The structure of the term, which globalization does not change. */
    ghost const tree: Tree

    constructor (id: TermId, hash: bv32, flags: Flags, subterms: array<TermData>, ghost tree: Tree)
      ensures this.id == id && this.hash == hash && this.flags == flags && this.subterms == subterms
      ensures this.tree == tree
    {
      this.id, this.hash, this.flags, this.subterms, this.tree := id, hash, flags, subterms, tree;
    }
  }

  class TermManager {
    const h: Hashing
    var cache: seq<TermData>
    /** The preallocated terms, and all terms there are. */
    ghost const builtins: set<TermData>
    ghost var nodes: set<TermData>

    /** An empty cache over the preallocated terms, the singletons of the builtin kinds. */
    constructor (h: Hashing, ghost builtins: set<TermData>)
      requires forall n :: n in builtins ==>
                 && !n.flags.isLocal && IsBuiltin(n.id) && n.id == n.tree.id && n.hash == HashOf(h, n.tree)
                 && n.tree.subs == [] && n.subterms.Length == 0
      requires forall n, m :: n in builtins && m in builtins && n != m ==> n.tree != m.tree && n.subterms != m.subterms
      ensures Valid() && cache == [] && this.h == h && this.builtins == builtins && nodes == builtins
    {
      this.h, this.cache, this.builtins, this.nodes := h, [], builtins, builtins;
    }

    ghost function Arrays(): set<array<TermData>>
      reads this
    {
      set n | n in nodes :: n.subterms
    }

    /** The arrays that globalization may write: those of local terms. */
    ghost function LocalArrays(): set<array<TermData>>
      reads this
    {
      set n | n in nodes && n.flags.isLocal :: n.subterms
    }

    /** The fields of a term describe its structure, and its subterms are known terms. */
    ghost predicate NodeOk(n: TermData)
      reads this, n.subterms
    {
      && n.id == n.tree.id && n.hash == HashOf(h, n.tree) && n.subterms.Length == |n.tree.subs|
      && (IsBuiltin(n.id) ==> n in builtins)
      && forall i :: 0 <= i < n.subterms.Length ==>
           && n.subterms[i] in nodes && n.subterms[i].tree == n.tree.subs[i]
           && (!n.flags.isLocal ==> !n.subterms[i].flags.isLocal)
    }

    /** Global terms are the builtin ones and the cached ones, and no two have the same structure. */
    ghost predicate CacheOk()
      reads this
    {
      && (forall n :: n in builtins ==> n in nodes && !n.flags.isLocal && IsBuiltin(n.tree.id))
      && (forall n, m :: n in builtins && m in builtins && n.tree == m.tree ==> n == m)
      && (forall i :: 0 <= i < |cache| ==> cache[i] in nodes && !cache[i].flags.isLocal && !IsBuiltin(cache[i].tree.id))
      && (forall i, j :: 0 <= i < j < |cache| ==> cache[i].tree != cache[j].tree)
      && (forall n :: n in nodes && !n.flags.isLocal ==> n in builtins || n in cache)
    }

    ghost predicate Valid()
      reads this, Arrays()
    {
      && (forall n :: n in nodes ==> NodeOk(n))
      && CacheOk()
      && (forall n, m :: n in nodes && m in nodes && n != m ==> n.subterms != m.subterms)
    }

    /** Global terms are the same object exactly when they have the same structure: pointer equality
        agrees with structural equality. */
    lemma Canonical(a: TermData, b: TermData)
      requires CacheOk() && a in nodes && b in nodes && !a.flags.isLocal && !b.flags.isLocal
      ensures a == b <==> a.tree == b.tree
    {
    }

    /** Cached terms are built from cached and builtin terms only. */
    lemma CachedSubterms(n: TermData, i: nat)
      requires Valid() && n in cache && i < n.subterms.Length
      ensures n.subterms[i] in cache || n.subterms[i] in builtins
    {
      assert NodeOk(n);
    }

    /** The shallow comparison of two cache keys: subterms are compared by pointer. */
    method Comparator(left: TermData, right: TermData) returns (eq: bool)
      requires Valid() && left in nodes && right in nodes
      requires forall i :: 0 <= i < left.subterms.Length ==> !left.subterms[i].flags.isLocal
      requires forall i :: 0 <= i < right.subterms.Length ==> !right.subterms[i].flags.isLocal
      ensures eq <==> left.tree == right.tree
    {
      hide HashOf, CacheOk;
      assert NodeOk(left) && NodeOk(right);
      if left == right { return true; }
      if left.hash != right.hash { return false; }
      if left.subterms.Length != right.subterms.Length { return false; }
      if left.id != right.id { return false; }
      for i := 0 to left.subterms.Length
        invariant forall k :: 0 <= k < i ==> left.tree.subs[k] == right.tree.subs[k]
      {
        Canonical(left.subterms[i], right.subterms[i]);
        if left.subterms[i] != right.subterms[i] { return false; }
      }
      assert left.tree.subs == right.tree.subs;
      return true;
    }

    lemma CachedIsNode()
      requires CacheOk()
      ensures forall g :: g in cache ==> g in nodes && !g.flags.isLocal
    {
    }

    lemma LocalIsNew(n: TermData)
      requires Valid() && n in nodes && n.flags.isLocal
      ensures NodeOk(n) && !IsBuiltin(n.id)
    {
    }

    /** cache.find: the cached term of this structure, if there is one. */
    method Find(termData: TermData) returns (found: bool, g: TermData)
      requires Valid() && termData in nodes
      requires forall i :: 0 <= i < termData.subterms.Length ==> !termData.subterms[i].flags.isLocal
      ensures found ==> g in cache && g.tree == termData.tree
      ensures !found ==> forall i :: 0 <= i < |cache| ==> cache[i].tree != termData.tree
    {
      hide HashOf;
      found, g := false, termData;
      for i := 0 to |cache|
        invariant forall k :: 0 <= k < i ==> cache[k].tree != termData.tree
      {
        assert NodeOk(cache[i]);
        var eq := Comparator(cache[i], termData);
        if eq { return true, cache[i]; }
      }
    }

    /** A global copy with the same subterms is a proper node, once its structure is not builtin. */
    lemma CopyIsNode(n: TermData, g: TermData)
      requires n in nodes && NodeOk(n) && !IsBuiltin(n.id)
      requires forall i :: 0 <= i < n.subterms.Length ==> !n.subterms[i].flags.isLocal
      requires g.id == n.id && g.hash == n.hash && g.tree == n.tree && g.subterms[..] == n.subterms[..]
      ensures NodeOk(g)
    {
      hide HashOf;
      forall i | 0 <= i < g.subterms.Length ensures g.subterms[i] == n.subterms[i] {
        assert g.subterms[..][i] == n.subterms[..][i];
      }
    }

    /** cache.insert of a new global term. */
    method Insert(g: TermData)
      requires Valid() && g !in nodes && g.subterms !in Arrays() && !g.flags.isLocal && NodeOk(g) && !IsBuiltin(g.id)
      requires forall i :: 0 <= i < |cache| ==> cache[i].tree != g.tree
      modifies this
      ensures Valid() && nodes == old(nodes) + {g} && cache == old(cache) + [g]
    {
      hide HashOf;
      cache := cache + [g];
      nodes := nodes + {g};
      assert CacheOk() by { hide NodeOk; }
      hide CacheOk;
      forall n | n in nodes ensures NodeOk(n) { assert old(NodeOk(n)); }
    }

    /** The locked section of Globalize: the cached term of this structure, or a copy that is cached. */
    method LookupOrInsert(termData: TermData) returns (g: TermData)
      requires Valid() && termData in nodes && termData.flags.isLocal
      requires forall i :: 0 <= i < termData.subterms.Length ==> !termData.subterms[i].flags.isLocal
      modifies this
      ensures Valid() && g in nodes && !g.flags.isLocal && g.tree == termData.tree
      ensures g in old(cache) || (cache == old(cache) + [g] && g.flags == termData.flags.(isLocal := false))
      ensures old(nodes) <= nodes && old(cache) <= cache && LocalArrays() == old(LocalArrays())
      ensures forall n :: n in nodes && n !in old(nodes) ==> fresh(n) && fresh(n.subterms) && !n.flags.isLocal
    {
      hide HashOf, CacheOk, NodeOk;
      var found;
      found, g := Find(termData);
      CachedIsNode();
      if found { return; }
      LocalIsNew(termData);
      var len := termData.subterms.Length;
      var subterms := new TermData[len](i requires 0 <= i < len reads termData.subterms => termData.subterms[i]);
      g := new TermData(termData.id, termData.hash, termData.flags.(isLocal := false), subterms, termData.tree);
      CopyIsNode(termData, g);
      Insert(g);
    }

    lemma Subterms(n: TermData)
      requires Valid() && n in nodes
      ensures n.subterms.Length == |n.tree.subs|
      ensures forall i :: 0 <= i < n.subterms.Length ==> n.subterms[i] in nodes && n.subterms[i].tree == n.tree.subs[i]
    {
      assert NodeOk(n);
    }

    /** A subterm of a local term moves to a global term of the same structure. */
    method SetSubterm(term: TermData, i: nat, s: TermData)
      requires Valid() && term in nodes && term.flags.isLocal && i < term.subterms.Length
      requires s in nodes && s.tree == term.subterms[i].tree && !s.flags.isLocal
      modifies term.subterms
      ensures Valid() && term.subterms[i] == s
      ensures forall k :: 0 <= k < term.subterms.Length && k != i ==> term.subterms[k] == old(term.subterms[k])
    {
      hide HashOf, CacheOk;
      assert NodeOk(term);
      term.subterms[i] := s;
      forall n | n in nodes ensures NodeOk(n) { assert old(NodeOk(n)); }
    }

    /** The global term of the same structure. The subterms of a local term are globalized in place;
        on a miss the caller's own reference `term'` moves to the new global term too. */
    method Globalize(term: TermData) returns (g: TermData, term': TermData)
      requires Valid() && term in nodes
      modifies this, LocalArrays()
      ensures Valid() && g in nodes && !g.flags.isLocal && g.tree == term.tree
      ensures (term' == term || term' == g) && (!term.flags.isLocal ==> g == term)
      ensures old(nodes) <= nodes && old(cache) <= cache && LocalArrays() == old(LocalArrays())
      ensures forall n :: n in nodes && n !in old(nodes) ==> fresh(n) && fresh(n.subterms) && !n.flags.isLocal
      ensures forall n, k :: n in old(nodes) && 0 <= k < n.subterms.Length && !old(n.subterms[k].flags.isLocal) ==>
                n.subterms[k] == old(n.subterms[k])
      decreases term.tree
    {
      hide Valid, NodeOk, CacheOk;
      if !term.flags.isLocal { return term, term; }
      Subterms(term);
      for i := 0 to term.subterms.Length
        invariant Valid() && term in nodes
        invariant old(nodes) <= nodes && old(cache) <= cache && LocalArrays() == old(LocalArrays())
        invariant forall n :: n in nodes && n !in old(nodes) ==> fresh(n) && fresh(n.subterms) && !n.flags.isLocal
        invariant forall n, k :: n in old(nodes) && 0 <= k < n.subterms.Length && !old(n.subterms[k].flags.isLocal) ==>
                    n.subterms[k] == old(n.subterms[k])
        invariant forall k :: 0 <= k < i ==> !term.subterms[k].flags.isLocal
      {
        Subterms(term);
        var s, s' := Globalize(term.subterms[i]);
        Subterms(term);
        SetSubterm(term, i, s);
      }
      g := LookupOrInsert(term);
      term' := g;
    }
  }
}
