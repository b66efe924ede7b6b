/** VerifyAndResolveConflicts: groups the entries by reference and settles each group in place. */
module ConflictResolution {
  import opened Wrappers
  import opened MethodTables
  import opened MethodConflicts

  /** The positions of a group, in ascending order. */
  ghost predicate Lists(syms: seq<Symbol>, r: Reference, g: seq<nat>, n: nat) {
    && (forall i: nat :: i in g <==> InGroup(syms, r, i) && i < n)
    && (forall a, b :: 0 <= a < b < |g| ==> g[a] < g[b])
  }

  lemma ListsStep(syms: seq<Symbol>, r: Reference, g: seq<nat>, n: nat)
    requires Lists(syms, r, g, n) && n < |syms|
    ensures Lists(syms, r, if syms[n].ref == r then g + [n] else g, n + 1)
  {
    forall a | 0 <= a < |g| ensures g[a] < n { assert g[a] in g; }
  }

  lemma NoList(syms: seq<Symbol>, r: Reference)
    ensures Lists(syms, r, [], 0)
  {
  }

  lemma ListedGroup(syms: seq<Symbol>, r: Reference, g: seq<nat>)
    requires Lists(syms, r, g, |syms|) && g != []
    ensures exists i: nat :: InGroup(syms, r, i)
  {
    assert g[0] in g;
  }

  datatype Property = Overriding | Concrete | OldConcrete

  predicate Has(p: Property, syms: seq<Symbol>, r: Reference, i: nat) {
    match p
    case Overriding => IsOverride(syms, r, i)
    case Concrete => IsConcrete(syms, r, i)
    case OldConcrete => IsOldConcrete(syms, r, i)
  }

  /** The last of the first `n` positions of a group that has the property: the pointers that the
      scan of a group leaves behind. */
  ghost predicate IsLast(p: Property, syms: seq<Symbol>, r: Reference, last: Option<nat>, g: seq<nat>, n: nat)
    requires n <= |g|
  {
    && (last.Some? ==> Has(p, syms, r, last.value) && last.value in g[..n])
    && (forall a :: 0 <= a < n && Has(p, syms, r, g[a]) ==> last.Some? && g[a] <= last.value)
  }

  lemma LastStep(p: Property, syms: seq<Symbol>, r: Reference, last: Option<nat>, g: seq<nat>, n: nat)
    requires Lists(syms, r, g, |syms|) && n < |g| && IsLast(p, syms, r, last, g, n)
    ensures IsLast(p, syms, r, if Has(p, syms, r, g[n]) then Some(g[n]) else last, g, n + 1)
  {
    assert forall x :: x in g[..n] ==> x in g[..n + 1];
  }

  /** Over a whole group, the scan finds the last position of the property among all positions. */
  lemma LastOfGroup(p: Property, syms: seq<Symbol>, r: Reference, last: Option<nat>, g: seq<nat>)
    requires Lists(syms, r, g, |syms|) && IsLast(p, syms, r, last, g, |g|)
    ensures last.None? ==> forall i: nat :: !Has(p, syms, r, i)
    ensures last.Some? ==> Has(p, syms, r, last.value) && forall i: nat :: Has(p, syms, r, i) ==> i <= last.value
  {
    forall i: nat | Has(p, syms, r, i) ensures i in g {}
  }

  lemma NoLast(syms: seq<Symbol>, r: Reference, g: seq<nat>)
    ensures forall p: Property :: IsLast(p, syms, r, None, g, 0)
  {
  }

  /** The count of concrete entries, as far as it is used. */
  ghost predicate Counts(syms: seq<Symbol>, r: Reference, g: seq<nat>, n: nat, last: Option<nat>, count: nat)
    requires n <= |g|
  {
    && (count == 0 <==> last.None?)
    && (count == 0 ==> forall b :: 0 <= b < n ==> !IsConcrete(syms, r, g[b]))
    && (count == 1 ==>
          && last.Some? && IsConcrete(syms, r, last.value)
          && forall b :: 0 <= b < n && IsConcrete(syms, r, g[b]) ==> g[b] == last.value)
    && (count > 1 ==> last.Some? && exists b :: 0 <= b < n && IsConcrete(syms, r, g[b]) && g[b] < last.value)
    && (last.Some? ==> last.value in g[..n])
  }

  lemma CountStep(syms: seq<Symbol>, r: Reference, g: seq<nat>, n: nat, last: Option<nat>, count: nat)
    requires Lists(syms, r, g, |syms|) && n < |g| && Counts(syms, r, g, n, last, count)
    ensures var one := IsConcrete(syms, r, g[n]);
            Counts(syms, r, g, n + 1, if one then Some(g[n]) else last, if one then count + 1 else count)
  {
    assert forall x :: x in g[..n] ==> x in g[..n + 1];
  }

  lemma CountOfGroup(syms: seq<Symbol>, r: Reference, g: seq<nat>, last: Option<nat>, count: nat)
    requires Lists(syms, r, g, |syms|) && Counts(syms, r, g, |g|, last, count)
    ensures count == 1 <==> last.Some? && OnlyConcrete(syms, r, last.value)
  {
    forall i: nat | IsConcrete(syms, r, i) ensures i in g {}
  }

  // ---- One group ----

  lemma SmallGroup(syms: seq<Symbol>, entries: seq<Entry>, r: Reference, g: seq<nat>)
    requires |entries| == |syms| && Lists(syms, r, g, |syms|) && |g| <= 1
    ensures GroupDone(syms, entries, entries, r) && !Clash(syms, entries, r)
  {
    forall i: nat | InGroup(syms, r, i) ensures i == g[0] { assert i in g; }
    if Settled(syms, r) {
      assert g[0] in g;
      assert IsChoice(syms, r, g[0]);
    }
  }

  /** What the scan leaves behind tells whether the group is settled, and which entry is preferred. */
  lemma ScanMeaning(
    syms: seq<Symbol>, r: Reference, g: seq<nat>,
    override: Option<nat>, old': Option<nat>, nonAbstract: Option<nat>, count: nat)
    requires Lists(syms, r, g, |syms|)
    requires IsLast(Overriding, syms, r, override, g, |g|) && IsLast(OldConcrete, syms, r, old', g, |g|)
    requires IsLast(Concrete, syms, r, nonAbstract, g, |g|)
    requires (count == 0 <==> nonAbstract.None?)
    requires (count == 1 <==> nonAbstract.Some? && OnlyConcrete(syms, r, nonAbstract.value))
    ensures override.Some? || old'.Some? || count == 1 <==> Settled(syms, r)
    ensures Settled(syms, r) ==>
              var c := if override.Some? then override.value else if old'.Some? then old'.value else nonAbstract.value;
              IsChoice(syms, r, c) && InGroup(syms, r, c) && c in g
    ensures override.Some? <==> HasOverride(syms, r)
    ensures old'.Some? <==> HasOldConcrete(syms, r)
    ensures nonAbstract.Some? ==> IsConcrete(syms, r, nonAbstract.value)
    ensures nonAbstract.None? ==> forall i: nat :: !IsConcrete(syms, r, i)
  {
    hide IsLast, Lists;
    LastOfGroup(Overriding, syms, r, override, g);
    LastOfGroup(OldConcrete, syms, r, old', g);
    LastOfGroup(Concrete, syms, r, nonAbstract, g);
    if override.Some? { assert IsOverride(syms, r, override.value); }
    if old'.Some? { assert IsOldConcrete(syms, r, old'.value); }
    HaveEach(syms, r);
    LastInGroup(syms, r, override, old', nonAbstract, g);
  }

  lemma HaveEach(syms: seq<Symbol>, r: Reference)
    ensures forall i: nat :: IsOverride(syms, r, i) <==> Has(Overriding, syms, r, i)
    ensures forall i: nat :: IsOldConcrete(syms, r, i) <==> Has(OldConcrete, syms, r, i)
    ensures forall i: nat :: IsConcrete(syms, r, i) <==> Has(Concrete, syms, r, i)
  {
  }

  lemma LastInGroup(
    syms: seq<Symbol>, r: Reference, override: Option<nat>, old': Option<nat>, nonAbstract: Option<nat>, g: seq<nat>)
    requires IsLast(Overriding, syms, r, override, g, |g|) && IsLast(OldConcrete, syms, r, old', g, |g|)
    requires IsLast(Concrete, syms, r, nonAbstract, g, |g|)
    ensures override.Some? ==> override.value in g && InGroup(syms, r, override.value)
    ensures old'.Some? ==> old'.value in g && InGroup(syms, r, old'.value)
    ensures nonAbstract.Some? ==> nonAbstract.value in g && InGroup(syms, r, nonAbstract.value)
  {
    assert g[..|g|] == g;
  }

  lemma SettledHasNoClash(syms: seq<Symbol>, entries: seq<Entry>, r: Reference)
    requires |entries| == |syms| && Settled(syms, r)
    ensures !Clash(syms, entries, r)
  {
  }

  lemma NoConcreteNoClash(syms: seq<Symbol>, entries: seq<Entry>, r: Reference)
    requires |entries| == |syms| && forall i: nat :: !IsConcrete(syms, r, i)
    ensures !Clash(syms, entries, r)
  {
  }

  lemma GroupOverwritten(syms: seq<Symbol>, before: seq<Entry>, after: seq<Entry>, r: Reference, g: seq<nat>, c: nat)
    requires |before| == |after| == |syms| && Lists(syms, r, g, |syms|) && Settled(syms, r)
    requires InGroup(syms, r, c) && IsChoice(syms, r, c)
    requires forall a :: 0 <= a < |g| ==> g[a] < |syms| && after[g[a]] == before[c]
    ensures GroupDone(syms, before, after, r)
  {
    hide Settled, IsChoice;
    forall i: nat | InGroup(syms, r, i) ensures after[i] == before[c] { assert i in g; }
  }

  lemma NotSettled(syms: seq<Symbol>, entries: seq<Entry>, r: Reference)
    requires |entries| == |syms| && !Settled(syms, r)
    ensures GroupDone(syms, entries, entries, r)
  {
  }

  /** Comparing one concrete entry with all others is enough. */
  lemma OneAgainstAll(syms: seq<Symbol>, entries: seq<Entry>, r: Reference, g: seq<nat>, c: nat)
    requires |entries| == |syms| && Lists(syms, r, g, |syms|) && IsConcrete(syms, r, c)
    ensures (exists b :: 0 <= b < |g| && Differ(syms, entries, r, c, g[b]))
       <==> exists i: nat, j: nat :: Differ(syms, entries, r, i, j)
  {
    if i: nat, j: nat :| Differ(syms, entries, r, i, j) {
      assert i in g && j in g;
      assert Differ(syms, entries, r, c, i) || Differ(syms, entries, r, c, j);
    }
  }

  // ---- All groups ----

  /** Settling one group neither touches nor undoes another. */
  lemma OtherGroups(syms: seq<Symbol>, before: seq<Entry>, was: seq<Entry>, after: seq<Entry>, r: Reference)
    requires |before| == |was| == |after| == |syms| && GroupDone(syms, was, after, r)
    requires forall i: nat :: i < |syms| && !InGroup(syms, r, i) ==> after[i] == was[i]
    requires forall i: nat :: InGroup(syms, r, i) ==> was[i] == before[i]
    ensures GroupDone(syms, before, after, r)
    ensures forall q :: q != r && GroupDone(syms, before, was, q) ==> GroupDone(syms, before, after, q)
  {
    hide Settled, IsChoice;
    forall q | q != r && GroupDone(syms, before, was, q) ensures GroupDone(syms, before, after, q) {
      forall i: nat | InGroup(syms, q, i) ensures after[i] == was[i] {}
    }
  }

  lemma ClashSame(syms: seq<Symbol>, before: seq<Entry>, was: seq<Entry>, r: Reference)
    requires |before| == |was| == |syms| && forall i: nat :: InGroup(syms, r, i) ==> was[i] == before[i]
    ensures Clash(syms, was, r) <==> Clash(syms, before, r)
  {
    forall i: nat, j: nat ensures Differ(syms, was, r, i, j) <==> Differ(syms, before, r, i, j) {}
  }

  lemma AllGroups(
    img: Image, before: seq<Entry>, after: seq<Entry>, syms: seq<Symbol>, refs: set<Reference>, newStart: nat,
    currentStart: nat)
    requires |before| == |after| == |syms| && syms == SymbolsOf(img, before, newStart, currentStart)
    requires forall i :: 0 <= i < |syms| ==> syms[i].ref in refs
    requires forall r :: r in refs ==> GroupDone(syms, before, after, r) && exists i: nat :: InGroup(syms, r, i)
    ensures Resolved(img, before, newStart, currentStart, after)
    ensures HasClash(img, before, newStart, currentStart) <==> exists r :: r in refs && Clash(syms, before, r)
  {
    hide Clash, GroupDone, RefOf;
    forall i | 0 <= i < |before| ensures RefOf(img, before[i]) in refs { assert syms[i].ref in refs; }
    if r :| r in refs && Clash(syms, before, r) {
      var i: nat :| InGroup(syms, r, i);
      assert syms[i] == SymbolAt(img, before[i], i, newStart, currentStart);
    }
  }

  class ConflictResolver {
    const img: Image
    var entries: seq<Entry>

    constructor (img: Image, entries: seq<Entry>)
      ensures this.img == img && this.entries == entries
    {
      this.img, this.entries := img, entries;
    }

    method Symbols(newStart: nat, currentStart: nat) returns (symbols: seq<Symbol>)
      ensures symbols == SymbolsOf(img, entries, newStart, currentStart)
    {
      hide RefOf;
      symbols := [];
      for i := 0 to |entries|
        invariant |symbols| == i
        invariant forall k :: 0 <= k < i ==> symbols[k] == SymbolAt(img, entries[k], k, newStart, currentStart)
      {
        symbols := symbols + [SymbolAt(img, entries[i], i, newStart, currentStart)];
      }
    }

    method Group(symbols: seq<Symbol>) returns (refUses: map<Reference, seq<nat>>)
      ensures forall r :: r in refUses ==> Lists(symbols, r, refUses[r], |symbols|)
      ensures forall r :: r in refUses ==> refUses[r] != []
      ensures forall i :: 0 <= i < |symbols| ==> symbols[i].ref in refUses
    {
      hide Lists;
      refUses := map[];
      forall r { NoList(symbols, r); }
      for i := 0 to |symbols|
        invariant forall r :: r in refUses ==> Lists(symbols, r, refUses[r], i)
        invariant forall k :: 0 <= k < i ==> symbols[k].ref in refUses
        invariant forall r :: r in refUses ==> refUses[r] != []
        invariant forall r :: r !in refUses ==> Lists(symbols, r, [], i)
      {
        var r := symbols[i].ref;
        forall q
          ensures var g := if q in refUses then refUses[q] else [];
                  Lists(symbols, q, if r == q then g + [i] else g, i + 1)
        {
          ListsStep(symbols, q, if q in refUses then refUses[q] else [], i);
        }
        refUses := refUses[r := (if r in refUses then refUses[r] else []) + [i]];
      }
    }

    /** The scan of one group. */
    method Scan(symbols: seq<Symbol>, ghost r: Reference, syms: seq<nat>)
      returns (override: Option<nat>, oldNonAbstract: Option<nat>, nonAbstract: Option<nat>, nonAbstractCount: nat)
      requires Lists(symbols, r, syms, |symbols|)
      ensures IsLast(Overriding, symbols, r, override, syms, |syms|)
      ensures IsLast(OldConcrete, symbols, r, oldNonAbstract, syms, |syms|)
      ensures IsLast(Concrete, symbols, r, nonAbstract, syms, |syms|)
      ensures nonAbstractCount == 0 <==> nonAbstract.None?
      ensures nonAbstractCount == 1 <==> nonAbstract.Some? && OnlyConcrete(symbols, r, nonAbstract.value)
    {
      hide IsLast;
      override, oldNonAbstract, nonAbstract, nonAbstractCount := None, None, None, 0;
      NoLast(symbols, r, syms);
      for a := 0 to |syms|
        invariant IsLast(Overriding, symbols, r, override, syms, a)
        invariant IsLast(OldConcrete, symbols, r, oldNonAbstract, syms, a)
        invariant IsLast(Concrete, symbols, r, nonAbstract, syms, a)
        invariant Counts(symbols, r, syms, a, nonAbstract, nonAbstractCount)
      {
        var sym := syms[a];
        assert sym in syms && InGroup(symbols, r, sym);
        LastStep(Overriding, symbols, r, override, syms, a);
        LastStep(OldConcrete, symbols, r, oldNonAbstract, syms, a);
        LastStep(Concrete, symbols, r, nonAbstract, syms, a);
        CountStep(symbols, r, syms, a, nonAbstract, nonAbstractCount);
        if symbols[sym].isOverride { override := Some(sym); }
        if !symbols[sym].isAbstract {
          nonAbstract := Some(sym);
          nonAbstractCount := nonAbstractCount + 1;
        }
        if !symbols[sym].isAbstract && !symbols[sym].isNewEntry { oldNonAbstract := Some(sym); }
      }
      CountOfGroup(symbols, r, syms, nonAbstract, nonAbstractCount);
    }

    /** Settles one group, or reports a clash in it. */
    method SettleGroup(symbols: seq<Symbol>, ghost r: Reference, syms: seq<nat>) returns (conflict: bool)
      requires |symbols| == |entries| && Lists(symbols, r, syms, |symbols|)
      modifies this
      ensures |entries| == |old(entries)|
      ensures forall i: nat :: i < |entries| && !InGroup(symbols, r, i) ==> entries[i] == old(entries)[i]
      ensures GroupDone(symbols, old(entries), entries, r)
      ensures conflict <==> Clash(symbols, old(entries), r)
    {
      hide Clash, IsLast, Settled, IsChoice, GroupDone, HasOverride, HasOldConcrete, OnlyConcrete;
      conflict := false;
      if |syms| <= 1 {
        SmallGroup(symbols, entries, r, syms);
        return;
      }
      var override, oldNonAbstract, nonAbstract, nonAbstractCount := Scan(symbols, r, syms);
      ScanMeaning(symbols, r, syms, override, oldNonAbstract, nonAbstract, nonAbstractCount);
      if override.Some? || oldNonAbstract.Some? || nonAbstractCount == 1 {
        var choice := if override.Some? then override.value else if oldNonAbstract.Some? then oldNonAbstract.value
            else nonAbstract.value;
        SettledHasNoClash(symbols, entries, r);
        forall a | 0 <= a < |syms| ensures syms[a] < |entries| { assert syms[a] in syms; }
        Overwrite(syms, choice);
        GroupOverwritten(symbols, old(entries), entries, r, syms, choice);
        return;
      }
      NotSettled(symbols, entries, r);
      if nonAbstractCount <= 1 {
        NoConcreteNoClash(symbols, entries, r);
        return;
      }
      conflict := FindClash(symbols, r, syms, nonAbstract.value);
    }

    /** The inner loop that copies the chosen entry to the whole group. */
    method Overwrite(syms: seq<nat>, choice: nat)
      requires choice < |entries| && forall a :: 0 <= a < |syms| ==> syms[a] < |entries|
      requires choice in syms
      modifies this
      ensures |entries| == |old(entries)|
      ensures forall a :: 0 <= a < |syms| ==> entries[syms[a]] == old(entries)[choice]
      ensures forall i :: 0 <= i < |entries| && i !in syms ==> entries[i] == old(entries)[i]
    {
      for a := 0 to |syms|
        invariant |entries| == |old(entries)| && entries[choice] == old(entries)[choice]
        invariant forall b :: 0 <= b < a ==> entries[syms[b]] == old(entries)[choice]
        invariant forall i :: 0 <= i < |entries| && i !in syms ==> entries[i] == old(entries)[i]
      {
        entries := entries[syms[a] := entries[choice]];
      }
    }

    /** The last corner case: the same method may sit in several entries. */
    method FindClash(
      symbols: seq<Symbol>, ghost r: Reference, syms: seq<nat>, nonAbstract: nat) returns (conflict: bool)
      requires |symbols| == |entries| && Lists(symbols, r, syms, |symbols|) && IsConcrete(symbols, r, nonAbstract)
      requires !HasOverride(symbols, r) && !HasOldConcrete(symbols, r)
      ensures conflict <==> Clash(symbols, entries, r)
    {
      conflict := false;
      for a := 0 to |syms|
        invariant conflict <==> exists b :: 0 <= b < a && Differ(symbols, entries, r, nonAbstract, syms[b])
      {
        var sym := syms[a];
        assert sym in syms && InGroup(symbols, r, sym);
        if !symbols[sym].isAbstract && nonAbstract != sym && entries[nonAbstract].methodId != entries[sym].methodId {
          conflict := true;
        }
      }
      OneAgainstAll(symbols, entries, r, syms, nonAbstract);
    }

    /** Decides all groups, in any order. */
    method VerifyAndResolveConflicts(newStart: nat, currentStart: nat) returns (conflictFound: bool)
      modifies this
      ensures conflictFound <==> HasClash(img, old(entries), newStart, currentStart)
      ensures Resolved(img, old(entries), newStart, currentStart, entries)
    {
      hide Clash, RefOf, Lists, GroupDone;
      if |entries| == 0 {
        assert Resolved(img, entries, newStart, currentStart, entries);
        return false;
      }
      var symbols := Symbols(newStart, currentStart);
      var refUses := Group(symbols);
      conflictFound := false;
      ghost var before := entries;
      forall i: nat | i < |symbols| ensures InGroup(symbols, symbols[i].ref, i) {}
      var todo := refUses.Keys;
      while todo != {}
        invariant |entries| == |before| == |symbols| && todo <= refUses.Keys
        invariant forall r :: r in refUses && r !in todo ==> GroupDone(symbols, before, entries, r)
        invariant forall i: nat :: i < |entries| && symbols[i].ref in todo ==> entries[i] == before[i]
        invariant conflictFound <==> exists r :: r in refUses && r !in todo && Clash(symbols, before, r)
      {
        var ref :| ref in todo;
        ghost var was := entries;
        var conflict := SettleGroup(symbols, ref, refUses[ref]);
        OtherGroups(symbols, before, was, entries, ref);
        ClashSame(symbols, before, was, ref);
        todo := todo - {ref};
        conflictFound := conflictFound || conflict;
      }
      forall r | r in refUses ensures exists i: nat :: InGroup(symbols, r, i) { ListedGroup(symbols, r, refUses[r]); }
      AllGroups(img, before, entries, symbols, refUses.Keys, newStart, currentStart);
    }
  }
}
