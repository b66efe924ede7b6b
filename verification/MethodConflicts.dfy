/** Conflict resolution in a method table: what VerifyAndResolveConflicts decides for the group of
    entries that share a reference. */
module MethodConflicts {
  import opened MethodTables

  /** MethodSymbol: the entry at some position of the array. */
  datatype Symbol = Symbol(ref: Reference, isOverride: bool, isAbstract: bool, isNewEntry: bool)

  function SymbolAt(img: Image, e: Entry, i: nat, newStart: nat, currentStart: nat): Symbol {
    Symbol(RefOf(img, e), i >= currentStart, img.isAbstract(e.methodId), i >= newStart)
  }

  function SymbolsOf(img: Image, entries: seq<Entry>, newStart: nat, currentStart: nat): seq<Symbol> {
    seq(|entries|, i requires 0 <= i < |entries| => SymbolAt(img, entries[i], i, newStart, currentStart))
  }

  // ---- Groups ----

  predicate InGroup(syms: seq<Symbol>, r: Reference, i: nat) { i < |syms| && syms[i].ref == r }

  predicate IsOverride(syms: seq<Symbol>, r: Reference, i: nat) { InGroup(syms, r, i) && syms[i].isOverride }

  predicate IsConcrete(syms: seq<Symbol>, r: Reference, i: nat) { InGroup(syms, r, i) && !syms[i].isAbstract }

  /** Inherited and not abstract. */
  predicate IsOldConcrete(syms: seq<Symbol>, r: Reference, i: nat) { IsConcrete(syms, r, i) && !syms[i].isNewEntry }

  ghost predicate HasOverride(syms: seq<Symbol>, r: Reference) { exists i: nat :: IsOverride(syms, r, i) }

  ghost predicate HasOldConcrete(syms: seq<Symbol>, r: Reference) { exists i: nat :: IsOldConcrete(syms, r, i) }

  ghost predicate OnlyConcrete(syms: seq<Symbol>, r: Reference, i: nat) {
    IsConcrete(syms, r, i) && forall j: nat :: IsConcrete(syms, r, j) ==> j == i
  }

  /** One entry of the group is preferred to all others. */
  ghost predicate Settled(syms: seq<Symbol>, r: Reference) {
    HasOverride(syms, r) || HasOldConcrete(syms, r) || exists i: nat :: OnlyConcrete(syms, r, i)
  }

  /** ... namely the last override, else the last inherited concrete entry, else the only concrete one. */
  ghost predicate IsChoice(syms: seq<Symbol>, r: Reference, c: nat) {
    if HasOverride(syms, r) then IsOverride(syms, r, c) && forall j: nat :: IsOverride(syms, r, j) ==> j <= c
    else if HasOldConcrete(syms, r) then IsOldConcrete(syms, r, c) && forall j: nat :: IsOldConcrete(syms, r, j) ==>
        j <= c
    else OnlyConcrete(syms, r, c)
  }

  /** No entry is preferred and two concrete ones are of different methods. */
  ghost predicate Clash(syms: seq<Symbol>, entries: seq<Entry>, r: Reference)
    requires |entries| == |syms|
  {
    && !HasOverride(syms, r) && !HasOldConcrete(syms, r)
    && exists i: nat, j: nat :: Differ(syms, entries, r, i, j)
  }

  ghost predicate Differ(syms: seq<Symbol>, entries: seq<Entry>, r: Reference, i: nat, j: nat)
    requires |entries| == |syms|
  {
    IsConcrete(syms, r, i) && IsConcrete(syms, r, j) && entries[i].methodId != entries[j].methodId
  }

  /** A settled group gets its preferred entry throughout; any other group is left alone. */
  ghost predicate GroupDone(syms: seq<Symbol>, before: seq<Entry>, after: seq<Entry>, r: Reference)
    requires |before| == |after| == |syms|
  {
    if Settled(syms, r)
    then exists c: nat :: InGroup(syms, r, c) && IsChoice(syms, r, c) && forall i: nat :: InGroup(syms, r, i) ==>
        after[i] == before[c]
    else forall i: nat :: InGroup(syms, r, i) ==> after[i] == before[i]
  }

  ghost predicate Resolved(img: Image, before: seq<Entry>, newStart: nat, currentStart: nat, after: seq<Entry>) {
    |after| == |before| &&
    forall i :: 0 <= i < |before| ==>
      GroupDone(SymbolsOf(img, before, newStart, currentStart), before, after, RefOf(img, before[i]))
  }

  ghost predicate HasClash(img: Image, entries: seq<Entry>, newStart: nat, currentStart: nat) {
    exists i :: 0 <= i < |entries| && Clash(SymbolsOf(img, entries, newStart, currentStart), entries,
        RefOf(img, entries[i]))
  }

  // ---- What resolution guarantees ----

  /** No position changes its reference. */
  lemma ResolvedKeepsRefs(img: Image, before: seq<Entry>, newStart: nat, currentStart: nat, after: seq<Entry>, i: nat)
    requires Resolved(img, before, newStart, currentStart, after) && i < |before|
    ensures RefOf(img, after[i]) == RefOf(img, before[i])
  {
    hide RefOf, IsChoice, Settled;
    var syms, r := SymbolsOf(img, before, newStart, currentStart), RefOf(img, before[i]);
    assert GroupDone(syms, before, after, r) && InGroup(syms, r, i);
    if Settled(syms, r) {
      var c: nat :| InGroup(syms, r, c) && IsChoice(syms, r, c) && forall i: nat :: InGroup(syms, r, i) ==>
          after[i] == before[c];
    }
  }

  /** Without a clash, concrete entries of one reference are of one method. */
  lemma ResolvedAgrees(
    img: Image, before: seq<Entry>, newStart: nat, currentStart: nat, after: seq<Entry>, i: nat, j: nat)
    requires Resolved(img, before, newStart, currentStart, after) && !HasClash(img, before, newStart, currentStart)
    requires i < |before| && j < |before| && RefOf(img, after[i]) == RefOf(img, after[j])
    requires !img.isAbstract(after[i].methodId) && !img.isAbstract(after[j].methodId)
    ensures after[i].methodId == after[j].methodId
  {
    hide RefOf, IsChoice;
    ResolvedKeepsRefs(img, before, newStart, currentStart, after, i);
    ResolvedKeepsRefs(img, before, newStart, currentStart, after, j);
    var syms, r := SymbolsOf(img, before, newStart, currentStart), RefOf(img, before[i]);
    assert GroupDone(syms, before, after, r) && InGroup(syms, r, i) && InGroup(syms, r, j);
    if !Settled(syms, r) {
      assert !Clash(syms, before, r);
      assert !Differ(syms, before, r, i, j);
    }
  }

  /** Every settled group becomes identical throughout. */
  lemma SettledIsUniform(
    img: Image, before: seq<Entry>, newStart: nat, currentStart: nat, after: seq<Entry>, i: nat, j: nat)
    requires Resolved(img, before, newStart, currentStart, after) && i < |before| && j < |before|
    requires RefOf(img, before[i]) == RefOf(img, before[j])
    requires Settled(SymbolsOf(img, before, newStart, currentStart), RefOf(img, before[i]))
    ensures after[i] == after[j]
  {
    hide RefOf, IsChoice, Settled;
    var syms, r := SymbolsOf(img, before, newStart, currentStart), RefOf(img, before[i]);
    assert GroupDone(syms, before, after, r) && InGroup(syms, r, i) && InGroup(syms, r, j);
  }

  // ---- By position ----

  /** Position `i` has an entry of the reference. */
  predicate At(img: Image, entries: seq<Entry>, r: Reference, i: nat) { i < |entries| && RefOf(img, entries[i]) == r }

  predicate ConcreteAt(img: Image, entries: seq<Entry>, r: Reference, i: nat) {
    At(img, entries, r, i) && !img.isAbstract(entries[i].methodId)
  }

  /** The last entry from `currentStart` on. */
  ghost predicate LastCurrent(img: Image, entries: seq<Entry>, r: Reference, currentStart: nat, c: nat) {
    currentStart <= c && At(img, entries, r, c) && forall j: nat :: c < j ==> !At(img, entries, r, j)
  }

  ghost predicate NoCurrent(img: Image, entries: seq<Entry>, r: Reference, currentStart: nat) {
    forall j: nat :: currentStart <= j ==> !At(img, entries, r, j)
  }

  /** The last concrete entry before `newStart`. */
  ghost predicate LastInherited(img: Image, entries: seq<Entry>, r: Reference, newStart: nat, c: nat) {
    c < newStart && ConcreteAt(img, entries, r, c) && forall j: nat :: c < j < newStart ==>
        !ConcreteAt(img, entries, r, j)
  }

  ghost predicate NoInherited(img: Image, entries: seq<Entry>, r: Reference, newStart: nat) {
    forall j: nat :: j < newStart ==> !ConcreteAt(img, entries, r, j)
  }

  ghost predicate OneConcrete(img: Image, entries: seq<Entry>, r: Reference, c: nat) {
    ConcreteAt(img, entries, r, c) && forall j: nat :: ConcreteAt(img, entries, r, j) ==> j == c
  }

  /** What the symbols say of a position is what the array and the image say of it. */
  lemma SymbolsByPosition(img: Image, entries: seq<Entry>, newStart: nat, currentStart: nat, r: Reference, i: nat)
    ensures var syms := SymbolsOf(img, entries, newStart, currentStart);
            && (InGroup(syms, r, i) <==> At(img, entries, r, i))
            && (IsOverride(syms, r, i) <==> At(img, entries, r, i) && currentStart <= i)
            && (IsConcrete(syms, r, i) <==> ConcreteAt(img, entries, r, i))
            && (IsOldConcrete(syms, r, i) <==> ConcreteAt(img, entries, r, i) && i < newStart)
  {
    hide RefOf;
  }

  lemma QuietByPosition(img: Image, entries: seq<Entry>, newStart: nat, currentStart: nat, r: Reference)
    ensures var syms := SymbolsOf(img, entries, newStart, currentStart);
            && (NoCurrent(img, entries, r, currentStart) <==> !HasOverride(syms, r))
            && (NoInherited(img, entries, r, newStart) <==> !HasOldConcrete(syms, r))
  {
    var syms := SymbolsOf(img, entries, newStart, currentStart);
    forall j: nat
      ensures IsOverride(syms, r, j) <==> At(img, entries, r, j) && currentStart <= j
      ensures IsOldConcrete(syms, r, j) <==> ConcreteAt(img, entries, r, j) && j < newStart
    {
      SymbolsByPosition(img, entries, newStart, currentStart, r, j);
    }
    hide RefOf, IsOverride, IsOldConcrete, SymbolsOf, At, ConcreteAt;
  }

  /** Where the preferred entry of a reference is. */
  lemma ChoiceByPosition(img: Image, entries: seq<Entry>, newStart: nat, currentStart: nat, r: Reference, c: nat)
    ensures var syms := SymbolsOf(img, entries, newStart, currentStart);
            && (LastCurrent(img, entries, r, currentStart, c) ==> HasOverride(syms, r) && IsChoice(syms, r, c))
            && (NoCurrent(img, entries, r, currentStart) && LastInherited(img, entries, r, newStart, c) ==>
                  HasOldConcrete(syms, r) && IsChoice(syms, r, c))
            && (OnlyConcrete(syms, r, c) <==> OneConcrete(img, entries, r, c))
  {
    var syms := SymbolsOf(img, entries, newStart, currentStart);
    forall j: nat
      ensures IsOverride(syms, r, j) <==> At(img, entries, r, j) && currentStart <= j
      ensures IsConcrete(syms, r, j) <==> ConcreteAt(img, entries, r, j)
      ensures IsOldConcrete(syms, r, j) <==> ConcreteAt(img, entries, r, j) && j < newStart
    {
      SymbolsByPosition(img, entries, newStart, currentStart, r, j);
    }
    QuietByPosition(img, entries, newStart, currentStart, r);
    hide RefOf, IsOverride, IsConcrete, IsOldConcrete, SymbolsOf, At, ConcreteAt;
  }

  lemma DoneAt(img: Image, before: seq<Entry>, newStart: nat, currentStart: nat, after: seq<Entry>, i: nat, c: nat)
    requires Resolved(img, before, newStart, currentStart, after) && i < |before| && c < |before|
    ensures var syms, r := SymbolsOf(img, before, newStart, currentStart), RefOf(img, before[i]);
            && (Settled(syms, r) && IsChoice(syms, r, c) ==> after[i] == before[c])
            && (!Settled(syms, r) ==> after[i] == before[i])
  {
    hide RefOf, Settled;
    var syms, r := SymbolsOf(img, before, newStart, currentStart), RefOf(img, before[i]);
    assert GroupDone(syms, before, after, r) && InGroup(syms, r, i);
    hide InGroup;
    if Settled(syms, r) && IsChoice(syms, r, c) {
      var d: nat :| InGroup(syms, r, d) && IsChoice(syms, r, d) && forall j: nat :: InGroup(syms, r, j) ==>
          after[j] == before[d];
      OneChoice(syms, r, c, d);
    }
  }

  lemma OneChoice(syms: seq<Symbol>, r: Reference, c: nat, d: nat)
    requires IsChoice(syms, r, c) && IsChoice(syms, r, d)
    ensures c == d
  {
    hide IsOverride, IsConcrete, IsOldConcrete, HasOverride, HasOldConcrete;
    if !HasOverride(syms, r) && !HasOldConcrete(syms, r) {
      assert OnlyConcrete(syms, r, c) && OnlyConcrete(syms, r, d);
    }
  }

  /** Every entry of a reference becomes the last current one, else the last inherited concrete one, else the only
      concrete one; and stays as it is when there is none of these. */
  lemma ResolvedByPosition(
    img: Image, before: seq<Entry>, newStart: nat, currentStart: nat, after: seq<Entry>, i: nat, c: nat)
    requires Resolved(img, before, newStart, currentStart, after) && i < |before| && c < |before|
    ensures var r := RefOf(img, before[i]);
            && (LastCurrent(img, before, r, currentStart, c) ==> after[i] == before[c])
            && (NoCurrent(img, before, r, currentStart) ==>
                  && (LastInherited(img, before, r, newStart, c) ==> after[i] == before[c])
                  && (NoInherited(img, before, r, newStart) ==>
                        && (OneConcrete(img, before, r, c) ==> after[i] == before[c])
                        && ((forall k: nat :: !OneConcrete(img, before, r, k)) ==> after[i] == before[i])))
  {
    var syms, r := SymbolsOf(img, before, newStart, currentStart), RefOf(img, before[i]);
    DoneAt(img, before, newStart, currentStart, after, i, c);
    QuietByPosition(img, before, newStart, currentStart, r);
    forall k: nat
      ensures LastCurrent(img, before, r, currentStart, k) ==> HasOverride(syms, r) && IsChoice(syms, r, k)
      ensures NoCurrent(img, before, r, currentStart) && LastInherited(img, before, r, newStart, k) ==>
                HasOldConcrete(syms, r) && IsChoice(syms, r, k)
      ensures OnlyConcrete(syms, r, k) <==> OneConcrete(img, before, r, k)
    {
      ChoiceByPosition(img, before, newStart, currentStart, r, k);
    }
    hide RefOf, HasOverride, HasOldConcrete, OnlyConcrete, OneConcrete, LastCurrent, LastInherited, NoCurrent,
      NoInherited, SymbolsOf, Resolved;
  }

  lemma DifferByPosition(
    img: Image, entries: seq<Entry>, newStart: nat, currentStart: nat, r: Reference, i: nat, j: nat)
    ensures Differ(SymbolsOf(img, entries, newStart, currentStart), entries, r, i, j) <==>
            DifferAt(img, entries, r, i, j)
  {
    SymbolsByPosition(img, entries, newStart, currentStart, r, i);
    SymbolsByPosition(img, entries, newStart, currentStart, r, j);
    hide RefOf, IsConcrete, SymbolsOf;
  }

  /** Two concrete entries of the reference that are of different methods. */
  predicate DifferAt(img: Image, entries: seq<Entry>, r: Reference, i: nat, j: nat) {
    && ConcreteAt(img, entries, r, i) && ConcreteAt(img, entries, r, j)
    && entries[i].methodId != entries[j].methodId
  }

  /** A conflict is two such entries where the type itself has none and it inherits no concrete one. */
  lemma ClashByPosition(img: Image, entries: seq<Entry>, newStart: nat, currentStart: nat)
    ensures HasClash(img, entries, newStart, currentStart) <==>
              exists r, i: nat, j: nat ::
                && DifferAt(img, entries, r, i, j)
                && NoCurrent(img, entries, r, currentStart) && NoInherited(img, entries, r, newStart)
  {
    var syms := SymbolsOf(img, entries, newStart, currentStart);
    forall r, i: nat, j: nat ensures Differ(syms, entries, r, i, j) <==> DifferAt(img, entries, r, i, j) {
      DifferByPosition(img, entries, newStart, currentStart, r, i, j);
    }
    hide Differ, HasOverride, HasOldConcrete, NoCurrent, NoInherited, SymbolsOf;
    if HasClash(img, entries, newStart, currentStart) {
      var k :| 0 <= k < |entries| && Clash(syms, entries, RefOf(img, entries[k]));
      QuietByPosition(img, entries, newStart, currentStart, RefOf(img, entries[k]));
    }
    if r, i: nat, j: nat :|
      && DifferAt(img, entries, r, i, j)
      && NoCurrent(img, entries, r, currentStart) && NoInherited(img, entries, r, newStart)
    {
      QuietByPosition(img, entries, newStart, currentStart, r);
      assert Clash(syms, entries, RefOf(img, entries[i]));
    }
  }
}
