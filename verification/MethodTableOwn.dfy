/** Which own methods of a type still answer to their reference after conflicts are resolved. */
module OwnedMethods {
  import opened Terms
  import opened MethodTables
  import opened MethodConflicts
  import opened MethodTableSteps

  /** The method resolves to itself: whatever the table finds for its reference is that method. */
  ghost predicate ResolvesToItself(img: Image, t: MethodTable, m: MethodId, ctx: Term) {
    t.Ok() &&
    var found := AllFound(img, t, RefOf(img, Entry(m, ctx)));
    found != [] && forall y :: y in found ==> y.methodId == m && y.genericContext == ctx
  }

  /** The group of `x` is settled on another entry, one that no sub-table views. */
  ghost predicate SettledElsewhere(img: Image, t: MethodTable, newStart: nat, x: Entry) {
    var syms, r := SymbolsOf(img, t.entries, newStart, |t.entries|), RefOf(img, x);
    && Settled(syms, r)
    && exists c: nat :: InGroup(syms, r, c) && IsChoice(syms, r, c) && t.entries[c] != x && !Viewed(t, c)
  }

  /** An entry resolves to itself exactly when it owns its reference. */
  lemma OwnerResolves(img: Image, t: MethodTable, x: Entry)
    requires t.Ok()
    ensures ResolvesToItself(img, t, x.methodId, x.genericContext) <==> Owns(img, t, |t.entries|, x)
  {
    hide RefOf, AllFound, Viewed, MethodTable.Ok;
    assert Entry(x.methodId, x.genericContext) == x;
    var found := AllFound(img, t, RefOf(img, x));
    BufferMeaning(img, t, RefOf(img, x), found);
    assert forall y :: y in found <==> exists b :: 0 <= b < |found| && found[b] == y;
    hide AnyMatch;
    if Owns(img, t, |t.entries|, x) {
      var i: nat :| i < |t.entries| && Shown(t, |t.entries|, i) && t.entries[i] == x;
    }
    if ResolvesToItself(img, t, x.methodId, x.genericContext) {
      assert Shown(t, |t.entries|, found[0].flatMethodNum);
      forall i: nat | i < |t.entries| && Shown(t, |t.entries|, i) && RefOf(img, t.entries[i]) == RefOf(img, x)
        ensures t.entries[i] == x {
        var b :| 0 <= b < |found| && found[b].flatMethodNum == i;
        assert found[b] in found;
      }
    }
  }

  /** The group of an owned entry becomes what it is settled on, or stays. */
  lemma GroupBecomes(
    img: Image, t: MethodTable, newStart: nat, after: seq<Entry>, x: Entry, c: nat, i: nat)
    requires Resolved(img, t.entries, newStart, |t.entries|, after)
    requires i < |t.entries| && c < |t.entries| && RefOf(img, t.entries[i]) == RefOf(img, x)
    requires var syms, r := SymbolsOf(img, t.entries, newStart, |t.entries|), RefOf(img, x);
             Settled(syms, r) ==> InGroup(syms, r, c) && IsChoice(syms, r, c)
    ensures |after| == |t.entries|
    ensures after[i] == t.entries[if Settled(SymbolsOf(img, t.entries, newStart, |t.entries|), RefOf(img, x)) then c
            else i]
  {
    hide RefOf, Settled, IsChoice;
    var syms, r := SymbolsOf(img, t.entries, newStart, |t.entries|), RefOf(img, x);
    assert GroupDone(syms, t.entries, after, r) && InGroup(syms, r, i);
    if Settled(syms, r) {
      var d: nat :| InGroup(syms, r, d) && IsChoice(syms, r, d)
        && forall j: nat :: InGroup(syms, r, j) ==> after[j] == t.entries[d];
      OneChoice(syms, r, c, d);
    }
  }

  lemma ChoiceExists(img: Image, t: MethodTable, newStart: nat, after: seq<Entry>, x: Entry, i: nat) returns (c: nat)
    requires Resolved(img, t.entries, newStart, |t.entries|, after)
    requires i < |t.entries| && RefOf(img, t.entries[i]) == RefOf(img, x)
    ensures var syms, r := SymbolsOf(img, t.entries, newStart, |t.entries|), RefOf(img, x);
            c < |t.entries| && (Settled(syms, r) ==> InGroup(syms, r, c) && IsChoice(syms, r, c))
  {
    hide RefOf, Settled, IsChoice;
    var syms, r := SymbolsOf(img, t.entries, newStart, |t.entries|), RefOf(img, x);
    assert GroupDone(syms, t.entries, after, r);
    if Settled(syms, r) {
      c :| InGroup(syms, r, c) && IsChoice(syms, r, c) && forall j: nat :: InGroup(syms, r, j) ==>
          after[j] == t.entries[c];
    } else {
      c := i;
    }
  }

  /** An own method keeps its reference exactly when its group is not settled on a different entry that no
      sub-table views. */
  lemma OwnKeeps(img: Image, t: MethodTable, newStart: nat, t': MethodTable, x: Entry)
    requires t.Ok() && Owns(img, t, |t.entries|, x) && t' == t.(entries := t'.entries)
    requires Resolved(img, t.entries, newStart, |t.entries|, t'.entries)
    ensures t'.Ok()
    ensures ResolvesToItself(img, t', x.methodId, x.genericContext) <==> !SettledElsewhere(img, t, newStart, x)
  {
    assert |t'.entries| == |t.entries| && t'.Tables() == t.Tables();
    hide RefOf, Resolved, Settled, IsChoice, Viewed, ResolvesToItself;
    OwnerResolves(img, t', x);
    var n, syms, r := |t.entries|, SymbolsOf(img, t.entries, newStart, |t.entries|), RefOf(img, x);
    var i: nat :| i < n && Shown(t, n, i) && t.entries[i] == x;
    var c := ChoiceExists(img, t, newStart, t'.entries, x, i);
    GroupBecomes(img, t, newStart, t'.entries, x, c, i);
    SameViews(t, t', i);
    if SettledElsewhere(img, t, newStart, x) {
      var d: nat :| InGroup(syms, r, d) && IsChoice(syms, r, d) && t.entries[d] != x && !Viewed(t, d);
      OneChoice(syms, r, c, d);
      ResolvedKeepsRefs(img, t.entries, newStart, n, t'.entries, i);
      assert t'.entries[i] != x && Shown(t', n, i);
    } else {
      assert t'.entries[i] == x && Shown(t', n, i);
      forall j: nat | j < n && Shown(t', n, j) && RefOf(img, t'.entries[j]) == r ensures t'.entries[j] == x {
        ResolvedKeepsRefs(img, t.entries, newStart, n, t'.entries, j);
        SameViews(t, t', j);
        GroupBecomes(img, t, newStart, t'.entries, x, c, j);
      }
    }
  }

  /** Below a superclass whose table is whole, that takes an abstract method and, as the only concrete entry of
      its reference, one that no sub-table views: a concrete own method always keeps its reference. */
  lemma OwnLosesToOnlyConcrete(img: Image, t: MethodTable, newStart: nat, x: Entry)
    requires Owns(img, t, |t.entries|, x) && forall i: nat :: i < newStart ==> Viewed(t, i)
    ensures SettledElsewhere(img, t, newStart, x) <==>
            && img.isAbstract(x.methodId)
            && exists c: nat :: OnlyConcrete(SymbolsOf(img, t.entries, newStart, |t.entries|), RefOf(img, x), c)
                && !Viewed(t, c)
  {
    hide RefOf, Viewed;
    var n, syms, r := |t.entries|, SymbolsOf(img, t.entries, newStart, |t.entries|), RefOf(img, x);
    var i: nat :| i < n && Shown(t, n, i) && t.entries[i] == x;
    assert !HasOverride(syms, r);
    assert !img.isAbstract(x.methodId) ==> IsConcrete(syms, r, i);
    if SettledElsewhere(img, t, newStart, x) {
      var c: nat :| InGroup(syms, r, c) && IsChoice(syms, r, c) && t.entries[c] != x && !Viewed(t, c);
      assert !HasOldConcrete(syms, r);
      assert OnlyConcrete(syms, r, c);
    }
    if c: nat :| OnlyConcrete(syms, r, c) && !Viewed(t, c) && img.isAbstract(x.methodId) {
      assert !HasOldConcrete(syms, r);
      assert IsChoice(syms, r, c);
    }
  }

  lemma ViewedOwner(img: Image, u: MethodTable, n: nat, t: MethodTable, x: Entry)
    requires Owns(img, u, n, x) && t.entries == u.entries
    requires forall i: nat :: Viewed(t, i) <==> Viewed(u, i) || n <= i < |u.entries|
    ensures Owns(img, t, |t.entries|, x)
  {
    hide RefOf, Viewed;
    var i: nat :| i < |u.entries| && Shown(u, n, i) && u.entries[i] == x;
    assert Shown(t, |t.entries|, i);
  }

  /** In a whole table every owner keeps its reference. */
  lemma WholeKeepsOwn(img: Image, t: MethodTable, newStart: nat, x: Entry)
    requires Whole(t)
    ensures !SettledElsewhere(img, t, newStart, x)
  {
    hide RefOf, Settled, IsChoice, Viewed;
  }

  /** All methods have one name and one signature, and none is abstract. */
  function OneName(signature: Term): Image { Image(_ => "m", _ => signature, _ => false) }

  /** A concrete own method can be lost. An extension gives class `a` the concrete method `x`, which overrides
      nothing and so is viewed by no sub-table; class `b` below `a` declares the concrete method `m` of the same
      reference. Resolution of conflicts settles the group on the inherited `x`, without a conflict. */
  lemma OwnMethodLost(signature: Term, ctx: Term, a: Term, b: Term)
    requires ctx.subterms == b.subterms
    ensures var img, x, m := OneName(signature), Entry(0, ctx), Entry(1, b);
            var ofA := MethodTable([x], [SubTable(a, 1, 1)], []);
            var ofB := MethodTable([x, m], [SubTable(a, 1, 1), SubTable(b, 1, 2)], []);
            && Added(img, MethodTable([], [], []), x, ofA.(classTables := [])) && !Whole(ofA)
            && Added(img, ofA, m, ofB.(classTables := ofA.classTables)) && !Whole(ofB)
            && Resolved(img, ofB.entries, 1, 2, [x, x]) && !HasClash(img, ofB.entries, 1, 2)
            && !ResolvesToItself(img, ofB.(entries := [x, x]), 1, b)
  {
    var img, x, m := OneName(signature), Entry(0, ctx), Entry(1, b);
    assert RefOf(img, x) == RefOf(img, m);
    assert !img.isAbstract(0);
    hide RefOf, ResolvesToItself, Resolved, HasClash, OneName;
    LostToInherited(img, a, b, x, m);
    assert !Viewed(MethodTable([x], [SubTable(a, 1, 1)], []), 0);
    assert !Viewed(MethodTable([x, m], [SubTable(a, 1, 1), SubTable(b, 1, 2)], []), 0);
  }

  lemma LostToInherited(img: Image, a: Term, b: Term, x: Entry, m: Entry)
    requires RefOf(img, x) == RefOf(img, m) && x != m && !img.isAbstract(x.methodId)
    ensures var t := MethodTable([x, m], [SubTable(a, 1, 1), SubTable(b, 1, 2)], []);
            && Resolved(img, t.entries, 1, 2, [x, x]) && !HasClash(img, t.entries, 1, 2)
            && !ResolvesToItself(img, t.(entries := [x, x]), m.methodId, m.genericContext)
  {
    hide RefOf, Viewed, ResolvesToItself;
    var t := MethodTable([x, m], [SubTable(a, 1, 1), SubTable(b, 1, 2)], []);
    var r, syms, t' := RefOf(img, x), SymbolsOf(img, t.entries, 1, 2), t.(entries := [x, x]);
    assert IsOldConcrete(syms, r, 0);
    assert InGroup(syms, r, 0) && IsChoice(syms, r, 0);
    ViewsShow(t', 1, 1);
    assert Shown(t', 2, 1);
    OwnerResolves(img, t', m);
  }

  lemma ViewsShow(t: MethodTable, k: nat, i: nat)
    requires Views(t, k, i)
    ensures Viewed(t, i)
  {
  }
}
