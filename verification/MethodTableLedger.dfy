/** What a method table under construction offers to override, and whether its sub-tables still partition
    its array: both are known from the tables that went into it. */
module MethodTableLedgers {
  import opened Wrappers
  import opened Terms
  import opened MethodTables
  import opened MethodTableSteps

  /** An interface and its own table, when that can be built. */
  datatype InterfaceUse = InterfaceUse(interface: Term, table: Option<MethodTable>)

  /** An extension that matches the type, with its interfaces and methods. */
  datatype Extension = Extension(interfaces: seq<InterfaceUse>, virtualMethods: seq<MethodId>, genericContext: Term)

  // ---- Which tables are merged ----

  ghost predicate Knows(uses: seq<InterfaceUse>, x: Tree) { exists u :: u in uses && TreeOf(u.interface) == x }

  /** The first mention of each interface. */
  ghost function Firsts(uses: seq<InterfaceUse>): seq<InterfaceUse> {
    if uses == [] then [] else
      var rest, last := uses[..|uses| - 1], uses[|uses| - 1];
      Firsts(rest) + if Knows(rest, TreeOf(last.interface)) then [] else [last]
  }

  /** The interfaces that the type and its first `n` extensions mention. */
  function Mentioned(uses: seq<InterfaceUse>, exts: seq<Extension>, n: nat): seq<InterfaceUse>
    requires n <= |exts|
  {
    if n == 0 then uses else Mentioned(uses, exts, n - 1) + exts[n - 1].interfaces
  }

  /** What a builder knows after these mentions. */
  ghost predicate Recorded(said: seq<InterfaceUse>, interfaces: set<Tree>, merged: seq<InterfaceUse>) {
    merged == Firsts(said) && forall x :: x in interfaces <==> Knows(said, x)
  }

  lemma KnowsMore(said: seq<InterfaceUse>, use: InterfaceUse, x: Tree)
    ensures Knows(said + [use], x) <==> Knows(said, x) || x == TreeOf(use.interface)
  {
    hide TreeOf;
    var more := said + [use];
    assert use in more;
    if Knows(said, x) { var u :| u in said && TreeOf(u.interface) == x; assert u in more; }
  }

  lemma RecordedMention(said: seq<InterfaceUse>, interfaces: set<Tree>, merged: seq<InterfaceUse>, use: InterfaceUse)
    requires Recorded(said, interfaces, merged)
    ensures var x := TreeOf(use.interface);
            Recorded(said + [use], interfaces + {x}, if x in interfaces then merged else merged + [use])
  {
    hide TreeOf, Knows;
    var more := said + [use];
    assert more[..|more| - 1] == said && more[|more| - 1] == use;
    forall x ensures Knows(more, x) <==> Knows(said, x) || x == TreeOf(use.interface) { KnowsMore(said, use, x); }
  }

  // ---- What can be overridden ----

  /** The reference is among the viewed ones of the base table or of an interface's. */
  ghost predicate Offered(img: Image, base: MethodTable, uses: seq<InterfaceUse>, r: Reference) {
    AnyMatch(img, base, r) || exists v :: v in uses && v.table.Some? && AnyMatch(img, v.table.value, r)
  }

  ghost predicate AllWhole(uses: seq<InterfaceUse>) { forall v :: v in uses && v.table.Some? ==> Whole(v.table.value) }

  ghost predicate SameMatches(img: Image, t: MethodTable, t': MethodTable) {
    forall r :: AnyMatch(img, t', r) <==> AnyMatch(img, t, r)
  }

  lemma SameMatchesTransitive(img: Image, t: MethodTable, u: MethodTable, v: MethodTable)
    requires SameMatches(img, t, u) && SameMatches(img, u, v)
    ensures SameMatches(img, t, v)
  {
    hide AnyMatch;
  }

  /** Overriding and appending leave what is offered as it is. */
  lemma AddedMatches(img: Image, t: MethodTable, e: Entry, t': MethodTable)
    requires t.Ok() && Added(img, t, e, t')
    ensures SameMatches(img, t, t')
  {
    AddedKeeps(img, t, e, t');
    AddedShows(img, t, e, t', 0);
    hide RefOf, Viewed, Added, AnyMatch, MethodTable.Ok;
    forall r ensures AnyMatch(img, t', r) <==> AnyMatch(img, t, r) {
      if AnyMatch(img, t, r) { MatchKept(img, t, t', r); }
      if AnyMatch(img, t', r) { MatchOld(img, t, t', r); }
    }
  }

  lemma MatchKept(img: Image, t: MethodTable, t': MethodTable, r: Reference)
    requires Keeps(img, t, t') && AnyMatch(img, t, r) && forall i: nat :: Viewed(t', i) <==> Viewed(t, i)
    ensures AnyMatch(img, t', r)
  {
    hide RefOf, Viewed;
    var i: nat :| i < |t.entries| && Viewed(t, i) && RefOf(img, t.entries[i]) == r;
    assert RefOf(img, t'.entries[i]) == r;
  }

  lemma MatchOld(img: Image, t: MethodTable, t': MethodTable, r: Reference)
    requires t.Ok() && Keeps(img, t, t') && AnyMatch(img, t', r) && forall i: nat :: Viewed(t', i) <==> Viewed(t, i)
    ensures AnyMatch(img, t, r)
  {
    hide RefOf, Viewed;
    var i: nat :| i < |t'.entries| && Viewed(t', i) && RefOf(img, t'.entries[i]) == r;
    ViewedInside(t, i);
    assert RefOf(img, t.entries[i]) == r;
  }

  lemma ViewedInside(t: MethodTable, i: nat)
    requires t.Ok() && Viewed(t, i)
    ensures i < |t.entries|
  {
  }

  lemma MergedMatches(img: Image, t: MethodTable, i: MethodTable, r: Reference)
    requires t.Ok() && i.Ok() && i.classTables == []
    ensures AnyMatch(img, Merged(t, i), r) <==> AnyMatch(img, t, r) || AnyMatch(img, i, r)
  {
    hide RefOf, Viewed;
    var m := Merged(t, i);
    if AnyMatch(img, t, r) {
      var x: nat :| x < |t.entries| && Viewed(t, x) && RefOf(img, t.entries[x]) == r;
      MergedViews(t, i, x);
      assert m.entries[x] == t.entries[x];
    }
    if AnyMatch(img, i, r) {
      var x: nat :| x < |i.entries| && Viewed(i, x) && RefOf(img, i.entries[x]) == r;
      MergedViews(t, i, x);
      assert m.entries[|t.entries| + x] == i.entries[x];
    }
    if AnyMatch(img, m, r) {
      var x: nat :| x < |m.entries| && Viewed(m, x) && RefOf(img, m.entries[x]) == r;
      if x < |t.entries| {
        MergedViews(t, i, x);
        assert RefOf(img, t.entries[x]) == r;
      } else {
        MergedViews(t, i, x - |t.entries|);
        assert RefOf(img, i.entries[x - |t.entries|]) == r;
      }
    }
  }

  /** The first `n` methods all replace entries of the table. */
  ghost predicate MethodsOverride(img: Image, t: MethodTable, methods: seq<MethodId>, ctx: Term, n: nat)
    requires n <= |methods|
  {
    forall k :: 0 <= k < n ==> AnyMatch(img, t, RefOf(img, Entry(methods[k], ctx)))
  }

  lemma MethodsOverrideStep(
    img: Image, t: MethodTable, was: MethodTable, t': MethodTable, methods: seq<MethodId>, ctx: Term, n: nat)
    requires n < |methods| && was.Ok() && SameMatches(img, t, was) && Added(img, was, Entry(methods[n], ctx), t')
    requires Whole(was) <==> Whole(t) && MethodsOverride(img, t, methods, ctx, n)
    ensures SameMatches(img, t, t')
    ensures Whole(t') <==> Whole(t) && MethodsOverride(img, t, methods, ctx, n + 1)
  {
    hide RefOf, Whole, AnyMatch, MethodTable.Ok, Added;
    AddedPartitioned(img, was, Entry(methods[n], ctx), t');
    AddedMatches(img, was, Entry(methods[n], ctx), t');
    SameMatchesTransitive(img, t, was, t');
  }

  // ---- What is newly declared ----

  /** The first `n` methods that replace nothing, in the order of their declaration. */
  ghost function NewMethods(img: Image, t: MethodTable, methods: seq<MethodId>, ctx: Term, n: nat): seq<Entry>
    requires n <= |methods|
  {
    if n == 0 then [] else
      var e := Entry(methods[n - 1], ctx);
      NewMethods(img, t, methods, ctx, n - 1) + if AnyMatch(img, t, RefOf(img, e)) then [] else [e]
  }

  /** The same, by what the superclass and the interfaces offer. */
  ghost function Declared(
    img: Image, base: MethodTable, uses: seq<InterfaceUse>, methods: seq<MethodId>, ctx: Term, n: nat): seq<Entry>
    requires n <= |methods|
  {
    if n == 0 then [] else
      var e := Entry(methods[n - 1], ctx);
      Declared(img, base, uses, methods, ctx, n - 1) + if Offered(img, base, uses, RefOf(img, e)) then [] else [e]
  }

  lemma {:induction false} NewIsDeclared(
    img: Image, t: MethodTable, base: MethodTable, merged: seq<InterfaceUse>, over: bool, methods: seq<MethodId>,
    ctx: Term,
    n: nat)
    requires n <= |methods| && Ledger(img, t, base, merged, over)
    ensures NewMethods(img, t, methods, ctx, n) == Declared(img, base, merged, methods, ctx, n)
  {
    hide RefOf, AnyMatch, Offered, Whole;
    if n > 0 { NewIsDeclared(img, t, base, merged, over, methods, ctx, n - 1); }
  }

  /** Entries behind the sub-tables are never replaced. */
  lemma NewMethodsStep(
    img: Image, t: MethodTable, was: MethodTable, t': MethodTable, methods: seq<MethodId>, ctx: Term, n: nat)
    requires n < |methods| && t.Ok() && |t.entries| <= |was.entries| && SameMatches(img, t, was)
    requires was.classTables == t.classTables && was.interfaceTables == t.interfaceTables
    requires was.entries[|t.entries|..] == NewMethods(img, t, methods, ctx, n)
    requires Added(img, was, Entry(methods[n], ctx), t')
    ensures |t.entries| <= |t'.entries|
    ensures t'.entries[|t.entries|..] == NewMethods(img, t, methods, ctx, n + 1)
  {
    var e := Entry(methods[n], ctx);
    forall i: nat | |t.entries| <= i ensures !Viewed(was, i) {
      UnviewedBehind(t, i);
      SameViews(t, was, i);
    }
    hide RefOf, Viewed, MethodTable.Ok;
    assert AnyMatch(img, was, RefOf(img, e)) <==> AnyMatch(img, t, RefOf(img, e));
    hide AnyMatch;
    if AnyMatch(img, was, RefOf(img, e)) {
      assert t'.entries[|t.entries|..] == was.entries[|t.entries|..];
    } else {
      assert t'.entries[|t.entries|..] == was.entries[|t.entries|..] + [e];
    }
  }

  // ---- The ledger ----

  /** The table offers what its parts offer, and its sub-tables are a partition exactly when those of all its
      parts are and every method put into it replaced something (`over`). */
  ghost predicate Ledger(img: Image, t: MethodTable, base: MethodTable, merged: seq<InterfaceUse>, over: bool) {
    && (forall r :: AnyMatch(img, t, r) <==> Offered(img, base, merged, r))
    && (Whole(t) <==> Whole(base) && AllWhole(merged) && over)
  }

  lemma LedgerStart(img: Image, base: MethodTable)
    ensures Ledger(img, base, base, [], true)
  {
    hide AnyMatch, Whole;
  }

  lemma LedgerMerged(
    img: Image, t: MethodTable, base: MethodTable, merged: seq<InterfaceUse>, over: bool, use: InterfaceUse)
    requires Ledger(img, t, base, merged, over) && t.Ok()
    requires use.table.Some? && use.table.value.Ok() && use.table.value.classTables == []
    ensures Ledger(img, Merged(t, use.table.value), base, merged + [use], over)
  {
    hide AnyMatch, Whole, Merged, MethodTable.Ok;
    var i, more := use.table.value, merged + [use];
    MergedPartitioned(t, i);
    assert use in more;
    assert forall v :: v in more <==> v in merged || v == use;
    forall r ensures AnyMatch(img, Merged(t, i), r) <==> Offered(img, base, more, r) {
      MergedMatches(img, t, i, r);
      if AnyMatch(img, i, r) { assert Offered(img, base, more, r); }
    }
  }

  lemma LedgerMethods(
    img: Image, t: MethodTable, base: MethodTable, merged: seq<InterfaceUse>, over: bool, t': MethodTable, also: bool)
    requires Ledger(img, t, base, merged, over) && SameMatches(img, t, t')
    requires Whole(t') <==> Whole(t) && also
    ensures Ledger(img, t', base, merged, over && also)
  {
    hide AnyMatch, Whole, Offered;
  }

  /** Every method of extension `k` replaces an entry of the superclass's table or of an interface mentioned
      by then. */
  ghost predicate ExtensionOverrides(
    img: Image, base: MethodTable, uses: seq<InterfaceUse>, exts: seq<Extension>, k: nat)
    requires k < |exts|
  {
    forall m :: 0 <= m < |exts[k].virtualMethods| ==>
      Offered(img, base, Firsts(Mentioned(uses, exts, k + 1)),
          RefOf(img, Entry(exts[k].virtualMethods[m], exts[k].genericContext)))
  }

  ghost predicate ExtensionsOverride(
    img: Image, base: MethodTable, uses: seq<InterfaceUse>, exts: seq<Extension>, n: nat)
    requires n <= |exts|
  {
    forall k :: 0 <= k < n ==> ExtensionOverrides(img, base, uses, exts, k)
  }

  lemma OverridesAreOffered(
    img: Image, t: MethodTable, base: MethodTable, over: bool, uses: seq<InterfaceUse>, exts: seq<Extension>, k: nat)
    requires k < |exts| && Ledger(img, t, base, Firsts(Mentioned(uses, exts, k + 1)), over)
    ensures MethodsOverride(img, t, exts[k].virtualMethods, exts[k].genericContext, |exts[k].virtualMethods|)
            <==> ExtensionOverrides(img, base, uses, exts, k)
  {
    hide AnyMatch, Whole, Offered, Firsts, Mentioned, RefOf;
  }

  /** One extension: its interfaces were merged into `t`, its methods added to that. */
  lemma LedgerExtension(
    img: Image, t: MethodTable, base: MethodTable, uses: seq<InterfaceUse>, exts: seq<Extension>, k: nat,
    t': MethodTable)
    requires k < |exts| && SameMatches(img, t, t')
    requires Ledger(img, t, base, Firsts(Mentioned(uses, exts, k + 1)), ExtensionsOverride(img, base, uses, exts, k))
    requires var x := exts[k];
             Whole(t') <==> Whole(t) && MethodsOverride(img, t, x.virtualMethods, x.genericContext, |x.virtualMethods|)
    ensures Ledger(img, t', base, Firsts(Mentioned(uses, exts, k + 1)),
            ExtensionsOverride(img, base, uses, exts, k + 1))
  {
    hide Ledger, SameMatches, Whole, MethodsOverride, ExtensionOverrides, Firsts, Mentioned;
    var over := ExtensionsOverride(img, base, uses, exts, k);
    OverridesAreOffered(img, t, base, over, uses, exts, k);
    LedgerMethods(img, t, base, Firsts(Mentioned(uses, exts, k + 1)), over, t',
        ExtensionOverrides(img, base, uses, exts, k));
  }

  /** Where extensions declare no methods, only the tables that go in matter. */
  lemma NoExtensionMethods(img: Image, base: MethodTable, uses: seq<InterfaceUse>, exts: seq<Extension>)
    requires forall k :: 0 <= k < |exts| ==> exts[k].virtualMethods == []
    ensures ExtensionsOverride(img, base, uses, exts, |exts|)
  {
  }

  lemma {:induction false} FirstsAreMentioned(uses: seq<InterfaceUse>)
    ensures forall v :: v in Firsts(uses) ==> v in uses
  {
    hide Knows;
    if uses != [] { FirstsAreMentioned(uses[..|uses| - 1]); }
  }
}
