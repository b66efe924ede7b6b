/** MethodTableBuilder and BuildTable: inheritance, interfaces, extensions, own methods, conflicts. */
module MethodTableBuilding {
  import opened Wrappers
  import opened Terms
  import opened MethodTables
  import opened MethodConflicts
  import opened ConflictResolution
  import opened MethodTableSteps
  import opened MethodTableLedgers
  import opened OwnedMethods

  datatype TypeKind = ClassType | InterfaceType | OtherType

  ghost predicate UsesOk(uses: seq<InterfaceUse>) {
    forall k :: 0 <= k < |uses| && uses[k].table.Some? ==>
      uses[k].table.value.Ok() && uses[k].table.value.classTables == []
  }

  /** All interfaces that are not known yet have a table. */
  predicate Available(uses: seq<InterfaceUse>) { forall k :: 0 <= k < |uses| ==> uses[k].table.Some? }

  /** Every interface counted as known has a table among the merged ones, and those are in the table. */
  ghost predicate Provides(img: Image, t: MethodTable, interfaces: set<Tree>, merged: seq<InterfaceUse>) {
    && (forall x :: x in interfaces ==> exists v :: v in merged && TreeOf(v.interface) == x)
    && (forall v :: v in merged ==> v.table.Some? && Embeds(img, t, v.table.value))
  }

  /** The tables of the interfaces hold entries of `src` only. */
  ghost predicate UsesFrom(uses: seq<InterfaceUse>, src: iset<Entry>) {
    forall k :: 0 <= k < |uses| && uses[k].table.Some? ==> AllIn(uses[k].table.value, src)
  }

  class MethodTableBuilder {
    const img: Image
    var table: MethodTable
    var interfaces: set<Tree>
    /** The interfaces whose tables were merged. */
    ghost var merged: seq<InterfaceUse>
    /** All mentions of interfaces so far. */
    ghost var said: seq<InterfaceUse>

    constructor (img: Image, table: MethodTable)
      ensures this.img == img && this.table == table && interfaces == {} && merged == [] && said == []
    {
      this.img, this.table, interfaces, merged, said := img, table, {}, [], [];
    }

    /** The table extends `base`, holds entries of `src` only, and provides all known interfaces. */
    ghost predicate Builds(base: MethodTable, src: iset<Entry>)
      reads this
    {
      && table.Ok() && Keeps(img, base, table) && AllIn(table, src)
      && Provides(img, table, interfaces, merged) && Recorded(said, interfaces, merged)
    }

    method AddInterface(use: InterfaceUse) returns (ok: bool)
      requires table.Ok() && UsesOk([use])
      modifies this
      ensures ok <==> TreeOf(use.interface) in old(interfaces) || use.table.Some?
      ensures table == if ok && TreeOf(use.interface) !in old(interfaces) then Merged(old(table), use.table.value)
              else old(table)
      ensures interfaces == if ok then old(interfaces) + {TreeOf(use.interface)} else old(interfaces)
      ensures merged == if ok && TreeOf(use.interface) !in old(interfaces) then old(merged) + [use] else old(merged)
      ensures said == if ok then old(said) + [use] else old(said)
    {
      hide TreeOf;
      if TreeOf(use.interface) in interfaces {
        assert interfaces == interfaces + {TreeOf(use.interface)};
        said := said + [use];
        return true;
      }
      if use.table.None? { return false; }
      var interfTable := use.table.value;
      assert [use][0] == use;
      var oldEntryCount := |table.entries|;
      for i := 0 to |interfTable.entries|
        invariant interfaces == old(interfaces) && merged == old(merged) && said == old(said)
        invariant table == old(table).(entries := old(table).entries + interfTable.entries[..i])
      {
        table := table.(entries := table.entries + [interfTable.entries[i]]);
      }
      for k := 0 to |interfTable.interfaceTables|
        invariant interfaces == old(interfaces) && merged == old(merged) && said == old(said)
        invariant table.entries == old(table).entries + interfTable.entries
        invariant table.classTables == old(table).classTables
        invariant table.interfaceTables
                  == old(table).interfaceTables + Shifted(interfTable.interfaceTables, oldEntryCount)[..k]
      {
        var st := interfTable.interfaceTables[k];
        table := table.(interfaceTables := table.interfaceTables
            + [SubTable(st.declaringType, st.start + oldEntryCount, st.end + oldEntryCount)]);
      }
      interfaces := interfaces + {TreeOf(use.interface)};
      merged, said := merged + [use], said + [use];
      return true;
    }

    /** The loop that patches overridden entries. */
    method Patch(entryBuffer: seq<TableEntry>, newEntry: Entry)
      requires forall b :: 0 <= b < |entryBuffer| ==> entryBuffer[b].flatMethodNum < |table.entries|
      modifies this`table
      ensures table == old(table).(entries := table.entries) && |table.entries| == |old(table).entries|
      ensures forall i :: 0 <= i < |table.entries| ==>
                table.entries[i]
                  == if exists b :: 0 <= b < |entryBuffer| && entryBuffer[b].flatMethodNum == i then newEntry
                     else old(table).entries[i]
    {
      for a := 0 to |entryBuffer|
        invariant |table.entries| == |old(table).entries| && table == old(table).(entries := table.entries)
        invariant forall i :: 0 <= i < |table.entries| ==>
                    table.entries[i]
                      == if exists b :: 0 <= b < a && entryBuffer[b].flatMethodNum == i then newEntry
                         else old(table).entries[i]
      {
        table := table.(entries := table.entries[entryBuffer[a].flatMethodNum := newEntry]);
      }
    }

    /** Overrides every viewed entry of the method's reference, or appends the method. */
    method AddMethod(methodId: MethodId, genericContext: Term)
      requires table.Ok()
      modifies this`table
      ensures Added(img, old(table), Entry(methodId, genericContext), table)
      ensures SignaturesOk(img) ==> Overrides(img, old(table), Entry(methodId, genericContext), table)
    {
      hide RefOf, Found, Viewed, Overrides, SignaturesOk;
      var newEntry := Entry(methodId, genericContext);
      var ref := RefOf(img, newEntry);
      var entryBuffer := ResolveAll(img, table, ref);
      BufferMeaning(img, table, ref, entryBuffer);
      if entryBuffer == [] {
        table := table.(entries := table.entries + [newEntry]);
      } else {
        Patch(entryBuffer, newEntry);
      }
      if SignaturesOk(img) { AddedOverrides(img, old(table), newEntry, table); }
    }

    method AddInterfaces(uses: seq<InterfaceUse>, ghost base: MethodTable, ghost src: iset<Entry>) returns (ok: bool)
      requires Builds(base, src) && UsesOk(uses) && UsesFrom(uses, src)
      modifies this
      ensures Builds(base, src) && Keeps(img, old(table), table) && table.classTables == old(table).classTables
      ensures old(interfaces) <= interfaces && forall v :: v in merged ==> v in old(merged) || v in uses
      ensures ok ==> forall u :: u in uses ==> TreeOf(u.interface) in interfaces
      ensures Available(uses) ==> ok
      ensures ok ==> said == old(said) + uses
      ensures forall over :: Ledger(img, old(table), base, old(merged), over) ==> Ledger(img, table, base, merged, over)
    {
      hide RefOf, Keeps, MethodTable.Ok, Merged, Provides, AllIn, TreeOf, Ledger, Recorded;
      KeepsItself(img, table);
      for k := 0 to |uses|
        invariant Builds(base, src) && Keeps(img, old(table), table) && table.classTables == old(table).classTables
        invariant old(interfaces) <= interfaces && forall v :: v in merged ==> v in old(merged) || v in uses
        invariant forall j :: 0 <= j < k ==> TreeOf(uses[j].interface) in interfaces
        invariant said == old(said) + uses[..k]
        invariant forall over :: Ledger(img, old(table), base, old(merged), over) ==>
                  Ledger(img, table, base, merged, over)
      {
        ghost var was, known, done := table, interfaces, merged;
        RecordedMention(said, known, done, uses[k]);
        ok := AddInterface(uses[k]);
        if ok && TreeOf(uses[k].interface) !in known {
          MergeStep(img, base, was, uses[k].table.value);
          MergedKeeps(img, was, uses[k].table.value);
          KeepsTransitive(img, old(table), was, table);
          MergedAllIn(was, uses[k].table.value, src);
          MergedProvides(img, was, known, done, uses[k]);
          forall over | Ledger(img, was, base, done, over) ensures Ledger(img, table, base, merged, over) {
            LedgerMerged(img, was, base, done, over, uses[k]);
          }
        } else if ok {
          assert interfaces == known;
        }
        if !ok { return; }
      }
      ok := true;
    }

    method AddExtensions(exts: seq<Extension>, ghost base: MethodTable, ghost src: iset<Entry>) returns (ok: bool)
      requires Builds(base, src) && ExtensionsOk(exts) && ExtensionsFrom(exts, src)
      modifies this
      ensures Builds(base, src) && Keeps(img, old(table), table) && table.classTables == old(table).classTables
      ensures old(interfaces) <= interfaces && forall v :: v in merged ==> v in old(merged) || InExtensions(exts, v)
      ensures ok ==> forall u :: InExtensions(exts, u) ==> TreeOf(u.interface) in interfaces
      ensures ok ==> forall k :: 0 <= k < |exts| ==>
              MethodsAnswered(img, table, exts[k].virtualMethods, exts[k].genericContext)
      ensures ExtensionsAvailable(exts) ==> ok
      ensures ok ==> said == Mentioned(old(said), exts, |exts|)
      ensures ok && Ledger(img, old(table), base, old(merged), true) ==>
                Ledger(img, table, base, merged, ExtensionsOverride(img, base, old(said), exts, |exts|))
    {
      hide RefOf, Keeps, MethodTable.Ok, Whole, Owns, DistinctRefs, Provides, AllIn, TreeOf, MethodsAnswered, Ledger,
        SameMatches, MethodsOverride, ExtensionOverrides, Firsts, Knows;
      KeepsItself(img, table);
      for k := 0 to |exts|
        invariant Builds(base, src) && Keeps(img, old(table), table) && table.classTables == old(table).classTables
        invariant old(interfaces) <= interfaces && forall v :: v in merged ==> v in old(merged) || InExtensions(exts, v)
        invariant forall j, u :: 0 <= j < k && u in exts[j].interfaces ==> TreeOf(u.interface) in interfaces
        invariant forall j :: 0 <= j < k ==> MethodsAnswered(img, table, exts[j].virtualMethods, exts[j].genericContext)
        invariant said == Mentioned(old(said), exts, k)
        invariant Ledger(img, old(table), base, old(merged), true) ==>
                    Ledger(img, table, base, merged, ExtensionsOverride(img, base, old(said), exts, k))
      {
        ghost var was := table;
        ok := AddInterfaces(exts[k].interfaces, base, src);
        KeepsTransitive(img, old(table), was, table);
        assert forall v :: v in exts[k].interfaces ==> InExtensions(exts, v);
        if !ok { return; }
        ghost var mid := table;
        AddMethods(exts[k].virtualMethods, exts[k].genericContext, base, src);
        KeepsTransitive(img, was, mid, table);
        KeepsTransitive(img, old(table), was, table);
        if Ledger(img, old(table), base, old(merged), true) {
          LedgerExtension(img, mid, base, old(said), exts, k, table);
        }
        forall j | 0 <= j < k ensures MethodsAnswered(img, table, exts[j].virtualMethods, exts[j].genericContext) {
          AnsweredKept(img, was, table, exts[j].virtualMethods, exts[j].genericContext);
        }
      }
      ok := true;
    }

    method AddMethods(methods: seq<MethodId>, genericContext: Term, ghost base: MethodTable, ghost src: iset<Entry>)
      requires Builds(base, src) && forall k :: 0 <= k < |methods| ==> Entry(methods[k], genericContext) in src
      modifies this`table
      ensures Builds(base, src) && Keeps(img, old(table), table) && table.classTables == old(table).classTables
      ensures |old(table).entries| <= |table.entries| && table.interfaceTables == old(table).interfaceTables
      ensures methods == [] ==> table == old(table)
      ensures MethodsAnswered(img, table, methods, genericContext)
      ensures SameMatches(img, old(table), table)
      ensures table.entries[|old(table).entries|..] == NewMethods(img, old(table), methods, genericContext, |methods|)
      ensures Whole(table) <==>
                Whole(old(table)) && MethodsOverride(img, old(table), methods, genericContext, |methods|)
      ensures DistinctRefs(img, methods, genericContext) ==>
                forall k :: 0 <= k < |methods| ==>
                    Owns(img, table, |old(table).entries|, Entry(methods[k], genericContext))
    {
      hide RefOf, Keeps, MethodTable.Ok, Whole, Added, Owns, Provides, AllIn, Answers, Recorded, AnyMatch;
      KeepsItself(img, table);
      for k := 0 to |methods|
        invariant Builds(base, src) && Keeps(img, old(table), table) && table.classTables == old(table).classTables
        invariant |old(table).entries| <= |table.entries| && table.interfaceTables == old(table).interfaceTables
        invariant k == 0 ==> table == old(table)
        invariant forall j :: 0 <= j < k ==> Answers(img, table, RefOf(img, Entry(methods[j], genericContext)))
        invariant SameMatches(img, old(table), table)
        invariant table.entries[|old(table).entries|..] == NewMethods(img, old(table), methods, genericContext, k)
        invariant Whole(table) <==> Whole(old(table)) && MethodsOverride(img, old(table), methods, genericContext, k)
        invariant DistinctRefs(img, methods, genericContext) ==>
                    OwnMethods(img, table, methods, genericContext, k, |old(table).entries|)
      {
        ghost var was := table;
        AddMethod(methods[k], genericContext);
        ghost var e := Entry(methods[k], genericContext);
        AddStep(img, base, was, e, table);
        AddStep(img, old(table), was, e, table);
        AddedProvides(img, was, e, table, interfaces, merged);
        AddedAllIn(img, was, e, table, src);
        AddedAnswers(img, was, e, table);
        forall j | 0 <= j < k ensures Answers(img, table, RefOf(img, Entry(methods[j], genericContext))) {
          AddedKeeps(img, was, e, table);
          KeepsAnswers(img, was, table, RefOf(img, Entry(methods[j], genericContext)));
        }
        MethodsOverrideStep(img, old(table), was, table, methods, genericContext, k);
        NewMethodsStep(img, old(table), was, table, methods, genericContext, k);
        if DistinctRefs(img, methods, genericContext) {
          OwnStep(img, was, table, methods, genericContext, k, |old(table).entries|);
        }
      }
    }
  }

  ghost predicate ExtensionsOk(exts: seq<Extension>) { forall k :: 0 <= k < |exts| ==> UsesOk(exts[k].interfaces) }

  predicate ExtensionsAvailable(exts: seq<Extension>) { forall k :: 0 <= k < |exts| ==> Available(exts[k].interfaces) }

  ghost predicate InExtensions(exts: seq<Extension>, u: InterfaceUse) {
    exists k :: 0 <= k < |exts| && u in exts[k].interfaces
  }

  /** Extensions contribute entries of `src` only. */
  ghost predicate ExtensionsFrom(exts: seq<Extension>, src: iset<Entry>) {
    forall k :: 0 <= k < |exts| ==>
      && UsesFrom(exts[k].interfaces, src)
      && forall m :: 0 <= m < |exts[k].virtualMethods| ==>
          Entry(exts[k].virtualMethods[m], exts[k].genericContext) in src
  }

  /** The table has an entry for the reference of every one of the methods. */
  ghost predicate MethodsAnswered(img: Image, t: MethodTable, methods: seq<MethodId>, ctx: Term) {
    forall k :: 0 <= k < |methods| ==> Answers(img, t, RefOf(img, Entry(methods[k], ctx)))
  }

  lemma AnsweredKept(img: Image, t: MethodTable, t': MethodTable, methods: seq<MethodId>, ctx: Term)
    requires Keeps(img, t, t') && MethodsAnswered(img, t, methods, ctx)
    ensures MethodsAnswered(img, t', methods, ctx)
  {
    hide RefOf, Keeps, Answers;
    forall k | 0 <= k < |methods| ensures Answers(img, t', RefOf(img, Entry(methods[k], ctx))) {
      KeepsAnswers(img, t, t', RefOf(img, Entry(methods[k], ctx)));
    }
  }

  lemma ProvidesKept(img: Image, t: MethodTable, t': MethodTable, interfaces: set<Tree>, merged: seq<InterfaceUse>)
    requires Provides(img, t, interfaces, merged) && Keeps(img, t, t')
    ensures Provides(img, t', interfaces, merged)
  {
    hide Keeps, Embeds, TreeOf;
    forall v | v in merged ensures v.table.Some? && Embeds(img, t', v.table.value) {
      KeepsEmbeds(img, t, t', v.table.value);
    }
  }

  lemma AddedProvides(
    img: Image, t: MethodTable, e: Entry, t': MethodTable, interfaces: set<Tree>, merged: seq<InterfaceUse>)
    requires t.Ok() && Added(img, t, e, t') && Provides(img, t, interfaces, merged)
    ensures Provides(img, t', interfaces, merged)
  {
    AddedKeeps(img, t, e, t');
    ProvidesKept(img, t, t', interfaces, merged);
  }

  lemma MergedProvides(img: Image, t: MethodTable, interfaces: set<Tree>, merged: seq<InterfaceUse>, use: InterfaceUse)
    requires t.Ok() && Provides(img, t, interfaces, merged)
    requires use.table.Some? && use.table.value.Ok() && use.table.value.classTables == []
    ensures Provides(img, Merged(t, use.table.value), interfaces + {TreeOf(use.interface)}, merged + [use])
  {
    hide Merged, MethodTable.Ok, Keeps, Embeds, TreeOf;
    var i := use.table.value;
    MergedKeeps(img, t, i);
    ProvidesKept(img, t, Merged(t, i), interfaces, merged);
    MergedEmbeds(img, t, i);
    forall x | x in interfaces + {TreeOf(use.interface)}
      ensures exists v :: v in merged + [use] && TreeOf(v.interface) == x {
      if x in interfaces {
        var v :| v in merged && TreeOf(v.interface) == x;
        assert v in merged + [use];
      } else {
        assert use in merged + [use];
      }
    }
  }

  lemma MergeStep(img: Image, base: MethodTable, was: MethodTable, i: MethodTable)
    requires was.Ok() && i.Ok() && i.classTables == [] && Keeps(img, base, was)
    ensures Keeps(img, base, Merged(was, i)) && Merged(was, i).Ok() && Merged(was, i).classTables == was.classTables
  {
    MergedKeeps(img, was, i);
    KeepsTransitive(img, base, was, Merged(was, i));
  }

  lemma AddStep(img: Image, base: MethodTable, was: MethodTable, e: Entry, t: MethodTable)
    requires was.Ok() && Added(img, was, e, t) && Keeps(img, base, was)
    ensures Keeps(img, base, t) && t.Ok() && t.classTables == was.classTables
    ensures t.interfaceTables == was.interfaceTables
    ensures |was.entries| <= |t.entries|
  {
    AddedKeeps(img, was, e, t);
    KeepsTransitive(img, base, was, t);
  }

  /** The references of a type's own methods are pairwise distinct. */
  ghost predicate DistinctRefs(img: Image, methods: seq<MethodId>, ctx: Term) {
    forall j, k :: 0 <= j < k < |methods| ==> RefOf(img, Entry(methods[j], ctx)) != RefOf(img, Entry(methods[k], ctx))
  }

  /** The first `k` methods own their references, and what was appended after `n` is some of them. */
  ghost predicate OwnMethods(img: Image, t: MethodTable, methods: seq<MethodId>, ctx: Term, k: nat, n: nat)
    requires k <= |methods|
  {
    && n <= |t.entries|
    && (forall j :: 0 <= j < k ==> Owns(img, t, n, Entry(methods[j], ctx)))
    && (forall i :: n <= i < |t.entries| ==> exists j :: 0 <= j < k && t.entries[i] == Entry(methods[j], ctx))
  }

  lemma OwnStep(img: Image, was: MethodTable, t: MethodTable, methods: seq<MethodId>, ctx: Term, k: nat, n: nat)
    requires k < |methods| && OwnMethods(img, was, methods, ctx, k, n) && DistinctRefs(img, methods, ctx)
    requires Added(img, was, Entry(methods[k], ctx), t)
    ensures OwnMethods(img, t, methods, ctx, k + 1, n)
  {
    hide RefOf, Owns, Viewed;
    var e := Entry(methods[k], ctx);
    AddedOwns(img, was, e, t, n);
    forall j | 0 <= j < k ensures Owns(img, t, n, Entry(methods[j], ctx)) {
      AddedKeepsOwned(img, was, e, t, n, Entry(methods[j], ctx));
    }
    forall i | n <= i < |t.entries| ensures exists j :: 0 <= j < k + 1 && t.entries[i] == Entry(methods[j], ctx) {
      if i < |was.entries| && t.entries[i] == was.entries[i] {
        var j :| 0 <= j < k && was.entries[i] == Entry(methods[j], ctx);
        assert t.entries[i] == Entry(methods[j], ctx);
      } else {
        assert t.entries[i] == Entry(methods[k], ctx);
      }
    }
  }

  // ---- BuildTable ----

  function EmptyTable(): MethodTable { MethodTable([], [], []) }

  /** The table that building starts from. */
  function BaseTable(kind: TypeKind, super: Option<MethodTable>): MethodTable {
    if kind.ClassType? && super.Some? then super.value else EmptyTable()
  }

  /** Everything the type refers to has a table. */
  predicate AllAvailable(kind: TypeKind, super: Option<MethodTable>, uses: seq<InterfaceUse>, exts: seq<Extension>) {
    (kind.ClassType? ==> super.Some?) && Available(uses) && ExtensionsAvailable(exts)
  }

  /** The superclass's table is whole, so are the merged ones, and every method of an extension replaces an entry
      that is there to be overridden. */
  ghost predicate PartsWhole(img: Image, base: MethodTable, uses: seq<InterfaceUse>, exts: seq<Extension>) {
    && Whole(base) && AllWhole(Firsts(Mentioned(uses, exts, |exts|)))
    && ExtensionsOverride(img, base, uses, exts, |exts|)
  }

  /** So it is in hierarchies without methods in extensions. */
  lemma PlainPartsWhole(img: Image, base: MethodTable, uses: seq<InterfaceUse>, exts: seq<Extension>)
    requires Whole(base) && AllWhole(Mentioned(uses, exts, |exts|))
    requires forall k :: 0 <= k < |exts| ==> exts[k].virtualMethods == []
    ensures PartsWhole(img, base, uses, exts)
  {
    hide Whole, Firsts, Mentioned;
    NoExtensionMethods(img, base, uses, exts);
    FirstsAreMentioned(Mentioned(uses, exts, |exts|));
  }

  /** The own methods of distinct references: each resolves to itself exactly when its group was not settled on
      another entry that no sub-table views. Below a whole superclass table concrete ones always do, and in a
      whole table all do. */
  ghost predicate OwnResolve(
    img: Image, base: MethodTable, merged: MethodTable, t: MethodTable, methods: seq<MethodId>, ctx: Term)
  {
    DistinctRefs(img, methods, ctx) ==>
      forall k :: 0 <= k < |methods| ==>
        && (ResolvesToItself(img, t, methods[k], ctx) <==>
            !SettledElsewhere(img, merged, |base.entries|, Entry(methods[k], ctx)))
        && (Whole(base) && !img.isAbstract(methods[k]) ==> ResolvesToItself(img, t, methods[k], ctx))
        && (Whole(t) ==> ResolvesToItself(img, t, methods[k], ctx))
  }

  /** What entries can be made of: those of the superclass and of the interfaces, and the methods of the
      extensions and of the type itself. */
  ghost predicate IsSource(
    e: Entry, type': Term, base: MethodTable, uses: seq<InterfaceUse>, exts: seq<Extension>,
    virtualMethods: seq<MethodId>)
  {
    || e in base.entries
    || (exists u :: (u in uses || InExtensions(exts, u)) && u.table.Some? && e in u.table.value.entries)
    || (exists k, m :: 0 <= k < |exts| && 0 <= m < |exts[k].virtualMethods| &&
          e == Entry(exts[k].virtualMethods[m], exts[k].genericContext))
    || (exists k :: 0 <= k < |virtualMethods| && e == Entry(virtualMethods[k], type'))
  }

  ghost function Sources(
    type': Term, base: MethodTable, uses: seq<InterfaceUse>, exts: seq<Extension>,
    virtualMethods: seq<MethodId>): iset<Entry>
  {
    iset e: Entry | IsSource(e, type', base, uses, exts, virtualMethods)
  }

  lemma SourcesCover(
    type': Term, base: MethodTable, uses: seq<InterfaceUse>, exts: seq<Extension>, virtualMethods: seq<MethodId>)
    ensures var src := Sources(type', base, uses, exts, virtualMethods);
            && AllIn(base, src) && UsesFrom(uses, src) && ExtensionsFrom(exts, src)
            && forall k :: 0 <= k < |virtualMethods| ==> Entry(virtualMethods[k], type') in src
  {
    forall k, i | 0 <= k < |uses| && uses[k].table.Some? && 0 <= i < |uses[k].table.value.entries|
      ensures IsSource(uses[k].table.value.entries[i], type', base, uses, exts, virtualMethods)
    {
      assert uses[k] in uses;
    }
    forall j, k, i | 0 <= j < |exts| && 0 <= k < |exts[j].interfaces| && exts[j].interfaces[k].table.Some?
      && 0 <= i < |exts[j].interfaces[k].table.value.entries|
      ensures IsSource(exts[j].interfaces[k].table.value.entries[i], type', base, uses, exts, virtualMethods)
    {
      assert InExtensions(exts, exts[j].interfaces[k]);
    }
  }

  /** The interface, or another mention of it, has its table inside `t`. */
  ghost predicate Provided(img: Image, t: MethodTable, uses: seq<InterfaceUse>, exts: seq<Extension>, u: InterfaceUse) {
    exists v :: (v in uses || InExtensions(exts, v)) && TreeOf(v.interface) == TreeOf(u.interface)
      && v.table.Some? && Embeds(img, t, v.table.value)
  }

  lemma AllProvided(
    img: Image, t: MethodTable, interfaces: set<Tree>, merged: seq<InterfaceUse>, uses: seq<InterfaceUse>,
    exts: seq<Extension>,
    u: InterfaceUse)
    requires Provides(img, t, interfaces, merged) && TreeOf(u.interface) in interfaces
    requires forall v :: v in merged ==> v in uses || InExtensions(exts, v)
    ensures Provided(img, t, uses, exts, u)
  {
    hide TreeOf, Embeds, InExtensions;
    var v :| v in merged && TreeOf(v.interface) == TreeOf(u.interface);
  }

  /** What the table has besides: every interface, every method of an extension, every own method, and
      nothing that is none of its sources. */
  ghost predicate Complete(
    img: Image, t: MethodTable, type': Term, base: MethodTable, uses: seq<InterfaceUse>, exts: seq<Extension>,
    virtualMethods: seq<MethodId>)
  {
    && (forall u :: u in uses || InExtensions(exts, u) ==> Provided(img, t, uses, exts, u))
    && (forall k :: 0 <= k < |exts| ==> MethodsAnswered(img, t, exts[k].virtualMethods, exts[k].genericContext))
    && MethodsAnswered(img, t, virtualMethods, type')
    && AllIn(t, Sources(type', base, uses, exts, virtualMethods))
  }

  /** Builds the table of a type: `merged` is the table before conflicts are resolved. The table of the
      superclass is kept slot by slot; the sub-tables partition the array exactly when all parts are whole. */
  method BuildTable(
    img: Image, type': Term, kind: TypeKind, super: Option<MethodTable>,
    uses: seq<InterfaceUse>, exts: seq<Extension>, virtualMethods: seq<MethodId>)
    returns (r: Option<MethodTable>, ghost merged: MethodTable)
    requires super.Some? ==> super.value.Ok()
    requires UsesOk(uses) && ExtensionsOk(exts)
    ensures AllAvailable(kind, super, uses, exts) ==>
              && Keeps(img, BaseTable(kind, super), merged)
              && Complete(img, merged, type', BaseTable(kind, super), uses, exts, virtualMethods)
              && (r.None? <==> HasClash(img, merged.entries, |BaseTable(kind, super).entries|, |merged.entries|))
    ensures r.Some? ==> Resolved(img, merged.entries, |BaseTable(kind, super).entries|, |merged.entries|,
            r.value.entries)
    ensures r.Some? ==> r.value.Ok() && Keeps(img, BaseTable(kind, super), r.value)
    ensures r.Some? ==> (kind.ClassType? ==> super.Some?) && FirstsAvailable(uses, exts)
    ensures r.Some? ==> Complete(img, r.value, type', BaseTable(kind, super), uses, exts, virtualMethods)
    ensures r.Some? && kind.InterfaceType? ==> r.value.classTables == []
    ensures r.Some? ==>
              && r.value.classTables == merged.classTables && r.value.interfaceTables == merged.interfaceTables
              && OwnListed(img, BaseTable(kind, super), uses, exts, kind, merged, type', virtualMethods)
    ensures r.Some? ==> forall i, j :: 0 <= i < j < |r.value.entries| ==> ConcreteAgree(img, r.value, i, j)
    ensures r.Some? ==> (Whole(r.value) <==> PartsWhole(img, BaseTable(kind, super), uses, exts))
    ensures r.Some? ==> OwnResolve(img, BaseTable(kind, super), merged, r.value, virtualMethods, type')
  {
    hide RefOf, Keeps, MethodTable.Ok, Owns, DistinctRefs, Resolved, HasClash, AllFound, AllIn, Provides, Sources,
      UsesFrom, ExtensionsFrom, TreeOf, MethodsAnswered, Complete, InExtensions, ConcreteAgree, OwnResolve,
      Whole, Ledger, Recorded, SameMatches, MethodsOverride, ExtensionsOverride, Mentioned, PartsWhole, OwnListed,
      FirstsAvailable;
    merged := EmptyTable();
    ghost var base := BaseTable(kind, super);
    EmptyOk();
    if kind.ClassType? && super.None? { return None, merged; }
    var builder := new MethodTableBuilder(img, if kind.ClassType? then super.value else EmptyTable());
    KeepsItself(img, base);
    ghost var src := Sources(type', base, uses, exts, virtualMethods);
    SourcesCover(type', base, uses, exts, virtualMethods);
    NothingProvided(img, base);
    LedgerStart(img, base);
    var oldEntryCount := |builder.table.entries|;
    var ok := builder.AddInterfaces(uses, base, src);
    assert [] + uses == uses;
    if !ok { return None, merged; }
    ok := builder.AddExtensions(exts, base, src);
    if !ok { return None, merged; }
    var entryCountWithInterfaces := |builder.table.entries|;
    ghost var before := builder.table;
    PartsDecide(img, before, base, builder.said, builder.interfaces, builder.merged, uses, exts);
    builder.AddMethods(virtualMethods, type', base, src);
    var t := builder.table;
    var own := SubTable(type', entryCountWithInterfaces, |t.entries|);
    if kind.InterfaceType? {
      t := t.(interfaceTables := t.interfaceTables + [own]);
    } else {
      t := t.(classTables := t.classTables + [own]);
    }
    merged := t;
    MergedAvailable(img, before, builder.said, builder.interfaces, builder.merged, uses, exts);
    OwnIsListed(img, base, before, builder.said, builder.interfaces, builder.merged, uses, exts, kind, builder.table, t,
      own, virtualMethods);
    OwnTableOk(img, base, builder.table, t, own);
    OwnTableComplete(img, before, builder.table, t, builder.interfaces, builder.merged, type', base, uses, exts,
        virtualMethods);
    var resolver := new ConflictResolver(img, t.entries);
    var conflictFound := resolver.VerifyAndResolveConflicts(oldEntryCount, |t.entries|);
    if conflictFound { return None, merged; }
    var t' := t.(entries := resolver.entries);
    ResolvedTable(img, base, t, oldEntryCount, t');
    ResolvedComplete(img, t, oldEntryCount, t', type', base, uses, exts, virtualMethods);
    WholeDecided(img, before, builder.table, t, own, oldEntryCount, t');
    OwnAllResolve(img, base, builder.table, entryCountWithInterfaces, t, own, t', type', virtualMethods);
    r := Some(t');
  }

  /** Each interface has a table where it is mentioned first. */
  ghost predicate FirstsAvailable(uses: seq<InterfaceUse>, exts: seq<Extension>) {
    forall v :: v in Firsts(Mentioned(uses, exts, |exts|)) ==> v.table.Some?
  }

  lemma MergedAvailable(
    img: Image, t: MethodTable, said: seq<InterfaceUse>, interfaces: set<Tree>, merged: seq<InterfaceUse>,
    uses: seq<InterfaceUse>, exts: seq<Extension>)
    requires Provides(img, t, interfaces, merged) && Recorded(said, interfaces, merged)
    requires said == Mentioned(uses, exts, |exts|)
    ensures FirstsAvailable(uses, exts)
  {
    hide Embeds, TreeOf, Firsts, Mentioned, Knows;
  }

  /** The sub-table of the type itself comes last of its kind, ends with the array, and lists the methods that the
      type declares anew, in their order: those that neither the superclass nor an interface offers. */
  ghost predicate OwnListed(
    img: Image, base: MethodTable, uses: seq<InterfaceUse>, exts: seq<Extension>, kind: TypeKind, t: MethodTable,
    type': Term, methods: seq<MethodId>)
  {
    var tables := if kind.InterfaceType? then t.interfaceTables else t.classTables;
    && tables != []
    && var own := tables[|tables| - 1];
       && own.declaringType == type' && own.start <= own.end == |t.entries|
       && t.entries[own.start..]
          == Declared(img, base, Firsts(Mentioned(uses, exts, |exts|)), methods, type', |methods|)
  }

  lemma OwnIsListed(
    img: Image, base: MethodTable, before: MethodTable, said: seq<InterfaceUse>, interfaces: set<Tree>,
    merged: seq<InterfaceUse>, uses: seq<InterfaceUse>, exts: seq<Extension>, kind: TypeKind, u: MethodTable,
    t: MethodTable, own: SubTable, methods: seq<MethodId>)
    requires Ledger(img, before, base, merged, ExtensionsOverride(img, base, uses, exts, |exts|))
    requires Recorded(said, interfaces, merged) && said == Mentioned(uses, exts, |exts|)
    requires |before.entries| <= |u.entries|
    requires u.entries[|before.entries|..] == NewMethods(img, before, methods, own.declaringType, |methods|)
    requires own.start == |before.entries| && own.end == |u.entries|
    requires t == if kind.InterfaceType? then u.(interfaceTables := u.interfaceTables + [own])
                  else u.(classTables := u.classTables + [own])
    ensures OwnListed(img, base, uses, exts, kind, t, own.declaringType, methods)
  {
    hide Ledger, ExtensionsOverride, Mentioned, Firsts;
    NewIsDeclared(img, before, base, merged, ExtensionsOverride(img, base, uses, exts, |exts|), methods,
                  own.declaringType, |methods|);
  }

  lemma NothingProvided(img: Image, t: MethodTable)
    ensures Provides(img, t, {}, []) && Recorded([], {}, [])
  {
  }

  /** Adding the own sub-table loses nothing. */
  lemma OwnTableComplete(
    img: Image, s: MethodTable, u: MethodTable, t: MethodTable, interfaces: set<Tree>, merged: seq<InterfaceUse>,
    type': Term, base: MethodTable, uses: seq<InterfaceUse>, exts: seq<Extension>, virtualMethods: seq<MethodId>)
    requires Keeps(img, s, u) && t.entries == u.entries && u.classTables <= t.classTables
    requires u.interfaceTables <= t.interfaceTables
    requires Provides(img, u, interfaces, merged) && forall v :: v in merged ==> v in uses || InExtensions(exts, v)
    requires forall v :: v in uses || InExtensions(exts, v) ==> TreeOf(v.interface) in interfaces
    requires forall k :: 0 <= k < |exts| ==> MethodsAnswered(img, s, exts[k].virtualMethods, exts[k].genericContext)
    requires MethodsAnswered(img, u, virtualMethods, type')
    requires AllIn(u, Sources(type', base, uses, exts, virtualMethods))
    ensures Complete(img, t, type', base, uses, exts, virtualMethods)
  {
    assert Keeps(img, u, t);
    SameAllIn(u, t, Sources(type', base, uses, exts, virtualMethods));
    hide RefOf, Keeps, MethodsAnswered, Provides, TreeOf, InExtensions, Sources, AllIn, Provided;
    KeepsTransitive(img, s, u, t);
    ProvidesKept(img, u, t, interfaces, merged);
    forall v | v in uses || InExtensions(exts, v) ensures Provided(img, t, uses, exts, v) {
      AllProvided(img, t, interfaces, merged, uses, exts, v);
    }
    forall k | 0 <= k < |exts| ensures MethodsAnswered(img, t, exts[k].virtualMethods, exts[k].genericContext) {
      AnsweredKept(img, s, t, exts[k].virtualMethods, exts[k].genericContext);
    }
    AnsweredKept(img, u, t, virtualMethods, type');
  }

  lemma SameAllIn(u: MethodTable, t: MethodTable, src: iset<Entry>)
    requires t.entries == u.entries && AllIn(u, src)
    ensures AllIn(t, src)
  {
  }

  /** ... and neither does settling the groups. */
  lemma ResolvedComplete(
    img: Image, t: MethodTable, newStart: nat, t': MethodTable,
    type': Term, base: MethodTable, uses: seq<InterfaceUse>, exts: seq<Extension>, virtualMethods: seq<MethodId>)
    requires t' == t.(entries := t'.entries) && Resolved(img, t.entries, newStart, |t.entries|, t'.entries)
    requires Complete(img, t, type', base, uses, exts, virtualMethods)
    ensures Complete(img, t', type', base, uses, exts, virtualMethods)
  {
    hide RefOf, Keeps, Resolved, MethodsAnswered, TreeOf, InExtensions, Sources, AllIn, Provided;
    ResolvedExtends(img, t, newStart, t');
    ResolvedAllIn(img, t, newStart, |t.entries|, t'.entries, Sources(type', base, uses, exts, virtualMethods));
    forall v | v in uses || InExtensions(exts, v) ensures Provided(img, t', uses, exts, v) {
      ProvidedKept(img, t, t', uses, exts, v);
    }
    forall k | 0 <= k < |exts| ensures MethodsAnswered(img, t', exts[k].virtualMethods, exts[k].genericContext) {
      AnsweredKept(img, t, t', exts[k].virtualMethods, exts[k].genericContext);
    }
    AnsweredKept(img, t, t', virtualMethods, type');
  }

  lemma ProvidedKept(
    img: Image, t: MethodTable, t': MethodTable, uses: seq<InterfaceUse>, exts: seq<Extension>, u: InterfaceUse)
    requires Keeps(img, t, t') && Provided(img, t, uses, exts, u)
    ensures Provided(img, t', uses, exts, u)
  {
    hide Keeps, Embeds, TreeOf, InExtensions;
    var v :| (v in uses || InExtensions(exts, v)) && TreeOf(v.interface) == TreeOf(u.interface)
      && v.table.Some? && Embeds(img, t, v.table.value);
    KeepsEmbeds(img, t, t', v.table.value);
  }

  lemma ResolvedExtends(img: Image, t: MethodTable, newStart: nat, t': MethodTable)
    requires t' == t.(entries := t'.entries) && Resolved(img, t.entries, newStart, |t.entries|, t'.entries)
    ensures Keeps(img, t, t')
  {
    assert |t'.entries| == |t.entries|;
    hide RefOf, Resolved;
    forall i | 0 <= i < |t.entries| ensures RefOf(img, t'.entries[i]) == RefOf(img, t.entries[i]) {
      ResolvedKeepsRefs(img, t.entries, newStart, |t.entries|, t'.entries, i);
    }
  }

  lemma PartsDecide(
    img: Image, t: MethodTable, base: MethodTable, said: seq<InterfaceUse>, interfaces: set<Tree>,
    merged: seq<InterfaceUse>, uses: seq<InterfaceUse>, exts: seq<Extension>)
    requires Ledger(img, t, base, merged, ExtensionsOverride(img, base, uses, exts, |exts|))
    requires Recorded(said, interfaces, merged) && said == Mentioned(uses, exts, |exts|)
    ensures Whole(t) <==> PartsWhole(img, base, uses, exts)
  {
    hide Whole, AllWhole, Firsts, Mentioned, ExtensionsOverride, Offered, AnyMatch;
  }

  /** Own methods, the own sub-table and conflict resolution leave the partition as the extensions left it. */
  lemma WholeDecided(
    img: Image, before: MethodTable, u: MethodTable, t: MethodTable, own: SubTable, newStart: nat, t': MethodTable)
    requires before.Ok() && |before.entries| <= |u.entries|
    requires u.classTables == before.classTables && u.interfaceTables == before.interfaceTables
    requires own.start == |before.entries| && own.end == |u.entries|
    requires t == u.(classTables := u.classTables + [own]) || t == u.(interfaceTables := u.interfaceTables + [own])
    requires t' == t.(entries := t'.entries) && Resolved(img, t.entries, newStart, |t.entries|, t'.entries)
    ensures Whole(t') <==> Whole(before)
  {
    assert u.Tables() == before.Tables() && |t'.entries| == |t.entries|;
    hide Partitioned, Resolved;
    SamePartition(before, u, |before.entries|);
    OwnTablePartitions(u, |before.entries|, t, own);
    SamePartition(t, t', |t.entries|);
  }

  lemma OwnAllResolve(
    img: Image, base: MethodTable, u: MethodTable, n: nat, t: MethodTable, own: SubTable, t': MethodTable,
    type': Term, virtualMethods: seq<MethodId>)
    requires t.Ok() && Keeps(img, base, t) && t' == t.(entries := t'.entries)
    requires t == u.(classTables := u.classTables + [own]) || t == u.(interfaceTables := u.interfaceTables + [own])
    requires own.start == n && own.end == |u.entries|
    requires Resolved(img, t.entries, |base.entries|, |t.entries|, t'.entries)
    requires DistinctRefs(img, virtualMethods, type') ==>
               forall k :: 0 <= k < |virtualMethods| ==> Owns(img, u, n, Entry(virtualMethods[k], type'))
    ensures OwnResolve(img, base, t, t', virtualMethods, type')
  {
    hide RefOf, MethodTable.Ok, Whole, Owns, DistinctRefs, Resolved, ResolvesToItself, SettledElsewhere, Keeps;
    if DistinctRefs(img, virtualMethods, type') {
      forall k | 0 <= k < |virtualMethods|
        ensures ResolvesToItself(img, t', virtualMethods[k], type') <==>
                !SettledElsewhere(img, t, |base.entries|, Entry(virtualMethods[k], type'))
        ensures Whole(base) && !img.isAbstract(virtualMethods[k]) ==>
                ResolvesToItself(img, t', virtualMethods[k], type')
        ensures Whole(t') ==> ResolvesToItself(img, t', virtualMethods[k], type')
      {
        OneResolves(img, base, u, n, t, own, t', Entry(virtualMethods[k], type'));
      }
    }
  }

  lemma OneResolves(
    img: Image, base: MethodTable, u: MethodTable, n: nat, t: MethodTable, own: SubTable, t': MethodTable, x: Entry)
    requires t.Ok() && Keeps(img, base, t) && t' == t.(entries := t'.entries) && Owns(img, u, n, x)
    requires t == u.(classTables := u.classTables + [own]) || t == u.(interfaceTables := u.interfaceTables + [own])
    requires own.start == n && own.end == |u.entries|
    requires Resolved(img, t.entries, |base.entries|, |t.entries|, t'.entries)
    ensures ResolvesToItself(img, t', x.methodId, x.genericContext) <==> !SettledElsewhere(img, t, |base.entries|, x)
    ensures Whole(base) && !img.isAbstract(x.methodId) ==> ResolvesToItself(img, t', x.methodId, x.genericContext)
    ensures Whole(t') ==> ResolvesToItself(img, t', x.methodId, x.genericContext)
  {
    assert |t'.entries| == |t.entries|;
    hide RefOf, Owns, MethodTable.Ok, Resolved, ResolvesToItself, SettledElsewhere, Viewed, Partitioned, OnlyConcrete;
    forall i: nat ensures Viewed(t, i) <==> Viewed(u, i) || n <= i < |u.entries| { OwnTableViews(u, t, own, i); }
    ViewedOwner(img, u, n, t, x);
    OwnKeeps(img, t, |base.entries|, t', x);
    if Whole(base) {
      BaseViewed(img, base, t);
      OwnLosesToOnlyConcrete(img, t, |base.entries|, x);
    }
    SamePartition(t, t', |t.entries|);
    if Whole(t) { WholeKeepsOwn(img, t, |base.entries|, x); }
  }

  /** What a whole superclass table has is viewed in the table below it. */
  lemma BaseViewed(img: Image, base: MethodTable, t: MethodTable)
    requires Whole(base) && Keeps(img, base, t)
    ensures forall i: nat :: i < |base.entries| ==> Viewed(t, i)
  {
    hide RefOf;
    forall i: nat | i < |base.entries| ensures Viewed(t, i) {
      assert Viewed(base, i);
      ViewedInSome(base, i);
      ViewedInSome(t, i);
      hide Viewed, InSome;
      var cs, fs := t.classTables, t.interfaceTables;
      var c, d := |base.classTables|, |base.interfaceTables|;
      InEither(base.classTables, base.interfaceTables, i);
      InEither(cs, fs, i);
      InEither(cs[..c], cs[c..], i);
      InEither(fs[..d], fs[d..], i);
      assert cs == cs[..c] + cs[c..] && fs == fs[..d] + fs[d..];
    }
  }

  /** Concrete entries of one reference are of one method. */
  ghost predicate ConcreteAgree(img: Image, t: MethodTable, i: nat, j: nat)
    requires i < |t.entries| && j < |t.entries|
  {
    RefOf(img, t.entries[i]) == RefOf(img, t.entries[j])
    && !img.isAbstract(t.entries[i].methodId) && !img.isAbstract(t.entries[j].methodId)
    ==> t.entries[i].methodId == t.entries[j].methodId
  }

  lemma EmptyOk()
    ensures EmptyTable().Ok()
  {
  }

  lemma KeepsItself(img: Image, t: MethodTable)
    ensures Keeps(img, t, t)
  {
  }

  lemma OwnTableOk(img: Image, base: MethodTable, t: MethodTable, t': MethodTable, own: SubTable)
    requires t.Ok() && Keeps(img, base, t) && own.start <= own.end == |t.entries|
    requires t' == t.(classTables := t.classTables + [own]) || t' == t.(interfaceTables := t.interfaceTables + [own])
    ensures t'.Ok() && Keeps(img, base, t')
  {
    hide RefOf;
    var at := if t' == t.(classTables := t.classTables + [own]) then |t.classTables| else |t.Tables()|;
    forall k | 0 <= k < |t'.Tables()| ensures t'.Tables()[k].start <= t'.Tables()[k].end <= |t'.entries| {
      assert t'.Tables()[k] == if k < at then t.Tables()[k] else if k == at then own else t.Tables()[k - 1];
    }
  }

  lemma ResolvedTable(img: Image, base: MethodTable, t: MethodTable, newStart: nat, t': MethodTable)
    requires t.Ok() && Keeps(img, base, t) && t' == t.(entries := t'.entries)
    requires Resolved(img, t.entries, newStart, |t.entries|, t'.entries)
    requires !HasClash(img, t.entries, newStart, |t.entries|)
    ensures t'.Ok() && Keeps(img, base, t')
    ensures forall i, j :: 0 <= i < j < |t'.entries| ==> ConcreteAgree(img, t', i, j)
  {
    assert |t'.entries| == |t.entries|;
    hide RefOf, Resolved, HasClash;
    assert t'.Tables() == t.Tables();
    forall i | 0 <= i < |t.entries| ensures RefOf(img, t'.entries[i]) == RefOf(img, t.entries[i]) {
      ResolvedKeepsRefs(img, t.entries, newStart, |t.entries|, t'.entries, i);
    }
    forall i, j | 0 <= i < j < |t'.entries| ensures ConcreteAgree(img, t', i, j) {
      if RefOf(img, t'.entries[i]) == RefOf(img, t'.entries[j])
         && !img.isAbstract(t'.entries[i].methodId) && !img.isAbstract(t'.entries[j].methodId)
      {
        ResolvedAgrees(img, t.entries, newStart, |t.entries|, t'.entries, i, j);
      }
    }
  }
}
