/** What the steps of building a method table keep: slots, sub-tables, and the partition of the array. */
module MethodTableSteps {
  import opened MethodTables
  import opened MethodConflicts

  // ---- Slot stability ----

  /** Table `t'` extends `t`: no position changes its reference, no sub-table moves. */
  ghost predicate Keeps(img: Image, t: MethodTable, t': MethodTable) {
    && |t.entries| <= |t'.entries|
    && (forall i :: 0 <= i < |t.entries| ==> RefOf(img, t'.entries[i]) == RefOf(img, t.entries[i]))
    && t.classTables <= t'.classTables && t.interfaceTables <= t'.interfaceTables
  }

  lemma KeepsTransitive(img: Image, t: MethodTable, u: MethodTable, v: MethodTable)
    requires Keeps(img, t, u) && Keeps(img, u, v)
    ensures Keeps(img, t, v)
  {
    hide RefOf;
  }

  /** The reference of slot `m` of the class sub-table `k`. */
  function SlotRef(img: Image, t: MethodTable, k: nat, m: nat): Reference
    requires k < |t.classTables| && t.classTables[k].start + m < |t.entries|
  {
    RefOf(img, t.entries[t.classTables[k].start + m])
  }

  /** Along any chain of tables that extend each other, as in a class hierarchy, a slot of an ancestor
      keeps its bounds and its reference in every descendant. */
  lemma {:induction false} SlotsStable(img: Image, chain: seq<MethodTable>, a: nat, b: nat)
    requires a <= b < |chain| && forall i :: 0 < i < |chain| ==> Keeps(img, chain[i - 1], chain[i])
    ensures Keeps(img, chain[a], chain[b])
    ensures forall k: nat, m: nat ::
              k < |chain[a].classTables| && chain[a].classTables[k].start + m < |chain[a].entries| ==>
                && k < |chain[b].classTables| && chain[b].classTables[k] == chain[a].classTables[k]
                && SlotRef(img, chain[b], k, m) == SlotRef(img, chain[a], k, m)
    decreases b
  {
    hide RefOf;
    if a < b {
      SlotsStable(img, chain, a, b - 1);
      KeepsTransitive(img, chain[a], chain[b - 1], chain[b]);
    }
  }

  // ---- Merging an interface table ----

  function Shift(st: SubTable, disp: nat): SubTable { SubTable(st.declaringType, st.start + disp, st.end + disp) }

  function Shifted(sts: seq<SubTable>, disp: nat): (r: seq<SubTable>)
    ensures |r| == |sts| && forall k :: 0 <= k < |sts| ==> r[k] == Shift(sts[k], disp)
  {
    seq(|sts|, k requires 0 <= k < |sts| => Shift(sts[k], disp))
  }

  function Merged(t: MethodTable, i: MethodTable): MethodTable {
    MethodTable(t.entries + i.entries, t.classTables, t.interfaceTables + Shifted(i.interfaceTables, |t.entries|))
  }

  lemma MergedKeeps(img: Image, t: MethodTable, i: MethodTable)
    requires t.Ok() && i.Ok() && i.classTables == []
    ensures Keeps(img, t, Merged(t, i)) && Merged(t, i).Ok()
  {
    hide RefOf;
    var r := Merged(t, i);
    forall k | 0 <= k < |r.Tables()| ensures r.Tables()[k].start <= r.Tables()[k].end <= |r.entries| {
      if k < |t.Tables()| { assert r.Tables()[k] == t.Tables()[k]; }
      else { assert r.Tables()[k] == Shift(i.Tables()[k - |t.Tables()|], |t.entries|); }
    }
  }

  /** The slots of an interface appear in the merged table, shifted, with the same entries. */
  lemma MergedSlots(t: MethodTable, i: MethodTable, k: nat, m: nat)
    requires i.Ok() && i.classTables == [] && k < |i.interfaceTables|
    requires i.interfaceTables[k].start + m < i.interfaceTables[k].end
    ensures var st := Merged(t, i).interfaceTables[|t.interfaceTables| + k];
            && st.start + m < st.end && st.declaringType == i.interfaceTables[k].declaringType
            && st.end <= |Merged(t, i).entries|
            && Merged(t, i).entries[st.start + m] == i.entries[i.interfaceTables[k].start + m]
  {
    assert i.Tables()[k] == i.interfaceTables[k];
  }

  // ---- Adding a method ----

  ghost predicate AnyMatch(img: Image, t: MethodTable, r: Reference) {
    exists i: nat :: i < |t.entries| && Viewed(t, i) && RefOf(img, t.entries[i]) == r
  }

  /** The positions of what is found are the viewed positions that match. */
  lemma BufferMeaning(img: Image, t: MethodTable, ref: Reference, buffer: seq<TableEntry>)
    requires t.Ok() && buffer == AllFound(img, t, ref)
    ensures buffer == [] <==> !AnyMatch(img, t, ref)
    ensures forall b :: 0 <= b < |buffer| ==>
              var y := buffer[b];
              y.flatMethodNum < |t.entries| && Entry(y.methodId, y.genericContext) == t.entries[y.flatMethodNum]
    ensures forall i: nat :: i < |t.entries| ==>
              ((exists b :: 0 <= b < |buffer| && buffer[b].flatMethodNum == i) <==>
               Viewed(t, i) && RefOf(img, t.entries[i]) == ref)
  {
    hide RefOf, Found;
    FoundMeaning(img, t, ref, |t.Tables()|);
    forall b | 0 <= b < |buffer|
      ensures var i := buffer[b].flatMethodNum; i < |t.entries| && Viewed(t, i) && RefOf(img, t.entries[i]) == ref
    {
      assert buffer[b] in buffer;
    }
    forall i: nat | i < |t.entries| && Viewed(t, i) && RefOf(img, t.entries[i]) == ref
      ensures exists b :: 0 <= b < |buffer| && buffer[b].flatMethodNum == i
    {
      var k: nat :| Views(t, k, i);
      assert EntryAt(t, k, i) in buffer;
    }
    if buffer != [] { assert Viewed(t, buffer[0].flatMethodNum); }
  }

  /** `e` replaces all viewed entries of its reference, or is appended when there are none. */
  ghost predicate Added(img: Image, t: MethodTable, e: Entry, t': MethodTable) {
    && t'.classTables == t.classTables && t'.interfaceTables == t.interfaceTables
    && if AnyMatch(img, t, RefOf(img, e)) then
         && |t'.entries| == |t.entries|
         && forall i: nat :: i < |t.entries| ==>
              t'.entries[i] == if Viewed(t, i) && RefOf(img, t.entries[i]) == RefOf(img, e) then e else t.entries[i]
       else t'.entries == t.entries + [e]
  }

  /** Overriding by name and arguments: an added method replaces exactly the viewed entries that declare the same
      method in their contexts, leaves every overload alone, and is appended when there is none. */
  ghost predicate Overrides(img: Image, t: MethodTable, e: Entry, t': MethodTable) {
    && |t.entries| <= |t'.entries| <= |t.entries| + 1
    && (forall i: nat :: i < |t.entries| ==>
          t'.entries[i] == if Viewed(t, i) && SameMethod(img, t.entries[i], e) then e else t.entries[i])
    && (|t'.entries| == |t.entries| + 1 <==>
          forall i: nat :: i < |t.entries| && Viewed(t, i) ==> !SameMethod(img, t.entries[i], e))
    && (|t'.entries| == |t.entries| + 1 ==> t'.entries[|t.entries|] == e)
  }

  lemma AddedOverrides(img: Image, t: MethodTable, e: Entry, t': MethodTable)
    requires SignaturesOk(img) && Added(img, t, e, t')
    ensures Overrides(img, t, e, t')
  {
    hide RefOf, SameMethod, Viewed, SignaturesOk;
    forall i: nat | i < |t.entries|
      ensures RefOf(img, t.entries[i]) == RefOf(img, e) <==> SameMethod(img, t.entries[i], e) {
      SameRef(img, t.entries[i], e);
    }
  }

  lemma AddedKeeps(img: Image, t: MethodTable, e: Entry, t': MethodTable)
    requires t.Ok() && Added(img, t, e, t')
    ensures Keeps(img, t, t') && t'.Ok()
  {
    hide RefOf;
    assert t'.Tables() == t.Tables();
  }

  // ---- The partition of the array ----

  predicate Apart(x: SubTable, y: SubTable) { x.end <= y.start || y.end <= x.start }

  /** The sub-tables cover the first `n` positions, each exactly once. */
  ghost predicate Partitioned(t: MethodTable, n: nat) {
    && (forall k :: 0 <= k < |t.Tables()| ==> t.Tables()[k].start <= t.Tables()[k].end <= n)
    && (forall k, m :: 0 <= k < m < |t.Tables()| ==> Apart(t.Tables()[k], t.Tables()[m]))
    && (forall i: nat :: i < n ==> Viewed(t, i))
  }

  /** The sub-tables partition the whole array. */
  ghost predicate Whole(t: MethodTable) { Partitioned(t, |t.entries|) }

  lemma InShifted(ts: seq<SubTable>, n: nat, i: nat)
    ensures InSome(Shifted(ts, n), n + i) <==> InSome(ts, i)
    ensures i < n ==> !InSome(Shifted(ts, n), i)
  {
    if InSome(ts, i) {
      var k: nat :| k < |ts| && ts[k].start <= i < ts[k].end;
      assert Shifted(ts, n)[k] == Shift(ts[k], n);
    }
  }

  lemma MergedViews(t: MethodTable, i: MethodTable, x: nat)
    requires t.Ok() && i.Ok() && i.classTables == []
    ensures x < |t.entries| ==> (Viewed(Merged(t, i), x) <==> Viewed(t, x))
    ensures Viewed(Merged(t, i), |t.entries| + x) <==> Viewed(i, x)
  {
    var r, n := Merged(t, i), |t.entries|;
    assert r.Tables() == t.Tables() + Shifted(i.Tables(), n);
    ViewedInSome(r, x);
    ViewedInSome(t, x);
    ViewedInSome(r, n + x);
    ViewedInSome(i, x);
    UnviewedBehind(t, n + x);
    ViewedInSome(t, n + x);
    hide Viewed, Shifted;
    InEither(t.Tables(), Shifted(i.Tables(), n), x);
    InEither(t.Tables(), Shifted(i.Tables(), n), n + x);
    InShifted(i.Tables(), n, x);
    hide InSome;
  }

  lemma MergedApart(ts: seq<SubTable>, us: seq<SubTable>, n: nat, m: nat)
    requires Separate(ts, n) && Separate(us, m)
    ensures Separate(ts + Shifted(us, n), n + m)
  {
    var vs, d := ts + Shifted(us, n), |ts|;
    forall k | 0 <= k < |vs| ensures vs[k] == if k < d then ts[k] else Shift(us[k - d], n) {}
    forall k, j | 0 <= k < j < |vs| ensures Apart(vs[k], vs[j]) {
      if j < d { assert Apart(ts[k], ts[j]); } else if d <= k { assert Apart(us[k - d], us[j - d]); }
    }
  }

  lemma MergedWasApart(ts: seq<SubTable>, us: seq<SubTable>, n: nat, m: nat)
    requires forall k :: 0 <= k < |ts| ==> ts[k].start <= ts[k].end <= n
    requires Separate(ts + Shifted(us, n), n + m)
    ensures Separate(ts, n) && Separate(us, m)
  {
    var vs, d := ts + Shifted(us, n), |ts|;
    hide Shifted;
    forall k, j | 0 <= k < j < d ensures Apart(ts[k], ts[j]) { assert Apart(vs[k], vs[j]); }
    forall k, j | 0 <= k < j < |us| ensures Apart(us[k], us[j]) {
      ShiftedAt(ts, us, n, k);
      ShiftedAt(ts, us, n, j);
      assert Apart(vs[d + k], vs[d + j]);
    }
    forall k | 0 <= k < |us| ensures us[k].start <= us[k].end <= m {
      ShiftedAt(ts, us, n, k);
      assert vs[d + k].end <= n + m;
    }
  }

  lemma ShiftedAt(ts: seq<SubTable>, us: seq<SubTable>, n: nat, k: nat)
    requires k < |us|
    ensures |ts + Shifted(us, n)| == |ts| + |us| && (ts + Shifted(us, n))[|ts| + k] == Shift(us[k], n)
  {
  }

  lemma MergedSeparate(ts: seq<SubTable>, us: seq<SubTable>, n: nat, m: nat)
    requires forall k :: 0 <= k < |ts| ==> ts[k].start <= ts[k].end <= n
    ensures Separate(ts + Shifted(us, n), n + m) <==> Separate(ts, n) && Separate(us, m)
  {
    hide Separate, Shifted;
    if Separate(ts + Shifted(us, n), n + m) { MergedWasApart(ts, us, n, m); }
    if Separate(ts, n) && Separate(us, m) { MergedApart(ts, us, n, m); }
  }

  /** Merging gives a partition exactly when both tables are one. */
  lemma MergedPartitioned(t: MethodTable, i: MethodTable)
    requires t.Ok() && i.Ok() && i.classTables == []
    ensures Whole(Merged(t, i)) <==> Whole(t) && Whole(i)
  {
    var r := Merged(t, i);
    MergedSeparate(t.Tables(), i.Tables(), |t.entries|, |i.entries|);
    assert r.Tables() == t.Tables() + Shifted(i.Tables(), |t.entries|);
    forall x: nat ensures x < |t.entries| ==> (Viewed(r, x) <==> Viewed(t, x))
                  ensures Viewed(r, |t.entries| + x) <==> Viewed(i, x) {
      MergedViews(t, i, x);
    }
    hide Viewed, Apart, Merged;
    assert Separate(r.Tables(), |r.entries|) <==>
        Separate(t.Tables(), |t.entries|) && Separate(i.Tables(), |i.entries|);
    hide Separate;
    if AllViewed(r) {
      forall x: nat | x < |i.entries| ensures Viewed(i, x) { assert Viewed(r, |t.entries| + x); }
      forall x: nat | x < |t.entries| ensures Viewed(t, x) { assert Viewed(r, x); }
    }
    if AllViewed(t) && AllViewed(i) {
      forall x: nat | x < |r.entries| ensures Viewed(r, x) {
        if x >= |t.entries| { assert Viewed(i, x - |t.entries|); }
      }
    }
    WholeParts(t);
    WholeParts(i);
    WholeParts(r);
  }

  ghost predicate AllViewed(t: MethodTable) { forall x: nat :: x < |t.entries| ==> Viewed(t, x) }

  lemma WholeParts(t: MethodTable)
    ensures Whole(t) <==> Separate(t.Tables(), |t.entries|) && AllViewed(t)
  {
    hide Viewed, Apart;
  }

  lemma SameViews(t: MethodTable, t': MethodTable, i: nat)
    requires t'.classTables == t.classTables && t'.interfaceTables == t.interfaceTables
    ensures Viewed(t', i) <==> Viewed(t, i)
  {
    assert t'.Tables() == t.Tables();
    if Viewed(t, i) { var k: nat :| Views(t, k, i); assert Views(t', k, i); }
    if Viewed(t', i) { var k: nat :| Views(t', k, i); assert Views(t, k, i); }
  }

  /** Whether the first `n` positions are partitioned depends on the sub-tables alone. */
  lemma SamePartition(t: MethodTable, t': MethodTable, n: nat)
    requires t'.classTables == t.classTables && t'.interfaceTables == t.interfaceTables
    ensures Partitioned(t', n) <==> Partitioned(t, n)
  {
    assert t'.Tables() == t.Tables();
    forall i: nat ensures Viewed(t', i) <==> Viewed(t, i) { SameViews(t, t', i); }
    hide Viewed;
  }

  /** Adding a method gives a partition exactly when the table was one and the method replaces an entry. */
  lemma AddedPartitioned(img: Image, t: MethodTable, e: Entry, t': MethodTable)
    requires t.Ok() && Added(img, t, e, t')
    ensures Whole(t') <==> Whole(t) && AnyMatch(img, t, RefOf(img, e))
  {
    hide RefOf;
    SamePartition(t, t', |t.entries|);
    if !AnyMatch(img, t, RefOf(img, e)) {
      SameViews(t, t', |t.entries|);
      UnviewedBehind(t, |t.entries|);
      hide Viewed;
      assert !Viewed(t', |t.entries|) && |t'.entries| == |t.entries| + 1;
    }
  }

  lemma UnviewedBehind(t: MethodTable, i: nat)
    requires t.Ok() && i >= |t.entries|
    ensures !Viewed(t, i)
  {
  }

  ghost predicate Separate(ts: seq<SubTable>, n: nat) {
    && (forall k :: 0 <= k < |ts| ==> ts[k].start <= ts[k].end <= n)
    && (forall k, m :: 0 <= k < m < |ts| ==> Apart(ts[k], ts[m]))
  }

  lemma InsertedSeparate(ts: seq<SubTable>, at: nat, own: SubTable, n: nat)
    requires at <= |ts| && Separate(ts, n) && n == own.start <= own.end
    ensures Separate(ts[..at] + [own] + ts[at..], own.end)
  {
    var us := ts[..at] + [own] + ts[at..];
    forall k | 0 <= k < |us| ensures us[k] == if k < at then ts[k] else if k == at then own else ts[k - 1] {}
    forall k, m | 0 <= k < m < |us| ensures Apart(us[k], us[m]) {
      if k < at && m < at { assert Apart(ts[k], ts[m]); }
      else if k < at < m { assert Apart(ts[k], ts[m - 1]); }
      else if at < k { assert Apart(ts[k - 1], ts[m - 1]); }
    }
  }

  ghost predicate InSome(ts: seq<SubTable>, i: nat) { exists k: nat :: k < |ts| && ts[k].start <= i < ts[k].end }

  lemma ViewedInSome(t: MethodTable, i: nat)
    ensures Viewed(t, i) <==> InSome(t.Tables(), i)
  {
    if Viewed(t, i) { var k: nat :| Views(t, k, i); }
    if InSome(t.Tables(), i) {
      var k: nat :| k < |t.Tables()| && t.Tables()[k].start <= i < t.Tables()[k].end;
      assert Views(t, k, i);
    }
  }

  lemma InEither(ts: seq<SubTable>, us: seq<SubTable>, i: nat)
    ensures InSome(ts + us, i) <==> InSome(ts, i) || InSome(us, i)
  {
    if InSome(us, i) {
      var k: nat :| k < |us| && us[k].start <= i < us[k].end;
      assert (ts + us)[|ts| + k] == us[k];
    }
    if InSome(ts, i) {
      var k: nat :| k < |ts| && ts[k].start <= i < ts[k].end;
      assert (ts + us)[k] == ts[k];
    }
  }

  lemma OwnTableViews(t: MethodTable, t': MethodTable, own: SubTable, i: nat)
    requires t' == t.(classTables := t.classTables + [own]) || t' == t.(interfaceTables := t.interfaceTables + [own])
    ensures Viewed(t', i) <==> Viewed(t, i) || own.start <= i < own.end
  {
    ViewedInSome(t, i);
    ViewedInSome(t', i);
    hide Viewed;
    InEither(t.classTables, t.interfaceTables, i);
    InEither(t'.classTables, t'.interfaceTables, i);
    InEither(t.classTables, [own], i);
    InEither(t.interfaceTables, [own], i);
    assert [own][0] == own && (InSome([own], i) <==> own.start <= i < own.end);
    hide InSome;
  }

  lemma TakenSeparate(ts: seq<SubTable>, at: nat, own: SubTable, n: nat)
    requires at <= |ts| && (forall k :: 0 <= k < |ts| ==> ts[k].start <= ts[k].end <= n)
    requires Separate(ts[..at] + [own] + ts[at..], own.end)
    ensures Separate(ts, n)
  {
    var us := ts[..at] + [own] + ts[at..];
    forall k, m | 0 <= k < m < |ts| ensures Apart(ts[k], ts[m]) {
      var x, y := if k < at then k else k + 1, if m < at then m else m + 1;
      assert us[x] == ts[k] && us[y] == ts[m] && Apart(us[x], us[y]);
    }
  }

  /** The sub-table of the type itself covers what was appended: the result is a partition exactly when
      everything before was partitioned. */
  lemma OwnTablePartitions(t: MethodTable, n: nat, t': MethodTable, own: SubTable)
    requires n <= |t.entries| && own.start == n && own.end == |t.entries|
    requires forall k :: 0 <= k < |t.Tables()| ==> t.Tables()[k].start <= t.Tables()[k].end <= n
    requires t' == t.(classTables := t.classTables + [own]) || t' == t.(interfaceTables := t.interfaceTables + [own])
    ensures Whole(t') <==> Partitioned(t, n)
  {
    var ts := t.Tables();
    var at := if t' == t.(classTables := t.classTables + [own]) then |t.classTables| else |ts|;
    assert t'.Tables() == ts[..at] + [own] + ts[at..];
    forall i: nat ensures Viewed(t', i) <==> Viewed(t, i) || own.start <= i < own.end { OwnTableViews(t, t', own, i); }
    hide Viewed, Apart;
    assert Whole(t') <==> Separate(t'.Tables(), own.end) && forall i: nat :: i < own.end ==> Viewed(t', i);
    if Separate(ts, n) { InsertedSeparate(ts, at, own, n); }
    if Separate(t'.Tables(), own.end) { TakenSeparate(ts, at, own, n); }
    assert Partitioned(t, n) <==> Separate(ts, n) && forall i: nat :: i < n ==> Viewed(t, i);
    if Whole(t') { forall i: nat | i < n ensures Viewed(t, i) { assert Viewed(t', i); } }
  }

  // ---- Overriding ----

  /** The position is viewed, or will be by the sub-table that starts at `n`. */
  ghost predicate Shown(t: MethodTable, n: nat, i: nat) { Viewed(t, i) || n <= i }

  /** Every shown entry that answers to the reference of `e` is `e`, and there is one. */
  ghost predicate Owns(img: Image, t: MethodTable, n: nat, e: Entry) {
    && (forall i: nat :: i < |t.entries| && Shown(t, n, i) && RefOf(img, t.entries[i]) == RefOf(img, e) ==>
        t.entries[i] == e)
    && exists i: nat :: i < |t.entries| && Shown(t, n, i) && t.entries[i] == e
  }

  lemma AddedShows(img: Image, t: MethodTable, e: Entry, t': MethodTable, n: nat)
    requires Added(img, t, e, t')
    ensures forall i: nat :: Shown(t', n, i) <==> Shown(t, n, i)
    ensures forall i: nat :: Viewed(t', i) <==> Viewed(t, i)
  {
    forall i: nat ensures Viewed(t', i) <==> Viewed(t, i) { SameViews(t, t', i); }
    hide Viewed;
  }

  /** Adding a method takes over its reference wherever it is shown, if what was appended after `n` does not
      answer to it. */
  lemma AddedOwns(img: Image, t: MethodTable, e: Entry, t': MethodTable, n: nat)
    requires Added(img, t, e, t') && n <= |t.entries|
    requires forall i :: n <= i < |t.entries| ==> RefOf(img, t.entries[i]) != RefOf(img, e)
    ensures Owns(img, t', n, e)
  {
    AddedShows(img, t, e, t', n);
    hide RefOf, Viewed;
    if AnyMatch(img, t, RefOf(img, e)) {
      var i: nat :| i < |t.entries| && Viewed(t, i) && RefOf(img, t.entries[i]) == RefOf(img, e);
      assert t'.entries[i] == e && Shown(t', n, i);
    } else {
      assert t'.entries[|t.entries|] == e && Shown(t', n, |t.entries|);
    }
  }

  /** ... and does not disturb another reference. */
  lemma AddedKeepsOwned(img: Image, t: MethodTable, e: Entry, t': MethodTable, n: nat, x: Entry)
    requires Added(img, t, e, t') && Owns(img, t, n, x) && RefOf(img, x) != RefOf(img, e)
    ensures Owns(img, t', n, x)
  {
    AddedShows(img, t, e, t', n);
    hide RefOf, Viewed, Shown, AnyMatch;
    var i: nat :| i < |t.entries| && Shown(t, n, i) && t.entries[i] == x;
    assert t'.entries[i] == x;
    forall i: nat | i < |t'.entries| && Shown(t', n, i) && RefOf(img, t'.entries[i]) == RefOf(img, x)
      ensures t'.entries[i] == x {
      if i < |t.entries| { assert t'.entries[i] == t.entries[i]; }
    }
  }

  // ---- Nothing is lost, nothing comes from nowhere ----

  /** The table of an interface sits inside `t`: its entries from position `at` on, as far as references
      go, and its sub-tables from `base` on, shifted alike. */
  ghost predicate EmbedsAt(img: Image, t: MethodTable, i: MethodTable, at: nat, base: nat) {
    && at + |i.entries| <= |t.entries| && base + |i.interfaceTables| <= |t.interfaceTables|
    && (forall k :: 0 <= k < |i.interfaceTables| ==> t.interfaceTables[base + k] == Shift(i.interfaceTables[k], at))
    && (forall j :: 0 <= j < |i.entries| ==> RefOf(img, t.entries[at + j]) == RefOf(img, i.entries[j]))
  }

  ghost predicate Embeds(img: Image, t: MethodTable, i: MethodTable) {
    exists at: nat, base: nat :: EmbedsAt(img, t, i, at, base)
  }

  lemma MergedEmbeds(img: Image, t: MethodTable, i: MethodTable)
    ensures Embeds(img, Merged(t, i), i)
  {
    hide RefOf;
    assert EmbedsAt(img, Merged(t, i), i, |t.entries|, |t.interfaceTables|);
  }

  lemma KeepsEmbeds(img: Image, t: MethodTable, t': MethodTable, i: MethodTable)
    requires Keeps(img, t, t') && Embeds(img, t, i)
    ensures Embeds(img, t', i)
  {
    hide RefOf;
    var at: nat, base: nat :| EmbedsAt(img, t, i, at, base);
    assert EmbedsAt(img, t', i, at, base);
  }

  /** Some entry of the table answers to the reference. */
  ghost predicate Answers(img: Image, t: MethodTable, r: Reference) {
    exists j :: 0 <= j < |t.entries| && RefOf(img, t.entries[j]) == r
  }

  lemma KeepsAnswers(img: Image, t: MethodTable, t': MethodTable, r: Reference)
    requires Keeps(img, t, t') && Answers(img, t, r)
    ensures Answers(img, t', r)
  {
    hide RefOf;
    var j :| 0 <= j < |t.entries| && RefOf(img, t.entries[j]) == r;
    assert RefOf(img, t'.entries[j]) == r;
  }

  lemma AddedAnswers(img: Image, t: MethodTable, e: Entry, t': MethodTable)
    requires Added(img, t, e, t')
    ensures Answers(img, t', RefOf(img, e))
  {
    hide RefOf;
    if AnyMatch(img, t, RefOf(img, e)) {
      var i: nat :| i < |t.entries| && Viewed(t, i) && RefOf(img, t.entries[i]) == RefOf(img, e);
      assert t'.entries[i] == e;
    } else {
      assert t'.entries[|t.entries|] == e;
    }
  }

  ghost predicate AllIn(t: MethodTable, src: iset<Entry>) { forall i :: 0 <= i < |t.entries| ==> t.entries[i] in src }

  lemma MergedAllIn(t: MethodTable, i: MethodTable, src: iset<Entry>)
    requires AllIn(t, src) && AllIn(i, src)
    ensures AllIn(Merged(t, i), src)
  {
  }

  lemma AddedAllIn(img: Image, t: MethodTable, e: Entry, t': MethodTable, src: iset<Entry>)
    requires AllIn(t, src) && e in src && Added(img, t, e, t')
    ensures AllIn(t', src)
  {
    hide RefOf;
  }

  lemma ResolvedAllIn(
    img: Image, t: MethodTable, newStart: nat, currentStart: nat, entries: seq<Entry>, src: iset<Entry>)
    requires AllIn(t, src) && Resolved(img, t.entries, newStart, currentStart, entries)
    ensures AllIn(t.(entries := entries), src)
  {
    hide RefOf, IsChoice, Settled;
    forall i | 0 <= i < |entries| ensures entries[i] in src {
      var syms, r := SymbolsOf(img, t.entries, newStart, currentStart), RefOf(img, t.entries[i]);
      assert GroupDone(syms, t.entries, entries, r) && InGroup(syms, r, i);
    }
  }
}
