/** Method tables: one flat array of entries, viewed by the sub-tables of classes and interfaces. */
module MethodTables {
  import opened Wrappers
  import opened Terms
  import opened Substitutions

  type MethodId = nat

  /** What the image says about methods. */
  datatype Image = Image(name: MethodId -> string, signature: MethodId -> Term, isAbstract: MethodId -> bool)

  datatype Entry = Entry(methodId: MethodId, genericContext: Term)

  datatype Reference = Reference(name: string, signature: Tree)

  /** The reference an entry answers to: its name and its signature in its generic context. */
  function RefOf(img: Image, e: Entry): Reference {
    Reference(img.name(e.methodId), Subst(MethodSignature, e.genericContext.subterms,
        TreeOf(img.signature(e.methodId)), 0))
  }

  /** Argument `i` of the method as its entry sees it: the variables of the declaring type are replaced by the
      entry's context, and a bare variable that stands for something that is no reference is boxed. */
  function Argument(img: Image, e: Entry, i: nat): Tree
    requires i < |img.signature(e.methodId).subterms|
  {
    var arg := TreeOf(img.signature(e.methodId).subterms[i]);
    var context := e.genericContext.subterms;
    var plain := ClassSubst(TreesOf(context), arg);
    if IsClassVar(arg) && arg.id.info < |context| && !context[arg.id.info].flags.isReference
    then Tree(TermId(BOX, 0), [plain])
    else plain
  }

  /** Signatures are terms of their own, not variables. */
  ghost predicate SignaturesOk(img: Image) { forall m :: img.signature(m).id.kind != CLASS_TYPE_VAR }

  /** Two entries declare the same method: one name, one kind of signature, and the same arguments in context. */
  ghost predicate SameMethod(img: Image, e: Entry, f: Entry) {
    var s, t := img.signature(e.methodId), img.signature(f.methodId);
    && img.name(e.methodId) == img.name(f.methodId) && s.id == t.id && |s.subterms| == |t.subterms|
    && forall i :: 0 <= i < |s.subterms| ==> Argument(img, e, i) == Argument(img, f, i)
  }

  /** The reference has the name and the arguments of the method in the context of the entry. */
  lemma RefOfMeaning(img: Image, e: Entry)
    requires SignaturesOk(img)
    ensures var r, s := RefOf(img, e), img.signature(e.methodId);
            && r.name == img.name(e.methodId) && r.signature.id == s.id && |r.signature.subs| == |s.subterms|
            && forall i :: 0 <= i < |s.subterms| ==> r.signature.subs[i] == Argument(img, e, i)
  {
    var s, context := img.signature(e.methodId), e.genericContext.subterms;
    assert |TreeOf(s).subs| == |s.subterms| && forall i :: 0 <= i < |s.subterms| ==>
        TreeOf(s).subs[i] == TreeOf(s.subterms[i]);
    hide TreeOf;
    SignatureBoxes(TreesOf(context), Substitutions.Refs(context), TreeOf(s));
  }

  /** So entries answer to one reference exactly when they declare the same method. */
  lemma SameRef(img: Image, e: Entry, f: Entry)
    requires SignaturesOk(img)
    ensures RefOf(img, e) == RefOf(img, f) <==> SameMethod(img, e, f)
  {
    RefOfMeaning(img, e);
    RefOfMeaning(img, f);
    var a, b := RefOf(img, e), RefOf(img, f);
    hide RefOf, Argument;
    if SameMethod(img, e, f) { assert a.signature.subs == b.signature.subs; }
  }

  datatype SubTable = SubTable(declaringType: Term, start: nat, end: nat)

  datatype MethodTable = MethodTable(entries: seq<Entry>, classTables: seq<SubTable>, interfaceTables: seq<SubTable>) {
    /** Classes first; the position is the sub-table number. */
    function Tables(): seq<SubTable> { classTables + interfaceTables }

    /** Every sub-table lies inside the array. */
    ghost predicate Ok() {
      forall k :: 0 <= k < |Tables()| ==> Tables()[k].start <= Tables()[k].end <= |entries|
    }
  }

  /** MethodTableEntry: an entry with its position in its sub-table and in the array. */
  datatype TableEntry = TableEntry(methodId: MethodId, genericContext: Term, methodNum: nat, subTableNum: nat,
      flatMethodNum: nat)

  // ---- Resolution ----

  function EntryAt(t: MethodTable, k: nat, i: nat): TableEntry
    requires k < |t.Tables()| && t.Tables()[k].start <= i < |t.entries|
  {
    TableEntry(t.entries[i].methodId, t.entries[i].genericContext, i - t.Tables()[k].start, k, i)
  }

  /** The matching entries at positions [start, hi) of sub-table `k`, in order. */
  function FoundIn(img: Image, t: MethodTable, ref: Reference, k: nat, hi: nat): seq<TableEntry>
    requires k < |t.Tables()| && t.Tables()[k].start <= hi <= |t.entries|
    decreases hi
  {
    if hi == t.Tables()[k].start then []
    else FoundIn(img, t, ref, k, hi - 1) + if RefOf(img, t.entries[hi - 1]) == ref then [EntryAt(t, k, hi - 1)] else []
  }

  /** The matching entries of the first `n` sub-tables, in order. */
  function Found(img: Image, t: MethodTable, ref: Reference, n: nat): seq<TableEntry>
    requires t.Ok() && n <= |t.Tables()|
  {
    if n == 0 then [] else Found(img, t, ref, n - 1) + FoundIn(img, t, ref, n - 1, t.Tables()[n - 1].end)
  }

  /** Position `i` of the array is viewed by sub-table `k`. */
  predicate Views(t: MethodTable, k: nat, i: nat) { k < |t.Tables()| && t.Tables()[k].start <= i < t.Tables()[k].end }

  ghost predicate Viewed(t: MethodTable, i: nat) { exists k: nat :: Views(t, k, i) }

  /** The entry sits at a viewed position and matches. */
  ghost predicate IsMatch(img: Image, t: MethodTable, ref: Reference, x: TableEntry)
    requires t.Ok()
  {
    && Views(t, x.subTableNum, x.flatMethodNum) && x == EntryAt(t, x.subTableNum, x.flatMethodNum)
    && RefOf(img, t.entries[x.flatMethodNum]) == ref
  }

  lemma {:induction false} FoundInMeaning(img: Image, t: MethodTable, ref: Reference, k: nat, hi: nat)
    requires t.Ok() && k < |t.Tables()| && t.Tables()[k].start <= hi <= t.Tables()[k].end
    ensures forall x :: x in FoundIn(img, t, ref, k, hi) ==> IsMatch(img, t, ref, x) && x.subTableNum == k
    ensures forall i :: t.Tables()[k].start <= i < hi && RefOf(img, t.entries[i]) == ref ==>
              EntryAt(t, k, i) in FoundIn(img, t, ref, k, hi)
    decreases hi
  {
    hide RefOf;
    if hi > t.Tables()[k].start { FoundInMeaning(img, t, ref, k, hi - 1); }
  }

  /** Resolution finds exactly the matching positions that sub-tables view, and numbers them by their
      sub-table: the flat number is the start plus the method number. */
  lemma {:induction false} FoundMeaning(img: Image, t: MethodTable, ref: Reference, n: nat)
    requires t.Ok() && n <= |t.Tables()|
    ensures forall x :: x in Found(img, t, ref, n) ==>
              IsMatch(img, t, ref, x) && x.flatMethodNum == t.Tables()[x.subTableNum].start + x.methodNum
    ensures forall k: nat, i: nat :: k < n && Views(t, k, i) && RefOf(img, t.entries[i]) == ref ==>
              EntryAt(t, k, i) in Found(img, t, ref, n)
  {
    hide RefOf;
    if n > 0 {
      FoundMeaning(img, t, ref, n - 1);
      FoundInMeaning(img, t, ref, n - 1, t.Tables()[n - 1].end);
    }
  }

  function AllFound(img: Image, t: MethodTable, ref: Reference): seq<TableEntry>
    requires t.Ok()
  {
    Found(img, t, ref, |t.Tables()|)
  }

  method ResolveAll(img: Image, t: MethodTable, ref: Reference) returns (buffer: seq<TableEntry>)
    requires t.Ok()
    ensures buffer == AllFound(img, t, ref)
  {
    hide RefOf;
    buffer := [];
    for k := 0 to |t.Tables()|
      invariant buffer == Found(img, t, ref, k)
    {
      var st := t.Tables()[k];
      for i := st.start to st.end
        invariant buffer == Found(img, t, ref, k) + FoundIn(img, t, ref, k, i)
      {
        if RefOf(img, t.entries[i]) == ref {
          buffer := buffer + [EntryAt(t, k, i)];
        }
      }
    }
  }

  /** Classes come before interfaces, in the numbers of sub-tables and in the order of resolution. */
  lemma TableNumbers(t: MethodTable, k: nat)
    ensures |t.Tables()| == |t.classTables| + |t.interfaceTables|
    ensures k < |t.Tables()| ==>
              t.Tables()[k] == if k < |t.classTables| then t.classTables[k] else t.interfaceTables[k - |t.classTables|]
  {
  }

  predicate Precedes(x: TableEntry, y: TableEntry) {
    x.subTableNum < y.subTableNum || (x.subTableNum == y.subTableNum && x.flatMethodNum < y.flatMethodNum)
  }

  ghost predicate InOrder(xs: seq<TableEntry>) { forall a, b :: 0 <= a < b < |xs| ==> Precedes(xs[a], xs[b]) }

  lemma {:induction false} FoundInOrder(img: Image, t: MethodTable, ref: Reference, k: nat, hi: nat)
    requires t.Ok() && k < |t.Tables()| && t.Tables()[k].start <= hi <= t.Tables()[k].end
    ensures InOrder(FoundIn(img, t, ref, k, hi))
    ensures forall x :: x in FoundIn(img, t, ref, k, hi) ==> x.subTableNum == k && x.flatMethodNum < hi
    decreases hi
  {
    hide RefOf;
    if hi > t.Tables()[k].start { FoundInOrder(img, t, ref, k, hi - 1); }
  }

  /** What is found is in the order of the sub-tables, and inside a sub-table in the order of its methods. */
  lemma {:induction false} AllInOrder(img: Image, t: MethodTable, ref: Reference, n: nat)
    requires t.Ok() && n <= |t.Tables()|
    ensures InOrder(Found(img, t, ref, n))
    ensures forall x :: x in Found(img, t, ref, n) ==> x.subTableNum < n
  {
    hide RefOf, FoundIn;
    if n > 0 {
      AllInOrder(img, t, ref, n - 1);
      FoundInOrder(img, t, ref, n - 1, t.Tables()[n - 1].end);
    }
  }

  /** Resolve answers the first of what ResolveAll finds. */
  method Resolve(img: Image, t: MethodTable, ref: Reference) returns (r: Option<TableEntry>)
    requires t.Ok()
    ensures r == if AllFound(img, t, ref) == [] then None else Some(AllFound(img, t, ref)[0])
  {
    hide RefOf;
    for k := 0 to |t.Tables()|
      invariant Found(img, t, ref, k) == []
    {
      var st := t.Tables()[k];
      for i := st.start to st.end
        invariant FoundIn(img, t, ref, k, i) == []
      {
        if RefOf(img, t.entries[i]) == ref {
          r := Some(EntryAt(t, k, i));
          FoundGrows(img, t, ref, k, i);
          return;
        }
      }
    }
    r := None;
  }

  lemma {:induction false} FoundInGrows(img: Image, t: MethodTable, ref: Reference, k: nat, lo: nat, hi: nat)
    requires t.Ok() && k < |t.Tables()| && t.Tables()[k].start <= lo <= hi <= t.Tables()[k].end
    ensures FoundIn(img, t, ref, k, lo) <= FoundIn(img, t, ref, k, hi)
    decreases hi
  {
    hide RefOf;
    if lo < hi { FoundInGrows(img, t, ref, k, lo, hi - 1); }
  }

  lemma {:induction false} TablesGrow(img: Image, t: MethodTable, ref: Reference, m: nat, n: nat)
    requires t.Ok() && m <= n <= |t.Tables()|
    ensures Found(img, t, ref, m) <= Found(img, t, ref, n)
  {
    hide FoundIn;
    if m < n { TablesGrow(img, t, ref, m, n - 1); }
  }

  lemma FoundGrows(img: Image, t: MethodTable, ref: Reference, k: nat, i: nat)
    requires t.Ok() && Views(t, k, i) && RefOf(img, t.entries[i]) == ref
    requires Found(img, t, ref, k) == [] && FoundIn(img, t, ref, k, i) == []
    ensures AllFound(img, t, ref) != [] && AllFound(img, t, ref)[0] == EntryAt(t, k, i)
  {
    hide RefOf;
    FoundInGrows(img, t, ref, k, i + 1, t.Tables()[k].end);
    TablesGrow(img, t, ref, k + 1, |t.Tables()|);
    assert FoundIn(img, t, ref, k, i + 1) == [EntryAt(t, k, i)];
  }
}
