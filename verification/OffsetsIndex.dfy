/** InstructionOffsetsIndex: the two-way map between offsets of original and rewritten instructions. */
module OffsetsIndex {
  import opened Wrappers

  type Offset = nat

  datatype Mapping = Mapping(cbc: Offset, rt: Offset)

  datatype InstructionType = Cbc | Rewritten

  /** Later instructions are rewritten to later positions. */
  ghost predicate Monotone(labels: map<Offset, Offset>) {
    forall a, b :: a in labels && b in labels && a <= b ==> labels[a] <= labels[b]
  }

  ghost predicate Ascending(xs: seq<Offset>) { forall i, j :: 0 <= i < j < |xs| ==> xs[i] <= xs[j] }

  /** Sorted by original offset, without duplicates. */
  ghost predicate SortedPairs(xs: seq<Mapping>) { forall i, j :: 0 <= i < j < |xs| ==> xs[i].cbc < xs[j].cbc }

  /** The pairs are those of the labels with keys in `keys`. */
  ghost predicate Lists(xs: seq<Mapping>, labels: map<Offset, Offset>, keys: set<Offset>) {
    && (forall i :: 0 <= i < |xs| ==> xs[i].cbc in keys && xs[i].cbc in labels && xs[i].rt == labels[xs[i].cbc])
    && (forall k :: k in keys ==> exists i :: 0 <= i < |xs| && xs[i].cbc == k)
  }

  /** Sorting, one pair at a time. */
  method Insert(xs: seq<Mapping>, x: Mapping) returns (ys: seq<Mapping>)
    requires SortedPairs(xs) && forall i :: 0 <= i < |xs| ==> xs[i].cbc != x.cbc
    ensures SortedPairs(ys) && multiset(ys) == multiset(xs) + multiset{x}
  {
    var i := 0;
    while i < |xs| && xs[i].cbc < x.cbc
      invariant i <= |xs| && forall k :: 0 <= k < i ==> xs[k].cbc < x.cbc
    {
      i := i + 1;
    }
    ys := xs[..i] + [x] + xs[i..];
    assert xs == xs[..i] + xs[i..];
  }

  lemma ListsInsert(xs: seq<Mapping>, ys: seq<Mapping>, labels: map<Offset, Offset>, keys: set<Offset>, k: Offset)
    requires Lists(xs, labels, keys) && k in labels && multiset(ys) == multiset(xs) + multiset{Mapping(k, labels[k])}
    ensures Lists(ys, labels, keys + {k})
  {
    forall i | 0 <= i < |ys| ensures ys[i] in xs || ys[i] == Mapping(k, labels[k]) {
      assert ys[i] in multiset(ys);
    }
    forall j | j in keys + {k} ensures exists i :: 0 <= i < |ys| && ys[i].cbc == j {
      var x :| x in multiset(xs) + multiset{Mapping(k, labels[k])} && x.cbc == j;
      assert x in ys;
    }
  }

  /** All labels, sorted by their original offsets. */
  method SortedLabels(labels: map<Offset, Offset>) returns (tmp: seq<Mapping>)
    ensures SortedPairs(tmp) && Lists(tmp, labels, labels.Keys)
  {
    hide Lists, SortedPairs;
    tmp := [];
    var todo := labels.Keys;
    ghost var done: set<Offset> := {};
    NoPairs(labels);
    while todo != {}
      invariant SortedPairs(tmp) && Lists(tmp, labels, done)
      invariant todo !! done && todo + done == labels.Keys
      decreases |todo|
    {
      var k :| k in todo;
      ghost var was := tmp;
      NotListed(tmp, labels, done, k);
      tmp := Insert(tmp, Mapping(k, labels[k]));
      ListsInsert(was, tmp, labels, done, k);
      todo, done := todo - {k}, done + {k};
    }
    assert done == labels.Keys;
  }

  lemma NoPairs(labels: map<Offset, Offset>)
    ensures SortedPairs([]) && Lists([], labels, {})
  {
  }

  lemma NotListed(xs: seq<Mapping>, labels: map<Offset, Offset>, keys: set<Offset>, k: Offset)
    requires Lists(xs, labels, keys) && k !in keys
    ensures forall i :: 0 <= i < |xs| ==> xs[i].cbc != k
  {
  }

  /** The two vectors list all labels, in order of their original offsets. */
  ghost predicate Indexes(cbc: seq<Offset>, rt: seq<Offset>, labels: map<Offset, Offset>) {
    && |cbc| == |rt|
    && (forall i, j :: 0 <= i < j < |cbc| ==> cbc[i] < cbc[j])
    && (forall i :: 0 <= i < |cbc| ==> cbc[i] in labels && rt[i] == labels[cbc[i]])
    && (forall k :: k in labels ==> exists i :: 0 <= i < |cbc| && cbc[i] == k)
  }

  /** The search position splits the vector at the value. */
  ghost predicate Splits(xs: seq<Offset>, x: Offset, at: nat) {
    at <= |xs| && (forall k :: 0 <= k < at ==> xs[k] < x) && (forall k :: at <= k < |xs| ==> xs[k] >= x)
  }

  lemma BothAscend(cbc: seq<Offset>, rt: seq<Offset>, labels: map<Offset, Offset>)
    requires Indexes(cbc, rt, labels) && Monotone(labels)
    ensures Ascending(cbc) && Ascending(rt)
  {
  }

  lemma FoundForward(cbc: seq<Offset>, rt: seq<Offset>, labels: map<Offset, Offset>, x: Offset, at: nat)
    requires Indexes(cbc, rt, labels) && Splits(cbc, x, at)
    ensures (if at == |cbc| || cbc[at] != x then None else Some(rt[at])) == Forward(labels, x)
  {
    if x in labels {
      var i :| 0 <= i < |cbc| && cbc[i] == x;
    }
  }

  lemma FoundBackward(cbc: seq<Offset>, rt: seq<Offset>, labels: map<Offset, Offset>, x: Offset, at: nat)
    requires Indexes(cbc, rt, labels) && Ascending(rt) && Splits(rt, x, at)
    ensures (if at == |rt| || rt[at] != x then None else Some(cbc[at])) == Backward(labels, x)
  {
    forall k | k in labels && labels[k] == x ensures at < |rt| && rt[at] == x && cbc[at] <= k {
      var i :| 0 <= i < |cbc| && cbc[i] == k;
      assert rt[i] == x && i >= at;
    }
    if at < |rt| && rt[at] == x { BackwardIs(labels, x, cbc[at]); }
  }

  class InstructionOffsetsIndex {
    var cbcOffsets: seq<Offset>
    var rtOffsets: seq<Offset>

    ghost predicate Represents(labels: map<Offset, Offset>)
      reads this
    {
      Indexes(cbcOffsets, rtOffsets, labels)
    }

    constructor Create(labels: map<Offset, Offset>)
      ensures Represents(labels)
    {
      cbcOffsets, rtOffsets := [], [];
      new;
      var tmp := SortedLabels(labels);
      for i := 0 to |tmp|
        invariant |cbcOffsets| == |rtOffsets| == i
        invariant forall k :: 0 <= k < i ==> cbcOffsets[k] == tmp[k].cbc && rtOffsets[k] == tmp[k].rt
      {
        cbcOffsets := cbcOffsets + [tmp[i].cbc];
        rtOffsets := rtOffsets + [tmp[i].rt];
      }
      forall k | k in labels ensures exists i :: 0 <= i < |cbcOffsets| && cbcOffsets[i] == k {
        assert k in labels.Keys;
        var i :| 0 <= i < |tmp| && tmp[i].cbc == k;
        assert cbcOffsets[i] == k;
      }
    }

    /** The original offset of a label, or its rewritten position, mapped to the other side: present exactly
        for labels; of several labels at one position the least original offset is the answer. */
    method FindMappedOffset(type': InstructionType, srcOffset: Offset, ghost labels: map<Offset, Offset>)
      returns (r: Option<Offset>)
      requires Represents(labels) && Monotone(labels)
      ensures r == if type'.Cbc? then Forward(labels, srcOffset) else Backward(labels, srcOffset)
    {
      hide Indexes, Ascending, Splits, Forward, Backward;
      BothAscend(cbcOffsets, rtOffsets, labels);
      var searchVec := if type'.Cbc? then cbcOffsets else rtOffsets;
      var resultVec := if type'.Cbc? then rtOffsets else cbcOffsets;
      var at := LowerBound(searchVec, srcOffset);
      SameLength(cbcOffsets, rtOffsets, labels, searchVec, srcOffset, at);
      if type'.Cbc? {
        FoundForward(cbcOffsets, rtOffsets, labels, srcOffset, at);
      } else {
        FoundBackward(cbcOffsets, rtOffsets, labels, srcOffset, at);
      }
      if at == |searchVec| || searchVec[at] != srcOffset {
        r := None;
      } else {
        r := Some(resultVec[at]);
      }
    }
  }

  lemma SameLength(cbc: seq<Offset>, rt: seq<Offset>, labels: map<Offset, Offset>, xs: seq<Offset>, x: Offset, at: nat)
    requires Indexes(cbc, rt, labels) && Splits(xs, x, at)
    ensures |cbc| == |rt| && at <= |xs|
  {
  }

  /** std::lower_bound: the first position not below the value. */
  method LowerBound(xs: seq<Offset>, x: Offset) returns (i: nat)
    requires Ascending(xs)
    ensures Splits(xs, x, i)
  {
    var hi := |xs|;
    i := 0;
    while i < hi
      invariant i <= hi <= |xs| && (forall k :: 0 <= k < i ==> xs[k] < x) && (forall k :: hi <= k < |xs| ==> xs[k] >= x)
    {
      var mid := (i + hi) / 2;
      if xs[mid] < x { i := mid + 1; } else { hi := mid; }
    }
  }

  // ---- The two maps ----

  function Forward(labels: map<Offset, Offset>, k: Offset): Option<Offset> {
    if k in labels then Some(labels[k]) else None
  }

  ghost predicate IsLeast(labels: map<Offset, Offset>, p: Offset, k: Offset) {
    k in labels && labels[k] == p && forall j :: j in labels && labels[j] == p ==> k <= j
  }

  ghost function Backward(labels: map<Offset, Offset>, p: Offset): Option<Offset> {
    if k :| IsLeast(labels, p, k) then Some(k) else None
  }

  lemma BackwardIs(labels: map<Offset, Offset>, p: Offset, k: Offset)
    requires IsLeast(labels, p, k)
    ensures Backward(labels, p) == Some(k)
  {
  }

  /** From a rewritten position back and forth: the position itself. */
  lemma RewrittenRoundTrip(labels: map<Offset, Offset>, p: Offset)
    ensures var k := Backward(labels, p); k.Some? ==> Forward(labels, k.value) == Some(p)
  {
  }

  /** From an original offset forth and back: the least offset rewritten to the same position. */
  lemma CbcRoundTrip(labels: map<Offset, Offset>, k: Offset)
    requires k in labels
    ensures var back := Backward(labels, Forward(labels, k).value);
            back.Some? && IsLeast(labels, labels[k], back.value) && back.value <= k
  {
    var least := LeastAt(labels, labels[k], k);
    BackwardIs(labels, labels[k], least);
  }

  lemma {:induction false} LeastAt(labels: map<Offset, Offset>, p: Offset, k: Offset) returns (least: Offset)
    requires k in labels && labels[k] == p
    ensures IsLeast(labels, p, least)
    decreases k
  {
    least := k;
    if j :| j in labels && labels[j] == p && j < k { least := LeastAt(labels, p, j); }
  }
}
