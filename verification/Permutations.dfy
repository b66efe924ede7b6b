/** Finite sets of indices and the maps between them: the pigeonhole facts behind cycles. */
module Permutations {

  /** The set lies within the domain of `f`. */
  ghost predicate Within(f: seq<nat>, c: set<nat>) { forall u :: u in c ==> u < |f| }

  ghost predicate Closed(f: seq<nat>, c: set<nat>)
    requires Within(f, c)
  {
    forall u {:trigger f[u]} :: u in c ==> f[u] in c
  }

  ghost predicate InjectiveOn(f: seq<nat>, c: set<nat>)
    requires Within(f, c)
  {
    forall u, v {:trigger f[u], f[v]} :: u in c && v in c && f[u] == f[v] ==> u == v
  }

  /** `f` permutes `c` without fixed points: `c` is a union of cycles of length two or more. */
  ghost predicate Permutes(f: seq<nat>, c: set<nat>) {
    && Within(f, c) && Closed(f, c) && InjectiveOn(f, c)
    && (forall u {:trigger f[u]} :: u in c ==> f[u] != u)
  }

  ghost function Image(f: seq<nat>, c: set<nat>): set<nat>
    requires Within(f, c)
  {
    set u | u in c :: f[u]
  }

  lemma {:induction false} SubsetSize(a: set<nat>, b: set<nat>)
    requires a <= b
    ensures |a| <= |b| && (|a| == |b| ==> a == b)
    decreases |a|
  {
    if a != {} {
      var x :| x in a;
      SubsetSize(a - {x}, b - {x});
      assert b == (b - {x}) + {x};
    }
  }

  /** An image is no larger than its set, and equally large exactly when the map is injective. */
  lemma {:induction false} ImageSize(f: seq<nat>, c: set<nat>)
    requires Within(f, c)
    ensures |Image(f, c)| <= |c|
    ensures |Image(f, c)| == |c| <==> InjectiveOn(f, c)
    decreases |c|
  {
    if c != {} {
      var x :| x in c;
      var rest := c - {x};
      ImageSize(f, rest);
      assert Image(f, c) == Image(f, rest) + {f[x]};
      assert c == rest + {x};
      if InjectiveOn(f, c) {
        assert f[x] !in Image(f, rest);
      } else if InjectiveOn(f, rest) {
        assert f[x] in Image(f, rest);
      }
    }
  }

  /** Pigeonhole: a set whose every element is somebody's image is permuted. */
  lemma CoveredIsPermuted(f: seq<nat>, c: set<nat>)
    requires Within(f, c)
    requires forall d :: d in c ==> exists u :: u in c && f[u] == d
    ensures InjectiveOn(f, c) && Closed(f, c)
  {
    ImageSize(f, c);
    assert c <= Image(f, c);
    SubsetSize(c, Image(f, c));
    forall u | u in c ensures f[u] in c { assert f[u] in Image(f, c); }
  }

  /** An injective map of a finite set into itself is onto. */
  lemma Preimage(f: seq<nat>, c: set<nat>, d: nat) returns (u: nat)
    requires Within(f, c) && InjectiveOn(f, c) && Closed(f, c) && d in c
    ensures u in c && f[u] == d
  {
    ImageSize(f, c);
    assert Image(f, c) <= c;
    SubsetSize(Image(f, c), c);
    assert d in Image(f, c);
    u :| u in c && f[u] == d;
  }

  /** Taking cycles away from a union of cycles leaves a union of cycles. */
  lemma Difference(f: seq<nat>, big: set<nat>, small: set<nat>)
    requires Permutes(f, big) && Permutes(f, small) && small <= big
    ensures Permutes(f, big - small)
  {
    forall u | u in big - small ensures f[u] in big - small {
      if f[u] in small {
        var v := Preimage(f, small, f[u]);
      }
    }
  }

  ghost predicate PairwiseDisjoint(cs: seq<set<nat>>) {
    forall i, j :: 0 <= i < j < |cs| ==> cs[i] !! cs[j]
  }

  /** Disjoint cycles use up at least two elements each. */
  lemma {:induction false} CyclesAreFew(f: seq<nat>, cs: seq<set<nat>>, all: set<nat>)
    requires PairwiseDisjoint(cs)
    requires forall i :: 0 <= i < |cs| ==> cs[i] != {} && Permutes(f, cs[i]) && cs[i] <= all
    ensures 2 * |cs| <= |all|
    decreases |cs|
  {
    if cs != [] {
      var c := cs[0];
      AtLeastTwo(f, c);
      forall i | 0 <= i < |cs| - 1 ensures cs[1..][i] <= all - c {
        assert cs[0] !! cs[i + 1];
      }
      CyclesAreFew(f, cs[1..], all - c);
      assert all == c + (all - c);
    }
  }

  lemma AtLeastTwo(f: seq<nat>, c: set<nat>)
    requires c != {} && Permutes(f, c)
    ensures |c| >= 2
  {
    var u :| u in c;
    assert f[u] in c - {u};
    assert c == (c - {u}) + {u};
  }
}
