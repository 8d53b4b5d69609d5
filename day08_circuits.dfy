/** Day 8 (2025/Day8/puzzle15.py and puzzle16.py): junction boxes in space are
    joined pair by pair, closest first, and the circuits they form are tracked
    with a disjoint-set forest. */

/** A labelling of elements 0..n-1 by the circuit they are in, built by joining
    pairs one at a time: joining relabels the second element's circuit with
    the first element's label. It states what the disjoint-set forest computes
    without its trees. */
module Linking {

  /** Every endpoint names one of the `n` elements. */
  predicate Endpoints(n: nat, edges: seq<(nat, nat)>) {
    forall k :: 0 <= k < |edges| ==> edges[k].0 < n && edges[k].1 < n
  }

  function Relabel(l: seq<nat>, from: nat, to: nat): (l': seq<nat>)
    ensures |l'| == |l|
  {
    seq(|l|, x requires 0 <= x < |l| => if l[x] == from then to else l[x])
  }

  /** The circuit labels after joining `edges` in order. */
  function Labels(n: nat, edges: seq<(nat, nat)>): (l: seq<nat>)
    requires Endpoints(n, edges)
    ensures |l| == n
  {
    if edges == [] then seq(n, x => x)
    else
      var init := Labels(n, edges[..|edges| - 1]);
      var (a, b) := edges[|edges| - 1];
      Relabel(init, init[b], init[a])
  }

  /** All elements are in one circuit. */
  predicate Connected(l: seq<nat>) {
    forall x :: 0 <= x < |l| ==> l[x] == l[0]
  }

  /** The elements in the same circuit as `x`. */
  function Circuit(l: seq<nat>, x: nat): set<nat>
    requires x < |l|
  {
    set y: nat | y < |l| && l[y] == l[x]
  }

  /** `sizes` lists the size of every circuit of `l` exactly once, `reps[k]`
      being an element of the circuit whose size is `sizes[k]`. */
  ghost predicate OnePerCircuit(l: seq<nat>, sizes: seq<nat>, reps: seq<nat>)
  {
    && |reps| == |sizes|
    && (forall k :: 0 <= k < |reps| ==> reps[k] < |l| && sizes[k] == |Circuit(l, reps[k])|)
    && (forall k, k' :: 0 <= k < k' < |reps| ==> l[reps[k]] != l[reps[k']])
    && (forall x :: 0 <= x < |l| ==> exists k :: 0 <= k < |reps| && l[reps[k]] == l[x])
  }

  lemma LabelsSnoc(n: nat, edges: seq<(nat, nat)>, e: (nat, nat))
    requires Endpoints(n, edges) && e.0 < n && e.1 < n
    ensures Endpoints(n, edges + [e])
    ensures Labels(n, edges + [e]) == Relabel(Labels(n, edges), Labels(n, edges)[e.1], Labels(n, edges)[e.0])
  {
    assert (edges + [e])[..|edges|] == edges;
  }

  /** Every joined pair ends in one circuit. */
  lemma {:induction false} JoinedPairs(n: nat, edges: seq<(nat, nat)>, k: nat)
    requires Endpoints(n, edges) && k < |edges|
    ensures Labels(n, edges)[edges[k].0] == Labels(n, edges)[edges[k].1]
  {
    var m := |edges| - 1;
    var init := edges[..m];
    assert edges == init + [edges[m]];
    assert Endpoints(n, init);
    LabelsSnoc(n, init, edges[m]);
    if k < m {
      JoinedPairs(n, init, k);
      assert init[k] == edges[k];
    }
  }

  /** When every element is paired with element 0, all are in one circuit. */
  lemma AllJoinedToFirst(n: nat, edges: seq<(nat, nat)>)
    requires Endpoints(n, edges) && n >= 1
    requires forall x :: 1 <= x < n ==> (0, x) in edges
    ensures Connected(Labels(n, edges))
  {
    var l := Labels(n, edges);
    forall x | 0 <= x < n
      ensures l[x] == l[0]
    {
      if x >= 1 {
        var k :| 0 <= k < |edges| && edges[k] == (0, x);
        JoinedPairs(n, edges, k);
      }
    }
  }
}

/** The disjoint-set forest of both puzzles: `find` with path halving and
    `union` by size. */
module UnionFind {
  import opened Maybe
  import opened Sums
  import opened Seqs
  import opened Linking

  /** The elements whose root is `r`. */
  function Members(root: seq<nat>, r: nat): set<nat>
  {
    set x: nat | x < |root| && root[x] == r
  }

  /** Two labellings put the elements into the same classes. */
  ghost predicate SameClasses(root: seq<nat>, l: seq<nat>)
    requires |root| == |l|
  {
    forall x, y :: 0 <= x < |l| && 0 <= y < |l| ==> (root[x] == root[y] <==> l[x] == l[y])
  }

  /** Moving the members of `loser` under `winner`. */
  lemma MembersMerge(root: seq<nat>, winner: nat, loser: nat, r: nat)
    requires winner != loser
    ensures Members(Relabel(root, loser, winner), r) ==
      if r == winner then Members(root, winner) + Members(root, loser)
      else if r == loser then {}
      else Members(root, r)
    ensures Members(root, winner) * Members(root, loser) == {}
  {
  }

  /** Merging the classes of `a` and `b` on both sides keeps them the same
      classes, whichever root survives. */
  lemma MergeClasses(root: seq<nat>, l: seq<nat>, a: nat, b: nat, winner: nat, loser: nat)
    requires |root| == |l| && a < |l| && b < |l| && SameClasses(root, l)
    requires root[a] != root[b]
    requires (winner, loser) == (root[a], root[b]) || (winner, loser) == (root[b], root[a])
    ensures SameClasses(Relabel(root, loser, winner), Relabel(l, l[b], l[a]))
  {
  }

  /** When `a` and `b` already share a class, joining them changes no label. */
  lemma JoinWithin(l: seq<nat>, a: nat, b: nat)
    requires a < |l| && b < |l| && l[a] == l[b]
    ensures Relabel(l, l[b], l[a]) == l
  {
  }

  /** The roots of a parent list. */
  function RootSet(p: seq<nat>): set<nat>
  {
    set r: nat | r < |p| && p[r] == r
  }

  /** Parent links stay in range and raise the rank; `root` follows the links
      to a root, whose rank is the largest on the way. */
  ghost predicate Linked(p: seq<nat>, root: seq<nat>, rank: seq<nat>)
  {
    var n := |p|;
    && |root| == n && |rank| == n
    && (forall x :: 0 <= x < n ==> p[x] < n && root[x] < n)
    && (forall x {:trigger rank[p[x]]} :: 0 <= x < n && p[x] != x ==> rank[x] < rank[p[x]])
    && (forall x {:trigger rank[root[x]]} :: 0 <= x < n ==> rank[x] <= rank[root[x]])
    && (forall x {:trigger root[p[x]]} :: 0 <= x < n ==> root[p[x]] == root[x])
    && (forall x {:trigger p[root[x]]} :: 0 <= x < n ==> p[root[x]] == root[x])
    && (forall x :: 0 <= x < n && p[x] == x ==> root[x] == x)
  }

  /** A size is positive exactly at a root, where it counts the root's
      members, and the sizes add up to the number of elements. */
  ghost predicate Sized(p: seq<nat>, s: seq<nat>, root: seq<nat>)
  {
    && |s| == |p| && |root| == |p|
    && (forall x :: 0 <= x < |p| ==> (s[x] > 0 <==> p[x] == x))
    && (forall x :: 0 <= x < |p| && p[x] == x ==> s[x] == |Members(root, x)|)
    && SeqSum(s) == |p|
  }

  /** The invariant of the forest, on the contents of its lists. */
  ghost predicate Forest(p: seq<nat>, s: seq<nat>, root: seq<nat>, rank: seq<nat>)
  {
    Linked(p, root, rank) && Sized(p, s, root)
  }

  lemma HalveLinked(p: seq<nat>, root: seq<nat>, rank: seq<nat>, x: nat)
    requires Linked(p, root, rank) && x < |p| && p[x] != x
    ensures Linked(p[x := p[p[x]]], root, rank)
    ensures rank[x] < rank[p[p[x]]]
  {
  }

  /** Path halving: linking `x` to its grandparent keeps the invariant and
      every root, and moves `x` up in rank. */
  lemma HalveStep(p: seq<nat>, s: seq<nat>, root: seq<nat>, rank: seq<nat>, x: nat)
    requires Forest(p, s, root, rank) && x < |p| && p[x] != x
    ensures Forest(p[x := p[p[x]]], s, root, rank)
    ensures rank[x] < rank[p[p[x]]] && RootSet(p[x := p[p[x]]]) == RootSet(p)
  {
    HalveLinked(p, root, rank, x);
    HalveSized(p, s, root, rank, x);
  }

  lemma HalveSized(p: seq<nat>, s: seq<nat>, root: seq<nat>, rank: seq<nat>, x: nat)
    requires Linked(p, root, rank) && Sized(p, s, root) && x < |p| && p[x] != x
    ensures Sized(p[x := p[p[x]]], s, root)
    ensures RootSet(p[x := p[p[x]]]) == RootSet(p)
  {
    HalveLinked(p, root, rank, x);
  }

  lemma LinkLinked(p: seq<nat>, root: seq<nat>, rank: seq<nat>, ra: nat, rb: nat)
    requires Linked(p, root, rank) && ra < |p| && rb < |p| && ra != rb
    requires p[ra] == ra && p[rb] == rb
    ensures Linked(p[rb := ra], Relabel(root, rb, ra),
                   rank[ra := if rank[ra] > rank[rb] then rank[ra] else rank[rb] + 1])
  {
  }

  lemma LinkSized(p: seq<nat>, s: seq<nat>, root: seq<nat>, ra: nat, rb: nat)
    requires Sized(p, s, root) && ra < |p| && rb < |p| && ra != rb
    requires p[ra] == ra && p[rb] == rb
    ensures Sized(p[rb := ra], s[ra := s[ra] + s[rb]][rb := 0], Relabel(root, rb, ra))
  {
    var p', s', root' := p[rb := ra], s[ra := s[ra] + s[rb]][rb := 0], Relabel(root, rb, ra);
    SeqSumUpdate(s, ra, s[ra] + s[rb]);
    SeqSumUpdate(s[ra := s[ra] + s[rb]], rb, 0);
    forall x | 0 <= x < |p| && p'[x] == x
      ensures s'[x] == |Members(root', x)|
    {
      MembersMerge(root, ra, rb, x);
    }
  }

  /** Linking root `rb` under root `ra`: the invariant holds of the updated
      lists, and `rb` is no longer a root. */
  lemma LinkStep(p: seq<nat>, s: seq<nat>, root: seq<nat>, rank: seq<nat>, ra: nat, rb: nat)
    requires Forest(p, s, root, rank) && ra < |p| && rb < |p| && ra != rb
    requires p[ra] == ra && p[rb] == rb
    ensures Forest(p[rb := ra], s[ra := s[ra] + s[rb]][rb := 0], Relabel(root, rb, ra),
                   rank[ra := if rank[ra] > rank[rb] then rank[ra] else rank[rb] + 1])
    ensures RootSet(p[rb := ra]) == RootSet(p) - {rb}
  {
    LinkLinked(p, root, rank, ra, rb);
    LinkSized(p, s, root, ra, rb);
    LinkRoots(p, ra, rb);
  }

  lemma LinkRoots(p: seq<nat>, ra: nat, rb: nat)
    requires ra < |p| && rb < |p| && ra != rb && p[ra] == ra && p[rb] == rb
    ensures RootSet(p[rb := ra]) == RootSet(p) - {rb}
  {
  }

  /** A size as an entry of `component_sizes()`: kept when positive. */
  function PositiveSize(x: nat): Option<nat>
  {
    if x > 0 then Some(x) else None
  }

  /** The positive sizes of a forest whose classes are the circuits of `l`
      list each circuit's size once: one root per circuit, in increasing
      order of the root. */
  lemma CircuitsOfForest(p: seq<nat>, s: seq<nat>, root: seq<nat>, rank: seq<nat>, l: seq<nat>)
    returns (reps: seq<nat>)
    requires Forest(p, s, root, rank) && |l| == |p| && SameClasses(root, l)
    ensures OnePerCircuit(l, FilterMap(s, PositiveSize), reps)
  {
    var sizes := FilterMap(s, PositiveSize);
    reps := FilterMapWitness(s, PositiveSize);
    forall k | 0 <= k < |reps|
      ensures reps[k] < |l| && sizes[k] == |Circuit(l, reps[k])|
    {
      RootCircuit(p, s, root, rank, l, reps[k]);
    }
    forall k, k' | 0 <= k < k' < |reps|
      ensures l[reps[k]] != l[reps[k']]
    {
      DistinctRoots(p, s, root, rank, l, reps[k], reps[k']);
    }
    forall x | 0 <= x < |l|
      ensures exists k :: 0 <= k < |reps| && l[reps[k]] == l[x]
    {
      var r := RootOf(p, s, root, rank, l, x);
      var k :| 0 <= k < |reps| && reps[k] == r;
    }
  }

  /** At a root, the size is the size of its circuit. */
  lemma RootCircuit(p: seq<nat>, s: seq<nat>, root: seq<nat>, rank: seq<nat>, l: seq<nat>, r: nat)
    requires Forest(p, s, root, rank) && |l| == |p| && SameClasses(root, l)
    requires r < |s| && s[r] > 0
    ensures s[r] == |Circuit(l, r)|
  {
    assert p[r] == r && root[r] == r;
    assert Members(root, r) == Circuit(l, r);
  }

  /** Two distinct roots are in different circuits. */
  lemma DistinctRoots(p: seq<nat>, s: seq<nat>, root: seq<nat>, rank: seq<nat>, l: seq<nat>, x: nat, y: nat)
    requires Forest(p, s, root, rank) && |l| == |p| && SameClasses(root, l)
    requires x < |s| && y < |s| && s[x] > 0 && s[y] > 0 && x != y
    ensures l[x] != l[y]
  {
    assert root[x] == x && root[y] == y;
  }

  /** Every element's root has a positive size and shares its circuit. */
  lemma RootOf(p: seq<nat>, s: seq<nat>, root: seq<nat>, rank: seq<nat>, l: seq<nat>, x: nat)
    returns (r: nat)
    requires Forest(p, s, root, rank) && |l| == |p| && SameClasses(root, l) && x < |p|
    ensures r < |s| && s[r] > 0 && l[r] == l[x]
  {
    r := root[x];
    assert p[r] == r && root[r] == r;
  }

  /** One root is left exactly when every element is in one circuit. */
  lemma OneRootIffConnected(p: seq<nat>, s: seq<nat>, root: seq<nat>, rank: seq<nat>, l: seq<nat>)
    requires Forest(p, s, root, rank) && |l| == |p| && SameClasses(root, l) && |p| >= 1
    ensures |RootSet(p)| == 1 <==> Connected(l)
  {
    var r := root[0];
    assert r in RootSet(p);
    if |RootSet(p)| == 1 {
      assert |RootSet(p) - {r}| == 0;
      forall x | 0 <= x < |l|
        ensures l[x] == l[0]
      {
        assert root[x] in RootSet(p);
      }
    }
    if Connected(l) {
      forall y | y in RootSet(p)
        ensures y == r
      {
        assert root[y] == y && l[y] == l[0];
      }
      assert RootSet(p) == {r};
    }
  }

  /** With every element its own parent, there are as many roots as elements. */
  lemma AllRoots(p: seq<nat>)
    requires forall x :: 0 <= x < |p| ==> p[x] == x
    ensures |RootSet(p)| == |p|
  {
    RootsBelowCount(p, |p|);
    assert RootSet(p) == RootsBelow(p, |p|);
  }

  function RootsBelow(p: seq<nat>, k: nat): set<nat>
    requires k <= |p|
  {
    set r: nat | r < k && p[r] == r
  }

  lemma {:induction false} RootsBelowCount(p: seq<nat>, k: nat)
    requires k <= |p| && forall x :: 0 <= x < |p| ==> p[x] == x
    ensures |RootsBelow(p, k)| == k
  {
    if k > 0 {
      RootsBelowCount(p, k - 1);
      assert RootsBelow(p, k) == RootsBelow(p, k - 1) + {k - 1};
    }
  }

  /** A `union` call joins the circuits of `a` and `b` in the classes, as
      joining the pair does in the labelling: whichever root survives, and
      also when they already share one. */
  lemma UnionClasses(root0: seq<nat>, size0: seq<nat>, root1: seq<nat>, l: seq<nat>,
                     a: nat, b: nat, merged: bool)
    requires |root0| == |l| && a < |l| && b < |l| && SameClasses(root0, l)
    requires root0[a] < |size0| && root0[b] < |size0|
    requires merged <==> root0[a] != root0[b]
    requires !merged ==> root1 == root0
    requires merged ==>
      root1 == Relabel(root0, Absorb(root0, size0, a, b).1, Absorb(root0, size0, a, b).0)
    ensures |root1| == |l| && SameClasses(root1, Relabel(l, l[b], l[a]))
  {
    if merged {
      var (w, lo) := Absorb(root0, size0, a, b);
      MergeClasses(root0, l, a, b, w, lo);
    } else {
      JoinWithin(l, a, b);
    }
  }

  /** The surviving and the absorbed root when the classes of `a` and `b`
      merge: the root with the smaller size is absorbed, the root of `b` on a tie. */
  function Absorb(root: seq<nat>, s: seq<nat>, a: nat, b: nat): (nat, nat)
    requires a < |root| && b < |root| && root[a] < |s| && root[b] < |s|
  {
    if s[root[a]] < s[root[b]] then (root[b], root[a]) else (root[a], root[b])
  }

  class Dsu {
    const n: nat
    const parent: array<nat>
    const size: array<nat>
    /** The root each element reaches by following `parent`. */
    ghost var root: seq<nat>
    /** Grows strictly along every `parent` link, so walking to a root ends. */
    ghost var rank: seq<nat>

    ghost predicate Valid()
      reads this, parent, size
    {
      parent.Length == n && parent != size && Forest(parent[..], size[..], root, rank)
    }

    /** The roots, one per circuit. */
    ghost function Roots(): set<nat>
      reads this, parent
    {
      RootSet(parent[..])
    }

    /** `DSU(n)`: every element is its own root, with size 1. */
    constructor (n: nat)
      ensures Valid() && this.n == n && fresh(parent) && fresh(size)
      ensures forall x :: 0 <= x < n ==> parent[x] == x && size[x] == 1 && root[x] == x
      ensures forall x :: 0 <= x < n ==> x in Roots()
    {
      this.n := n;
      parent := new nat[n](x => x);
      size := new nat[n](_ => 1);
      root := seq(n, x => x);
      rank := seq(n, _ => 0);
      new;
      forall x | 0 <= x < n
        ensures |Members(root, x)| == 1
      {
        assert Members(root, x) == {x};
      }
      OnesSum(size[..]);
    }

    static lemma {:induction false} OnesSum(s: seq<nat>)
      requires forall i :: 0 <= i < |s| ==> s[i] == 1
      ensures SeqSum(s) == |s|
    {
      if s != [] {
        OnesSum(s[..|s| - 1]);
      }
    }

    /** `find(a)`: walks to the root of `a`, linking every other node on the
        way to its grandparent. Roots, sizes and classes stay as they were. */
    method Find(a: nat) returns (r: nat)
      requires Valid() && a < n
      modifies parent
      ensures Valid() && r == root[a] && parent[r] == r
      ensures Roots() == old(Roots())
    {
      r := a;
      while parent[r] != r
        invariant Valid() && r < n && root[r] == root[a]
        invariant Roots() == old(Roots())
        decreases rank[root[a]] - rank[r]
      {
        HalveStep(parent[..], size[..], root, rank, r);
        parent[r] := parent[parent[r]];
        r := parent[r];
      }
    }

    /** `union(a, b)`: false, with the same roots, sizes and classes, when `a`
        and `b` share a root; otherwise the root with the smaller size (the
        root of `b` on a tie) goes under the other, whose size becomes the sum,
        and the absorbed root's size becomes 0. */
    method Union(a: nat, b: nat) returns (merged: bool)
      requires Valid() && a < n && b < n
      modifies this, parent, size
      ensures Valid()
      ensures merged <==> old(root[a]) != old(root[b])
      ensures !merged ==> root == old(root) && size[..] == old(size[..]) && Roots() == old(Roots())
      ensures merged ==>
        var (w, l) := Absorb(old(root), old(size[..]), a, b);
        && root == Relabel(old(root), l, w)
        && size[..] == old(size[..])[w := old(size[w]) + old(size[l])][l := 0]
        && parent[l] == w
        && l in old(Roots()) && Roots() == old(Roots()) - {l}
    {
      var ra, rb := FindBoth(a, b);
      if ra == rb {
        return false;
      }
      if size[ra] < size[rb] {
        ra, rb := rb, ra;
      }
      assert (ra, rb) == Absorb(old(root), old(size[..]), a, b);
      assert size[ra] == old(size[ra]) && size[rb] == old(size[rb]);
      Link(ra, rb);
      merged := true;
    }

    /** The two `find` calls that start `union`. */
    method FindBoth(a: nat, b: nat) returns (ra: nat, rb: nat)
      requires Valid() && a < n && b < n
      modifies parent
      ensures Valid() && ra == root[a] && rb == root[b] && parent[ra] == ra && parent[rb] == rb
      ensures Roots() == old(Roots()) && size[..] == old(size[..])
    {
      ra := Find(a);
      rb := Find(b);
    }

    /** The linking half of `union`: root `rb` goes under root `ra`. */
    method Link(ra: nat, rb: nat)
      requires Valid() && ra < n && rb < n && ra != rb && parent[ra] == ra && parent[rb] == rb
      modifies this, parent, size
      ensures Valid()
      ensures root == Relabel(old(root), rb, ra)
      ensures size[..] == old(size[..])[ra := old(size[ra]) + old(size[rb])][rb := 0]
      ensures parent[rb] == ra && Roots() == old(Roots()) - {rb}
    {
      ghost var p0, s0 := parent[..], size[..];
      ghost var p1, s1 := p0[rb := ra], s0[ra := size[ra] + size[rb]][rb := 0];
      LinkStep(p0, s0, root, rank, ra, rb);
      parent[rb] := ra;
      size[ra] := size[ra] + size[rb];
      size[rb] := 0;
      assert parent[..] == p1;
      assert size[..] == s1;
      root := Relabel(root, rb, ra);
      rank := rank[ra := if rank[ra] > rank[rb] then rank[ra] else rank[rb] + 1];
    }

    /** `component_sizes()`: the positive sizes, in order of their roots. */
    function ComponentSizes(): (s: seq<nat>)
      requires Valid()
      reads this, parent, size
    {
      FilterMap(size[..], PositiveSize)
    }
  }
}
