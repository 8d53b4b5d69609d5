/** Day 8 (2025/Day8/puzzle15.py and puzzle16.py): the list of all pairs of
    junction boxes with their squared distance, sorted closest first, and the
    two ways the puzzles join them. */
module JunctionPairs {
  import opened Sorting
  import opened Linking

  type Point = (int, int, int)

  /** A pair `(dsq, i, j)` of boxes `i < j` at squared distance `dsq`. */
  datatype Pair = Pair(dsq: int, i: nat, j: nat)

  /** The squared Euclidean distance, kept integral. */
  function Dsq(p: Point, q: Point): (d: int)
    ensures d >= 0
    ensures p == q ==> d == 0
  {
    var (dx, dy, dz) := (p.0 - q.0, p.1 - q.1, p.2 - q.2);
    Square(dx) + Square(dy) + Square(dz)
  }

  function Square(x: int): (r: int)
    ensures r >= 0
  {
    if x >= 0 then x * x else (-x) * (-x)
  }

  function PairOf(points: seq<Point>, i: nat, j: nat): Pair
    requires i < |points| && j < |points|
  {
    Pair(Dsq(points[i], points[j]), i, j)
  }

  /** The sort key `(dsq, i, j)`, compared lexicographically. */
  predicate PairLe(a: Pair, b: Pair) {
    a.dsq < b.dsq || (a.dsq == b.dsq && (a.i < b.i || (a.i == b.i && a.j <= b.j)))
  }

  /** The key order is total, transitive and antisymmetric: only equal pairs
      tie. */
  lemma PairOrder()
    ensures TotalPreorder(PairLe)
    ensures forall a, b :: PairLe(a, b) && PairLe(b, a) ==> a == b
  {
  }

  /** Because only equal pairs tie, the sorted list is the same whatever
      algorithm sorts it. */
  lemma SortedPairsUnique(s: seq<Pair>, t: seq<Pair>, pairs: seq<Pair>)
    requires SortedPairs(s, pairs) && SortedPairs(t, pairs)
    ensures s == t
  {
    PairOrder();
    SortedUnique(s, t, PairLe);
  }

  /** The pairs `(i, j')` for `i < j' < j`, in increasing `j'`. */
  function RowPairs(points: seq<Point>, i: nat, j: nat): (r: seq<Pair>)
    requires i < j <= |points|
    ensures |r| == j - i - 1
    ensures forall k :: 0 <= k < |r| ==> r[k] == PairOf(points, i, i + 1 + k)
  {
    seq(j - i - 1, k requires 0 <= k < j - i - 1 => PairOf(points, i, i + 1 + k))
  }

  /** The pairs whose first box is below `i`, row by row. */
  function PairsBefore(points: seq<Point>, i: nat): seq<Pair>
    requires i <= |points|
  {
    if i == 0 then [] else PairsBefore(points, i - 1) + RowPairs(points, i - 1, |points|)
  }

  /** Every pair of distinct boxes, in the order the nested loops build them. */
  function AllPairs(points: seq<Point>): seq<Pair> {
    PairsBefore(points, |points|)
  }

  /** A pair is in the list exactly when it names boxes `i < j` and carries
      their squared distance. */
  lemma {:induction false} PairsBeforeMembers(points: seq<Point>, i: nat, p: Pair)
    requires i <= |points|
    ensures p in PairsBefore(points, i) <==>
      p.i < i && p.i < p.j < |points| && p == PairOf(points, p.i, p.j)
  {
    if i > 0 {
      PairsBeforeMembers(points, i - 1, p);
      var row := RowPairs(points, i - 1, |points|);
      assert PairsBefore(points, i) == PairsBefore(points, i - 1) + row;
      if p in row {
        var k :| 0 <= k < |row| && row[k] == p;
        assert p.i == i - 1 && p.j == i + k;
      }
      if p.i == i - 1 && p.i < p.j < |points| && p == PairOf(points, p.i, p.j) {
        assert row[p.j - i] == p;
      }
    }
  }

  lemma AllPairsMembers(points: seq<Point>, p: Pair)
    ensures p in AllPairs(points) <==> p.i < p.j < |points| && p == PairOf(points, p.i, p.j)
  {
    PairsBeforeMembers(points, |points|, p);
  }

  /** There are n(n-1)/2 pairs. */
  lemma {:induction false} PairsBeforeCount(points: seq<Point>, i: nat)
    requires i <= |points|
    ensures 2 * |PairsBefore(points, i)| == i * (2 * |points| - i - 1)
  {
    if i > 0 {
      PairsBeforeCount(points, i - 1);
      var n := |points|;
      assert 2 * |PairsBefore(points, i)| == (i - 1) * (2 * n - i) + 2 * (n - i);
      assert (i - 1) * (2 * n - i) + 2 * (n - i) == i * (2 * n - i - 1);
    }
  }

  lemma RowPairsSnoc(points: seq<Point>, i: nat, j: nat)
    requires i < j < |points|
    ensures RowPairs(points, i, j + 1) == RowPairs(points, i, j) + [PairOf(points, i, j)]
  {
  }

  /** The nested loops of both puzzles' `main`: for each `i`, the pairs
      `(i, j)` with `j > i` in increasing `j`. */
  method BuildPairs(points: seq<Point>) returns (pairs: seq<Pair>)
    ensures pairs == AllPairs(points)
  {
    var n := |points|;
    pairs := [];
    for i := 0 to n
      invariant pairs == PairsBefore(points, i)
    {
      for j := i + 1 to n
        invariant pairs == PairsBefore(points, i) + RowPairs(points, i, j)
      {
        RowPairsSnoc(points, i, j);
        pairs := pairs + [PairOf(points, i, j)];
      }
    }
  }

  /** `pairs` sorted by the key, as the same multiset of pairs. */
  ghost predicate SortedPairs(sorted: seq<Pair>, pairs: seq<Pair>) {
    Sorted(sorted, PairLe) && multiset(sorted) == multiset(pairs)
  }

  /** `pairs.sort(key=...)`. */
  method SortPairs(pairs: seq<Pair>) returns (sorted: seq<Pair>)
    ensures SortedPairs(sorted, pairs)
  {
    var a := new Pair[|pairs|](k requires 0 <= k < |pairs| => pairs[k]);
    assert a[..] == pairs;
    PairOrder();
    Sort(a, PairLe);
    sorted := a[..];
  }

  /** The sorted list holds every pair of the point list and nothing else. */
  lemma SortedMembers(points: seq<Point>, sorted: seq<Pair>, p: Pair)
    requires SortedPairs(sorted, AllPairs(points))
    ensures p in sorted <==> p.i < p.j < |points| && p == PairOf(points, p.i, p.j)
  {
    AllPairsMembers(points, p);
    assert p in sorted <==> p in multiset(sorted);
    assert p in AllPairs(points) <==> p in multiset(AllPairs(points));
  }

  /** The joins the pairs stand for. */
  function Edges(pairs: seq<Pair>): (edges: seq<(nat, nat)>)
    ensures |edges| == |pairs|
    ensures forall k :: 0 <= k < |pairs| ==> edges[k] == (pairs[k].i, pairs[k].j)
  {
    seq(|pairs|, k requires 0 <= k < |pairs| => (pairs[k].i, pairs[k].j))
  }

  /** Every pair of a sorted pair list names two of the boxes. */
  lemma SortedEndpoints(points: seq<Point>, sorted: seq<Pair>)
    requires SortedPairs(sorted, AllPairs(points))
    ensures Endpoints(|points|, Edges(sorted))
  {
    forall k | 0 <= k < |sorted|
      ensures sorted[k].i < |points| && sorted[k].j < |points|
    {
      SortedMembers(points, sorted, sorted[k]);
    }
  }
}

/** Day 8, part 1 (2025/Day8/puzzle15.py): join the 1000 closest pairs (all of
    them when there are fewer) and multiply the sizes of the three largest
    circuits. */
module CircuitProduct {
  import opened Sums
  import opened Seqs
  import opened Sorting
  import opened Linking
  import opened UnionFind
  import opened JunctionPairs

  predicate Ge(a: nat, b: nat) {
    a >= b
  }

  lemma GeOrder()
    ensures TotalPreorder(Ge)
  {
  }

  /** `prod` is the product of the first (up to) three values of `nums`
      sorted in decreasing order. */
  ghost predicate TopProduct(nums: seq<nat>, prod: int) {
    exists s: seq<nat> :: multiset(s) == multiset(nums) && Sorted(s, Ge) &&
      prod == SeqProduct(s[..if |s| < 3 then |s| else 3])
  }

  /** Two decreasing orderings of the same values are the same sequence. */
  lemma DecreasingUnique(s: seq<nat>, t: seq<nat>)
    requires Sorted(s, Ge) && Sorted(t, Ge) && multiset(s) == multiset(t)
    ensures s == t
  {
    assert Antisymmetric(Ge);
    SortedUnique(s, t, Ge);
  }


  /** The product of the three largest values does not depend on which
      decreasing ordering picks them. */
  lemma TopProductUnique(nums: seq<nat>, p: int, q: int)
    requires TopProduct(nums, p) && TopProduct(nums, q)
    ensures p == q
  {
    var s: seq<nat> :| multiset(s) == multiset(nums) && Sorted(s, Ge) &&
      p == SeqProduct(s[..if |s| < 3 then |s| else 3]);
    var t: seq<nat> :| multiset(t) == multiset(nums) && Sorted(t, Ge) &&
      q == SeqProduct(t[..if |t| < 3 then |t| else 3]);
    DecreasingUnique(s, t);
  }

  /** `product_top3`: 1 for no values, otherwise the product of the up to
      three largest. */
  method ProductTop3(nums: seq<nat>) returns (prod: int)
    ensures nums == [] ==> prod == 1
    ensures TopProduct(nums, prod)
  {
    if |nums| == 0 {
      assert Sorted(nums, Ge) && SeqProduct(nums[..0]) == 1;
      return 1;
    }
    var a := new nat[|nums|](k requires 0 <= k < |nums| => nums[k]);
    assert a[..] == nums;
    prod := ProductOfSorted(a, nums);
  }

  /** The sort and product loop of `product_top3`. */
  method ProductOfSorted(a: array<nat>, ghost nums: seq<nat>) returns (prod: int)
    requires a[..] == nums
    modifies a
    ensures TopProduct(nums, prod)
  {
    GeOrder();
    Sort(a, Ge);
    var m := if a.Length < 3 then a.Length else 3;
    var sorted := a[..];
    prod := 1;
    for i := 0 to m
      invariant prod == SeqProduct(sorted[..i])
    {
      assert sorted[..i + 1] == sorted[..i] + [sorted[i]];
      SeqProductSnoc(sorted[..i], sorted[i]);
      prod := prod * sorted[i];
    }
    assert multiset(sorted) == multiset(nums) && Sorted(sorted, Ge) && prod == SeqProduct(sorted[..m]);
  }

  function Min(a: nat, b: nat): nat {
    if a < b then a else b
  }

  /** `sizes` lists the circuits, once each, after joining the `Min(1000, #pairs)`
      first pairs of `sorted`, the pairs of `points` in key order. */
  ghost predicate Clustered(points: seq<Point>, sorted: seq<Pair>, sizes: seq<nat>, reps: seq<nat>) {
    && SortedPairs(sorted, AllPairs(points))
    && Endpoints(|points|, Edges(sorted))
    && OnePerCircuit(Labels(|points|, Edges(sorted)[..Min(1000, |sorted|)]), sizes, reps)
  }

  /** `main` of part 1 on the parsed points: 1 with fewer than two points,
      otherwise the product of the three largest circuit sizes after the
      closest `Min(1000, #pairs)` pairs are joined (a pair already in one
      circuit is used up all the same). */
  method ClosestCircuits(points: seq<Point>) returns (answer: int)
    ensures |points| <= 1 ==> answer == 1
    ensures |points| >= 2 ==> exists sorted, sizes, reps ::
      Clustered(points, sorted, sizes, reps) && TopProduct(sizes, answer)
  {
    var n := |points|;
    if n == 0 {
      return 1;
    }
    var pairs := BuildPairs(points);
    if n == 1 {
      PairsBeforeCount(points, n);
    } else {
      AllPairsMembers(points, PairOf(points, 0, 1));
    }
    if pairs == [] {
      return 1;
    }
    var sorted := SortPairs(pairs);
    SortedEndpoints(points, sorted);
    var count := Min(1000, |sorted|);
    var dsu := JoinFirst(n, sorted, count);
    var sizes := dsu.ComponentSizes();
    SizesAreCircuits(points, sorted, dsu.parent[..], dsu.size[..], dsu.root, dsu.rank);
    answer := ProductTop3(sizes);
  }

  /** The positive sizes of a forest whose classes are those of the joined
      pairs list each circuit once. */
  lemma SizesAreCircuits(points: seq<Point>, sorted: seq<Pair>,
                         p: seq<nat>, s: seq<nat>, root: seq<nat>, rank: seq<nat>)
    requires SortedPairs(sorted, AllPairs(points)) && Endpoints(|points|, Edges(sorted))
    requires Forest(p, s, root, rank) && |p| == |points|
    requires SameClasses(root, Labels(|points|, Edges(sorted)[..Min(1000, |sorted|)]))
    ensures exists reps :: Clustered(points, sorted, FilterMap(s, PositiveSize), reps)
  {
    var l := Labels(|points|, Edges(sorted)[..Min(1000, |sorted|)]);
    var reps := CircuitsOfForest(p, s, root, rank, l);
    assert Clustered(points, sorted, FilterMap(s, PositiveSize), reps);
  }

  /** The union loop of part 1: a fresh forest after `union` on the first
      `count` pairs has the circuits of those joins as its classes. */
  method JoinFirst(n: nat, sorted: seq<Pair>, count: nat) returns (dsu: Dsu)
    requires Endpoints(n, Edges(sorted)) && count <= |sorted|
    ensures fresh(dsu) && fresh(dsu.parent) && fresh(dsu.size)
    ensures dsu.Valid() && dsu.n == n
    ensures SameClasses(dsu.root, Labels(n, Edges(sorted)[..count]))
  {
    ghost var edges := Edges(sorted);
    dsu := new Dsu(n);
    for k := 0 to count
      invariant fresh(dsu) && fresh(dsu.parent) && fresh(dsu.size)
      invariant dsu.Valid() && dsu.n == n
      invariant SameClasses(dsu.root, Labels(n, edges[..k]))
    {
      var a, b := sorted[k].i, sorted[k].j;
      ghost var root0, size0, l0 := dsu.root, dsu.size[..], Labels(n, edges[..k]);
      var merged := dsu.Union(a, b);
      UnionClasses(root0, size0, dsu.root, l0, a, b, merged);
      JoinNext(n, edges, k);
    }
  }

  /** Joining one more pair of the list. */
  lemma JoinNext(n: nat, edges: seq<(nat, nat)>, k: nat)
    requires Endpoints(n, edges) && k < |edges|
    ensures Labels(n, edges[..k + 1]) ==
      Relabel(Labels(n, edges[..k]), Labels(n, edges[..k])[edges[k].1], Labels(n, edges[..k])[edges[k].0])
  {
    assert edges[..k + 1] == edges[..k] + [edges[k]];
    LabelsSnoc(n, edges[..k], edges[k]);
  }
}

/** Day 8, part 2 (2025/Day8/puzzle16.py): join pairs closest first until
    every box is in one circuit, and multiply the x-coordinates of the pair
    whose join completed it. */
module FinalConnection {
  import opened Linking
  import opened UnionFind
  import opened JunctionPairs
  import opened CircuitProduct

  /** Joining the pairs of `edges` up to and including `k` puts every element
      in one circuit, and joining those before `k` did not. */
  ghost predicate FirstConnecting(n: nat, edges: seq<(nat, nat)>, k: nat)
    requires Endpoints(n, edges)
  {
    k < |edges| && Connected(Labels(n, edges[..k + 1])) && !Connected(Labels(n, edges[..k]))
  }

  /** `answer` comes from the pair `sorted[k]` that first connects all the
      boxes, `sorted` being the pairs of `points` in key order. */
  ghost predicate Connects(points: seq<Point>, sorted: seq<Pair>, k: nat, answer: int) {
    && SortedPairs(sorted, AllPairs(points))
    && Endpoints(|points|, Edges(sorted))
    && FirstConnecting(|points|, Edges(sorted), k)
    && answer == points[sorted[k].i].0 * points[sorted[k].j].0
  }

  /** `main` of part 2 on the parsed points: 0 with fewer than two points;
      otherwise the pairs are joined closest first, counting circuits down
      from `n`, and the answer comes from the join that leaves one circuit.
      Such a join always exists, so the final `0` is never reached. */
  method LastConnection(points: seq<Point>) returns (answer: int)
    ensures |points| < 2 ==> answer == 0
    ensures |points| >= 2 ==> exists sorted, k :: Connects(points, sorted, k, answer)
  {
    var n := |points|;
    if n < 2 {
      return 0;
    }
    var pairs := BuildPairs(points);
    var sorted := SortPairs(pairs);
    SortedEndpoints(points, sorted);
    answer := JoinUntilConnected(points, sorted);
  }

  /** The union loop of part 2 over the sorted pairs, counting circuits down
      from `n` until one is left. */
  method JoinUntilConnected(points: seq<Point>, sorted: seq<Pair>) returns (answer: int)
    requires |points| >= 2 && SortedPairs(sorted, AllPairs(points)) && Endpoints(|points|, Edges(sorted))
    ensures exists k :: Connects(points, sorted, k, answer)
  {
    var n := |points|;
    ghost var edges := Edges(sorted);
    var dsu := new Dsu(n);
    AllRoots(dsu.parent[..]);
    var components := n;
    for k := 0 to |sorted|
      invariant fresh(dsu.parent) && fresh(dsu.size)
      invariant dsu.Valid() && dsu.n == n
      invariant SameClasses(dsu.root, Labels(n, edges[..k]))
      invariant components == |dsu.Roots()| >= 2
    {
      var a, b := sorted[k].i, sorted[k].j;
      var merged := JoinEdge(dsu, edges, k, a, b);
      if merged {
        components := components - 1;
        if components == 1 {
          answer := points[a].0 * points[b].0;
          assert Connects(points, sorted, k, answer);
          return;
        }
      }
    }
    EveryPairJoined(points, sorted, dsu.parent[..], dsu.size[..], dsu.root, dsu.rank);
    assert false;
    return 0;
  }

  /** `union` on pair `k` of the list: the classes become those of the first
      `k + 1` joins, a merge removes one root, and a merge that leaves one
      root is the first join to connect everything. */
  method JoinEdge(dsu: Dsu, ghost edges: seq<(nat, nat)>, ghost k: nat, a: nat, b: nat) returns (merged: bool)
    requires dsu.Valid() && dsu.n >= 1 && Endpoints(dsu.n, edges) && k < |edges| && edges[k] == (a, b)
    requires SameClasses(dsu.root, Labels(dsu.n, edges[..k]))
    modifies dsu, dsu.parent, dsu.size
    ensures dsu.Valid()
    ensures SameClasses(dsu.root, Labels(dsu.n, edges[..k + 1]))
    ensures merged ==> |dsu.Roots()| == |old(dsu.Roots())| - 1
    ensures !merged ==> dsu.Roots() == old(dsu.Roots())
    ensures merged && |dsu.Roots()| == 1 ==> FirstConnecting(dsu.n, edges, k)
  {
    ghost var n := dsu.n;
    ghost var root0, size0, l0 := dsu.root, dsu.size[..], Labels(n, edges[..k]);
    ghost var roots0 := dsu.Roots();
    OneRootIffConnected(dsu.parent[..], dsu.size[..], dsu.root, dsu.rank, l0);
    merged := dsu.Union(a, b);
    UnionClasses(root0, size0, dsu.root, l0, a, b, merged);
    JoinNext(n, edges, k);
    OneRootIffConnected(dsu.parent[..], dsu.size[..], dsu.root, dsu.rank, Labels(n, edges[..k + 1]));
  }

  /** Once every pair is joined, one root is left: every box is paired with
      box 0. */
  lemma EveryPairJoined(points: seq<Point>, sorted: seq<Pair>,
                        p: seq<nat>, s: seq<nat>, root: seq<nat>, rank: seq<nat>)
    requires SortedPairs(sorted, AllPairs(points)) && Endpoints(|points|, Edges(sorted))
    requires |points| >= 2 && Forest(p, s, root, rank) && |p| == |points|
    requires SameClasses(root, Labels(|points|, Edges(sorted)[..|sorted|]))
    ensures |RootSet(p)| == 1
  {
    var n := |points|;
    var edges := Edges(sorted);
    assert edges[..|sorted|] == edges;
    forall x | 1 <= x < n
      ensures (0, x) in edges
    {
      SortedMembers(points, sorted, PairOf(points, 0, x));
      var k :| 0 <= k < |sorted| && sorted[k] == PairOf(points, 0, x);
      assert edges[k] == (0, x);
    }
    AllJoinedToFirst(n, edges);
    OneRootIffConnected(p, s, root, rank, Labels(n, edges));
  }
}
