/** Day 9, part 2 (2025/Day9/puzzle18.py): the red tiles, taken in order and
    wrapping around, are joined by axis-aligned segments; the outline and its
    inside are allowed, and the answer is the largest rectangle with red
    opposite corners that is allowed throughout. The plane is compressed to
    the distinct x and x + 1 (and y and y + 1) values. */
module CompressedAxis {
  import opened Sorting
  import opened Sums

  /** Every value and its successor: the breakpoints of one axis. */
  ghost predicate IsBreak(vals: seq<int>, b: int) {
    exists k :: 0 <= k < |vals| && (b == vals[k] || b == vals[k] + 1)
  }

  predicate Increasing(s: seq<int>) {
    forall i, j :: 0 <= i < j < |s| ==> s[i] < s[j]
  }

  predicate IntLe(a: int, b: int) {
    a <= b
  }

  lemma IntOrder()
    ensures TotalPreorder(IntLe)
  {
  }

  /** `min(...)` of a non-empty list. */
  function SeqMin(s: seq<int>): (m: int)
    requires s != []
    ensures m in s && forall k :: 0 <= k < |s| ==> m <= s[k]
  {
    if |s| == 1 then s[0]
    else
      var m := SeqMin(s[..|s| - 1]);
      assert forall k :: 0 <= k < |s| - 1 ==> s[..|s| - 1][k] == s[k];
      if s[|s| - 1] < m then s[|s| - 1] else m
  }

  /** `max(...)` of a non-empty list. */
  function SeqMax(s: seq<int>): (m: int)
    requires s != []
    ensures m in s && forall k :: 0 <= k < |s| ==> s[k] <= m
  {
    if |s| == 1 then s[0]
    else
      var m := SeqMax(s[..|s| - 1]);
      assert forall k :: 0 <= k < |s| - 1 ==> s[..|s| - 1][k] == s[k];
      if s[|s| - 1] > m then s[|s| - 1] else m
  }

  /** A list of distinct values. */
  predicate Distinct(s: seq<int>) {
    forall i, j :: 0 <= i < j < |s| ==> s[i] != s[j]
  }

  /** The elements of a set in some order, each once. */
  method Elements(bs: set<int>) returns (out: seq<int>)
    ensures Distinct(out) && forall v :: v in out <==> v in bs
  {
    out := [];
    var rest := bs;
    while rest != {}
      invariant Distinct(out)
      invariant forall v :: v in bs <==> v in out || v in rest
      invariant forall v :: v in out ==> v !in rest
      decreases |rest|
    {
      HasElement(rest);
      var v :| v in rest;
      out := out + [v];
      rest := rest - {v};
    }
  }

  /** Two equal entries count twice. */
  lemma TwiceCounted(s: seq<int>, i: nat, j: nat)
    requires i < j < |s| && s[i] == s[j]
    ensures multiset(s)[s[i]] >= 2
  {
    assert s == s[..j] + [s[j]] + s[j + 1..];
    assert s[i] == s[..j][i];
    assert multiset(s) == multiset(s[..j]) + multiset{s[j]} + multiset(s[j + 1..]);
  }

  /** In a list of distinct values every value counts once. */
  lemma {:induction false} CountedOnce(s: seq<int>, v: int)
    requires Distinct(s)
    ensures multiset(s)[v] <= 1
    decreases |s|
  {
    if s != [] {
      var t := s[..|s| - 1];
      assert s == t + [s[|s| - 1]];
      assert Distinct(t);
      CountedOnce(t, v);
      if v == s[|s| - 1] {
        assert v !in t;
      }
    }
  }

  /** A permutation of distinct values is distinct. */
  lemma DistinctPermutation(s: seq<int>, t: seq<int>)
    requires Distinct(s) && multiset(s) == multiset(t)
    ensures Distinct(t)
  {
    forall i, j | 0 <= i < j < |t|
      ensures t[i] != t[j]
    {
      if t[i] == t[j] {
        TwiceCounted(t, i, j);
        CountedOnce(s, t[i]);
      }
    }
  }

  /** `sorted(...)` of a set: its elements in increasing order. */
  method SortedElements(bs: set<int>) returns (list: seq<int>)
    ensures Increasing(list) && forall v :: v in list <==> v in bs
  {
    var elems := Elements(bs);
    var a := new int[|elems|](k requires 0 <= k < |elems| => elems[k]);
    assert a[..] == elems;
    IntOrder();
    Sort(a, IntLe);
    list := a[..];
    DistinctPermutation(elems, list);
    forall v
      ensures v in list <==> v in elems
    {
      assert v in list <==> v in multiset(list);
      assert v in elems <==> v in multiset(elems);
    }
  }

  /** The list and index map of one axis: increasing, the breakpoints of
      `vals`, and `index` inverting the list. */
  ghost predicate Compressed(vals: seq<int>, list: seq<int>, index: map<int, nat>) {
    && Increasing(list)
    && (forall b :: b in list <==> IsBreak(vals, b))
    && (forall b :: b in index <==> b in list)
    && (forall i :: 0 <= i < |list| ==> list[i] in index && index[list[i]] == i)
  }

  /** One axis of `compress_coords`: every value and its successor are added
      to a set (also the minimum and the maximum plus one, already there),
      which is sorted and numbered. */
  method Compress(vals: seq<int>) returns (list: seq<int>, index: map<int, nat>)
    requires vals != []
    ensures Compressed(vals, list, index)
    ensures |list| >= 2
  {
    var bs := Breaks(vals);
    var lo, hi := SeqMin(vals), SeqMax(vals);
    ghost var before := bs;
    bs := bs + {lo, hi + 1};
    assert bs == before;
    list := SortedElements(bs);
    index := Numbering(list);
    TwoBreaks(vals, list);
  }

  /** The loop adding every value and its successor to the set. */
  method Breaks(vals: seq<int>) returns (bs: set<int>)
    ensures forall b :: b in bs <==> IsBreak(vals, b)
  {
    bs := {};
    for k := 0 to |vals|
      invariant forall b :: b in bs <==> IsBreak(vals[..k], b)
    {
      bs := bs + {vals[k], vals[k] + 1};
      IsBreakSnoc(vals, k);
    }
    assert vals[..|vals|] == vals;
  }

  /** `{x: i for i, x in enumerate(xs_list)}`: each listed value mapped to its
      position. */
  function Numbering(list: seq<int>): (index: map<int, nat>)
    requires Increasing(list)
    ensures forall b :: b in index <==> b in list
    ensures forall i :: 0 <= i < |list| ==> list[i] in index && index[list[i]] == i
  {
    map i | 0 <= i < |list| :: list[i] := i
  }

  /** The breakpoints hold at least a value and its successor. */
  lemma TwoBreaks(vals: seq<int>, list: seq<int>)
    requires vals != [] && forall b :: b in list <==> IsBreak(vals, b)
    ensures |list| >= 2
  {
    assert IsBreak(vals, vals[0]) && IsBreak(vals, vals[0] + 1);
    var i :| 0 <= i < |list| && list[i] == vals[0];
    var j :| 0 <= j < |list| && list[j] == vals[0] + 1;
    assert i != j;
  }

  lemma IsBreakSnoc(vals: seq<int>, k: nat)
    requires k < |vals|
    ensures forall b :: IsBreak(vals[..k + 1], b) <==> IsBreak(vals[..k], b) || b == vals[k] || b == vals[k] + 1
  {
    forall b
      ensures IsBreak(vals[..k + 1], b) <==> IsBreak(vals[..k], b) || b == vals[k] || b == vals[k] + 1
    {
      if IsBreak(vals[..k + 1], b) {
        var j :| 0 <= j < k + 1 && (b == vals[..k + 1][j] || b == vals[..k + 1][j] + 1);
        if j < k {
          assert vals[..k][j] == vals[j];
        }
      }
      if IsBreak(vals[..k], b) {
        var j :| 0 <= j < k && (b == vals[..k][j] || b == vals[..k][j] + 1);
        assert vals[..k + 1][j] == vals[j];
      }
      assert vals[..k + 1][k] == vals[k];
    }
  }

  /** The breakpoint after a value of the axis is the value plus one, so a
      compressed column spans the x values from its breakpoint to the next. */
  lemma NextBreak(vals: seq<int>, list: seq<int>, index: map<int, nat>, k: nat)
    requires Compressed(vals, list, index) && k < |vals|
    ensures vals[k] in index && index[vals[k]] + 1 < |list|
    ensures list[index[vals[k]] + 1] == vals[k] + 1
  {
    var v := vals[k];
    assert IsBreak(vals, v) && IsBreak(vals, v + 1);
    var i :| 0 <= i < |list| && list[i] == v;
    var j :| 0 <= j < |list| && list[j] == v + 1;
    assert index[v] == i;
    assert i < j;
  }
}

/** The compressed grid of 2025/Day9/puzzle18.py: `compress_coords` and
    `build_allowed`, which marks the red tiles and the segments between
    consecutive red tiles. */
module Outline {
  import opened RedTiles
  import opened CompressedAxis

  /** The x and the y coordinates of the tiles. */
  function Xs(points: seq<Tile>): (r: seq<int>)
    ensures |r| == |points| && forall k :: 0 <= k < |points| ==> r[k] == points[k].0
  {
    seq(|points|, k requires 0 <= k < |points| => points[k].0)
  }

  function Ys(points: seq<Tile>): (r: seq<int>)
    ensures |r| == |points| && forall k :: 0 <= k < |points| ==> r[k] == points[k].1
  {
    seq(|points|, k requires 0 <= k < |points| => points[k].1)
  }

  /** Both axes compressed from the tiles. */
  ghost predicate Layout(points: seq<Tile>, xs: seq<int>, ys: seq<int>, xi: map<int, nat>, yj: map<int, nat>) {
    Compressed(Xs(points), xs, xi) && Compressed(Ys(points), ys, yj)
  }

  /** `compress_coords` on a non-empty list of tiles. */
  method CompressCoords(points: seq<Tile>)
    returns (xs: seq<int>, ys: seq<int>, xi: map<int, nat>, yj: map<int, nat>, cols: nat, rows: nat)
    requires points != []
    ensures Layout(points, xs, ys, xi, yj)
    ensures cols == |xs| - 1 && rows == |ys| - 1 && cols >= 1 && rows >= 1
  {
    xs, xi := Compress(Xs(points));
    ys, yj := Compress(Ys(points));
    cols, rows := |xs| - 1, |ys| - 1;
  }

  /** A tile's compressed column and row are inside the grid. */
  lemma TileInGrid(points: seq<Tile>, xs: seq<int>, ys: seq<int>, xi: map<int, nat>, yj: map<int, nat>, k: nat)
    requires Layout(points, xs, ys, xi, yj) && k < |points|
    ensures points[k].0 in xi && xi[points[k].0] < |xs| - 1
    ensures points[k].1 in yj && yj[points[k].1] < |ys| - 1
  {
    NextBreak(Xs(points), xs, xi, k);
    NextBreak(Ys(points), ys, yj, k);
  }

  /** Every tile's compressed column and row are inside the grid. */
  predicate Gridded(points: seq<Tile>, xs: seq<int>, ys: seq<int>, xi: map<int, nat>, yj: map<int, nat>) {
    forall t :: 0 <= t < |points| ==>
      points[t].0 in xi && xi[points[t].0] < |xs| - 1 && points[t].1 in yj && yj[points[t].1] < |ys| - 1
  }

  lemma AllInGrid(points: seq<Tile>, xs: seq<int>, ys: seq<int>, xi: map<int, nat>, yj: map<int, nat>)
    requires Layout(points, xs, ys, xi, yj)
    ensures Gridded(points, xs, ys, xi, yj)
  {
    forall t | 0 <= t < |points|
      ensures points[t].0 in xi && xi[points[t].0] < |xs| - 1 && points[t].1 in yj && yj[points[t].1] < |ys| - 1
    {
      TileInGrid(points, xs, ys, xi, yj, t);
    }
  }

  /** Consecutive red tiles share a column or a row. */
  predicate Aligned(p: Tile, q: Tile) {
    p.0 == q.0 || p.1 == q.1
  }

  function Min(a: int, b: int): int {
    if a < b then a else b
  }

  function Max(a: int, b: int): int {
    if a < b then b else a
  }

  /** The tile after tile `k`, wrapping around to the first. */
  function Succ(points: seq<Tile>, k: nat): Tile
    requires k < |points|
  {
    if k + 1 < |points| then points[k + 1] else points[0]
  }

  /** `points[(k + 1) % n]` is the tile after tile `k`. */
  lemma SuccIndex(points: seq<Tile>, k: nat)
    requires k < |points|
    ensures (k + 1) % |points| < |points| && points[(k + 1) % |points|] == Succ(points, k)
  {
  }

  /** Every tile's coordinates are numbered. */
  predicate Keys(points: seq<Tile>, xi: map<int, nat>, yj: map<int, nat>) {
    forall t :: 0 <= t < |points| ==> points[t].0 in xi && points[t].1 in yj
  }

  /** Cell `(r, c)` holds red tile `k`. */
  ghost predicate IsRed(points: seq<Tile>, xi: map<int, nat>, yj: map<int, nat>, k: nat, r: int, c: int)
    requires k < |points| && points[k].0 in xi && points[k].1 in yj
  {
    r == yj[points[k].1] && c == xi[points[k].0]
  }

  /** Cell `(r, c)` lies on the segment from tile `k` to the next one. */
  ghost predicate OnSegment(points: seq<Tile>, xi: map<int, nat>, yj: map<int, nat>, k: nat, r: int, c: int)
    requires k < |points|
    requires Keys(points, xi, yj)
  {
    var p, q := points[k], Succ(points, k);
    if p.0 == q.0 then c == xi[p.0] && yj[Min(p.1, q.1)] <= r <= yj[Max(p.1, q.1)]
    else if p.1 == q.1 then r == yj[p.1] && xi[Min(p.0, q.0)] <= c <= xi[Max(p.0, q.0)]
    else false
  }

  /** Cell `(r, c)` is red or on a segment, among the first tiles. */
  ghost predicate MarkedRed(points: seq<Tile>, xi: map<int, nat>, yj: map<int, nat>, m: nat, r: int, c: int)
    requires m <= |points| && Keys(points, xi, yj)
  {
    exists k :: 0 <= k < m && IsRed(points, xi, yj, k, r, c)
  }

  ghost predicate MarkedSegment(points: seq<Tile>, xi: map<int, nat>, yj: map<int, nat>, m: nat, r: int, c: int)
    requires m <= |points| && Keys(points, xi, yj)
  {
    exists k :: 0 <= k < m && OnSegment(points, xi, yj, k, r, c)
  }

  /** The outline: the red tiles and the segments between consecutive ones. */
  ghost predicate OnOutline(points: seq<Tile>, xi: map<int, nat>, yj: map<int, nat>, r: int, c: int)
    requires Keys(points, xi, yj)
  {
    MarkedRed(points, xi, yj, |points|, r, c) || MarkedSegment(points, xi, yj, |points|, r, c)
  }

  lemma Keyed(points: seq<Tile>, xs: seq<int>, ys: seq<int>, xi: map<int, nat>, yj: map<int, nat>)
    requires Layout(points, xs, ys, xi, yj)
    ensures Keys(points, xi, yj)
  {
    forall t | 0 <= t < |points|
      ensures points[t].0 in xi && points[t].1 in yj
    {
      TileInGrid(points, xs, ys, xi, yj, t);
    }
  }

  /** `allowed[r][c] = True` for `r0 <= r <= r1`; nothing else changes. */
  method MarkColumn(allowed: array2<bool>, c: nat, r0: nat, r1: int)
    requires c < allowed.Length1 && r1 < allowed.Length0
    modifies allowed
    ensures forall r, c' :: 0 <= r < allowed.Length0 && 0 <= c' < allowed.Length1 ==>
      allowed[r, c'] == (old(allowed[r, c']) || (c' == c && r0 <= r <= r1))
  {
    var r := r0;
    while r <= r1
      invariant r0 <= r && (r <= r1 + 1 || r == r0)
      invariant forall r', c' :: 0 <= r' < allowed.Length0 && 0 <= c' < allowed.Length1 ==>
        allowed[r', c'] == (old(allowed[r', c']) || (c' == c && r0 <= r' < r))
      decreases r1 - r
    {
      allowed[r, c] := true;
      r := r + 1;
    }
  }

  /** `allowed[r][c] = True` for `c0 <= c <= c1`; nothing else changes. */
  method MarkRow(allowed: array2<bool>, r: nat, c0: nat, c1: int)
    requires r < allowed.Length0 && c1 < allowed.Length1
    modifies allowed
    ensures forall r', c :: 0 <= r' < allowed.Length0 && 0 <= c < allowed.Length1 ==>
      allowed[r', c] == (old(allowed[r', c]) || (r' == r && c0 <= c <= c1))
  {
    var c := c0;
    while c <= c1
      invariant c0 <= c && (c <= c1 + 1 || c == c0)
      invariant forall r', c' :: 0 <= r' < allowed.Length0 && 0 <= c' < allowed.Length1 ==>
        allowed[r', c'] == (old(allowed[r', c']) || (r' == r && c0 <= c' < c))
      decreases c1 - c
    {
      allowed[r, c] := true;
      c := c + 1;
    }
  }
}

/** `build_allowed`, in its two loops. */
module AllowedGrid {
  import opened RedTiles
  import opened CompressedAxis
  import opened Outline
  import FloodFill

  lemma MarkedRedSnoc(points: seq<Tile>, xi: map<int, nat>, yj: map<int, nat>, m: nat, r: int, c: int)
    requires m < |points| && Keys(points, xi, yj)
    ensures MarkedRed(points, xi, yj, m + 1, r, c) <==>
      MarkedRed(points, xi, yj, m, r, c) || IsRed(points, xi, yj, m, r, c)
  {
  }

  lemma MarkedSegmentSnoc(points: seq<Tile>, xi: map<int, nat>, yj: map<int, nat>, m: nat, r: int, c: int)
    requires m < |points| && Keys(points, xi, yj)
    ensures MarkedSegment(points, xi, yj, m + 1, r, c) <==>
      MarkedSegment(points, xi, yj, m, r, c) || OnSegment(points, xi, yj, m, r, c)
  {
  }

  /** The first loop: each red tile's cell is marked, and its compressed
      position `(column, row)` recorded. */
  method MarkRedTiles(allowed: array2<bool>, points: seq<Tile>, xs: seq<int>, ys: seq<int>,
                      xi: map<int, nat>, yj: map<int, nat>)
    returns (redComp: seq<(nat, nat)>)
    requires Gridded(points, xs, ys, xi, yj) && Keys(points, xi, yj)
    requires allowed.Length0 == |ys| - 1 && allowed.Length1 == |xs| - 1
    requires forall r, c :: 0 <= r < allowed.Length0 && 0 <= c < allowed.Length1 ==> !allowed[r, c]
    modifies allowed
    ensures |redComp| == |points|
    ensures forall k :: 0 <= k < |points| ==> redComp[k] == (xi[points[k].0], yj[points[k].1])
    ensures forall r, c :: 0 <= r < allowed.Length0 && 0 <= c < allowed.Length1 ==>
      allowed[r, c] == MarkedRed(points, xi, yj, |points|, r, c)
  {
    redComp := [];
    for k := 0 to |points|
      invariant |redComp| == k
      invariant forall t :: 0 <= t < k ==> redComp[t] == (xi[points[t].0], yj[points[t].1])
      invariant forall r, c :: 0 <= r < allowed.Length0 && 0 <= c < allowed.Length1 ==>
        allowed[r, c] == MarkedRed(points, xi, yj, k, r, c)
    {
      var (x, y) := points[k];
      var ix, jy := xi[x], yj[y];
      MarkRedTile(allowed, points, xi, yj, k, ix, jy);
      redComp := redComp + [(ix, jy)];
    }
  }

  /** `allowed[jy][ix] = True` for red tile `k`. */
  method MarkRedTile(allowed: array2<bool>, points: seq<Tile>, xi: map<int, nat>, yj: map<int, nat>,
                     k: nat, ix: nat, jy: nat)
    requires k < |points| && Keys(points, xi, yj) && ix == xi[points[k].0] && jy == yj[points[k].1]
    requires jy < allowed.Length0 && ix < allowed.Length1
    requires forall r, c :: 0 <= r < allowed.Length0 && 0 <= c < allowed.Length1 ==>
      allowed[r, c] == MarkedRed(points, xi, yj, k, r, c)
    modifies allowed
    ensures forall r, c :: 0 <= r < allowed.Length0 && 0 <= c < allowed.Length1 ==>
      allowed[r, c] == MarkedRed(points, xi, yj, k + 1, r, c)
  {
    allowed[jy, ix] := true;
    forall r, c | 0 <= r < allowed.Length0 && 0 <= c < allowed.Length1
      ensures allowed[r, c] == MarkedRed(points, xi, yj, k + 1, r, c)
    {
      MarkedRedSnoc(points, xi, yj, k, r, c);
    }
  }

  /** The segment from tile `k` to the next is inside the grid. */
  lemma SegmentInGrid(points: seq<Tile>, xs: seq<int>, ys: seq<int>, xi: map<int, nat>, yj: map<int, nat>, k: nat)
    requires Gridded(points, xs, ys, xi, yj) && Keys(points, xi, yj) && k < |points|
    ensures var p, q := points[k], Succ(points, k);
      && xi[p.0] < |xs| - 1 && yj[p.1] < |ys| - 1
      && xi[Max(p.0, q.0)] < |xs| - 1 && yj[Max(p.1, q.1)] < |ys| - 1
  {
  }

  /** The second loop: the segment from each tile to the next (the last to
      the first) is marked; a pair sharing neither column nor row stops it,
      where the source raises `ValueError`. */
  method MarkSegments(allowed: array2<bool>, points: seq<Tile>, xs: seq<int>, ys: seq<int>,
                      xi: map<int, nat>, yj: map<int, nat>, ghost g0: seq<seq<bool>>)
    returns (aligned: bool)
    requires Gridded(points, xs, ys, xi, yj) && Keys(points, xi, yj)
    requires allowed.Length0 == |ys| - 1 && allowed.Length1 == |xs| - 1 && FloodFill.Holds(allowed, g0)
    modifies allowed
    ensures aligned <==> forall k {:trigger Succ(points, k)} :: 0 <= k < |points| ==> Aligned(points[k], Succ(points, k))
    ensures aligned ==> forall r, c :: 0 <= r < allowed.Length0 && 0 <= c < allowed.Length1 ==>
      allowed[r, c] == (g0[r][c] || MarkedSegment(points, xi, yj, |points|, r, c))
  {
    for k := 0 to |points|
      invariant forall t {:trigger Succ(points, t)} :: 0 <= t < k ==> Aligned(points[t], Succ(points, t))
      invariant forall r, c :: 0 <= r < allowed.Length0 && 0 <= c < allowed.Length1 ==>
        allowed[r, c] == (g0[r][c] || MarkedSegment(points, xi, yj, k, r, c))
    {
      var ok := ExtendSegments(allowed, points, xs, ys, xi, yj, k, g0);
      if !ok {
        return false;
      }
    }
    return true;
  }

  /** The body of the second loop: segment `k` joins the marked segments. */
  method ExtendSegments(allowed: array2<bool>, points: seq<Tile>, xs: seq<int>, ys: seq<int>,
                        xi: map<int, nat>, yj: map<int, nat>, k: nat, ghost g0: seq<seq<bool>>)
    returns (ok: bool)
    requires Gridded(points, xs, ys, xi, yj) && Keys(points, xi, yj) && k < |points|
    requires allowed.Length0 == |ys| - 1 && allowed.Length1 == |xs| - 1 && FloodFill.Shape(g0, allowed.Length0, allowed.Length1)
    requires forall r, c :: 0 <= r < allowed.Length0 && 0 <= c < allowed.Length1 ==>
      allowed[r, c] == (g0[r][c] || MarkedSegment(points, xi, yj, k, r, c))
    modifies allowed
    ensures ok <==> Aligned(points[k], Succ(points, k))
    ensures ok ==> forall r, c :: 0 <= r < allowed.Length0 && 0 <= c < allowed.Length1 ==>
      allowed[r, c] == (g0[r][c] || MarkedSegment(points, xi, yj, k + 1, r, c))
  {
    ok := MarkSegment(allowed, points, xs, ys, xi, yj, k);
    if ok {
      forall r, c | 0 <= r < allowed.Length0 && 0 <= c < allowed.Length1
        ensures allowed[r, c] == (g0[r][c] || MarkedSegment(points, xi, yj, k + 1, r, c))
      {
        MarkedSegmentSnoc(points, xi, yj, k, r, c);
      }
    }
  }

  /** One step of the second loop: the segment from tile `k` to the next. */
  method MarkSegment(allowed: array2<bool>, points: seq<Tile>, xs: seq<int>, ys: seq<int>,
                     xi: map<int, nat>, yj: map<int, nat>, k: nat)
    returns (ok: bool)
    requires Gridded(points, xs, ys, xi, yj) && Keys(points, xi, yj) && k < |points|
    requires allowed.Length0 == |ys| - 1 && allowed.Length1 == |xs| - 1
    modifies allowed
    ensures ok <==> Aligned(points[k], Succ(points, k))
    ensures ok ==> forall r, c :: 0 <= r < allowed.Length0 && 0 <= c < allowed.Length1 ==>
      allowed[r, c] == (old(allowed[r, c]) || OnSegment(points, xi, yj, k, r, c))
  {
    SegmentInGrid(points, xs, ys, xi, yj, k);
    SuccIndex(points, k);
    var n := |points|;
    var (x1, y1) := points[k];
    var (x2, y2) := points[(k + 1) % n];
    if x1 == x2 {
      MarkColumn(allowed, xi[x1], yj[Min(y1, y2)], yj[Max(y1, y2)]);
      return true;
    } else if y1 == y2 {
      MarkRow(allowed, yj[y1], xi[Min(x1, x2)], xi[Max(x1, x2)]);
      return true;
    }
    return false;
  }

  /** `build_allowed`: a grid of `rows` by `cols` cells where exactly the
      outline is marked, and the compressed tile positions; `aligned` is false
      where the source raises `ValueError`. */
  method BuildAllowed(points: seq<Tile>, xs: seq<int>, ys: seq<int>, xi: map<int, nat>, yj: map<int, nat>,
                      cols: nat, rows: nat)
    returns (allowed: array2<bool>, redComp: seq<(nat, nat)>, aligned: bool)
    requires Layout(points, xs, ys, xi, yj) && cols == |xs| - 1 && rows == |ys| - 1
    ensures fresh(allowed) && allowed.Length0 == rows && allowed.Length1 == cols
    ensures Keys(points, xi, yj)
    ensures |redComp| == |points|
    ensures forall k :: 0 <= k < |points| ==> redComp[k] == (xi[points[k].0], yj[points[k].1])
    ensures aligned <==> forall k {:trigger Succ(points, k)} :: 0 <= k < |points| ==> Aligned(points[k], Succ(points, k))
    ensures aligned ==> forall r, c :: 0 <= r < rows && 0 <= c < cols ==>
      allowed[r, c] == OnOutline(points, xi, yj, r, c)
  {
    Keyed(points, xs, ys, xi, yj);
    AllInGrid(points, xs, ys, xi, yj);
    allowed := new bool[rows, cols]((r, c) => false);
    redComp := MarkRedTiles(allowed, points, xs, ys, xi, yj);
    aligned := MarkSegments(allowed, points, xs, ys, xi, yj, FloodFill.Cells(allowed));
  }
}

/** `fill_interior`: a breadth-first search from the free border cells finds
    every cell reachable from the border through free cells (the outside);
    every free cell it does not reach is inside the outline and becomes
    allowed. */
module FloodFill {

  type Cell = (int, int)

  /** The grid `g` has `rows` rows of `cols` cells. */
  predicate Shape(g: seq<seq<bool>>, rows: nat, cols: nat) {
    |g| == rows && forall r :: 0 <= r < rows ==> |g[r]| == cols
  }

  /** The array holds the grid value `g`. */
  ghost predicate Holds(a: array2<bool>, g: seq<seq<bool>>)
    reads a
  {
    Shape(g, a.Length0, a.Length1) &&
    forall r, c :: 0 <= r < a.Length0 && 0 <= c < a.Length1 ==> a[r, c] == g[r][c]
  }

  ghost function Cells(a: array2<bool>): (g: seq<seq<bool>>)
    reads a
    ensures Holds(a, g)
  {
    seq(a.Length0, r reads a requires 0 <= r < a.Length0 =>
      seq(a.Length1, c reads a requires 0 <= c < a.Length1 => a[r, c]))
  }

  predicate InGrid(rows: nat, cols: nat, x: Cell) {
    0 <= x.0 < rows && 0 <= x.1 < cols
  }

  /** A cell inside the grid that is not allowed. */
  predicate Free(g: seq<seq<bool>>, rows: nat, cols: nat, x: Cell)
    requires Shape(g, rows, cols)
  {
    InGrid(rows, cols, x) && !g[x.0][x.1]
  }

  predicate OnBorder(rows: nat, cols: nat, x: Cell) {
    x.0 == 0 || x.0 == rows - 1 || x.1 == 0 || x.1 == cols - 1
  }

  /** The four neighbours, in the order of the source's `dirs`. */
  const Dirs: seq<(int, int)> := [(1, 0), (-1, 0), (0, 1), (0, -1)]

  function Step(x: Cell, d: nat): Cell
    requires d < 4
  {
    (x.0 + Dirs[d].0, x.1 + Dirs[d].1)
  }

  predicate Adjacent(x: Cell, y: Cell) {
    exists d :: 0 <= d < 4 && y == Step(x, d)
  }

  /** A walk through free cells that starts on the border. */
  ghost predicate IsPath(g: seq<seq<bool>>, rows: nat, cols: nat, path: seq<Cell>)
    requires Shape(g, rows, cols)
  {
    && |path| >= 1 && OnBorder(rows, cols, path[0])
    && (forall i :: 0 <= i < |path| ==> Free(g, rows, cols, path[i]))
    && (forall i :: 0 <= i < |path| - 1 ==> Adjacent(path[i], path[i + 1]))
  }

  /** A cell reachable from the border through free cells. */
  ghost predicate Outside(g: seq<seq<bool>>, rows: nat, cols: nat, x: Cell)
    requires Shape(g, rows, cols)
  {
    exists path :: IsPath(g, rows, cols, path) && path[|path| - 1] == x
  }

  /** Marking cell `x` visited. */
  function Mark(V: seq<seq<bool>>, x: Cell): (W: seq<seq<bool>>)
    requires 0 <= x.0 < |V| && 0 <= x.1 < |V[x.0]|
    ensures |W| == |V| && forall r :: 0 <= r < |V| ==> |W[r]| == |V[r]|
  {
    V[x.0 := V[x.0][x.1 := true]]
  }

  /** Every cell visited in `V` is visited in `W`. */
  predicate Grows(V: seq<seq<bool>>, W: seq<seq<bool>>, rows: nat, cols: nat)
    requires Shape(V, rows, cols) && Shape(W, rows, cols)
  {
    forall r, c :: 0 <= r < rows && 0 <= c < cols && V[r][c] ==> W[r][c]
  }

  /** Every visited cell has a recorded path from the border that ends in it. */
  ghost predicate Sound(g: seq<seq<bool>>, V: seq<seq<bool>>, rows: nat, cols: nat, paths: map<Cell, seq<Cell>>)
    requires Shape(g, rows, cols) && Shape(V, rows, cols)
  {
    forall r, c :: 0 <= r < rows && 0 <= c < cols && V[r][c] ==>
      (r, c) in paths && IsPath(g, rows, cols, paths[(r, c)]) && paths[(r, c)][|paths[(r, c)]| - 1] == (r, c)
  }

  /** The queue holds visited cells of the grid. */
  predicate Queued(V: seq<seq<bool>>, rows: nat, cols: nat, q: seq<Cell>)
    requires Shape(V, rows, cols)
  {
    forall i :: 0 <= i < |q| ==> InGrid(rows, cols, q[i]) && V[q[i].0][q[i].1]
  }

  /** `unvis` is the set of cells not visited yet. */
  ghost predicate Unvisited(V: seq<seq<bool>>, rows: nat, cols: nat, unvis: set<Cell>)
    requires Shape(V, rows, cols)
  {
    forall x :: x in unvis <==> InGrid(rows, cols, x) && !V[x.0][x.1]
  }

  /** The neighbour of `x` in direction `d` is visited if it is free. */
  predicate Covered(g: seq<seq<bool>>, V: seq<seq<bool>>, rows: nat, cols: nat, x: Cell, d: nat)
    requires Shape(g, rows, cols) && Shape(V, rows, cols) && d < 4
  {
    Free(g, rows, cols, Step(x, d)) ==> V[Step(x, d).0][Step(x, d).1]
  }

  predicate Expanded(g: seq<seq<bool>>, V: seq<seq<bool>>, rows: nat, cols: nat, x: Cell)
    requires Shape(g, rows, cols) && Shape(V, rows, cols)
  {
    forall d :: 0 <= d < 4 ==> Covered(g, V, rows, cols, x, d)
  }

  /** Every visited cell that is no longer queued has all its free
      neighbours visited. */
  ghost predicate Closed(g: seq<seq<bool>>, V: seq<seq<bool>>, rows: nat, cols: nat, q: seq<Cell>)
    requires Shape(g, rows, cols) && Shape(V, rows, cols)
  {
    forall x {:trigger Expanded(g, V, rows, cols, x)} ::
      InGrid(rows, cols, x) && V[x.0][x.1] && x !in q ==> Expanded(g, V, rows, cols, x)
  }

  /** Every free border cell is visited. */
  predicate Seeded(g: seq<seq<bool>>, V: seq<seq<bool>>, rows: nat, cols: nat)
    requires Shape(g, rows, cols) && Shape(V, rows, cols)
  {
    forall r, c :: 0 <= r < rows && 0 <= c < cols && OnBorder(rows, cols, (r, c)) && !g[r][c] ==> V[r][c]
  }

  lemma ExpandedGrows(g: seq<seq<bool>>, V: seq<seq<bool>>, W: seq<seq<bool>>, rows: nat, cols: nat, x: Cell)
    requires Shape(g, rows, cols) && Shape(V, rows, cols) && Shape(W, rows, cols)
    requires Grows(V, W, rows, cols) && Expanded(g, V, rows, cols, x)
    ensures Expanded(g, W, rows, cols, x)
  {
    forall d | 0 <= d < 4
      ensures Covered(g, W, rows, cols, x, d)
    {
      assert Covered(g, V, rows, cols, x, d);
    }
  }

  /** The first `d` neighbours of `x` are covered. */
  predicate CoveredUpTo(g: seq<seq<bool>>, V: seq<seq<bool>>, rows: nat, cols: nat, x: Cell, d: nat)
    requires Shape(g, rows, cols) && Shape(V, rows, cols) && d <= 4
  {
    forall e :: 0 <= e < d ==> Covered(g, V, rows, cols, x, e)
  }

  lemma CoveredNext(g: seq<seq<bool>>, V: seq<seq<bool>>, W: seq<seq<bool>>, rows: nat, cols: nat, x: Cell, d: nat)
    requires Shape(g, rows, cols) && Shape(V, rows, cols) && Shape(W, rows, cols) && d < 4
    requires Grows(V, W, rows, cols) && CoveredUpTo(g, V, rows, cols, x, d) && Covered(g, W, rows, cols, x, d)
    ensures CoveredUpTo(g, W, rows, cols, x, d + 1)
  {
    forall e | 0 <= e < d
      ensures Covered(g, W, rows, cols, x, e)
    {
      assert Covered(g, V, rows, cols, x, e);
    }
  }

  /** A visited cell is outside. */
  lemma VisitedOutside(g: seq<seq<bool>>, V: seq<seq<bool>>, rows: nat, cols: nat, paths: map<Cell, seq<Cell>>, x: Cell)
    requires Shape(g, rows, cols) && Shape(V, rows, cols) && Sound(g, V, rows, cols, paths)
    requires InGrid(rows, cols, x) && V[x.0][x.1]
    ensures Outside(g, rows, cols, x)
  {
    assert IsPath(g, rows, cols, paths[x]);
  }

  /** Once the queue is empty, every cell outside is visited: along any
      path from the border, each next cell is a free neighbour of a visited,
      expanded cell. */
  lemma {:induction false} OutsideVisited(g: seq<seq<bool>>, V: seq<seq<bool>>, rows: nat, cols: nat, path: seq<Cell>, i: nat)
    requires Shape(g, rows, cols) && Shape(V, rows, cols)
    requires Closed(g, V, rows, cols, []) && Seeded(g, V, rows, cols)
    requires IsPath(g, rows, cols, path) && i < |path|
    ensures V[path[i].0][path[i].1]
  {
    if i > 0 {
      OutsideVisited(g, V, rows, cols, path, i - 1);
      var x := path[i - 1];
      assert Adjacent(x, path[i]);
      var d :| 0 <= d < 4 && path[i] == Step(x, d);
      assert Expanded(g, V, rows, cols, x);
      assert Covered(g, V, rows, cols, x, d);
    } else {
      assert Free(g, rows, cols, path[0]);
    }
  }

  /** A path extended by a free neighbour of its last cell is a path. */
  lemma ExtendPath(g: seq<seq<bool>>, rows: nat, cols: nat, path: seq<Cell>, d: nat)
    requires Shape(g, rows, cols) && IsPath(g, rows, cols, path) && d < 4
    requires Free(g, rows, cols, Step(path[|path| - 1], d))
    ensures IsPath(g, rows, cols, path + [Step(path[|path| - 1], d)])
  {
    var p := path + [Step(path[|path| - 1], d)];
    forall i | 0 <= i < |p| - 1
      ensures Adjacent(p[i], p[i + 1])
    {
      if i < |path| - 1 {
        assert p[i] == path[i] && p[i + 1] == path[i + 1];
      }
    }
  }

  /** The search state: the visited array holds `V`, every visited cell has
      a path, the queue holds visited cells and `unvis` counts what is left. */
  ghost predicate State(allowed: array2<bool>, vis: array2<bool>, g: seq<seq<bool>>, V: seq<seq<bool>>,
                        rows: nat, cols: nat, q: seq<Cell>, paths: map<Cell, seq<Cell>>, unvis: set<Cell>)
    reads allowed, vis
  {
    && allowed != vis
    && allowed.Length0 == rows && allowed.Length1 == cols && vis.Length0 == rows && vis.Length1 == cols
    && Holds(allowed, g) && Holds(vis, V)
    && Sound(g, V, rows, cols, paths) && Queued(V, rows, cols, q) && Unvisited(V, rows, cols, unvis)
  }

  /** Marking `x` visited, with a path that reaches it, keeps the search
      invariants on values; `x` is the only newly visited cell. */
  lemma MarkPreserves(g: seq<seq<bool>>, V: seq<seq<bool>>, rows: nat, cols: nat, q: seq<Cell>,
                      paths: map<Cell, seq<Cell>>, unvis: set<Cell>, x: Cell, path: seq<Cell>)
    requires Shape(g, rows, cols) && Shape(V, rows, cols) && InGrid(rows, cols, x)
    requires Sound(g, V, rows, cols, paths) && Queued(V, rows, cols, q) && Unvisited(V, rows, cols, unvis)
    requires IsPath(g, rows, cols, path) && path[|path| - 1] == x
    ensures Shape(Mark(V, x), rows, cols) && Grows(V, Mark(V, x), rows, cols)
    ensures Sound(g, Mark(V, x), rows, cols, paths[x := path])
    ensures Queued(Mark(V, x), rows, cols, q + [x])
    ensures Unvisited(Mark(V, x), rows, cols, unvis - {x})
    ensures forall r, c :: 0 <= r < rows && 0 <= c < cols && Mark(V, x)[r][c] && !V[r][c] ==> (r, c) == x
  {
    MarkOnly(V, rows, cols, x);
  }

  /** Marking changes the cell `x` and no other. */
  lemma MarkOnly(V: seq<seq<bool>>, rows: nat, cols: nat, x: Cell)
    requires Shape(V, rows, cols) && InGrid(rows, cols, x)
    ensures Shape(Mark(V, x), rows, cols) && Mark(V, x)[x.0][x.1]
    ensures forall r, c :: 0 <= r < rows && 0 <= c < cols && (r, c) != x ==> Mark(V, x)[r][c] == V[r][c]
  {
    var W := Mark(V, x);
    forall r, c | 0 <= r < rows && 0 <= c < cols && (r, c) != x
      ensures W[r][c] == V[r][c]
    {
      if r == x.0 {
        assert W[r] == V[r][x.1 := true];
      }
    }
  }

  /** One search step to the next: the queue only gains cells, every newly
      visited cell is queued, and either some cell was visited or nothing
      changed. */
  predicate Extends(V: seq<seq<bool>>, q: seq<Cell>, unvis: set<Cell>,
                    V': seq<seq<bool>>, q': seq<Cell>, unvis': set<Cell>, rows: nat, cols: nat)
    requires Shape(V, rows, cols) && Shape(V', rows, cols)
  {
    && Grows(V, V', rows, cols)
    && (forall y :: y in q ==> y in q')
    && (forall r, c :: 0 <= r < rows && 0 <= c < cols && V'[r][c] && !V[r][c] ==> (r, c) in q')
    && (unvis' < unvis || (unvis' == unvis && q' == q))
  }

  lemma ExtendsTrans(V: seq<seq<bool>>, q: seq<Cell>, unvis: set<Cell>,
                     V': seq<seq<bool>>, q': seq<Cell>, unvis': set<Cell>,
                     V'': seq<seq<bool>>, q'': seq<Cell>, unvis'': set<Cell>, rows: nat, cols: nat)
    requires Shape(V, rows, cols) && Shape(V', rows, cols) && Shape(V'', rows, cols)
    requires Extends(V, q, unvis, V', q', unvis', rows, cols)
    requires Extends(V', q', unvis', V'', q'', unvis'', rows, cols)
    ensures Extends(V, q, unvis, V'', q'', unvis'', rows, cols)
  {
  }

  /** Seeding the search with border cell `x`. */
  method Push(allowed: array2<bool>, vis: array2<bool>, ghost g: seq<seq<bool>>, ghost V: seq<seq<bool>>,
              rows: nat, cols: nat, q: seq<Cell>, ghost paths: map<Cell, seq<Cell>>, ghost unvis: set<Cell>, x: Cell)
    returns (q': seq<Cell>, ghost V': seq<seq<bool>>, ghost paths': map<Cell, seq<Cell>>, ghost unvis': set<Cell>)
    requires State(allowed, vis, g, V, rows, cols, q, paths, unvis)
    requires OnBorder(rows, cols, x) && Free(g, rows, cols, x)
    modifies vis
    ensures State(allowed, vis, g, V', rows, cols, q', paths', unvis')
    ensures q' == q + [x] && Grows(V, V', rows, cols) && V'[x.0][x.1]
    ensures forall r, c :: 0 <= r < rows && 0 <= c < cols && V'[r][c] && !V[r][c] ==> (r, c) == x
  {
    MarkPreserves(g, V, rows, cols, q, paths, unvis, x, [x]);
    vis[x.0, x.1] := true;
    V' := Mark(V, x);
    q' := q + [x];
    paths' := paths[x := [x]];
    unvis' := unvis - {x};
  }

  /** Visiting the neighbour of `x` in direction `d`: it is queued when it
      is inside the grid, not visited and not allowed. */
  method Visit(allowed: array2<bool>, vis: array2<bool>, ghost g: seq<seq<bool>>, ghost V: seq<seq<bool>>,
               rows: nat, cols: nat, q: seq<Cell>, ghost paths: map<Cell, seq<Cell>>, ghost unvis: set<Cell>,
               x: Cell, d: nat)
    returns (q': seq<Cell>, ghost V': seq<seq<bool>>, ghost paths': map<Cell, seq<Cell>>, ghost unvis': set<Cell>)
    requires State(allowed, vis, g, V, rows, cols, q, paths, unvis)
    requires InGrid(rows, cols, x) && V[x.0][x.1] && d < 4
    modifies vis
    ensures State(allowed, vis, g, V', rows, cols, q', paths', unvis')
    ensures Extends(V, q, unvis, V', q', unvis', rows, cols) && Covered(g, V', rows, cols, x, d)
  {
    var nb := Step(x, d);
    var nr, nc := nb.0, nb.1;
    if 0 <= nr < rows && 0 <= nc < cols && !vis[nr, nc] && !allowed[nr, nc] {
      ExtendPath(g, rows, cols, paths[x], d);
      MarkPreserves(g, V, rows, cols, q, paths, unvis, nb, paths[x] + [nb]);
      assert nb in unvis;
      vis[nr, nc] := true;
      V' := Mark(V, nb);
      q' := q + [nb];
      paths' := paths[nb := paths[x] + [nb]];
      unvis' := unvis - {nb};
    } else {
      q', V', paths', unvis' := q, V, paths, unvis;
    }
  }

  /** Expanding the cell `x` taken from the queue: its four neighbours are
      visited in turn. */
  method Expand(allowed: array2<bool>, vis: array2<bool>, ghost g: seq<seq<bool>>, ghost V: seq<seq<bool>>,
                rows: nat, cols: nat, q: seq<Cell>, ghost paths: map<Cell, seq<Cell>>, ghost unvis: set<Cell>, x: Cell)
    returns (q': seq<Cell>, ghost V': seq<seq<bool>>, ghost paths': map<Cell, seq<Cell>>, ghost unvis': set<Cell>)
    requires State(allowed, vis, g, V, rows, cols, q, paths, unvis)
    requires InGrid(rows, cols, x) && V[x.0][x.1]
    modifies vis
    ensures State(allowed, vis, g, V', rows, cols, q', paths', unvis')
    ensures Extends(V, q, unvis, V', q', unvis', rows, cols) && Expanded(g, V', rows, cols, x)
  {
    q', V', paths', unvis' := q, V, paths, unvis;
    for d := 0 to 4
      invariant State(allowed, vis, g, V', rows, cols, q', paths', unvis')
      invariant Extends(V, q, unvis, V', q', unvis', rows, cols)
      invariant CoveredUpTo(g, V', rows, cols, x, d)
    {
      ghost var before, qb, ub := V', q', unvis';
      q', V', paths', unvis' := Visit(allowed, vis, g, V', rows, cols, q', paths', unvis', x, d);
      ExtendsTrans(V, q, unvis, before, qb, ub, V', q', unvis', rows, cols);
      CoveredNext(g, before, V', rows, cols, x, d);
    }
  }

  /** Once the queue is empty every free cell is visited exactly when it is
      outside. */
  lemma VisitedIffOutside(g: seq<seq<bool>>, V: seq<seq<bool>>, rows: nat, cols: nat, paths: map<Cell, seq<Cell>>)
    requires Shape(g, rows, cols) && Shape(V, rows, cols) && Sound(g, V, rows, cols, paths)
    requires Closed(g, V, rows, cols, []) && Seeded(g, V, rows, cols)
    ensures forall r, c :: 0 <= r < rows && 0 <= c < cols && !g[r][c] ==> (V[r][c] <==> Outside(g, rows, cols, (r, c)))
  {
    forall r, c | 0 <= r < rows && 0 <= c < cols && !g[r][c]
      ensures V[r][c] <==> Outside(g, rows, cols, (r, c))
    {
      if V[r][c] {
        VisitedOutside(g, V, rows, cols, paths, (r, c));
      }
      if Outside(g, rows, cols, (r, c)) {
        OutsideCellVisited(g, V, rows, cols, (r, c));
      }
    }
  }

  /** An outside cell is visited once the search is over. */
  lemma OutsideCellVisited(g: seq<seq<bool>>, V: seq<seq<bool>>, rows: nat, cols: nat, x: Cell)
    requires Shape(g, rows, cols) && Shape(V, rows, cols)
    requires Closed(g, V, rows, cols, []) && Seeded(g, V, rows, cols) && Outside(g, rows, cols, x)
    ensures V[x.0][x.1]
  {
    var path :| IsPath(g, rows, cols, path) && path[|path| - 1] == x;
    OutsideVisited(g, V, rows, cols, path, |path| - 1);
  }

  /** Taking `q[0]` off the queue and expanding it keeps every visited,
      unqueued cell expanded. */
  lemma ClosedAfter(g: seq<seq<bool>>, V: seq<seq<bool>>, W: seq<seq<bool>>, rows: nat, cols: nat, q: seq<Cell>, q': seq<Cell>)
    requires Shape(g, rows, cols) && Shape(V, rows, cols) && Shape(W, rows, cols) && |q| >= 1
    requires Closed(g, V, rows, cols, q) && Expanded(g, W, rows, cols, q[0]) && Grows(V, W, rows, cols)
    requires forall y :: y in q[1..] ==> y in q'
    requires forall r, c :: 0 <= r < rows && 0 <= c < cols && W[r][c] && !V[r][c] ==> (r, c) in q'
    ensures Closed(g, W, rows, cols, q')
  {
    forall x | InGrid(rows, cols, x) && W[x.0][x.1] && x !in q'
      ensures Expanded(g, W, rows, cols, x)
    {
      if x != q[0] {
        assert q == [q[0]] + q[1..];
        assert x !in q;
        ExpandedGrows(g, V, W, rows, cols, x);
      }
    }
  }

  lemma QueuedTail(V: seq<seq<bool>>, rows: nat, cols: nat, q: seq<Cell>)
    requires Shape(V, rows, cols) && Queued(V, rows, cols, q) && |q| >= 1
    ensures InGrid(rows, cols, q[0]) && V[q[0].0][q[0].1] && Queued(V, rows, cols, q[1..])
  {
    assert forall i :: 0 <= i < |q| - 1 ==> q[1..][i] == q[i + 1];
  }

  /** Each round visits a new cell or shortens the queue. */
  lemma Progress(left': set<Cell>, left: set<Cell>, q': seq<Cell>, q: seq<Cell>)
    requires |q| >= 1 && (left' < left || (left' == left && q' == q[1..]))
    ensures |left'| < |left| || (|left'| == |left| && |q'| < |q|)
  {
    if left' != left {
      assert exists x :: x in left && x !in left';
      var x :| x in left && x !in left';
      assert x in left - left';
      assert left == left' + (left - left') && left' * (left - left') == {};
    }
  }

  /** What one round keeps: closure, the seeded border, and progress. */
  lemma RoundInvariants(g: seq<seq<bool>>, V: seq<seq<bool>>, V': seq<seq<bool>>, rows: nat, cols: nat,
                        q: seq<Cell>, q': seq<Cell>, unvis: set<Cell>, unvis': set<Cell>)
    requires Shape(g, rows, cols) && Shape(V, rows, cols) && Shape(V', rows, cols) && |q| >= 1
    requires Closed(g, V, rows, cols, q) && Seeded(g, V, rows, cols)
    requires Extends(V, q[1..], unvis, V', q', unvis', rows, cols) && Expanded(g, V', rows, cols, q[0])
    ensures Closed(g, V', rows, cols, q') && Seeded(g, V', rows, cols)
    ensures |unvis'| < |unvis| || (|unvis'| == |unvis| && |q'| < |q|)
  {
    ClosedAfter(g, V, V', rows, cols, q, q');
    Progress(unvis', unvis, q', q);
  }

  /** One round of the breadth-first search: the cell at the front of the
      queue is taken off and expanded. */
  method FloodStep(allowed: array2<bool>, vis: array2<bool>, ghost g: seq<seq<bool>>, ghost V: seq<seq<bool>>,
                   rows: nat, cols: nat, q: seq<Cell>, ghost paths: map<Cell, seq<Cell>>, ghost unvis: set<Cell>)
    returns (q': seq<Cell>, ghost V': seq<seq<bool>>, ghost paths': map<Cell, seq<Cell>>, ghost unvis': set<Cell>)
    requires State(allowed, vis, g, V, rows, cols, q, paths, unvis) && q != []
    requires Closed(g, V, rows, cols, q) && Seeded(g, V, rows, cols)
    modifies vis
    ensures State(allowed, vis, g, V', rows, cols, q', paths', unvis')
    ensures Closed(g, V', rows, cols, q') && Seeded(g, V', rows, cols)
    ensures |unvis'| < |unvis| || (|unvis'| == |unvis| && |q'| < |q|)
  {
    var x := q[0];
    QueuedTail(V, rows, cols, q);
    q', V', paths', unvis' := Expand(allowed, vis, g, V, rows, cols, q[1..], paths, unvis, x);
    RoundInvariants(g, V, V', rows, cols, q, q', unvis, unvis');
  }

  /** The breadth-first search proper: cells are taken off the front of the
      queue and expanded until the queue is empty. */
  method Flood(allowed: array2<bool>, vis: array2<bool>, ghost g: seq<seq<bool>>, ghost V: seq<seq<bool>>,
               rows: nat, cols: nat, q: seq<Cell>, ghost paths: map<Cell, seq<Cell>>, ghost unvis: set<Cell>)
    returns (ghost V': seq<seq<bool>>, ghost paths': map<Cell, seq<Cell>>)
    requires State(allowed, vis, g, V, rows, cols, q, paths, unvis)
    requires Closed(g, V, rows, cols, q) && Seeded(g, V, rows, cols)
    modifies vis
    ensures Holds(vis, V') && Shape(V', rows, cols) && Sound(g, V', rows, cols, paths')
    ensures Closed(g, V', rows, cols, []) && Seeded(g, V', rows, cols)
  {
    var queue := q;
    ghost var left := unvis;
    V', paths' := V, paths;
    while queue != []
      invariant State(allowed, vis, g, V', rows, cols, queue, paths', left)
      invariant Closed(g, V', rows, cols, queue) && Seeded(g, V', rows, cols)
      decreases |left|, |queue|
    {
      queue, V', paths', left := FloodStep(allowed, vis, g, V', rows, cols, queue, paths', left);
    }
  }

  /** Every visited cell is queued. */
  ghost predicate AllQueued(V: seq<seq<bool>>, rows: nat, cols: nat, q: seq<Cell>)
    requires Shape(V, rows, cols)
  {
    forall x :: InGrid(rows, cols, x) && V[x.0][x.1] ==> x in q
  }

  /** The free cells of the first `i` columns of the top and bottom rows are visited. */
  predicate RowsSeeded(g: seq<seq<bool>>, V: seq<seq<bool>>, rows: nat, cols: nat, i: nat)
    requires Shape(g, rows, cols) && Shape(V, rows, cols) && rows >= 1 && i <= cols
  {
    forall c :: 0 <= c < i ==> (!g[0][c] ==> V[0][c]) && (!g[rows - 1][c] ==> V[rows - 1][c])
  }

  /** The free cells of the first `j` rows of the left and right columns are visited. */
  predicate ColumnsSeeded(g: seq<seq<bool>>, V: seq<seq<bool>>, rows: nat, cols: nat, j: nat)
    requires Shape(g, rows, cols) && Shape(V, rows, cols) && cols >= 1 && j <= rows
  {
    forall r :: 0 <= r < j ==> (!g[r][0] ==> V[r][0]) && (!g[r][cols - 1] ==> V[r][cols - 1])
  }

  lemma RowsSeededGrows(g: seq<seq<bool>>, V: seq<seq<bool>>, W: seq<seq<bool>>, rows: nat, cols: nat, i: nat)
    requires Shape(g, rows, cols) && Shape(V, rows, cols) && Shape(W, rows, cols) && rows >= 1 && i <= cols
    requires RowsSeeded(g, V, rows, cols, i) && Grows(V, W, rows, cols)
    ensures RowsSeeded(g, W, rows, cols, i)
  {
    forall c | 0 <= c < i
      ensures (!g[0][c] ==> W[0][c]) && (!g[rows - 1][c] ==> W[rows - 1][c])
    {
      assert (!g[0][c] ==> V[0][c]) && (!g[rows - 1][c] ==> V[rows - 1][c]);
    }
  }

  lemma ColumnsSeededGrows(g: seq<seq<bool>>, V: seq<seq<bool>>, W: seq<seq<bool>>, rows: nat, cols: nat, j: nat)
    requires Shape(g, rows, cols) && Shape(V, rows, cols) && Shape(W, rows, cols) && cols >= 1 && j <= rows
    requires ColumnsSeeded(g, V, rows, cols, j) && Grows(V, W, rows, cols)
    ensures ColumnsSeeded(g, W, rows, cols, j)
  {
    forall r | 0 <= r < j
      ensures (!g[r][0] ==> W[r][0]) && (!g[r][cols - 1] ==> W[r][cols - 1])
    {
      assert (!g[r][0] ==> V[r][0]) && (!g[r][cols - 1] ==> V[r][cols - 1]);
    }
  }

  /** Queueing one more cell keeps every visited cell queued. */
  lemma RowsSeededStep(g: seq<seq<bool>>, V: seq<seq<bool>>, W: seq<seq<bool>>, rows: nat, cols: nat, i: nat)
    requires Shape(g, rows, cols) && Shape(V, rows, cols) && Shape(W, rows, cols) && rows >= 1 && i < cols
    requires RowsSeeded(g, V, rows, cols, i) && Grows(V, W, rows, cols)
    requires (!g[0][i] ==> W[0][i]) && (!g[rows - 1][i] ==> W[rows - 1][i])
    ensures RowsSeeded(g, W, rows, cols, i + 1)
  {
    RowsSeededGrows(g, V, W, rows, cols, i);
    forall c | 0 <= c < i + 1
      ensures (!g[0][c] ==> W[0][c]) && (!g[rows - 1][c] ==> W[rows - 1][c])
    {
    }
  }

  lemma ColumnsSeededStep(g: seq<seq<bool>>, V: seq<seq<bool>>, W: seq<seq<bool>>, rows: nat, cols: nat, j: nat)
    requires Shape(g, rows, cols) && Shape(V, rows, cols) && Shape(W, rows, cols) && cols >= 1 && j < rows
    requires ColumnsSeeded(g, V, rows, cols, j) && Grows(V, W, rows, cols)
    requires (!g[j][0] ==> W[j][0]) && (!g[j][cols - 1] ==> W[j][cols - 1])
    ensures ColumnsSeeded(g, W, rows, cols, j + 1)
  {
    ColumnsSeededGrows(g, V, W, rows, cols, j);
    forall r | 0 <= r < j + 1
      ensures (!g[r][0] ==> W[r][0]) && (!g[r][cols - 1] ==> W[r][cols - 1])
    {
    }
  }

  lemma AllQueuedPush(V: seq<seq<bool>>, W: seq<seq<bool>>, rows: nat, cols: nat, q: seq<Cell>, x: Cell)
    requires Shape(V, rows, cols) && Shape(W, rows, cols) && AllQueued(V, rows, cols, q)
    requires forall r, c :: 0 <= r < rows && 0 <= c < cols && W[r][c] && !V[r][c] ==> (r, c) == x
    ensures AllQueued(W, rows, cols, q + [x])
  {
    forall y | InGrid(rows, cols, y) && W[y.0][y.1]
      ensures y in q + [x]
    {
      if V[y.0][y.1] {
        assert y in q;
      } else {
        assert (y.0, y.1) == x;
      }
    }
  }

  /** Seeding ends with the whole border visited and every visited cell queued. */
  lemma SeedingDone(g: seq<seq<bool>>, V: seq<seq<bool>>, rows: nat, cols: nat, q: seq<Cell>)
    requires Shape(g, rows, cols) && Shape(V, rows, cols) && rows >= 1 && cols >= 1
    requires RowsSeeded(g, V, rows, cols, cols) && ColumnsSeeded(g, V, rows, cols, rows) && AllQueued(V, rows, cols, q)
    ensures Closed(g, V, rows, cols, q) && Seeded(g, V, rows, cols)
  {
    forall r, c | 0 <= r < rows && 0 <= c < cols && OnBorder(rows, cols, (r, c)) && !g[r][c]
      ensures V[r][c]
    {
      if r == 0 || r == rows - 1 {
        assert (!g[0][c] ==> V[0][c]) && (!g[rows - 1][c] ==> V[rows - 1][c]);
      } else {
        assert (!g[r][0] ==> V[r][0]) && (!g[r][cols - 1] ==> V[r][cols - 1]);
      }
    }
  }

  /** Seeding from column `i` of the top and bottom rows; the top cell is
      queued without checking whether it was visited. */
  method SeedRows(allowed: array2<bool>, vis: array2<bool>, ghost g: seq<seq<bool>>, ghost V: seq<seq<bool>>,
                  rows: nat, cols: nat, q: seq<Cell>, ghost paths: map<Cell, seq<Cell>>, ghost unvis: set<Cell>, i: nat)
    returns (q': seq<Cell>, ghost V': seq<seq<bool>>, ghost paths': map<Cell, seq<Cell>>, ghost unvis': set<Cell>)
    requires State(allowed, vis, g, V, rows, cols, q, paths, unvis) && rows >= 1 && i < cols
    requires AllQueued(V, rows, cols, q) && RowsSeeded(g, V, rows, cols, i)
    modifies vis
    ensures State(allowed, vis, g, V', rows, cols, q', paths', unvis')
    ensures AllQueued(V', rows, cols, q') && RowsSeeded(g, V', rows, cols, i + 1) && Grows(V, V', rows, cols)
  {
    q', V', paths', unvis' := q, V, paths, unvis;
    if !allowed[0, i] {
      ghost var before, qb := V', q';
      q', V', paths', unvis' := Push(allowed, vis, g, V', rows, cols, q', paths', unvis', (0, i));
      AllQueuedPush(before, V', rows, cols, qb, (0, i));
    }
    ghost var top := V';
    assert !g[0][i] ==> top[0][i];
    if !allowed[rows - 1, i] && !vis[rows - 1, i] {
      ghost var before, qb := V', q';
      q', V', paths', unvis' := Push(allowed, vis, g, V', rows, cols, q', paths', unvis', (rows - 1, i));
      AllQueuedPush(before, V', rows, cols, qb, (rows - 1, i));
    }
    assert Grows(top, V', rows, cols);
    assert !g[0][i] ==> V'[0][i];
    assert !g[rows - 1][i] ==> V'[rows - 1][i];
    RowsSeededStep(g, V, V', rows, cols, i);
  }

  /** Seeding from row `j` of the left and right columns. */
  method SeedColumns(allowed: array2<bool>, vis: array2<bool>, ghost g: seq<seq<bool>>, ghost V: seq<seq<bool>>,
                     rows: nat, cols: nat, q: seq<Cell>, ghost paths: map<Cell, seq<Cell>>, ghost unvis: set<Cell>, j: nat)
    returns (q': seq<Cell>, ghost V': seq<seq<bool>>, ghost paths': map<Cell, seq<Cell>>, ghost unvis': set<Cell>)
    requires State(allowed, vis, g, V, rows, cols, q, paths, unvis) && rows >= 1 && cols >= 1 && j < rows
    requires AllQueued(V, rows, cols, q) && RowsSeeded(g, V, rows, cols, cols) && ColumnsSeeded(g, V, rows, cols, j)
    modifies vis
    ensures State(allowed, vis, g, V', rows, cols, q', paths', unvis')
    ensures AllQueued(V', rows, cols, q') && RowsSeeded(g, V', rows, cols, cols)
    ensures ColumnsSeeded(g, V', rows, cols, j + 1)
  {
    q', V', paths', unvis' := q, V, paths, unvis;
    if !allowed[j, 0] && !vis[j, 0] {
      ghost var before, qb := V', q';
      q', V', paths', unvis' := Push(allowed, vis, g, V', rows, cols, q', paths', unvis', (j, 0));
      AllQueuedPush(before, V', rows, cols, qb, (j, 0));
    }
    if !allowed[j, cols - 1] && !vis[j, cols - 1] {
      ghost var before, qb := V', q';
      q', V', paths', unvis' := Push(allowed, vis, g, V', rows, cols, q', paths', unvis', (j, cols - 1));
      AllQueuedPush(before, V', rows, cols, qb, (j, cols - 1));
    }
    assert !g[j][0] ==> V'[j][0];
    assert !g[j][cols - 1] ==> V'[j][cols - 1];
    RowsSeededGrows(g, V, V', rows, cols, cols);
    ColumnsSeededStep(g, V, V', rows, cols, j);
  }

  /** The state of a search that has not visited anything. */
  lemma Start(allowed: array2<bool>, vis: array2<bool>, g: seq<seq<bool>>, rows: nat, cols: nat)
    requires allowed != vis && allowed.Length0 == rows && allowed.Length1 == cols
    requires vis.Length0 == rows && vis.Length1 == cols && Holds(allowed, g)
    requires forall r, c :: 0 <= r < rows && 0 <= c < cols ==> !vis[r, c]
    ensures State(allowed, vis, g, Cells(vis), rows, cols, [], map[], set r: int, c: int | 0 <= r < rows && 0 <= c < cols :: (r, c))
    ensures AllQueued(Cells(vis), rows, cols, [])
  {
  }

  /** Queueing the free border cells: the top and bottom rows first, then
      the left and right columns, skipping cells already queued. */
  method SeedBorder(allowed: array2<bool>, vis: array2<bool>, ghost g: seq<seq<bool>>, rows: nat, cols: nat)
    returns (q: seq<Cell>, ghost V: seq<seq<bool>>, ghost paths: map<Cell, seq<Cell>>, ghost unvis: set<Cell>)
    requires allowed != vis && allowed.Length0 == rows && allowed.Length1 == cols
    requires vis.Length0 == rows && vis.Length1 == cols && rows >= 1 && cols >= 1 && Holds(allowed, g)
    requires forall r, c :: 0 <= r < rows && 0 <= c < cols ==> !vis[r, c]
    modifies vis
    ensures State(allowed, vis, g, V, rows, cols, q, paths, unvis)
    ensures Closed(g, V, rows, cols, q) && Seeded(g, V, rows, cols)
  {
    Start(allowed, vis, g, rows, cols);
    V := Cells(vis);
    paths := map[];
    q := [];
    unvis := set r: int, c: int | 0 <= r < rows && 0 <= c < cols :: (r, c);
    for i := 0 to cols
      invariant State(allowed, vis, g, V, rows, cols, q, paths, unvis)
      invariant AllQueued(V, rows, cols, q) && RowsSeeded(g, V, rows, cols, i)
    {
      q, V, paths, unvis := SeedRows(allowed, vis, g, V, rows, cols, q, paths, unvis, i);
    }
    for j := 0 to rows
      invariant State(allowed, vis, g, V, rows, cols, q, paths, unvis)
      invariant AllQueued(V, rows, cols, q) && RowsSeeded(g, V, rows, cols, cols)
      invariant ColumnsSeeded(g, V, rows, cols, j)
    {
      q, V, paths, unvis := SeedColumns(allowed, vis, g, V, rows, cols, q, paths, unvis, j);
    }
    SeedingDone(g, V, rows, cols, q);
  }

  /** Marking the cells of row `r` that are neither allowed nor visited. */
  method MarkInteriorRow(allowed: array2<bool>, vis: array2<bool>, ghost g: seq<seq<bool>>, ghost V: seq<seq<bool>>, r: nat)
    requires allowed != vis && r < allowed.Length0 && vis.Length0 == allowed.Length0 && vis.Length1 == allowed.Length1
    requires Holds(vis, V) && Shape(g, allowed.Length0, allowed.Length1)
    requires forall c :: 0 <= c < allowed.Length1 ==> allowed[r, c] == g[r][c]
    modifies allowed
    ensures forall r', c :: 0 <= r' < allowed.Length0 && r' != r && 0 <= c < allowed.Length1 ==>
      allowed[r', c] == old(allowed[r', c])
    ensures forall c :: 0 <= c < allowed.Length1 ==> allowed[r, c] == (g[r][c] || !V[r][c])
  {
    for c := 0 to allowed.Length1
      invariant forall r', c' :: 0 <= r' < allowed.Length0 && r' != r && 0 <= c' < allowed.Length1 ==>
        allowed[r', c'] == old(allowed[r', c'])
      invariant forall c' :: 0 <= c' < allowed.Length1 ==>
        allowed[r, c'] == if c' < c then g[r][c'] || !V[r][c'] else g[r][c']
    {
      if !allowed[r, c] && !vis[r, c] {
        allowed[r, c] := true;
      }
    }
  }

  /** Marking every cell that is neither allowed nor visited. */
  method MarkInterior(allowed: array2<bool>, vis: array2<bool>, ghost g: seq<seq<bool>>, ghost V: seq<seq<bool>>)
    requires allowed != vis && vis.Length0 == allowed.Length0 && vis.Length1 == allowed.Length1
    requires Holds(vis, V) && Holds(allowed, g)
    modifies allowed
    ensures forall r, c :: 0 <= r < allowed.Length0 && 0 <= c < allowed.Length1 ==>
      allowed[r, c] == (g[r][c] || !V[r][c])
  {
    for r := 0 to allowed.Length0
      invariant forall r', c :: 0 <= r' < allowed.Length0 && 0 <= c < allowed.Length1 ==>
        allowed[r', c] == if r' < r then g[r'][c] || !V[r'][c] else g[r'][c]
    {
      MarkInteriorRow(allowed, vis, g, V, r);
    }
  }

  /** The search from the border, on a fresh visited array. */
  method Search(allowed: array2<bool>, ghost g: seq<seq<bool>>, rows: nat, cols: nat)
    returns (vis: array2<bool>, ghost V: seq<seq<bool>>, ghost paths: map<Cell, seq<Cell>>)
    requires allowed.Length0 == rows && allowed.Length1 == cols && rows >= 1 && cols >= 1 && Holds(allowed, g)
    ensures fresh(vis) && vis.Length0 == rows && vis.Length1 == cols && Holds(vis, V) && Shape(V, rows, cols)
    ensures Sound(g, V, rows, cols, paths) && Closed(g, V, rows, cols, []) && Seeded(g, V, rows, cols)
  {
    vis := new bool[rows, cols]((r, c) => false);
    var q;
    ghost var unvis;
    q, V, paths, unvis := SeedBorder(allowed, vis, g, rows, cols);
    V, paths := Flood(allowed, vis, g, V, rows, cols, q, paths, unvis);
  }

  /** After marking, a cell is allowed exactly when it was allowed or is not
      outside. */
  lemma Filled(allowed: array2<bool>, g: seq<seq<bool>>, V: seq<seq<bool>>, rows: nat, cols: nat,
               paths: map<Cell, seq<Cell>>)
    requires allowed.Length0 == rows && allowed.Length1 == cols && Shape(g, rows, cols) && Shape(V, rows, cols)
    requires Sound(g, V, rows, cols, paths) && Closed(g, V, rows, cols, []) && Seeded(g, V, rows, cols)
    requires forall r, c :: 0 <= r < rows && 0 <= c < cols ==> allowed[r, c] == (g[r][c] || !V[r][c])
    ensures forall r, c :: 0 <= r < rows && 0 <= c < cols ==>
      allowed[r, c] == (g[r][c] || !Outside(g, rows, cols, (r, c)))
  {
    VisitedIffOutside(g, V, rows, cols, paths);
  }

  /** Filling the interior: every cell that is neither allowed nor reachable
      from the border through cells that are not allowed becomes allowed;
      nothing else changes. */
  method FillInterior(allowed: array2<bool>, ghost g: seq<seq<bool>>, rows: nat, cols: nat)
    requires allowed.Length0 == rows && allowed.Length1 == cols && rows >= 1 && cols >= 1 && Holds(allowed, g)
    modifies allowed
    ensures forall r, c :: 0 <= r < rows && 0 <= c < cols ==>
      allowed[r, c] == (g[r][c] || !Outside(g, rows, cols, (r, c)))
  {
    var vis, V, paths := Search(allowed, g, rows, cols);
    MarkInterior(allowed, vis, g, V);
    Filled(allowed, g, V, rows, cols, paths);
  }
}
