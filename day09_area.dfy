/** The weighted prefix table of 2025/Day9/puzzle18.py: `build_weighted_prefix`
    and `rect_area_allowed`. Compressed cell `(r, c)` stands for the real tiles
    from column `xs[c]` up to `xs[c + 1]` and from row `ys[r]` up to
    `ys[r + 1]`; an allowed cell weighs its real area. */
module AreaTable {
  import opened CompressedAxis
  import opened FloodFill

  /** The grid `g` has one cell between each two neighbouring breaks. */
  predicate Fitted(g: seq<seq<bool>>, xs: seq<int>, ys: seq<int>) {
    |xs| >= 1 && |ys| >= 1 && Shape(g, |ys| - 1, |xs| - 1)
  }

  /** The real area of cell `(r, c)` when it is allowed, else 0. */
  function Weight(g: seq<seq<bool>>, xs: seq<int>, ys: seq<int>, r: nat, c: nat): int
    requires Fitted(g, xs, ys) && r < |ys| - 1 && c < |xs| - 1
  {
    if g[r][c] then (xs[c + 1] - xs[c]) * (ys[r + 1] - ys[r]) else 0
  }

  /** The weights of row `r`, columns `c0` up to `c1`. */
  function RowSum(g: seq<seq<bool>>, xs: seq<int>, ys: seq<int>, r: nat, c0: nat, c1: nat): int
    requires Fitted(g, xs, ys) && r < |ys| - 1 && c0 <= c1 <= |xs| - 1
    decreases c1 - c0
  {
    if c0 == c1 then 0 else RowSum(g, xs, ys, r, c0, c1 - 1) + Weight(g, xs, ys, r, c1 - 1)
  }

  /** The weights of rows `r0` up to `r1`, columns `c0` up to `c1`. */
  function BlockSum(g: seq<seq<bool>>, xs: seq<int>, ys: seq<int>, r0: nat, r1: nat, c0: nat, c1: nat): int
    requires Fitted(g, xs, ys) && r0 <= r1 <= |ys| - 1 && c0 <= c1 <= |xs| - 1
    decreases r1 - r0
  {
    if r0 == r1 then 0 else BlockSum(g, xs, ys, r0, r1 - 1, c0, c1) + RowSum(g, xs, ys, r1 - 1, c0, c1)
  }

  lemma {:induction false} RowSplit(g: seq<seq<bool>>, xs: seq<int>, ys: seq<int>, r: nat, a: nat, b: nat, c: nat)
    requires Fitted(g, xs, ys) && r < |ys| - 1 && a <= b <= c <= |xs| - 1
    ensures RowSum(g, xs, ys, r, a, c) == RowSum(g, xs, ys, r, a, b) + RowSum(g, xs, ys, r, b, c)
    decreases c - b
  {
    if b < c {
      RowSplit(g, xs, ys, r, a, b, c - 1);
    }
  }

  lemma {:induction false} BlockSplitRows(g: seq<seq<bool>>, xs: seq<int>, ys: seq<int>,
                                          r0: nat, rm: nat, r1: nat, c0: nat, c1: nat)
    requires Fitted(g, xs, ys) && r0 <= rm <= r1 <= |ys| - 1 && c0 <= c1 <= |xs| - 1
    ensures BlockSum(g, xs, ys, r0, r1, c0, c1) == BlockSum(g, xs, ys, r0, rm, c0, c1) + BlockSum(g, xs, ys, rm, r1, c0, c1)
    decreases r1 - rm
  {
    if rm < r1 {
      BlockSplitRows(g, xs, ys, r0, rm, r1 - 1, c0, c1);
    }
  }

  lemma {:induction false} BlockSplitColumns(g: seq<seq<bool>>, xs: seq<int>, ys: seq<int>,
                                             r0: nat, r1: nat, a: nat, b: nat, c: nat)
    requires Fitted(g, xs, ys) && r0 <= r1 <= |ys| - 1 && a <= b <= c <= |xs| - 1
    ensures BlockSum(g, xs, ys, r0, r1, a, c) == BlockSum(g, xs, ys, r0, r1, a, b) + BlockSum(g, xs, ys, r0, r1, b, c)
    decreases r1 - r0
  {
    if r0 < r1 {
      BlockSplitColumns(g, xs, ys, r0, r1 - 1, a, b, c);
      RowSplit(g, xs, ys, r1 - 1, a, b, c);
    }
  }

  /** A block of no columns weighs nothing. */
  lemma {:induction false} NoColumns(g: seq<seq<bool>>, xs: seq<int>, ys: seq<int>, r: nat, c: nat)
    requires Fitted(g, xs, ys) && r <= |ys| - 1 && c <= |xs| - 1
    ensures BlockSum(g, xs, ys, 0, r, c, c) == 0
    decreases r
  {
    if r > 0 {
      NoColumns(g, xs, ys, r - 1, c);
    }
  }

  /** The recurrence of `build_weighted_prefix`. */
  lemma PrefixStep(g: seq<seq<bool>>, xs: seq<int>, ys: seq<int>, r: nat, c: nat)
    requires Fitted(g, xs, ys) && r < |ys| - 1 && c < |xs| - 1
    ensures BlockSum(g, xs, ys, 0, r + 1, 0, c + 1)
         == BlockSum(g, xs, ys, 0, r, 0, c + 1) + BlockSum(g, xs, ys, 0, r + 1, 0, c)
            - BlockSum(g, xs, ys, 0, r, 0, c) + Weight(g, xs, ys, r, c)
  {
  }

  /** Inclusion and exclusion: a block is what four prefixes leave of it. */
  lemma InclusionExclusion(g: seq<seq<bool>>, xs: seq<int>, ys: seq<int>, r0: nat, r1: nat, c0: nat, c1: nat)
    requires Fitted(g, xs, ys) && r0 <= r1 <= |ys| - 1 && c0 <= c1 <= |xs| - 1
    ensures BlockSum(g, xs, ys, 0, r1, 0, c1) - BlockSum(g, xs, ys, 0, r0, 0, c1)
            - BlockSum(g, xs, ys, 0, r1, 0, c0) + BlockSum(g, xs, ys, 0, r0, 0, c0)
         == BlockSum(g, xs, ys, r0, r1, c0, c1)
  {
    BlockSplitRows(g, xs, ys, 0, r0, r1, 0, c1);
    BlockSplitRows(g, xs, ys, 0, r0, r1, 0, c0);
    BlockSplitColumns(g, xs, ys, r0, r1, 0, c0, c1);
  }

  /** Every cell of the block is allowed. */
  ghost predicate AllAllowed(g: seq<seq<bool>>, r0: nat, r1: nat, c0: nat, c1: nat)
    requires r1 <= |g| && forall r :: r0 <= r < r1 ==> c1 <= |g[r]|
  {
    forall r, c :: r0 <= r < r1 && c0 <= c < c1 ==> g[r][c]
  }

  /** The real area of the block, allowed or not. */
  function FullArea(xs: seq<int>, ys: seq<int>, r0: nat, r1: nat, c0: nat, c1: nat): int
    requires r0 <= r1 < |ys| && c0 <= c1 < |xs|
  {
    (xs[c1] - xs[c0]) * (ys[r1] - ys[r0])
  }

  /** With increasing breaks a row weighs at most its full area, and exactly
      that when all its cells are allowed. */
  lemma {:induction false} RowFull(g: seq<seq<bool>>, xs: seq<int>, ys: seq<int>, r: nat, c0: nat, c1: nat)
    requires Fitted(g, xs, ys) && Increasing(xs) && Increasing(ys) && r < |ys| - 1 && c0 <= c1 <= |xs| - 1
    ensures RowSum(g, xs, ys, r, c0, c1) <= (xs[c1] - xs[c0]) * (ys[r + 1] - ys[r])
    ensures RowSum(g, xs, ys, r, c0, c1) == (xs[c1] - xs[c0]) * (ys[r + 1] - ys[r])
        <==> forall c :: c0 <= c < c1 ==> g[r][c]
    decreases c1 - c0
  {
    var h := ys[r + 1] - ys[r];
    if c0 < c1 {
      RowFull(g, xs, ys, r, c0, c1 - 1);
      var w, last := xs[c1 - 1] - xs[c0], xs[c1] - xs[c1 - 1];
      assert h > 0 && last > 0;
      assert (xs[c1] - xs[c0]) * h == w * h + last * h;
      assert last * h > 0;
      if forall c :: c0 <= c < c1 ==> g[r][c] {
        assert g[r][c1 - 1];
      } else if g[r][c1 - 1] {
        assert exists c :: c0 <= c < c1 - 1 && !g[r][c];
      }
    } else {
      assert xs[c1] - xs[c0] == 0;
    }
  }

  /** With increasing breaks a block weighs at most its full area, and exactly
      that when all its cells are allowed. */
  lemma {:induction false} BlockFull(g: seq<seq<bool>>, xs: seq<int>, ys: seq<int>, r0: nat, r1: nat, c0: nat, c1: nat)
    requires Fitted(g, xs, ys) && Increasing(xs) && Increasing(ys) && r0 <= r1 <= |ys| - 1 && c0 <= c1 <= |xs| - 1
    ensures BlockSum(g, xs, ys, r0, r1, c0, c1) <= FullArea(xs, ys, r0, r1, c0, c1)
    ensures BlockSum(g, xs, ys, r0, r1, c0, c1) == FullArea(xs, ys, r0, r1, c0, c1)
        <==> AllAllowed(g, r0, r1, c0, c1)
    decreases r1 - r0
  {
    var w := xs[c1] - xs[c0];
    if r0 < r1 {
      BlockFull(g, xs, ys, r0, r1 - 1, c0, c1);
      RowFull(g, xs, ys, r1 - 1, c0, c1);
      assert w * (ys[r1] - ys[r0]) == w * (ys[r1 - 1] - ys[r0]) + w * (ys[r1] - ys[r1 - 1]);
      var last := r1 - 1;
      if AllAllowed(g, r0, r1, c0, c1) {
        assert AllAllowed(g, r0, last, c0, c1);
        assert forall c :: c0 <= c < c1 ==> g[last][c];
      } else if AllAllowed(g, r0, last, c0, c1) {
        assert exists c :: c0 <= c < c1 && !g[last][c];
      }
    } else {
      assert ys[r1] - ys[r0] == 0;
    }
  }

  /** `ps` holds the prefix sums of `g`'s weights. */
  ghost predicate Table(ps: array2<int>, g: seq<seq<bool>>, xs: seq<int>, ys: seq<int>)
    reads ps
  {
    && Fitted(g, xs, ys) && ps.Length0 == |ys| && ps.Length1 == |xs|
    && forall r, c :: 0 <= r < |ys| && 0 <= c < |xs| ==> ps[r, c] == BlockSum(g, xs, ys, 0, r, 0, c)
  }

  /** Row `row` of the table, from the rows above it. */
  method PrefixRow(ps: array2<int>, allowed: array2<bool>, ghost g: seq<seq<bool>>, xs: seq<int>, ys: seq<int>, row: nat)
    requires Fitted(g, xs, ys) && Holds(allowed, g) && 1 <= row < |ys|
    requires allowed.Length0 == |ys| - 1 && allowed.Length1 == |xs| - 1
    requires ps.Length0 == |ys| && ps.Length1 == |xs|
    requires forall r, c :: 0 <= r < row && 0 <= c < |xs| ==> ps[r, c] == BlockSum(g, xs, ys, 0, r, 0, c)
    requires forall c :: 0 <= c < |xs| ==> ps[row, c] == 0
    modifies ps
    ensures forall r, c :: 0 <= r < |ys| && r != row && 0 <= c < |xs| ==> ps[r, c] == old(ps[r, c])
    ensures forall c :: 0 <= c < |xs| ==> ps[row, c] == BlockSum(g, xs, ys, 0, row, 0, c)
  {
    var r := row - 1;
    NoColumns(g, xs, ys, row, 0);
    for c := 0 to |xs| - 1
      invariant forall r', c' :: 0 <= r' < |ys| && r' != row && 0 <= c' < |xs| ==> ps[r', c'] == old(ps[r', c'])
      invariant forall c' :: 0 <= c' <= c ==> ps[row, c'] == BlockSum(g, xs, ys, 0, row, 0, c')
      invariant forall c' :: c < c' < |xs| ==> ps[row, c'] == 0
    {
      var area;
      if allowed[r, c] {
        var width := xs[c + 1] - xs[c];
        var height := ys[r + 1] - ys[r];
        area := width * height;
      } else {
        area := 0;
      }
      PrefixStep(g, xs, ys, r, c);
      ps[r + 1, c + 1] := ps[r, c + 1] + ps[r + 1, c] - ps[r, c] + area;
    }
  }

  /** `build_weighted_prefix`: entry `(r, c)` is the real area of the allowed
      cells in the first `r` rows and `c` columns. */
  method BuildWeightedPrefix(allowed: array2<bool>, ghost g: seq<seq<bool>>, xs: seq<int>, ys: seq<int>,
                             cols: nat, rows: nat)
    returns (ps: array2<int>)
    requires Holds(allowed, g) && allowed.Length0 == rows && allowed.Length1 == cols
    requires |xs| == cols + 1 && |ys| == rows + 1
    ensures fresh(ps) && Table(ps, g, xs, ys)
  {
    ps := new int[rows + 1, cols + 1]((r, c) => 0);
    for r := 0 to rows
      invariant forall r', c :: 0 <= r' <= r && 0 <= c <= cols ==> ps[r', c] == BlockSum(g, xs, ys, 0, r', 0, c)
      invariant forall r', c :: r < r' <= rows && 0 <= c <= cols ==> ps[r', c] == 0
    {
      PrefixRow(ps, allowed, g, xs, ys, r + 1);
    }
  }

  /** `rect_area_allowed`: the real area of the allowed cells in columns `x0`
      to `x1` and rows `y0` to `y1`, both inclusive. */
  function RectAreaAllowed(ps: array2<int>, ghost g: seq<seq<bool>>, ghost xs: seq<int>, ghost ys: seq<int>,
                           x0: nat, y0: nat, x1: nat, y1: nat): (area: int)
    reads ps
    requires Table(ps, g, xs, ys) && x0 <= x1 < |xs| - 1 && y0 <= y1 < |ys| - 1
    ensures area == BlockSum(g, xs, ys, y0, y1 + 1, x0, x1 + 1)
  {
    InclusionExclusion(g, xs, ys, y0, y1 + 1, x0, x1 + 1);
    ps[y1 + 1, x1 + 1] - ps[y0, x1 + 1] - ps[y1 + 1, x0] + ps[y0, x0]
  }
}

/** `max_allowed_rectangle_area` of 2025/Day9/puzzle18.py: the largest
    rectangle with red corners whose compressed cells are all red or green. */
module GreenRectangles {
  import opened Maybe
  import opened RedTiles
  import opened CompressedAxis
  import opened Outline
  import opened AllowedGrid
  import opened FloodFill
  import opened AreaTable

  /** The grid `build_allowed` marks: the outline of the red tiles. */
  ghost function OutlineGrid(points: seq<Tile>, xi: map<int, nat>, yj: map<int, nat>, rows: nat, cols: nat)
    : (g: seq<seq<bool>>)
    requires Keys(points, xi, yj)
    ensures Shape(g, rows, cols)
    ensures forall r, c :: 0 <= r < rows && 0 <= c < cols ==> g[r][c] == OnOutline(points, xi, yj, r, c)
  {
    seq(rows, r => seq(cols, c => OnOutline(points, xi, yj, r, c)))
  }

  /** The grid after `fill_interior`: the outline and what it encloses. */
  ghost function FilledGrid(g: seq<seq<bool>>, rows: nat, cols: nat): (G: seq<seq<bool>>)
    requires Shape(g, rows, cols)
    ensures Shape(G, rows, cols)
    ensures forall r, c :: 0 <= r < rows && 0 <= c < cols ==>
      G[r][c] == (g[r][c] || !Outside(g, rows, cols, (r, c)))
  {
    seq(rows, (r: int) requires 0 <= r < rows =>
      seq(cols, (c: int) requires 0 <= c < cols => g[r][c] || !Outside(g, rows, cols, (r, c))))
  }

  /** Every compressed cell of the rectangle with corners `p` and `q` is
      allowed in `G`. */
  ghost predicate Fits(G: seq<seq<bool>>, xi: map<int, nat>, yj: map<int, nat>, p: Tile, q: Tile)
    requires p.0 in xi && q.0 in xi && p.1 in yj && q.1 in yj
  {
    forall r, c :: Min(yj[p.1], yj[q.1]) <= r <= Max(yj[p.1], yj[q.1]) && Min(xi[p.0], xi[q.0]) <= c <= Max(xi[p.0], xi[q.0]) ==>
      r < |G| && c < |G[r]| && G[r][c]
  }

  /** `m` is at least the area of every fitting rectangle with opposite red
      corners among the pairs `(a, b)` before `(ba, bb)` in loop order. */
  ghost predicate FitsBefore(points: seq<Tile>, xi: map<int, nat>, yj: map<int, nat>, G: seq<seq<bool>>,
                             ba: nat, bb: nat, m: int)
    requires Keys(points, xi, yj)
  {
    forall a, b ::
      (0 <= a < b < |points| && (a < ba || (a == ba && b < bb)) &&
       Opposite(points[a], points[b]) && Fits(G, xi, yj, points[a], points[b])) ==>
      Area(points[a], points[b]) <= m
  }

  /** `m` is 0 or the area of a fitting rectangle with opposite red corners. */
  ghost predicate FitAttained(points: seq<Tile>, xi: map<int, nat>, yj: map<int, nat>, G: seq<seq<bool>>, m: int)
    requires Keys(points, xi, yj)
  {
    m == 0 ||
    exists a, b :: (0 <= a < b < |points| && Opposite(points[a], points[b]) &&
                    Fits(G, xi, yj, points[a], points[b]) && Area(points[a], points[b]) == m)
  }

  /** The value the search must find. */
  ghost predicate Best(points: seq<Tile>, xi: map<int, nat>, yj: map<int, nat>, G: seq<seq<bool>>, m: int)
    requires Keys(points, xi, yj)
  {
    FitsBefore(points, xi, yj, G, |points|, 0, m) && FitAttained(points, xi, yj, G, m) && (m == 0 || m >= 4)
  }

  /** One axis of a pair of red tiles: equal compressed indices mean equal
      values, and the breaks after the larger and at the smaller index are
      as far apart as the tiles' span, both ends included. */
  ghost predicate Spans(list: seq<int>, index: map<int, nat>, v1: int, v2: int) {
    && v1 in index && v2 in index
    && index[v1] + 1 < |list| && index[v2] + 1 < |list|
    && (index[v1] == index[v2] <==> v1 == v2)
    && list[Max(index[v1], index[v2]) + 1] - list[Min(index[v1], index[v2])] == Abs(v1 - v2) + 1
  }

  lemma AxisSpan(vals: seq<int>, list: seq<int>, index: map<int, nat>, k1: nat, k2: nat, v1: int, v2: int)
    requires Compressed(vals, list, index) && k1 < |vals| && k2 < |vals| && vals[k1] == v1 && vals[k2] == v2
    ensures Spans(list, index, v1, v2)
  {
    NextBreak(vals, list, index, k1);
    NextBreak(vals, list, index, k2);
    assert IsBreak(vals, v1) && IsBreak(vals, v2);
    var i1 :| 0 <= i1 < |list| && list[i1] == v1;
    var i2 :| 0 <= i2 < |list| && list[i2] == v2;
    assert index[v1] == i1 && index[v2] == i2;
    if v1 < v2 {
      assert i1 < i2;
    } else if v2 < v1 {
      assert i2 < i1;
    }
  }

  /** Both axes of the pair `(a, b)` of red tiles. */
  lemma PairSpan(points: seq<Tile>, xs: seq<int>, ys: seq<int>, xi: map<int, nat>, yj: map<int, nat>, a: nat, b: nat)
    requires Layout(points, xs, ys, xi, yj) && a < |points| && b < |points|
    ensures Keys(points, xi, yj)
    ensures Spans(xs, xi, points[a].0, points[b].0) && Spans(ys, yj, points[a].1, points[b].1)
  {
    Keyed(points, xs, ys, xi, yj);
    AxisSpan(Xs(points), xs, xi, a, b, points[a].0, points[b].0);
    AxisSpan(Ys(points), ys, yj, a, b, points[a].1, points[b].1);
  }

  /** `total_cells` is the rectangle's area. */
  lemma SpanProduct(xs: seq<int>, ys: seq<int>, xi: map<int, nat>, yj: map<int, nat>, p: Tile, q: Tile,
                    x1: nat, y1: nat, x2: nat, y2: nat)
    requires Spans(xs, xi, p.0, q.0) && Spans(ys, yj, p.1, q.1)
    requires x1 == xi[p.0] && y1 == yj[p.1] && x2 == xi[q.0] && y2 == yj[q.1]
    ensures FullArea(xs, ys, Min(y1, y2), Max(y1, y2) + 1, Min(x1, x2), Max(x1, x2) + 1) == Area(p, q)
  {
    var w := xs[Max(x1, x2) + 1] - xs[Min(x1, x2)];
    var h := ys[Max(y1, y2) + 1] - ys[Min(y1, y2)];
    assert w == Abs(p.0 - q.0) + 1 && h == Abs(p.1 - q.1) + 1;
  }

  /** The allowed area of the block spanned by the compressed cells of `p`
      and `q` equals its full area exactly when the rectangle fits. */
  lemma BlockFits(G: seq<seq<bool>>, xs: seq<int>, ys: seq<int>, xi: map<int, nat>, yj: map<int, nat>,
                  p: Tile, q: Tile, minx: nat, maxx: nat, miny: nat, maxy: nat)
    requires Fitted(G, xs, ys) && Increasing(xs) && Increasing(ys)
    requires p.0 in xi && q.0 in xi && p.1 in yj && q.1 in yj
    requires minx == Min(xi[p.0], xi[q.0]) && maxx == Max(xi[p.0], xi[q.0]) && maxx + 1 < |xs|
    requires miny == Min(yj[p.1], yj[q.1]) && maxy == Max(yj[p.1], yj[q.1]) && maxy + 1 < |ys|
    ensures BlockSum(G, xs, ys, miny, maxy + 1, minx, maxx + 1) == FullArea(xs, ys, miny, maxy + 1, minx, maxx + 1)
            <==> Fits(G, xi, yj, p, q)
  {
    BlockFull(G, xs, ys, miny, maxy + 1, minx, maxx + 1);
    FitsIff(G, xi, yj, p, q);
  }

  lemma FitsIff(G: seq<seq<bool>>, xi: map<int, nat>, yj: map<int, nat>, p: Tile, q: Tile)
    requires p.0 in xi && q.0 in xi && p.1 in yj && q.1 in yj
    requires Max(yj[p.1], yj[q.1]) < |G|
    requires forall r :: 0 <= r < |G| ==> Max(xi[p.0], xi[q.0]) < |G[r]|
    ensures Fits(G, xi, yj, p, q) <==>
      AllAllowed(G, Min(yj[p.1], yj[q.1]), Max(yj[p.1], yj[q.1]) + 1, Min(xi[p.0], xi[q.0]), Max(xi[p.0], xi[q.0]) + 1)
  {
  }

  /** The loop over the pairs `(a, b)`, `b` after `a`, of `redComp`. */
  method BestRectangle(points: seq<Tile>, redComp: seq<(nat, nat)>, ps: array2<int>, ghost G: seq<seq<bool>>,
                       xs: seq<int>, ys: seq<int>, ghost xi: map<int, nat>, ghost yj: map<int, nat>)
    returns (maxArea: int)
    requires Layout(points, xs, ys, xi, yj) && Keys(points, xi, yj) && Table(ps, G, xs, ys)
    requires |redComp| == |points|
    requires forall k :: 0 <= k < |points| ==> redComp[k] == (xi[points[k].0], yj[points[k].1])
    ensures Best(points, xi, yj, G, maxArea)
  {
    maxArea := 0;
    var n := |redComp|;
    for a := 0 to n
      invariant FitsBefore(points, xi, yj, G, a, 0, maxArea) && FitAttained(points, xi, yj, G, maxArea)
      invariant maxArea == 0 || maxArea >= 4
    {
      maxArea := BestWith(points, redComp, ps, G, xs, ys, xi, yj, a, maxArea);
    }
  }

  /** The inner loop: pairs `(a, b)` for every `b` after `a`. */
  method BestWith(points: seq<Tile>, redComp: seq<(nat, nat)>, ps: array2<int>, ghost G: seq<seq<bool>>,
                  xs: seq<int>, ys: seq<int>, ghost xi: map<int, nat>, ghost yj: map<int, nat>, a: nat, m: int)
    returns (maxArea: int)
    requires Layout(points, xs, ys, xi, yj) && Keys(points, xi, yj) && Table(ps, G, xs, ys)
    requires |redComp| == |points| && a < |points|
    requires forall k :: 0 <= k < |points| ==> redComp[k] == (xi[points[k].0], yj[points[k].1])
    requires FitsBefore(points, xi, yj, G, a, 0, m) && FitAttained(points, xi, yj, G, m) && (m == 0 || m >= 4)
    ensures FitsBefore(points, xi, yj, G, a + 1, 0, maxArea) && FitAttained(points, xi, yj, G, maxArea)
    ensures maxArea == 0 || maxArea >= 4
  {
    maxArea := m;
    var n := |redComp|;
    for b := a + 1 to n
      invariant FitsBefore(points, xi, yj, G, a, b, maxArea) && FitAttained(points, xi, yj, G, maxArea)
      invariant maxArea == 0 || maxArea >= 4
    {
      ghost var before := maxArea;
      var fits, allowedArea := PairArea(points, redComp, ps, G, xs, ys, xi, yj, a, b);
      if fits && allowedArea > maxArea {
        maxArea := allowedArea;
      }
      PairStep(points, xi, yj, G, a, b, before, maxArea);
    }
  }

  /** The body of the inner loop for the pair `(a, b)`: pairs sharing a
      compressed column or row are skipped, otherwise the rectangle fits
      exactly when its allowed area is its full area, and that area is the
      rectangle's area in tiles. */
  method PairArea(points: seq<Tile>, redComp: seq<(nat, nat)>, ps: array2<int>, ghost G: seq<seq<bool>>,
                  xs: seq<int>, ys: seq<int>, ghost xi: map<int, nat>, ghost yj: map<int, nat>, a: nat, b: nat)
    returns (fits: bool, allowedArea: int)
    requires Layout(points, xs, ys, xi, yj) && Keys(points, xi, yj) && Table(ps, G, xs, ys)
    requires |redComp| == |points| && a < |points| && b < |points|
    requires redComp[a] == (xi[points[a].0], yj[points[a].1]) && redComp[b] == (xi[points[b].0], yj[points[b].1])
    ensures fits <==> Opposite(points[a], points[b]) && Fits(G, xi, yj, points[a], points[b])
    ensures fits ==> allowedArea == Area(points[a], points[b])
  {
    var (x1, y1) := redComp[a];
    var (x2, y2) := redComp[b];
    PairSpan(points, xs, ys, xi, yj, a, b);
    if x1 == x2 || y1 == y2 {
      return false, 0;
    }
    fits, allowedArea := BlockArea(ps, G, xs, ys, xi, yj, points[a], points[b], Min(x1, x2), Min(y1, y2), Max(x1, x2), Max(y1, y2));
  }

  /** The rest of the body: the block spanned by the compressed cells of `p`
      and `q` fits exactly when its allowed area is its full area. */
  method BlockArea(ps: array2<int>, ghost G: seq<seq<bool>>, xs: seq<int>, ys: seq<int>,
                   ghost xi: map<int, nat>, ghost yj: map<int, nat>, ghost p: Tile, ghost q: Tile,
                   minx: nat, miny: nat, maxx: nat, maxy: nat)
    returns (fits: bool, allowedArea: int)
    requires Table(ps, G, xs, ys) && Increasing(xs) && Increasing(ys)
    requires Spans(xs, xi, p.0, q.0) && Spans(ys, yj, p.1, q.1)
    requires minx == Min(xi[p.0], xi[q.0]) && maxx == Max(xi[p.0], xi[q.0])
    requires miny == Min(yj[p.1], yj[q.1]) && maxy == Max(yj[p.1], yj[q.1])
    ensures fits <==> Fits(G, xi, yj, p, q)
    ensures fits ==> allowedArea == Area(p, q)
  {
    SpanProduct(xs, ys, xi, yj, p, q, xi[p.0], yj[p.1], xi[q.0], yj[q.1]);
    var totalCells := FullArea(xs, ys, miny, maxy + 1, minx, maxx + 1);
    allowedArea := RectAreaAllowed(ps, G, xs, ys, minx, miny, maxx, maxy);
    BlockFits(G, xs, ys, xi, yj, p, q, minx, maxx, miny, maxy);
    fits := allowedArea == totalCells;
  }

  /** One pair of the inner loop keeps the loop's invariant. */
  lemma PairStep(points: seq<Tile>, xi: map<int, nat>, yj: map<int, nat>, G: seq<seq<bool>>, a: nat, b: nat, m: int, m': int)
    requires Keys(points, xi, yj) && a < b < |points|
    requires FitsBefore(points, xi, yj, G, a, b, m) && FitAttained(points, xi, yj, G, m) && (m == 0 || m >= 4)
    requires m' == if Opposite(points[a], points[b]) && Fits(G, xi, yj, points[a], points[b]) &&
                      Area(points[a], points[b]) > m then Area(points[a], points[b]) else m
    ensures FitsBefore(points, xi, yj, G, a, b + 1, m') && FitAttained(points, xi, yj, G, m') && (m' == 0 || m' >= 4)
  {
    if Opposite(points[a], points[b]) {
      AreaAtLeastFour(points[a], points[b]);
    }
  }

  /** The answer for the tiles compressed as `xs`, `ys`, `xi`, `yj`: the best
      area on the grid of the outline and its interior. */
  ghost predicate Answer(points: seq<Tile>, xs: seq<int>, ys: seq<int>, xi: map<int, nat>, yj: map<int, nat>, m: int) {
    Layout(points, xs, ys, xi, yj) && Keys(points, xi, yj) && |xs| >= 2 && |ys| >= 2 &&
    Best(points, xi, yj, FilledGrid(OutlineGrid(points, xi, yj, |ys| - 1, |xs| - 1), |ys| - 1, |xs| - 1), m)
  }

  /** `max_allowed_rectangle_area`: 0 without tiles, the error of
      `build_allowed` when two consecutive tiles share neither a column nor a
      row, and otherwise the largest area of a rectangle with red corners
      whose compressed cells all lie on or inside the outline. */
  method MaxAllowedRectangleArea(points: seq<Tile>) returns (result: Result<int>)
    ensures points == [] ==> result == Ok(0)
    ensures result.Err? <==> points != [] && exists k {:trigger Succ(points, k)} :: 0 <= k < |points| && !Aligned(points[k], Succ(points, k))
    ensures points != [] && result.Ok? ==> exists xs, ys, xi, yj :: Answer(points, xs, ys, xi, yj, result.value)
  {
    if points == [] {
      return Ok(0);
    }
    var xs, ys, xi, yj, cols, rows := CompressCoords(points);
    var allowed, redComp, aligned := BuildAllowed(points, xs, ys, xi, yj, cols, rows);
    if !aligned {
      return Err("Adjacent points not aligned");
    }
    var maxArea := SearchFilled(points, xs, ys, xi, yj, allowed, redComp);
    return Ok(maxArea);
  }

  /** The rest of `max_allowed_rectangle_area` once the outline is drawn:
      fill its interior, build the prefix table and search the pairs. */
  method SearchFilled(points: seq<Tile>, xs: seq<int>, ys: seq<int>, xi: map<int, nat>, yj: map<int, nat>,
                      allowed: array2<bool>, redComp: seq<(nat, nat)>)
    returns (maxArea: int)
    requires Layout(points, xs, ys, xi, yj) && Keys(points, xi, yj) && |xs| >= 2 && |ys| >= 2
    requires allowed.Length0 == |ys| - 1 && allowed.Length1 == |xs| - 1
    requires |redComp| == |points|
    requires forall k :: 0 <= k < |points| ==> redComp[k] == (xi[points[k].0], yj[points[k].1])
    requires forall r, c :: 0 <= r < |ys| - 1 && 0 <= c < |xs| - 1 ==> allowed[r, c] == OnOutline(points, xi, yj, r, c)
    modifies allowed
    ensures Answer(points, xs, ys, xi, yj, maxArea)
  {
    ghost var g := OutlineGrid(points, xi, yj, |ys| - 1, |xs| - 1);
    assert Holds(allowed, g);
    FillInterior(allowed, g, |ys| - 1, |xs| - 1);
    ghost var G := FilledGrid(g, |ys| - 1, |xs| - 1);
    assert Holds(allowed, G);
    var ps := BuildWeightedPrefix(allowed, G, xs, ys, |xs| - 1, |ys| - 1);
    maxArea := BestRectangle(points, redComp, ps, G, xs, ys, xi, yj);
  }
}
