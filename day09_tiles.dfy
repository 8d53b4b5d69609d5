/** Day 9, part 1 (2025/Day9/puzzle17.py): red tiles at integer positions; the
    answer is the largest rectangle, counted in tiles, that has two red tiles
    at opposite corners. */
module RedTiles {
  import opened Maybe
  import opened Strings
  import opened Seqs

  type Tile = (int, int)

  /** One input line: after stripping, a non-blank line of exactly two
      comma-separated integers; any other line is skipped. */
  function ParseTile(raw: string): (r: Option<Tile>)
    ensures AllSpace(raw) ==> r.None?
    ensures r.Some? <==>
      (!AllSpace(raw) && |Fields(raw)| == 2 && ParseInt(Fields(raw)[0]).Some? && ParseInt(Fields(raw)[1]).Some?)
    ensures r.Some? ==> ParseInt(Fields(raw)[0]) == Some(r.value.0) && ParseInt(Fields(raw)[1]) == Some(r.value.1)
  {
    var ln := Strip(raw);
    if ln == [] then None
    else
      var parts := Split(ln, ',');
      if |parts| != 2 then None
      else match (ParseInt(parts[0]), ParseInt(parts[1]))
        case (Some(x), Some(y)) => Some((x, y))
        case _ => None
  }

  /** The comma-separated fields of a stripped line. */
  function Fields(raw: string): seq<string> {
    Split(Strip(raw), ',')
  }

  /** `x,y` written in decimal reads back as the tile `(x, y)`. */
  lemma ParseTileStr(x: nat, y: nat)
    ensures ParseTile(Str(x) + [','] + Str(y)) == Some((x, y))
  {
    var line := Str(x) + [','] + Str(y);
    assert IsDigit(line[0]) && IsDigit(line[|line| - 1]);
    StripNoSpace(line);
    assert Join([Str(x), Str(y)], ',') == line;
    assert ',' !in Str(x) && ',' !in Str(y) by {
      assert forall i :: 0 <= i < |Str(x)| ==> IsDigit(Str(x)[i]);
      assert forall i :: 0 <= i < |Str(y)| ==> IsDigit(Str(y)[i]);
    }
    SplitJoin([Str(x), Str(y)], ',');
    ParseNatStr(x);
    ParseNatStr(y);
  }

  /** The tiles of the lines that parse, in input order. */
  function ReadTiles(lines: seq<string>): (tiles: seq<Tile>)
    ensures |tiles| <= |lines|
  {
    FilterMap(lines, ParseTile)
  }

  function Abs(x: int): nat {
    if x < 0 then -x else x
  }

  /** Two tiles span a rectangle only when they differ in both coordinates. */
  predicate Opposite(p: Tile, q: Tile) {
    p.0 != q.0 && p.1 != q.1
  }

  /** The number of tiles in the rectangle with corners `p` and `q`. */
  function Area(p: Tile, q: Tile): int {
    (Abs(p.0 - q.0) + 1) * (Abs(p.1 - q.1) + 1)
  }

  /** A rectangle with opposite corners is at least 2 by 2 tiles. */
  lemma AreaAtLeastFour(p: Tile, q: Tile)
    requires Opposite(p, q)
    ensures Area(p, q) >= 4
  {
    var w, h := Abs(p.0 - q.0) + 1, Abs(p.1 - q.1) + 1;
    assert w >= 2 && h >= 2;
    assert w * h >= 2 * h >= 4;
  }

  /** `m` is at least the area of every rectangle with opposite corners among
      the pairs `(i, j)`, `i < j`, that come before `(bi, bj)` in loop order. */
  ghost predicate CoversBefore(tiles: seq<Tile>, bi: nat, bj: nat, m: int) {
    forall i, j :: 0 <= i < j < |tiles| && (i < bi || (i == bi && j < bj)) && Opposite(tiles[i], tiles[j]) ==>
      Area(tiles[i], tiles[j]) <= m
  }

  /** `m` is 0 or the area of some rectangle with opposite corners. */
  ghost predicate Attained(tiles: seq<Tile>, m: int) {
    m == 0 || exists i, j :: 0 <= i < j < |tiles| && Opposite(tiles[i], tiles[j]) && Area(tiles[i], tiles[j]) == m
  }

  /** `max_rectangle_area`: the largest rectangle over all pairs of tiles that
      differ in both coordinates, and 0 when there is none. */
  method MaxRectangleArea(tiles: seq<Tile>) returns (maxArea: int)
    ensures forall i, j :: 0 <= i < j < |tiles| && Opposite(tiles[i], tiles[j]) ==>
      Area(tiles[i], tiles[j]) <= maxArea
    ensures Attained(tiles, maxArea)
    ensures maxArea == 0 <==> forall i, j :: 0 <= i < j < |tiles| ==> !Opposite(tiles[i], tiles[j])
    ensures maxArea == 0 || maxArea >= 4
  {
    var n := |tiles|;
    if n < 2 {
      return 0;
    }
    maxArea := 0;
    for i := 0 to n
      invariant CoversBefore(tiles, i, 0, maxArea) && Attained(tiles, maxArea)
      invariant maxArea == 0 || maxArea >= 4
    {
      maxArea := MaxWith(tiles, i, maxArea);
    }
    forall i, j | 0 <= i < j < n && Opposite(tiles[i], tiles[j])
      ensures maxArea > 0
    {
      AreaAtLeastFour(tiles[i], tiles[j]);
    }
  }

  /** The inner loop of `max_rectangle_area`: tile `i` against every later
      tile. */
  method MaxWith(tiles: seq<Tile>, i: nat, m: int) returns (maxArea: int)
    requires i < |tiles| && CoversBefore(tiles, i, 0, m) && Attained(tiles, m) && (m == 0 || m >= 4)
    ensures CoversBefore(tiles, i + 1, 0, maxArea) && Attained(tiles, maxArea)
    ensures maxArea == 0 || maxArea >= 4
  {
    maxArea := m;
    var n := |tiles|;
    var (x1, y1) := tiles[i];
    for j := i + 1 to n
      invariant CoversBefore(tiles, i, j, maxArea) && Attained(tiles, maxArea)
      invariant maxArea == 0 || maxArea >= 4
    {
      ghost var before := maxArea;
      var (x2, y2) := tiles[j];
      if x1 != x2 && y1 != y2 {
        var area := Area(tiles[i], tiles[j]);
        if area > maxArea {
          maxArea := area;
        }
      }
      MaxStep(tiles, i, j, before, maxArea);
    }
  }

  /** One pair of the inner loop keeps its invariant. */
  lemma MaxStep(tiles: seq<Tile>, i: nat, j: nat, m: int, m': int)
    requires i < j < |tiles| && CoversBefore(tiles, i, j, m) && Attained(tiles, m) && (m == 0 || m >= 4)
    requires m' == if Opposite(tiles[i], tiles[j]) && Area(tiles[i], tiles[j]) > m then Area(tiles[i], tiles[j]) else m
    ensures CoversBefore(tiles, i, j + 1, m') && Attained(tiles, m') && (m' == 0 || m' >= 4)
  {
    if Opposite(tiles[i], tiles[j]) {
      AreaAtLeastFour(tiles[i], tiles[j]);
    }
  }
}
