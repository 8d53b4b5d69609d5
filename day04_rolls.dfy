/** Day 4, part 1 (2025/Day4/puzzle7.py): a grid of '@' (paper rolls) and
    other characters, with rows of possibly different lengths. A roll is
    accessible when fewer than four of its eight neighbours hold a roll; the
    answer is the number of accessible rolls. */
module RollGrid {

  /** The eight neighbour offsets, in the order the scan visits them. */
  const Dirs: seq<(int, int)> := [(-1, -1), (-1, 0), (-1, 1), (0, -1), (0, 1), (1, -1), (1, 0), (1, 1)]

  /** A roll at `(r, c)`. Positions outside the grid, including those past the
      end of a shorter row, hold no roll. */
  predicate IsRoll(g: seq<string>, r: int, c: int) {
    0 <= r < |g| && 0 <= c < |g[r]| && g[r][c] == '@'
  }

  /** Rolls among the first `d` neighbour offsets of `(r, c)`. */
  function CountDirs(g: seq<string>, r: int, c: int, d: nat): (n: nat)
    requires d <= |Dirs|
    ensures n <= d
  {
    if d == 0 then 0
    else CountDirs(g, r, c, d - 1) + if IsRoll(g, r + Dirs[d - 1].0, c + Dirs[d - 1].1) then 1 else 0
  }

  /** The number of rolls among the eight neighbours of `(r, c)`. */
  function Neighbours(g: seq<string>, r: int, c: int): (n: nat)
    ensures n <= 8
  {
    CountDirs(g, r, c, |Dirs|)
  }

  /** Reference definition: the rolls at distance one in both directions. */
  ghost function NeighbourCells(g: seq<string>, r: int, c: int): set<(int, int)>
  {
    set i, j | r - 1 <= i <= r + 1 && c - 1 <= j <= c + 1 && (i, j) != (r, c) && IsRoll(g, i, j) :: (i, j)
  }

  /** The rolls among the first `d` neighbour offsets. */
  ghost function DirCells(g: seq<string>, r: int, c: int, d: nat): set<(int, int)>
    requires d <= |Dirs|
  {
    set k | 0 <= k < d && IsRoll(g, r + Dirs[k].0, c + Dirs[k].1) :: (r + Dirs[k].0, c + Dirs[k].1)
  }

  /** The cells of the first `d` offsets are those of the first `d - 1` plus
      the `d`-th one, which none of the earlier offsets reaches. */
  lemma DirCellsStep(g: seq<string>, r: int, c: int, d: nat)
    requires 0 < d <= |Dirs|
    ensures DirCells(g, r, c, d) == DirCells(g, r, c, d - 1) +
      if IsRoll(g, r + Dirs[d - 1].0, c + Dirs[d - 1].1) then {(r + Dirs[d - 1].0, c + Dirs[d - 1].1)} else {}
  {
    var x := (r + Dirs[d - 1].0, c + Dirs[d - 1].1);
    var before := DirCells(g, r, c, d - 1);
    var after := DirCells(g, r, c, d);
    forall y | y in after
      ensures y in before || (y == x && IsRoll(g, x.0, x.1))
    {
      var k :| 0 <= k < d && IsRoll(g, r + Dirs[k].0, c + Dirs[k].1) && y == (r + Dirs[k].0, c + Dirs[k].1);
      if k < d - 1 {
        assert y in before;
      }
    }
    if IsRoll(g, x.0, x.1) {
      assert x in after;
    }
  }

  /** The eight offsets are distinct, so the `d`-th reaches a cell no earlier one does. */
  lemma DirFresh(g: seq<string>, r: int, c: int, d: nat)
    requires 0 < d <= |Dirs|
    ensures (r + Dirs[d - 1].0, c + Dirs[d - 1].1) !in DirCells(g, r, c, d - 1)
  {
    forall k | 0 <= k < d - 1
      ensures Dirs[k] != Dirs[d - 1]
    {
    }
  }

  lemma {:induction false} DirCellsCount(g: seq<string>, r: int, c: int, d: nat)
    requires d <= |Dirs|
    ensures |DirCells(g, r, c, d)| == CountDirs(g, r, c, d)
  {
    if d > 0 {
      DirCellsCount(g, r, c, d - 1);
      DirCellsStep(g, r, c, d);
      DirFresh(g, r, c, d);
    }
  }

  /** Every neighbouring roll is reached by one of the eight offsets. */
  lemma NeighbourIsDir(g: seq<string>, r: int, c: int, x: (int, int))
    requires x in NeighbourCells(g, r, c)
    ensures x in DirCells(g, r, c, |Dirs|)
  {
    var k := if x.0 == r - 1 then x.1 - c + 1 else if x.0 == r then (if x.1 < c then 3 else 4) else x.1 - c + 6;
    assert x == (r + Dirs[k].0, c + Dirs[k].1);
  }

  /** Every offset reaches a neighbouring position. */
  lemma DirIsNeighbour(g: seq<string>, r: int, c: int, x: (int, int))
    requires x in DirCells(g, r, c, |Dirs|)
    ensures x in NeighbourCells(g, r, c)
  {
    var k :| 0 <= k < |Dirs| && IsRoll(g, r + Dirs[k].0, c + Dirs[k].1) && x == (r + Dirs[k].0, c + Dirs[k].1);
    assert -1 <= Dirs[k].0 <= 1 && -1 <= Dirs[k].1 <= 1 && Dirs[k] != (0, 0);
  }

  /** The eight offsets name exactly the neighbouring positions, so the scan
      counts the rolls around `(r, c)`. */
  lemma NeighboursAreCells(g: seq<string>, r: int, c: int)
    ensures Neighbours(g, r, c) == |NeighbourCells(g, r, c)|
  {
    DirCellsCount(g, r, c, |Dirs|);
    forall x | x in NeighbourCells(g, r, c)
      ensures x in DirCells(g, r, c, |Dirs|)
    {
      NeighbourIsDir(g, r, c, x);
    }
    forall x | x in DirCells(g, r, c, |Dirs|)
      ensures x in NeighbourCells(g, r, c)
    {
      DirIsNeighbour(g, r, c, x);
    }
    assert DirCells(g, r, c, |Dirs|) == NeighbourCells(g, r, c);
  }

  /** An accessible roll: fewer than four rolls around it. */
  predicate Accessible(g: seq<string>, r: int, c: int) {
    IsRoll(g, r, c) && Neighbours(g, r, c) < 4
  }

  ghost function Rolls(g: seq<string>): set<(int, int)>
  {
    set i, j | 0 <= i < |g| && 0 <= j < |g[i]| && g[i][j] == '@' :: (i, j)
  }

  ghost function AccessibleCells(g: seq<string>): set<(int, int)>
  {
    set i, j | 0 <= i < |g| && 0 <= j < |g[i]| && Accessible(g, i, j) :: (i, j)
  }

  /** Accessible cells visited before `(r, c)` in row-major order. */
  ghost function AccessibleBefore(g: seq<string>, r: int, c: int): set<(int, int)>
  {
    set i, j | 0 <= i < |g| && 0 <= j < |g[i]| && (i < r || (i == r && j < c)) && Accessible(g, i, j) :: (i, j)
  }

  lemma AccessibleAreRolls(g: seq<string>)
    ensures AccessibleCells(g) <= Rolls(g)
    ensures |AccessibleCells(g)| <= |Rolls(g)|
  {
    assert AccessibleCells(g) <= Rolls(g);
    SubsetCard(AccessibleCells(g), Rolls(g));
  }

  lemma {:induction false} SubsetCard<T>(a: set<T>, b: set<T>)
    requires a <= b
    ensures |a| <= |b|
    decreases |a|
  {
    if a != {} {
      var x :| x in a;
      SubsetCard(a - {x}, b - {x});
    }
  }

  lemma BeforeStart(g: seq<string>)
    ensures AccessibleBefore(g, 0, 0) == {}
  {
  }

  lemma BeforeStep(g: seq<string>, r: nat, c: nat)
    requires r < |g| && c < |g[r]|
    ensures Accessible(g, r, c) ==> AccessibleBefore(g, r, c + 1) == AccessibleBefore(g, r, c) + {(r, c)}
    ensures !Accessible(g, r, c) ==> AccessibleBefore(g, r, c + 1) == AccessibleBefore(g, r, c)
    ensures (r, c) !in AccessibleBefore(g, r, c)
  {
  }

  lemma BeforeNextRow(g: seq<string>, r: nat)
    requires r < |g|
    ensures AccessibleBefore(g, r + 1, 0) == AccessibleBefore(g, r, |g[r]|)
  {
  }

  lemma BeforeEnd(g: seq<string>)
    ensures AccessibleBefore(g, |g|, 0) == AccessibleCells(g)
  {
  }

  /** The neighbour scan with its early exit: the count of rolls around
      `(r, c)`, stopped at four. */
  method CappedNeighbours(g: seq<string>, r: int, c: int) returns (adj: nat)
    ensures adj == if Neighbours(g, r, c) < 4 then Neighbours(g, r, c) else 4
  {
    adj := 0;
    var d := 0;
    while d < |Dirs|
      invariant d <= |Dirs| && adj == CountDirs(g, r, c, d) && adj < 4
    {
      var (dr, dc) := Dirs[d];
      var nr, nc := r + dr, c + dc;
      if 0 <= nr < |g| && 0 <= nc < |g[nr]| && g[nr][nc] == '@' {
        adj := adj + 1;
        if adj >= 4 {
          CountDirsMono(g, r, c, d + 1, |Dirs|);
          return;
        }
      }
      d := d + 1;
    }
  }

  lemma {:induction false} CountDirsMono(g: seq<string>, r: int, c: int, d: nat, e: nat)
    requires d <= e <= |Dirs|
    ensures CountDirs(g, r, c, d) <= CountDirs(g, r, c, e)
    decreases e - d
  {
    if d < e {
      CountDirsMono(g, r, c, d, e - 1);
    }
  }

  /** `count_accessible`: the number of accessible rolls; the grid is only read. */
  method CountAccessible(grid: seq<string>) returns (count: nat)
    ensures count == |AccessibleCells(grid)|
    ensures count <= |Rolls(grid)|
  {
    var h := |grid|;
    AccessibleAreRolls(grid);
    if h == 0 {
      assert AccessibleCells(grid) == {};
      return 0;
    }
    count := 0;
    BeforeStart(grid);
    for r := 0 to h
      invariant count == |AccessibleBefore(grid, r, 0)|
    {
      var row := grid[r];
      for c := 0 to |row|
        invariant count == |AccessibleBefore(grid, r, c)|
      {
        BeforeStep(grid, r, c);
        if row[c] != '@' {
          continue;
        }
        var adj := CappedNeighbours(grid, r, c);
        if adj < 4 {
          count := count + 1;
        }
      }
      BeforeNextRow(grid, r);
    }
    BeforeEnd(grid);
  }
}

/** Day 4, part 2 (2025/Day4/puzzle8.py): rounds of removal. Each round finds
    every accessible roll of the grid as it stands, then replaces all of them
    with '.'; rounds repeat until none is accessible. The answer is the total
    number of rolls removed. */
module RollRemoval {
  import opened Strings
  import opened RollGrid

  /** The grid with the given cells replaced by '.'. */
  ghost function Cleared(g: seq<string>, cells: set<(int, int)>): (h: seq<string>)
    ensures |h| == |g| && forall i :: 0 <= i < |g| ==> |h[i]| == |g[i]|
  {
    seq(|g|, i requires 0 <= i < |g| => seq(|g[i]|, j requires 0 <= j < |g[i]| => if (i, j) in cells then '.' else g[i][j]))
  }

  /** One round: every roll accessible at the start of the round goes. */
  ghost function Round(g: seq<string>): seq<string>
  {
    Cleared(g, AccessibleCells(g))
  }

  /** A round removes exactly the accessible rolls and changes nothing else:
      only '@' cells change, and only to '.'. */
  lemma RoundRemoves(g: seq<string>)
    ensures Rolls(Round(g)) == Rolls(g) - AccessibleCells(g)
    ensures forall i, j :: 0 <= i < |g| && 0 <= j < |g[i]| && Round(g)[i][j] != g[i][j] ==>
      g[i][j] == '@' && Round(g)[i][j] == '.'
  {
    var h := Round(g);
    forall x | x in Rolls(h)
      ensures x in Rolls(g) - AccessibleCells(g)
    {
      assert h[x.0][x.1] == '@';
    }
    forall x | x in Rolls(g) - AccessibleCells(g)
      ensures x in Rolls(h)
    {
      assert h[x.0][x.1] == '@';
    }
  }

  /** A round with an accessible roll leaves fewer rolls, so rounds cannot go on forever. */
  lemma RoundShrinks(g: seq<string>)
    requires AccessibleCells(g) != {}
    ensures |Rolls(Round(g))| < |Rolls(g)|
    ensures |Rolls(Round(g))| == |Rolls(g)| - |AccessibleCells(g)|
  {
    RoundRemoves(g);
    AccessibleAreRolls(g);
  }

  /** The grid once no roll is accessible. */
  ghost function Settled(g: seq<string>): seq<string>
    decreases |Rolls(g)|
  {
    if AccessibleCells(g) == {} then g
    else
      RoundShrinks(g);
      Settled(Round(g))
  }

  /** The rolls removed over all rounds, round by round. */
  ghost function RemovedCount(g: seq<string>): nat
    decreases |Rolls(g)|
  {
    if AccessibleCells(g) == {} then 0
    else
      RoundShrinks(g);
      |AccessibleCells(g)| + RemovedCount(Round(g))
  }

  /** Rounds remove exactly the rolls that are gone at the end, and at the end
      every roll left has at least four rolls around it. */
  lemma {:induction false} RemovedIsDifference(g: seq<string>)
    ensures |Rolls(Settled(g))| <= |Rolls(g)|
    ensures RemovedCount(g) == |Rolls(g)| - |Rolls(Settled(g))|
    ensures AccessibleCells(Settled(g)) == {}
    decreases |Rolls(g)|
  {
    if AccessibleCells(g) != {} {
      RoundShrinks(g);
      RemovedIsDifference(Round(g));
    }
  }

  /** A settled grid has no accessible roll: every roll has four or more rolls around it. */
  lemma SettledIsStable(g: seq<string>, r: int, c: int)
    requires IsRoll(Settled(g), r, c)
    ensures Neighbours(Settled(g), r, c) >= 4
  {
    RemovedIsDifference(g);
    assert (r, c) !in AccessibleCells(Settled(g));
  }

  /** The scan of one round: the accessible rolls of the grid as it stands at
      the start of the round, in row-major order and each once. */
  method RoundScan(grid: array<string>) returns (toRemove: seq<(int, int)>)
    ensures (set x | x in toRemove) == AccessibleCells(grid[..])
    ensures |toRemove| == |AccessibleCells(grid[..])|
  {
    var g := grid[..];
    toRemove := [];
    BeforeStart(g);
    for r := 0 to |g|
      invariant (set x | x in toRemove) == AccessibleBefore(g, r, 0)
      invariant |toRemove| == |AccessibleBefore(g, r, 0)|
    {
      var row := g[r];
      for c := 0 to |row|
        invariant (set x | x in toRemove) == AccessibleBefore(g, r, c)
        invariant |toRemove| == |AccessibleBefore(g, r, c)|
      {
        BeforeStep(g, r, c);
        if row[c] != '@' {
          continue;
        }
        var adj := CappedNeighbours(g, r, c);
        if adj < 4 {
          toRemove := toRemove + [(r, c)];
        }
      }
      BeforeNextRow(g, r);
    }
    BeforeEnd(g);
  }

  /** `grid[r][c] = '.'` for one cell of the grid. */
  function ClearOne(g: seq<string>, x: (int, int)): (h: seq<string>)
    ensures |h| == |g| && forall i :: 0 <= i < |g| ==> |h[i]| == |g[i]|
  {
    if 0 <= x.0 < |g| && 0 <= x.1 < |g[x.0]| then g[x.0 := g[x.0][x.1 := '.']] else g
  }

  /** The cells cleared one after the other, in list order. */
  function ClearAll(g: seq<string>, cells: seq<(int, int)>): (h: seq<string>)
    ensures |h| == |g| && forall i :: 0 <= i < |g| ==> |h[i]| == |g[i]|
  {
    if cells == [] then g else ClearOne(ClearAll(g, cells[..|cells| - 1]), cells[|cells| - 1])
  }

  lemma ClearOneCleared(g: seq<string>, cells: set<(int, int)>, x: (int, int))
    ensures ClearOne(Cleared(g, cells), x) == Cleared(g, cells + {x})
  {
    var a := ClearOne(Cleared(g, cells), x);
    var b := Cleared(g, cells + {x});
    forall i | 0 <= i < |g|
      ensures a[i] == b[i]
    {
      assert forall j :: 0 <= j < |g[i]| ==> a[i][j] == b[i][j];
    }
  }

  /** Clearing cells one by one, in any order, clears exactly the set of them. */
  lemma {:induction false} ClearAllIsCleared(g: seq<string>, cells: seq<(int, int)>)
    ensures ClearAll(g, cells) == Cleared(g, set x | x in cells)
  {
    if cells == [] {
      assert (set x | x in cells) == {};
      var h := Cleared(g, {});
      forall i | 0 <= i < |g|
        ensures h[i] == g[i]
      {
        assert forall j :: 0 <= j < |g[i]| ==> h[i][j] == g[i][j];
      }
    } else {
      var init := cells[..|cells| - 1];
      var last := cells[|cells| - 1];
      ClearAllIsCleared(g, init);
      ClearOneCleared(g, (set x | x in init), last);
      assert (set x | x in cells) == (set x | x in init) + {last} by {
        LastSplit(cells);
      }
    }
  }

  /** The write-back of one round: each listed cell of the grid becomes '.'.
      A cell outside the grid would fail in the program; every cell the scan
      lists lies inside it. */
  method ClearCells(grid: array<string>, cells: seq<(int, int)>)
    requires forall x :: x in cells ==> 0 <= x.0 < grid.Length && 0 <= x.1 < |grid[x.0]|
    modifies grid
    ensures grid[..] == ClearAll(old(grid[..]), cells)
  {
    ghost var g := grid[..];
    for k := 0 to |cells|
      invariant grid[..] == ClearAll(g, cells[..k])
    {
      var (r, c) := cells[k];
      assert cells[..k + 1][..k] == cells[..k];
      grid[r] := grid[r][c := '.'];
    }
    assert cells[..|cells|] == cells;
  }

  /** `count_removable`: rounds until no roll is accessible; the grid ends
      settled and the total is the number of rolls removed. */
  method CountRemovable(grid: array<string>) returns (total: nat)
    modifies grid
    ensures grid[..] == Settled(old(grid[..]))
    ensures total == RemovedCount(old(grid[..]))
    ensures total == |Rolls(old(grid[..]))| - |Rolls(grid[..])|
    ensures AccessibleCells(grid[..]) == {}
  {
    RemovedIsDifference(grid[..]);
    total := 0;
    if grid.Length == 0 {
      assert AccessibleCells(grid[..]) == {};
      return;
    }
    while true
      invariant Settled(grid[..]) == Settled(old(grid[..]))
      invariant total + RemovedCount(grid[..]) == RemovedCount(old(grid[..]))
      decreases |Rolls(grid[..])|
    {
      var toRemove := RoundScan(grid);
      if |toRemove| == 0 {
        assert AccessibleCells(grid[..]) == {};
        break;
      }
      ghost var g := grid[..];
      assert AccessibleCells(g) != {};
      forall x | x in toRemove
        ensures 0 <= x.0 < grid.Length && 0 <= x.1 < |grid[x.0]|
      {
        assert x in (set y | y in toRemove);
        assert x in AccessibleCells(g);
      }
      ClearCells(grid, toRemove);
      assert grid[..] == Round(g) by {
        ClearAllIsCleared(g, toRemove);
      }
      RoundShrinks(g);
      total := total + |toRemove|;
    }
  }
}
