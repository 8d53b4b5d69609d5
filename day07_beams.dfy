/** Day 7 (2025/Day7/puzzle13.py and puzzle14.py): a beam enters a grid at the
    cell marked 'S' and travels down one row at a time; a splitter '^' stops it
    and sends one beam to each side on the same row. The grid is the input
    padded to a rectangle, as `main` does before calling the solvers. */
module BeamStart {
  import opened Maybe
  import opened Strings

  /** Every row as wide as the first, which `main`'s padding guarantees. */
  predicate Rectangular(grid: seq<string>) {
    forall r :: 0 <= r < |grid| ==> |grid[r]| == |grid[0]|
  }

  /** The first row at or after `r` holding an 'S', with that row's first 'S'. */
  function StartFrom(grid: seq<string>, r: nat): (s: Option<(nat, nat)>)
    decreases |grid| - r
    ensures s.Some? ==> r <= s.value.0 < |grid| && Find(grid[s.value.0], 'S') == Some(s.value.1)
    ensures s.Some? ==> forall i :: r <= i < s.value.0 ==> 'S' !in grid[i]
    ensures s.None? <==> forall i :: r <= i < |grid| ==> 'S' !in grid[i]
  {
    if r >= |grid| then None
    else match Find(grid[r], 'S')
      case Some(c) => Some((r, c))
      case None => StartFrom(grid, r + 1)
  }

  /** The start cell: the first 'S' of the first row that has one. */
  function Start(grid: seq<string>): (s: Option<(nat, nat)>)
    ensures s.Some? ==> s.value.0 < |grid| && s.value.1 < |grid[s.value.0]|
    ensures s.Some? ==> grid[s.value.0][s.value.1] == 'S' && 'S' !in grid[s.value.0][..s.value.1]
    ensures s.Some? ==> forall i :: 0 <= i < s.value.0 ==> 'S' !in grid[i]
    ensures s.None? <==> forall i :: 0 <= i < |grid| ==> 'S' !in grid[i]
  {
    StartFrom(grid, 0)
  }

  /** `find_start`: scans the rows in order and returns the first `row.find('S')` hit. */
  method FindStart(grid: seq<string>) returns (s: Option<(nat, nat)>)
    ensures s == Start(grid)
  {
    for r := 0 to |grid|
      invariant StartFrom(grid, r) == Start(grid)
    {
      var c := Find(grid[r], 'S');
      if c.Some? {
        return Some((r, c.value));
      }
    }
    return None;
  }
}

/** Day 7, part 1 (2025/Day7/puzzle13.py): beams are a set of columns, so beams
    that meet merge; the answer is the number of (row, splitter) pairs a beam reaches. */
module BeamSplitting {
  import opened Maybe
  import opened Sums
  import opened BeamStart

  /** The splitters of `row` that some beam reaches. */
  function Hit(row: string, beams: set<int>): (hit: set<int>)
  {
    set c | c in beams && 0 <= c < |row| && row[c] == '^'
  }

  /** The beams leaving `row`: a beam on a splitter goes to both sides when those
      are on the grid, any other beam in range goes straight on, and a beam
      outside the grid is dropped. */
  function Next(row: string, beams: set<int>): (next: set<int>)
    ensures forall x :: x in next ==> 0 <= x < |row|
  {
    (set c | c in beams && 0 <= c < |row| && row[c] != '^')
    + (set c | c in beams && 1 <= c < |row| && row[c] == '^' :: c - 1)
    + (set c | c in beams && 0 <= c < |row| - 1 && row[c] == '^' :: c + 1)
  }

  /** A column carries a beam below `row` exactly when a beam goes straight down
      into it or a splitter next to it sends one sideways. */
  lemma NextMembers(row: string, beams: set<int>, x: int)
    ensures x in Next(row, beams) <==>
      && 0 <= x < |row|
      && ((x in beams && row[x] != '^')
          || (x + 1 in beams && x + 1 < |row| && row[x + 1] == '^')
          || (x - 1 in beams && x >= 1 && row[x - 1] == '^'))
  {
    var left := set c | c in beams && 1 <= c < |row| && row[c] == '^' :: c - 1;
    var right := set c | c in beams && 0 <= c < |row| - 1 && row[c] == '^' :: c + 1;
    if x + 1 in beams && 0 <= x && x + 1 < |row| && row[x + 1] == '^' {
      assert x == (x + 1) - 1;
      assert x in left;
    }
    if x - 1 in beams && 1 <= x < |row| && row[x - 1] == '^' {
      assert x == (x - 1) + 1;
      assert x in right;
    }
  }

  /** Splits from row `r` down, stopping early once no beam is left. */
  function Propagate(grid: seq<string>, r: nat, beams: set<int>): nat
    decreases |grid| - r
  {
    if r >= |grid| || beams == {} then 0
    else |Hit(grid[r], beams)| + Propagate(grid, r + 1, Next(grid[r], beams))
  }

  /** The same count without the early stop: every remaining row is visited. */
  function PropagateAll(grid: seq<string>, r: nat, beams: set<int>): nat
    decreases |grid| - r
  {
    if r >= |grid| then 0
    else |Hit(grid[r], beams)| + PropagateAll(grid, r + 1, Next(grid[r], beams))
  }

  /** Stopping when the beam set becomes empty does not change the count. */
  lemma {:induction false} EarlyStopSound(grid: seq<string>, r: nat, beams: set<int>)
    ensures Propagate(grid, r, beams) == PropagateAll(grid, r, beams)
    decreases |grid| - r
  {
    if r < |grid| {
      EarlyStopSound(grid, r + 1, Next(grid[r], beams));
      if beams == {} {
        assert Hit(grid[r], beams) == {};
        assert Next(grid[r], beams) == {};
        assert PropagateAll(grid, r, beams) == PropagateAll(grid, r + 1, {});
        NoBeamsNoSplits(grid, r + 1);
      }
    }
  }

  lemma {:induction false} NoBeamsNoSplits(grid: seq<string>, r: nat)
    ensures PropagateAll(grid, r, {}) == 0
    decreases |grid| - r
  {
    if r < |grid| {
      var e: set<int> := {};
      assert Hit(grid[r], e) == {};
      assert Next(grid[r], e) == {};
      NoBeamsNoSplits(grid, r + 1);
    }
  }

  /** The answer of `simulate`: 0 for an empty grid, a grid without 'S', or an
      'S' on the last row; otherwise the splits below the start row. */
  function Splits(grid: seq<string>): nat
  {
    match Start(grid)
    case None => 0
    case Some((sr, sc)) => if sr + 1 >= |grid| then 0 else Propagate(grid, sr + 1, {sc})
  }

  /** The splitter cells of a row. */
  function Carets(row: string): set<int>
  {
    set c | 0 <= c < |row| && row[c] == '^'
  }

  /** The number of splitter cells from row `r` down. */
  function CaretsFrom(grid: seq<string>, r: nat): nat
    decreases |grid| - r
  {
    if r >= |grid| then 0 else |Carets(grid[r])| + CaretsFrom(grid, r + 1)
  }

  /** Each splitter counts at most once per row, however many beams reach it,
      so the splits are bounded by the splitter cells below. */
  lemma {:induction false} PropagateBound(grid: seq<string>, r: nat, beams: set<int>)
    ensures Propagate(grid, r, beams) <= CaretsFrom(grid, r)
    decreases |grid| - r
  {
    if r < |grid| && beams != {} {
      SubsetCard(Hit(grid[r], beams), Carets(grid[r]));
      PropagateBound(grid, r + 1, Next(grid[r], beams));
    }
  }

  lemma SubsetCard(a: set<int>, b: set<int>)
    requires a <= b
    ensures |a| <= |b|
  {
    assert b == a + (b - a);
    assert a * (b - a) == {};
  }

  /** Adding one beam to the processed ones adds its own successors. */
  lemma NextAdd(row: string, done: set<int>, c: int)
    ensures Next(row, done + {c}) == Next(row, done)
      + (if 0 <= c < |row| && row[c] != '^' then {c} else {})
      + (if 1 <= c < |row| && row[c] == '^' then {c - 1} else {})
      + (if 0 <= c < |row| - 1 && row[c] == '^' then {c + 1} else {})
  {
  }

  lemma HitAdd(row: string, done: set<int>, c: int)
    requires c !in done
    ensures |Hit(row, done + {c})| == |Hit(row, done)| + if 0 <= c < |row| && row[c] == '^' then 1 else 0
  {
    if 0 <= c < |row| && row[c] == '^' {
      assert Hit(row, done + {c}) == Hit(row, done) + {c};
    } else {
      assert Hit(row, done + {c}) == Hit(row, done);
    }
  }

  /** The inner loop over `beams` for one row: builds `next_beams` and counts
      the splitters hit. The iteration order of the set does not matter. */
  method StepRow(row: string, beams: set<int>) returns (next: set<int>, hits: nat)
    ensures next == Next(row, beams)
    ensures hits == |Hit(row, beams)|
  {
    next, hits := {}, 0;
    var rest := beams;
    while rest != {}
      invariant rest <= beams
      invariant next == Next(row, beams - rest)
      invariant hits == |Hit(row, beams - rest)|
      decreases |rest|
    {
      HasElement(rest);
      var c :| c in rest;
      ghost var done := beams - rest;
      assert beams - (rest - {c}) == done + {c};
      NextAdd(row, done, c);
      HitAdd(row, done, c);
      if 0 <= c < |row| {
        if row[c] == '^' {
          hits := hits + 1;
          if c - 1 >= 0 {
            next := next + {c - 1};
          }
          if c + 1 < |row| {
            next := next + {c + 1};
          }
        } else {
          next := next + {c};
        }
      }
      rest := rest - {c};
    }
    assert beams - rest == beams;
  }

  /** `simulate`: follows the beam set row by row below the start. */
  method Simulate(grid: seq<string>) returns (splitCount: nat)
    requires Rectangular(grid)
    ensures splitCount == Splits(grid)
    ensures Start(grid).None? || Start(grid).value.0 + 1 >= |grid| ==> splitCount == 0
    ensures Start(grid).Some? ==> splitCount <= CaretsFrom(grid, Start(grid).value.0 + 1)
  {
    var h := |grid|;
    if h == 0 {
      return 0;
    }
    var w := |grid[0]|;
    var start := FindStart(grid);
    if start.None? {
      return 0;
    }
    var (sr, sc) := start.value;
    if sr + 1 >= h {
      return 0;
    }
    var beams: set<int> := {sc};
    splitCount := 0;
    for r := sr + 1 to h
      invariant splitCount + Propagate(grid, r, beams) == Propagate(grid, sr + 1, {sc})
      invariant forall x :: x in beams ==> 0 <= x < w
    {
      if beams == {} {
        break;
      }
      var next, hits := StepRow(grid[r], beams);
      splitCount := splitCount + hits;
      beams := next;
    }
    PropagateBound(grid, sr + 1, {sc});
  }
}

/** Day 7, part 2 (2025/Day7/puzzle14.py): every beam is a timeline, so beams
    do not merge; each column carries the number of timelines in it. A
    splitter empties its column and adds its count to each neighbour on the
    grid, in a worklist cascade per row. */
module BeamTimelines {
  import opened Maybe
  import opened Sums
  import opened BeamStart

  /** No two splitters side by side. The cascade of the source never ends
      once a count reaches such a pair (the two keep handing it back), so the
      model asks for this of every row. */
  predicate NoAdjacentSplitters(row: string) {
    forall c :: 0 <= c < |row| - 1 ==> !(row[c] == '^' && row[c + 1] == '^')
  }

  /** The count column `x` holds once the splitters in `done` have fired:
      a fired splitter holds nothing, and each fired neighbour has added its
      whole count. */
  ghost function Partial(row: string, v: seq<nat>, done: set<nat>, x: nat): nat
    requires |v| == |row| && x < |row|
  {
    if row[x] == '^' && x in done then 0
    else (v[x]
      + (if x >= 1 && row[x - 1] == '^' && x - 1 in done then v[x - 1] else 0)
      + (if x + 1 < |row| && row[x + 1] == '^' && x + 1 in done then v[x + 1] else 0))
  }

  /** Reference for one row: every splitter has fired. */
  function Cascaded(row: string, v: seq<nat>, x: nat): nat
    requires |v| == |row| && x < |row|
  {
    if row[x] == '^' then 0
    else (v[x]
      + (if x >= 1 && row[x - 1] == '^' then v[x - 1] else 0)
      + (if x + 1 < |row| && row[x + 1] == '^' then v[x + 1] else 0))
  }

  function Cascade(row: string, v: seq<nat>): (u: seq<nat>)
    requires |v| == |row|
    ensures |u| == |v|
  {
    seq(|v|, x requires 0 <= x < |v| => Cascaded(row, v, x))
  }

  /** How many timelines leave the row for each one arriving in column `x`:
      one past a plain cell, and one per side that is on the grid past a
      splitter. */
  function Weight(row: string, x: nat): nat
    requires x < |row|
  {
    if row[x] != '^' then 1 else (if x >= 1 then 1 else 0) + (if x + 1 < |row| then 1 else 0)
  }

  /** Arriving counts of the columns below `k`, each times its weight. */
  function WeightedSum(row: string, v: seq<nat>, k: nat): nat
    requires |v| == |row| && k <= |row|
  {
    if k == 0 then 0 else WeightedSum(row, v, k - 1) + v[k - 1] * Weight(row, k - 1)
  }

  /** The columns below `k` after the cascade, up to the count a splitter at
      `k - 1` sends across to `k` and the count a splitter at `k` sends back. */
  lemma {:induction false} CascadePrefix(row: string, v: seq<nat>, k: nat)
    requires |v| == |row| && k <= |row| && NoAdjacentSplitters(row)
    ensures SeqSum(Cascade(row, v)[..k]) + (if 1 <= k < |row| && row[k - 1] == '^' then v[k - 1] else 0)
      == WeightedSum(row, v, k) + (if 1 <= k < |row| && row[k] == '^' then v[k] else 0)
  {
    if k > 0 {
      var u := Cascade(row, v);
      CascadePrefix(row, v, k - 1);
      assert u[..k][..k - 1] == u[..k - 1];
      assert SeqSum(u[..k]) == SeqSum(u[..k - 1]) + u[k - 1];
    }
  }

  /** The timelines leaving a row: every arriving timeline continues, except
      that one on a splitter becomes one per side on the grid (two inside the
      row, one at an edge). */
  lemma CascadeTotal(row: string, v: seq<nat>)
    requires |v| == |row| && NoAdjacentSplitters(row)
    ensures SeqSum(Cascade(row, v)) == WeightedSum(row, v, |row|)
  {
    CascadePrefix(row, v, |row|);
    assert Cascade(row, v)[..|row|] == Cascade(row, v);
  }

  /** Firing splitter `c` (not yet fired, not next to another splitter) moves
      its count to its neighbours. */
  lemma FireStep(row: string, v: seq<nat>, done: set<nat>, c: nat, x: nat)
    requires |v| == |row| && NoAdjacentSplitters(row)
    requires c < |row| && row[c] == '^' && c !in done && x < |row|
    ensures Partial(row, v, done + {c}, x) ==
      if x == c then 0
      else if x + 1 == c || x == c + 1 then Partial(row, v, done, x) + v[c]
      else Partial(row, v, done, x)
  {
  }

  /** Once every splitter with a count has fired, the partial counts are the
      reference cascade. */
  lemma CascadeDone(row: string, v: seq<nat>, done: set<nat>, x: nat)
    requires |v| == |row| && NoAdjacentSplitters(row) && x < |row|
    requires forall c :: 0 <= c < |row| && row[c] == '^' && v[c] > 0 ==> c in done
    ensures Partial(row, v, done, x) == Cascaded(row, v, x)
  {
  }

  /** The queue holds, in increasing order, exactly the splitters that have
      a count and have not fired. */
  ghost predicate QueueInv(row: string, v: seq<nat>, q: seq<nat>, done: set<nat>)
    requires |v| == |row|
  {
    && (forall i, j :: 0 <= i < j < |q| ==> q[i] < q[j])
    && (forall i :: 0 <= i < |q| ==> q[i] < |row|)
    && (forall x: nat :: x in q <==> x < |row| && row[x] == '^' && v[x] > 0 && x !in done)
    && (forall x: nat :: x in done ==> x < |row| && row[x] == '^')
  }

  /** The counts `s` are the partial counts after the splitters in `done` fired. */
  ghost predicate CountsAre(row: string, v: seq<nat>, done: set<nat>, s: seq<nat>)
    requires |v| == |row|
  {
    |s| == |row| && forall x :: 0 <= x < |row| ==> s[x] == Partial(row, v, done, x)
  }

  /** The initial deque: the splitters holding a count, left to right. */
  method InitialQueue(row: string, counts: array<nat>) returns (q: seq<nat>)
    requires counts.Length == |row|
    ensures QueueInv(row, counts[..], q, {})
  {
    q := [];
    for c := 0 to counts.Length
      invariant forall i, j :: 0 <= i < j < |q| ==> q[i] < q[j]
      invariant forall i :: 0 <= i < |q| ==> q[i] < c
      invariant forall x: nat :: x in q <==> x < c && row[x] == '^' && counts[x] > 0
    {
      if counts[c] > 0 && row[c] == '^' {
        q := q + [c];
      }
    }
  }

  /** `visited_in_queue`: true exactly at the queued columns. */
  method MarkQueued(q: seq<nat>, w: nat) returns (queued: array<bool>)
    requires forall i :: 0 <= i < |q| ==> q[i] < w
    ensures fresh(queued) && queued.Length == w
    ensures forall x :: 0 <= x < w ==> (queued[x] <==> x in q)
  {
    queued := new bool[w](_ => false);
    for i := 0 to |q|
      invariant forall x :: 0 <= x < w ==> (queued[x] <==> x in q[..i])
    {
      queued[q[i]] := true;
    }
    assert q[..|q|] == q;
  }

  /** One pass of the `while q` body for the popped column `c`, which is a
      splitter with a count that has not fired yet: its count goes to its
      neighbours on the grid and it is left empty. */
  method Fire(row: string, counts: array<nat>, queued: array<bool>, c: nat,
              ghost v: seq<nat>, ghost done: set<nat>)
    requires counts.Length == |row| == |v| == queued.Length && NoAdjacentSplitters(row)
    requires c < |row| && row[c] == '^' && c !in done
    requires CountsAre(row, v, done, counts[..])
    modifies counts
    ensures CountsAre(row, v, done + {c}, counts[..])
  {
    var w := counts.Length;
    forall x | 0 <= x < w
      ensures Partial(row, v, done + {c}, x) ==
        if x == c then 0
        else if x + 1 == c || x == c + 1 then Partial(row, v, done, x) + v[c]
        else Partial(row, v, done, x)
    {
      FireStep(row, v, done, c, x);
    }
    var cnt := counts[c];
    counts[c] := 0;
    if c >= 1 {
      counts[c - 1] := counts[c - 1] + cnt;
      if !queued[c - 1] && row[c - 1] == '^' {
        // a splitter never sits next to another one
        assert false;
      }
    }
    if c + 1 < w {
      counts[c + 1] := counts[c + 1] + cnt;
      if !queued[c + 1] && row[c + 1] == '^' {
        assert false;
      }
    }
  }

  /** The `while q` cascade of one row, on the row's counts in place. */
  method CascadeRow(row: string, counts: array<nat>)
    requires counts.Length == |row| && NoAdjacentSplitters(row)
    modifies counts
    ensures counts[..] == Cascade(row, old(counts[..]))
    ensures forall x :: 0 <= x < |row| && row[x] == '^' ==> counts[x] == 0
  {
    var w := counts.Length;
    ghost var v := counts[..];
    var q := InitialQueue(row, counts);
    var queued := MarkQueued(q, w);
    ghost var done: set<nat> := {};
    while q != []
      invariant QueueInv(row, v, q, done)
      invariant forall x :: 0 <= x < w ==> (queued[x] <==> x in q)
      invariant CountsAre(row, v, done, counts[..])
      decreases |q|
    {
      var c := q[0];
      q := q[1..];
      queued[c] := false;
      var cnt := counts[c];
      // a column whose count is gone, or that is no splitter, is passed over
      if cnt > 0 && row[c] == '^' {
        Fire(row, counts, queued, c, v, done);
      }
      done := done + {c};
    }
    forall x | 0 <= x < w
      ensures counts[x] == Cascade(row, v)[x]
    {
      CascadeDone(row, v, done, x);
    }
  }

  /** The counts after the rows from `r` down have cascaded. */
  function RunRows(grid: seq<string>, r: nat, v: seq<nat>): (u: seq<nat>)
    requires forall i :: r <= i < |grid| ==> |grid[i]| == |v|
    ensures |u| == |v|
    decreases |grid| - r
  {
    if r >= |grid| then v else RunRows(grid, r + 1, Cascade(grid[r], v))
  }

  /** A single timeline in column `c`. */
  function Unit(w: nat, c: nat): (v: seq<nat>)
    ensures |v| == w
  {
    seq(w, i => if i == c then 1 else 0)
  }

  /** The answer of `quantum_timelines`: (0, 0) for an empty grid, no 'S' or an
      'S' on the last row; otherwise the total count and the number of
      occupied columns after the last row. */
  function Timelines(grid: seq<string>): (t: (int, nat))
    requires Rectangular(grid)
  {
    match Start(grid)
    case None => (0, 0)
    case Some((sr, sc)) =>
      if sr + 1 >= |grid| then (0, 0)
      else
        var u := RunRows(grid, sr + 1, Unit(|grid[0]|, sc));
        (SeqSum(u), Positives(u))
  }

  /** `sum(curr)` and `sum(1 for v in curr if v > 0)`. */
  method Tally(a: array<nat>) returns (total: int, distinct: nat)
    ensures total == SeqSum(a[..]) && distinct == Positives(a[..])
    ensures distinct <= a.Length && distinct <= total
  {
    total, distinct := 0, 0;
    for i := 0 to a.Length
      invariant total == SeqSum(a[..i]) && distinct == Positives(a[..i])
    {
      assert a[..i + 1] == a[..i] + [a[i]];
      SeqSumSnoc(a[..i], a[i]);
      total := total + a[i];
      if a[i] > 0 {
        distinct := distinct + 1;
      }
    }
    assert a[..a.Length] == a[..];
    PositivesBounds(a[..]);
  }

  /** `quantum_timelines`. The source copies the counts before each row's
      cascade and then replaces them with the copy; the model cascades one
      array in place, which ends in the same counts. */
  method QuantumTimelines(grid: seq<string>) returns (total: int, distinct: nat)
    requires Rectangular(grid)
    requires forall r :: 0 <= r < |grid| ==> NoAdjacentSplitters(grid[r])
    ensures (total, distinct) == Timelines(grid)
    ensures distinct <= total
    ensures grid != [] ==> distinct <= |grid[0]|
  {
    var h := |grid|;
    if h == 0 {
      return 0, 0;
    }
    var w := |grid[0]|;
    var start := FindStart(grid);
    if start.None? || start.value.0 + 1 >= h {
      return 0, 0;
    }
    var (sr, sc) := start.value;
    var curr := new nat[w](_ => 0);
    curr[sc] := 1;
    assert curr[..] == Unit(w, sc);
    for r := sr + 1 to h
      invariant RunRows(grid, r, curr[..]) == RunRows(grid, sr + 1, Unit(w, sc))
    {
      CascadeRow(grid[r], curr);
    }
    total, distinct := Tally(curr);
  }
}
