/** Day 6 (2025/Day6/puzzle11.py and 2025/Day6/puzzle12.py): a worksheet of
    arithmetic problems written side by side. Each problem occupies a run of
    columns; columns that are blank in every row separate the problems. The
    last non-blank row of a problem holds its operator. Both files share
    `find_column_groups`, modelled once here, and differ in how they read
    the numbers. */
module ColumnGroups {
  import opened Maybe
  import opened Strings
  import opened Sums
  import opened Seqs

  /** One problem: the inclusive range of columns `first..last`. */
  datatype Group = Group(first: nat, last: nat)

  /** `max(len(ln) for ln in lines)`, and 0 for no lines. */
  function MaxLen(lines: seq<string>): (w: nat)
    ensures forall i :: 0 <= i < |lines| ==> |lines[i]| <= w
    ensures lines != [] ==> exists i :: 0 <= i < |lines| && |lines[i]| == w
  {
    if lines == [] then 0
    else
      var init := lines[..|lines| - 1];
      var m := MaxLen(init);
      var l := |lines[|lines| - 1]|;
      assert forall i :: 0 <= i < |init| ==> init[i] == lines[i];
      if l > m then l else m
  }

  /** `[ln.ljust(width) for ln in lines]`: each row padded with spaces to the
      longest row, its own text kept in front. */
  function Padded(lines: seq<string>): (grid: seq<string>)
    ensures |grid| == |lines|
    ensures forall r :: 0 <= r < |grid| ==> |grid[r]| == MaxLen(lines)
    ensures forall r :: 0 <= r < |grid| ==> |lines[r]| <= |grid[r]| && grid[r][..|lines[r]|] == lines[r]
    ensures forall r, c :: 0 <= r < |grid| && |lines[r]| <= c < |grid[r]| ==> grid[r][c] == ' '
  {
    seq(|lines|, r requires 0 <= r < |lines| => LJust(lines[r], MaxLen(lines)))
  }

  /** Some row has a character other than ' ' in column `c`. */
  predicate ColumnHas(grid: seq<string>, c: nat) {
    exists r :: 0 <= r < |grid| && c < |grid[r]| && grid[r][c] != ' '
  }

  /** `col_has`: one flag per column of the padded grid. */
  function ColumnFlags(grid: seq<string>, width: nat): (has: seq<bool>)
    ensures |has| == width && forall c :: 0 <= c < width ==> (has[c] <==> ColumnHas(grid, c))
  {
    seq(width, c requires 0 <= c < width => ColumnHas(grid, c))
  }

  /** Some group contains column `x`. */
  predicate Covers(groups: seq<Group>, x: nat) {
    exists i :: 0 <= i < |groups| && groups[i].first <= x <= groups[i].last
  }

  /** `groups` are exactly the maximal runs of flagged columns: each lies in
      range and is flagged throughout, the columns just outside it are not
      flagged, they come in increasing order with a gap between them, and
      every flagged column lies in one of them. */
  ghost predicate MaximalRuns(has: seq<bool>, groups: seq<Group>) {
    && (forall i :: 0 <= i < |groups| ==> groups[i].first <= groups[i].last < |has|)
    && (forall i, x :: 0 <= i < |groups| && groups[i].first <= x <= groups[i].last && x < |has| ==> has[x])
    && (forall i :: 0 <= i < |groups| && 0 < groups[i].first <= |has| ==> !has[groups[i].first - 1])
    && (forall i :: 0 <= i < |groups| && groups[i].last + 1 < |has| ==> !has[groups[i].last + 1])
    && (forall i, j :: 0 <= i < j < |groups| ==> groups[i].last + 1 < groups[j].first)
    && (forall x :: 0 <= x < |has| && has[x] ==> Covers(groups, x))
  }

  /** What the scan of `find_column_groups` knows after columns 0..c-1: the
      closed groups are maximal runs ending before `c - 1`, and when a group
      is open it started at a run's first column and is flagged up to `c`. */
  ghost predicate ScanInv(has: seq<bool>, groups: seq<Group>, c: nat, inGroup: bool, start: nat) {
    && c <= |has|
    && (forall i :: 0 <= i < |groups| ==> groups[i].first <= groups[i].last && groups[i].last + 1 < c)
    && (forall i, x :: 0 <= i < |groups| && groups[i].first <= x <= groups[i].last && x < |has| ==> has[x])
    && (forall i :: 0 <= i < |groups| && 0 < groups[i].first <= |has| ==> !has[groups[i].first - 1])
    && (forall i :: 0 <= i < |groups| && groups[i].last + 1 < |has| ==> !has[groups[i].last + 1])
    && (forall i, j :: 0 <= i < j < |groups| ==> groups[i].last + 1 < groups[j].first)
    && (inGroup ==> start < c && (forall x :: start <= x < c ==> has[x]) && (start > 0 ==> !has[start - 1]))
    && (inGroup ==> forall i :: 0 <= i < |groups| ==> groups[i].last + 1 < start)
    && (!inGroup && c > 0 ==> !has[c - 1])
    && (forall x :: 0 <= x < c && has[x] ==> (inGroup && start <= x) || Covers(groups, x))
  }

  /** A flagged column outside a group opens one. */
  lemma ScanOpen(has: seq<bool>, groups: seq<Group>, c: nat, start: nat)
    requires ScanInv(has, groups, c, false, start) && c < |has| && has[c]
    ensures ScanInv(has, groups, c + 1, true, c)
  {
  }

  /** A column whose flag matches the state changes nothing but the position. */
  lemma ScanKeep(has: seq<bool>, groups: seq<Group>, c: nat, inGroup: bool, start: nat)
    requires ScanInv(has, groups, c, inGroup, start) && c < |has| && has[c] == inGroup
    ensures ScanInv(has, groups, c + 1, inGroup, start)
  {
  }

  /** Adding a group that covers `start..last` keeps every covered column covered. */
  lemma CoverAppend(groups: seq<Group>, start: nat, last: nat, x: nat)
    requires (start <= x <= last) || Covers(groups, x)
    ensures Covers(groups + [Group(start, last)], x)
  {
    var g := groups + [Group(start, last)];
    if start <= x <= last {
      assert g[|groups|].first <= x <= g[|groups|].last;
    } else {
      var i :| 0 <= i < |groups| && groups[i].first <= x <= groups[i].last;
      assert g[i] == groups[i];
    }
  }

  /** An unflagged column inside a group closes it at the previous column. */
  lemma ScanClose(has: seq<bool>, groups: seq<Group>, c: nat, start: nat)
    requires ScanInv(has, groups, c, true, start) && c < |has| && !has[c]
    ensures ScanInv(has, groups + [Group(start, c - 1)], c + 1, false, start)
  {
    forall x | 0 <= x < c + 1 && has[x]
      ensures Covers(groups + [Group(start, c - 1)], x)
    {
      CoverAppend(groups, start, c - 1, x);
    }
  }

  /** At the end, with no group open, the groups are the maximal runs. */
  lemma ScanEndClosed(has: seq<bool>, groups: seq<Group>, start: nat)
    requires ScanInv(has, groups, |has|, false, start)
    ensures MaximalRuns(has, groups)
  {
  }

  /** At the end, a group still open is closed at the last column. */
  lemma ScanEndOpen(has: seq<bool>, groups: seq<Group>, start: nat)
    requires ScanInv(has, groups, |has|, true, start)
    ensures MaximalRuns(has, groups + [Group(start, |has| - 1)])
  {
    var g := groups + [Group(start, |has| - 1)];
    var n := |groups|;
    assert forall i :: 0 <= i < n ==> g[i] == groups[i];
    assert g[n] == Group(start, |has| - 1);
    forall x | 0 <= x < |has| && has[x]
      ensures Covers(g, x)
    {
      CoverAppend(groups, start, |has| - 1, x);
    }
  }

  /** The loop of `find_column_groups` over `col_has`, a state machine over
      `in_group` and `start`: it returns the maximal runs of flagged columns. */
  method ScanRuns(has: seq<bool>) returns (groups: seq<Group>)
    ensures MaximalRuns(has, groups)
  {
    groups := [];
    var inGroup := false;
    var start := 0;
    for c := 0 to |has|
      invariant ScanInv(has, groups, c, inGroup, start)
    {
      if has[c] && !inGroup {
        ScanOpen(has, groups, c, start);
        inGroup := true;
        start := c;
      } else if !has[c] && inGroup {
        ScanClose(has, groups, c, start);
        groups := groups + [Group(start, c - 1)];
        inGroup := false;
      } else {
        ScanKeep(has, groups, c, inGroup, start);
      }
    }
    if inGroup {
      ScanEndOpen(has, groups, start);
      groups := groups + [Group(start, |has| - 1)];
    } else {
      ScanEndClosed(has, groups, start);
    }
  }

  /** `find_column_groups`: pads the rows and returns the maximal runs of
      columns that hold a non-space character in some row. No lines give no
      grid and no groups. */
  method FindColumnGroups(lines: seq<string>) returns (grid: seq<string>, groups: seq<Group>)
    ensures grid == Padded(lines)
    ensures MaximalRuns(ColumnFlags(grid, MaxLen(lines)), groups)
    ensures lines == [] ==> groups == []
  {
    grid := Padded(lines);
    if lines == [] {
      return grid, [];
    }
    var colHas := ColumnFlags(grid, MaxLen(lines));
    groups := ScanRuns(colHas);
  }

  /** The groups the flags determine are unique: two lists of maximal runs
      of the same flags are the same list. */
  lemma {:induction false} MaximalRunsUnique(has: seq<bool>, g1: seq<Group>, g2: seq<Group>)
    requires MaximalRuns(has, g1) && MaximalRuns(has, g2)
    ensures g1 == g2
  {
    var k := 0;
    while k < |g1| && k < |g2|
      invariant k <= |g1| && k <= |g2| && g1[..k] == g2[..k]
    {
      SameRunAt(has, g1, g2, k);
      assert g1[..k + 1] == g1[..k] + [g1[k]];
      assert g2[..k + 1] == g2[..k] + [g2[k]];
      k := k + 1;
    }
    if k > 0 {
      assert g1[k - 1] == g1[..k][k - 1] == g2[..k][k - 1] == g2[k - 1];
    }
    RunsExhaust(has, g1, k);
    RunsExhaust(has, g2, k);
    assert g1 == g1[..k] && g2 == g2[..k];
  }

  /** The runs before position k end no later than run k - 1. */
  lemma RunsEndBefore(has: seq<bool>, g: seq<Group>, k: nat)
    requires MaximalRuns(has, g) && 0 < k <= |g|
    ensures forall j :: 0 <= j < k ==> g[j].last <= g[k - 1].last
  {
    forall j | 0 <= j < k - 1
      ensures g[j].last <= g[k - 1].last
    {
      assert g[j].last + 1 < g[k - 1].first;
    }
  }

  /** Runs remain from position k on exactly when some flagged column lies
      past run k - 1. */
  lemma RunsExhaust(has: seq<bool>, g: seq<Group>, k: nat)
    requires MaximalRuns(has, g) && k <= |g|
    ensures k < |g| <==> exists x :: 0 <= x < |has| && has[x] && (k > 0 ==> g[k - 1].last < x)
  {
    if k < |g| {
      var x := g[k].first;
      assert has[x];
      if k > 0 {
        assert g[k - 1].last + 1 < g[k].first;
      }
    }
    if exists x :: 0 <= x < |has| && has[x] && (k > 0 ==> g[k - 1].last < x) {
      var x :| 0 <= x < |has| && has[x] && (k > 0 ==> g[k - 1].last < x);
      assert Covers(g, x);
      var i :| 0 <= i < |g| && g[i].first <= x <= g[i].last;
      if k > 0 {
        RunsEndBefore(has, g, k);
      }
      assert k <= i;
    }
  }

  /** The k-th run starts at or before any flagged column past the (k-1)-th. */
  lemma RunStartIsFirst(has: seq<bool>, g: seq<Group>, k: nat, x: nat)
    requires MaximalRuns(has, g) && k < |g|
    requires x < |has| && has[x] && (k > 0 ==> g[k - 1].last < x)
    ensures g[k].first <= x
  {
    assert Covers(g, x);
    var i :| 0 <= i < |g| && g[i].first <= x <= g[i].last;
    if k > 0 {
      RunsEndBefore(has, g, k);
    }
    assert k <= i;
    if k < i {
      assert g[k].last + 1 < g[i].first;
    }
  }

  /** With equal runs before position k, the k-th runs are equal. */
  lemma SameRunAt(has: seq<bool>, g1: seq<Group>, g2: seq<Group>, k: nat)
    requires MaximalRuns(has, g1) && MaximalRuns(has, g2)
    requires k < |g1| && k < |g2| && g1[..k] == g2[..k]
    ensures g1[k] == g2[k]
  {
    if k > 0 {
      assert g1[k - 1] == g1[..k][k - 1] == g2[..k][k - 1] == g2[k - 1];
    }
    assert has[g1[k].first] && has[g2[k].first];
    RunStartIsFirst(has, g1, k, g2[k].first);
    RunStartIsFirst(has, g2, k, g1[k].first);
    // the column after each run is past the end or unflagged, while every
    // column of the other run is flagged
    var e1, e2 := g1[k].last + 1, g2[k].last + 1;
    assert e1 == |has| || !has[e1];
    assert e2 == |has| || !has[e2];
    assert forall x :: g2[k].first <= x <= g2[k].last ==> has[x];
    assert forall x :: g1[k].first <= x <= g1[k].last ==> has[x];
  }

  predicate IsOp(c: char) {
    c == '+' || c == '*'
  }

  /** The index of the first '+' or '*' at or after `from`. */
  function OpIndex(s: string, from: nat): (r: Option<nat>)
    decreases |s| - from
    ensures r.Some? ==> from <= r.value < |s| && IsOp(s[r.value])
    ensures r.Some? ==> forall j :: from <= j < r.value ==> !IsOp(s[j])
    ensures r.None? ==> forall j :: from <= j < |s| ==> !IsOp(s[j])
  {
    if from >= |s| then None
    else if IsOp(s[from]) then Some(from)
    else OpIndex(s, from + 1)
  }

  /** The first operator character of a row, found by scanning it left to
      right and stopping at the first '+' or '*'. */
  method ScanForOp(row: string) returns (op: Option<char>)
    ensures op == match OpIndex(row, 0) case Some(i) => Some(row[i]) case None => None
  {
    for i := 0 to |row|
      invariant forall j :: 0 <= j < i ==> !IsOp(row[j])
    {
      if IsOp(row[i]) {
        assert OpIndex(row, 0) == Some(i);
        return Some(row[i]);
      }
    }
    return None;
  }

  /** `int(digits)` for a collected digit string; nothing when it is empty. */
  function NumberOf(digits: string): (r: Option<int>)
    ensures r.Some? <==> digits != [] && AllDigits(digits)
    ensures r.Some? ==> 0 <= r.value < Pow10(|digits|)
  {
    if digits != [] && AllDigits(digits) then Some(Value(digits)) else None
  }

  /** The value of a problem: the sum for '+', the product for '*', and 0 for
      any other operator or when there are no numbers. */
  function Apply(op: char, nums: seq<int>): int {
    if nums == [] then 0
    else if op == '+' then SeqSum(nums)
    else if op == '*' then SeqProduct(nums)
    else 0
  }

  /** The group lies inside every row of the grid. */
  predicate InGrid(grid: seq<string>, g: Group) {
    g.first <= g.last && forall r :: 0 <= r < |grid| ==> g.last < |grid[r]|
  }

  /** The maximal runs of a padded grid lie inside every row. */
  lemma RunsInGrid(lines: seq<string>, groups: seq<Group>)
    requires MaximalRuns(ColumnFlags(Padded(lines), MaxLen(lines)), groups)
    ensures forall i :: 0 <= i < |groups| ==> InGrid(Padded(lines), groups[i])
  {
  }
}

/** Day 6, part 1 (2025/Day6/puzzle11.py): each row of a problem, above the
    operator row, is one number, read from the digits of that row. */
module RowWiseSheet {
  import opened Maybe
  import opened Strings
  import opened Sums
  import opened Seqs
  import opened ColumnGroups

  /** `[row[start:end+1] for row in grid]`. */
  function Segments(grid: seq<string>, g: Group): (segs: seq<string>)
    requires InGrid(grid, g)
    ensures |segs| == |grid|
  {
    seq(|grid|, r requires 0 <= r < |grid| => grid[r][g.first..g.last + 1])
  }

  /** `[s.rstrip() for s in segs if s.strip() != '']`. */
  function NonBlank(segs: seq<string>): (rows: seq<string>)
    ensures |rows| <= |segs|
    ensures forall i :: 0 <= i < |rows| ==> !AllSpace(rows[i])
  {
    if segs == [] then []
    else
      var init := NonBlank(segs[..|segs| - 1]);
      var s := segs[|segs| - 1];
      if Strip(s) != [] then init + [RStrip(s)] else init
  }

  /** The number a row spells with its digits, read left to right; none
      when it has no digit. */
  function RowNumber(row: string): Option<int> {
    NumberOf(DigitsOf(row))
  }

  /** The numbers of the rows, in order; rows without digits are skipped. */
  function RowNumbers(rows: seq<string>): seq<int> {
    FilterMap(rows, RowNumber)
  }

  /** The operator of a non-blank operator row: its first '+' or '*', else
      its first non-space character. */
  function RowOperator(opRow: string): char
    requires !AllSpace(opRow)
  {
    match OpIndex(opRow, 0)
    case Some(i) => opRow[i]
    case None => Strip(opRow)[0]
  }

  /** What `parse_and_eval_group` computes for one group. */
  function RowWiseValue(grid: seq<string>, g: Group): int
    requires InGrid(grid, g)
  {
    var rows := NonBlank(Segments(grid, g));
    if rows == [] then 0
    else Apply(RowOperator(rows[|rows| - 1]), RowNumbers(rows[..|rows| - 1]))
  }

  /** Every number is the digits of one row holding a digit, rows taken in
      order, and every row holding a digit gives a number. */
  lemma RowNumbersFromRows(rows: seq<string>) returns (idx: seq<nat>)
    ensures |idx| == |RowNumbers(rows)|
    ensures forall k :: 0 <= k < |idx| ==>
      && idx[k] < |rows| && DigitsOf(rows[idx[k]]) != []
      && RowNumbers(rows)[k] == Value(DigitsOf(rows[idx[k]]))
    ensures forall k, l :: 0 <= k < l < |idx| ==> idx[k] < idx[l]
    ensures forall j :: 0 <= j < |rows| && DigitsOf(rows[j]) != [] ==> j in idx
  {
    idx := FilterMapWitness(rows, RowNumber);
  }

  /** The number of every row holding a digit, top to bottom. */
  method CollectRowNumbers(numRows: seq<string>) returns (nums: seq<int>)
    ensures nums == RowNumbers(numRows)
  {
    nums := [];
    for i := 0 to |numRows|
      invariant nums == RowNumbers(numRows[..i])
    {
      assert numRows[..i + 1] == numRows[..i] + [numRows[i]];
      FilterMapSnoc(numRows[..i], numRows[i], RowNumber);
      var digits := DigitsOf(numRows[i]);
      if digits != [] {
        nums := nums + [Value(digits)];
      }
    }
    assert numRows[..|numRows|] == numRows;
  }

  /** `parse_and_eval_group`: the operator row is the last non-blank row of
      the group; every non-blank row above it with a digit gives a number;
      the result applies the operator to those numbers. */
  method ParseAndEvalGroup(grid: seq<string>, g: Group) returns (v: int)
    requires InGrid(grid, g)
    ensures v == RowWiseValue(grid, g)
  {
    var nonEmpty := NonBlank(Segments(grid, g));
    if nonEmpty == [] {
      return 0;
    }
    var opRow := nonEmpty[|nonEmpty| - 1];
    var found := ScanForOp(opRow);
    var op := if found.Some? then found.value else Strip(opRow)[0];
    var nums := CollectRowNumbers(nonEmpty[..|nonEmpty| - 1]);
    v := Apply(op, nums);
  }

  /** The answer: the values of the groups, added up. */
  function RowWiseTotal(grid: seq<string>, groups: seq<Group>): int
    requires forall i :: 0 <= i < |groups| ==> InGrid(grid, groups[i])
  {
    if groups == [] then 0
    else RowWiseTotal(grid, groups[..|groups| - 1]) + RowWiseValue(grid, groups[|groups| - 1])
  }

  /** The loop of `main` over the groups. No lines at all make
      `find_column_groups` return a bare `[]`, which `main` cannot unpack into
      a grid and groups, so the program fails. */
  method SolveRowWise(lines: seq<string>) returns (r: Result<int>, groups: seq<Group>)
    ensures r.Err? <==> lines == []
    ensures r.Ok? ==> MaximalRuns(ColumnFlags(Padded(lines), MaxLen(lines)), groups)
    ensures r.Ok? ==>
      && (forall i :: 0 <= i < |groups| ==> InGrid(Padded(lines), groups[i]))
      && r.value == RowWiseTotal(Padded(lines), groups)
  {
    if lines == [] {
      return Err("not enough values to unpack"), [];
    }
    var grid;
    grid, groups := FindColumnGroups(lines);
    RunsInGrid(lines, groups);
    var total := SumGroups(grid, groups);
    r := Ok(total);
  }

  /** The loop of `main`: each group's value, added up in order. */
  method SumGroups(grid: seq<string>, groups: seq<Group>) returns (total: int)
    requires forall i :: 0 <= i < |groups| ==> InGrid(grid, groups[i])
    ensures total == RowWiseTotal(grid, groups)
  {
    total := 0;
    for k := 0 to |groups|
      invariant total == RowWiseTotal(grid, groups[..k])
    {
      assert groups[..k + 1][..k] == groups[..k];
      var v := ParseAndEvalGroup(grid, groups[k]);
      total := total + v;
    }
    assert groups[..|groups|] == groups;
  }
}

/** Day 6, part 2 (2025/Day6/puzzle12.py): within a problem each column is
    one number, read top to bottom above the operator row, and the columns
    are taken from right to left. */
module ColumnWiseSheet {
  import opened Maybe
  import opened Strings
  import opened Sums
  import opened Seqs
  import opened ColumnGroups

  /** Row `r` has a character other than ' ' inside the group's columns. */
  predicate RowHas(grid: seq<string>, r: nat, g: Group)
    requires r < |grid| && InGrid(grid, g)
  {
    exists c :: g.first <= c <= g.last && grid[r][c] != ' '
  }

  /** `non_empty_rows[-1]` over rows 0..n-1: the last row with a non-space
      inside the group. */
  function LastRowBelow(grid: seq<string>, g: Group, n: nat): (r: Option<nat>)
    requires n <= |grid| && InGrid(grid, g)
    ensures r.Some? ==> r.value < n && RowHas(grid, r.value, g)
    ensures r.Some? ==> forall j :: r.value < j < n ==> !RowHas(grid, j, g)
    ensures r.None? ==> forall j :: 0 <= j < n ==> !RowHas(grid, j, g)
  {
    if n == 0 then None
    else if RowHas(grid, n - 1, g) then Some(n - 1)
    else LastRowBelow(grid, g, n - 1)
  }

  /** The operator of the operator row's segment: its first '+' or '*', else
      its first non-whitespace character, else '+'. */
  function ColumnOperator(seg: string): char {
    match OpIndex(seg, 0)
    case Some(i) => seg[i]
    case None => var t := Strip(seg); if t != [] then t[0] else '+'
  }

  /** Column `c` of rows 0..n-1, top to bottom. */
  function Column(grid: seq<string>, c: nat, n: nat): (col: string)
    requires n <= |grid| && forall r :: 0 <= r < n ==> c < |grid[r]|
    ensures |col| == n && forall r :: 0 <= r < n ==> col[r] == grid[r][c]
  {
    seq(n, r requires 0 <= r < n => grid[r][c])
  }

  /** A character kept by `isdigit()`. */
  function DigitIf(ch: char): Option<char> {
    if IsDigit(ch) then Some(ch) else None
  }

  /** Keeping the digits of a string leaves only digits. */
  lemma {:induction false} KeptDigits(s: string)
    ensures AllDigits(FilterMap(s, DigitIf))
  {
    if s != [] {
      var init := s[..|s| - 1];
      assert s == init + [s[|s| - 1]];
      KeptDigits(init);
      FilterMapSnoc(init, s[|s| - 1], DigitIf);
    }
  }

  /** The digits of column `c` in rows 0..n-1, top to bottom. */
  function ColumnDigits(grid: seq<string>, c: nat, n: nat): (d: string)
    requires n <= |grid| && forall r :: 0 <= r < n ==> c < |grid[r]|
    ensures AllDigits(d)
  {
    KeptDigits(Column(grid, c, n));
    FilterMap(Column(grid, c, n), DigitIf)
  }

  /** Every character of `ColumnDigits` is a digit of that column, rows taken
      in order, and every digit of the column is kept. */
  lemma ColumnDigitsFromRows(grid: seq<string>, c: nat, n: nat) returns (rows: seq<nat>)
    requires n <= |grid| && forall r :: 0 <= r < n ==> c < |grid[r]|
    ensures |rows| == |ColumnDigits(grid, c, n)|
    ensures forall k :: 0 <= k < |rows| ==>
      && rows[k] < n && IsDigit(grid[rows[k]][c])
      && ColumnDigits(grid, c, n)[k] == grid[rows[k]][c]
    ensures forall k, l :: 0 <= k < l < |rows| ==> rows[k] < rows[l]
    ensures forall r :: 0 <= r < n && IsDigit(grid[r][c]) ==> r in rows
  {
    rows := FilterMapWitness(Column(grid, c, n), DigitIf);
  }

  /** The digit strings of columns `hi`, `hi - 1`, ..., `lo`, in that order. */
  function ColumnStrings(grid: seq<string>, lo: nat, hi: int, n: nat): (cs: seq<string>)
    requires n <= |grid| && forall r :: 0 <= r < n ==> hi < |grid[r]|
    ensures |cs| == if hi < lo then 0 else hi - lo + 1
    decreases hi - lo + 1
  {
    if hi < lo then []
    else ColumnStrings(grid, lo + 1, hi, n) + [ColumnDigits(grid, lo, n)]
  }

  /** Entry `k` of `ColumnStrings` is the digit string of column `hi - k`. */
  lemma {:induction false} ColumnStringsAt(grid: seq<string>, lo: nat, hi: int, n: nat, k: nat)
    requires n <= |grid| && forall r :: 0 <= r < n ==> hi < |grid[r]|
    requires lo + k <= hi
    ensures ColumnStrings(grid, lo, hi, n)[k] == ColumnDigits(grid, hi - k, n)
    decreases hi - lo + 1
  {
    if lo + k < hi {
      ColumnStringsAt(grid, lo + 1, hi, n, k);
    }
  }

  /** The numbers of columns `hi`, `hi - 1`, ..., `lo`, in that order, each
      read from the column's digits above row `n`; columns without digits are
      skipped. */
  function ColumnNumbers(grid: seq<string>, lo: nat, hi: int, n: nat): seq<int>
    requires n <= |grid| && forall r :: 0 <= r < n ==> hi < |grid[r]|
  {
    FilterMap(ColumnStrings(grid, lo, hi, n), NumberOf)
  }

  /** The column that number `k` of `ColumnNumbers` is read from. */
  ghost function SourceColumn(grid: seq<string>, lo: nat, hi: int, n: nat, k: nat): int
    requires n <= |grid| && forall r :: 0 <= r < n ==> hi < |grid[r]|
    requires k < |Positions(ColumnStrings(grid, lo, hi, n), NumberOf)|
  {
    hi - Positions(ColumnStrings(grid, lo, hi, n), NumberOf)[k]
  }

  /** Number `k` is the value of the digits of its column, which holds a
      digit and lies between `lo` and `hi`. */
  lemma ColumnNumberSource(grid: seq<string>, lo: nat, hi: int, n: nat, k: nat) returns (c: nat)
    requires n <= |grid| && forall r :: 0 <= r < n ==> hi < |grid[r]|
    requires k < |ColumnNumbers(grid, lo, hi, n)|
    ensures k < |Positions(ColumnStrings(grid, lo, hi, n), NumberOf)| && c == SourceColumn(grid, lo, hi, n, k)
    ensures lo <= c <= hi && ColumnDigits(grid, c, n) != []
    ensures ColumnNumbers(grid, lo, hi, n)[k] == Value(ColumnDigits(grid, c, n))
  {
    var cs := ColumnStrings(grid, lo, hi, n);
    PositionsLength(cs, NumberOf);
    PositionsMatch(cs, NumberOf, k);
    var j := Positions(cs, NumberOf)[k];
    c := hi - j;
    ColumnStringsAt(grid, lo, hi, n, j);
  }

  /** The numbers are read from right to left: a later number comes from a
      column further left. */
  lemma ColumnNumbersRightToLeft(grid: seq<string>, lo: nat, hi: int, n: nat, k: nat, l: nat)
    requires n <= |grid| && forall r :: 0 <= r < n ==> hi < |grid[r]|
    requires k < l < |Positions(ColumnStrings(grid, lo, hi, n), NumberOf)|
    ensures SourceColumn(grid, lo, hi, n, k) > SourceColumn(grid, lo, hi, n, l)
  {
    PositionsIncreasing(ColumnStrings(grid, lo, hi, n), NumberOf);
  }

  /** Every column between `lo` and `hi` holding a digit gives a number. */
  lemma ColumnNumbersComplete(grid: seq<string>, lo: nat, hi: int, n: nat, c: nat) returns (k: nat)
    requires n <= |grid| && forall r :: 0 <= r < n ==> hi < |grid[r]|
    requires lo <= c <= hi && ColumnDigits(grid, c, n) != []
    ensures k < |Positions(ColumnStrings(grid, lo, hi, n), NumberOf)| && SourceColumn(grid, lo, hi, n, k) == c
  {
    var cs := ColumnStrings(grid, lo, hi, n);
    ColumnStringsAt(grid, lo, hi, n, hi - c);
    assert NumberOf(cs[hi - c]).Some?;
    PositionsComplete(cs, NumberOf, hi - c);
    var idx := Positions(cs, NumberOf);
    k :| 0 <= k < |idx| && idx[k] == hi - c;
  }

  /** What `parse_and_eval_group` computes for one group. */
  function ColumnWiseValue(grid: seq<string>, g: Group): int
    requires InGrid(grid, g)
  {
    match LastRowBelow(grid, g, |grid|)
    case None => 0
    case Some(opRow) =>
      Apply(ColumnOperator(grid[opRow][g.first..g.last + 1]), ColumnNumbers(grid, g.first, g.last, opRow))
  }

  /** The operator of the operator row's segment, scanning for '+' or '*'
      first. */
  method ChooseOperator(seg: string) returns (op: char)
    ensures op == ColumnOperator(seg)
  {
    var found := ScanForOp(seg);
    if found.Some? {
      op := found.value;
    } else {
      var t := Strip(seg);
      op := if t != [] then t[0] else '+';
    }
  }

  /** The digits of column `c` above row `n`, joined top to bottom. */
  method JoinColumnDigits(grid: seq<string>, c: nat, n: nat) returns (digits: string)
    requires n <= |grid| && forall r :: 0 <= r < n ==> c < |grid[r]|
    ensures digits == ColumnDigits(grid, c, n)
  {
    ghost var col := Column(grid, c, n);
    digits := [];
    for r := 0 to n
      invariant digits == FilterMap(col[..r], DigitIf)
    {
      assert col[..r + 1] == col[..r] + [grid[r][c]];
      FilterMapSnoc(col[..r], grid[r][c], DigitIf);
      if IsDigit(grid[r][c]) {
        digits := digits + [grid[r][c]];
      }
    }
    assert col[..n] == col;
  }

  /** No columns give no numbers. */
  lemma ColumnNumbersNone(grid: seq<string>, hi: nat, n: nat)
    requires n <= |grid| && forall r :: 0 <= r < n ==> hi < |grid[r]|
    ensures ColumnNumbers(grid, hi + 1, hi, n) == []
  {
    assert ColumnStrings(grid, hi + 1, hi, n) == [];
  }

  /** Reading one more column to the left appends its number, if it has one. */
  lemma ColumnNumbersLeft(grid: seq<string>, lo: nat, next: nat, hi: nat, n: nat)
    requires n <= |grid| && forall r :: 0 <= r < n ==> hi < |grid[r]|
    requires lo <= hi && next == lo + 1
    ensures var d := ColumnDigits(grid, lo, n);
      ColumnNumbers(grid, lo, hi, n) == ColumnNumbers(grid, next, hi, n) + if d != [] then [Value(d)] else []
  {
    FilterMapSnoc(ColumnStrings(grid, next, hi, n), ColumnDigits(grid, lo, n), NumberOf);
  }

  /** The numbers of columns `hi` down to `lo`, read right to left. */
  method CollectColumnNumbers(grid: seq<string>, lo: nat, hi: nat, n: nat) returns (nums: seq<int>)
    requires n <= |grid| && forall r :: 0 <= r < n ==> hi < |grid[r]|
    requires lo <= hi
    ensures nums == ColumnNumbers(grid, lo, hi, n)
  {
    nums := [];
    var c: nat := hi + 1;
    ColumnNumbersNone(grid, hi, n);
    while c > lo
      invariant lo <= c <= hi + 1
      invariant nums == ColumnNumbers(grid, c, hi, n)
    {
      nums := ReadColumn(grid, c - 1, hi, n, nums);
      c := c - 1;
    }
    assert c == lo;
  }

  /** One turn of the column loop: column `c` appends its number, if it has one. */
  method ReadColumn(grid: seq<string>, c: nat, hi: nat, n: nat, nums: seq<int>) returns (nums': seq<int>)
    requires n <= |grid| && forall r :: 0 <= r < n ==> hi < |grid[r]|
    requires c <= hi && nums == ColumnNumbers(grid, c + 1, hi, n)
    ensures nums' == ColumnNumbers(grid, c, hi, n)
  {
    ColumnNumbersLeft(grid, c, c + 1, hi, n);
    var digits := JoinColumnDigits(grid, c, n);
    nums' := nums;
    if digits != [] {
      nums' := nums + [Value(digits)];
    }
  }

  /** `parse_and_eval_group`: the operator row is the last row with a
      non-space inside the group; the columns are read from right to left,
      each giving the number its digits above the operator row spell. */
  method ParseAndEvalGroup(grid: seq<string>, g: Group) returns (v: int)
    requires InGrid(grid, g)
    ensures v == ColumnWiseValue(grid, g)
  {
    var last := LastRowBelow(grid, g, |grid|);
    if last.None? {
      return 0;
    }
    var opRowIdx := last.value;
    var op := ChooseOperator(grid[opRowIdx][g.first..g.last + 1]);
    var nums := CollectColumnNumbers(grid, g.first, g.last, opRowIdx);
    v := Apply(op, nums);
  }

  /** The answer: the values of the groups, added up. */
  function ColumnWiseTotal(grid: seq<string>, groups: seq<Group>): int
    requires forall i :: 0 <= i < |groups| ==> InGrid(grid, groups[i])
  {
    if groups == [] then 0
    else ColumnWiseTotal(grid, groups[..|groups| - 1]) + ColumnWiseValue(grid, groups[|groups| - 1])
  }

  /** The loop of `main` over the groups; no lines give no groups and 0. */
  method SolveColumnWise(lines: seq<string>) returns (total: int, groups: seq<Group>)
    ensures MaximalRuns(ColumnFlags(Padded(lines), MaxLen(lines)), groups)
    ensures forall i :: 0 <= i < |groups| ==> InGrid(Padded(lines), groups[i])
    ensures total == ColumnWiseTotal(Padded(lines), groups)
    ensures lines == [] ==> total == 0
  {
    var grid;
    grid, groups := FindColumnGroups(lines);
    RunsInGrid(lines, groups);
    total := SumGroups(grid, groups);
  }

  /** The loop of `main`: each group's value, added up in order. */
  method SumGroups(grid: seq<string>, groups: seq<Group>) returns (total: int)
    requires forall i :: 0 <= i < |groups| ==> InGrid(grid, groups[i])
    ensures total == ColumnWiseTotal(grid, groups)
  {
    total := 0;
    for k := 0 to |groups|
      invariant total == ColumnWiseTotal(grid, groups[..k])
    {
      assert groups[..k + 1][..k] == groups[..k];
      var v := ParseAndEvalGroup(grid, groups[k]);
      total := total + v;
    }
    assert groups[..|groups|] == groups;
  }
}
