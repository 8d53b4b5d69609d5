# Advent of Code 2025 solvers, modelled in Dafny

The repository is a set of small Python puzzle solvers, one script per puzzle
part, under `2025/Day1` … `2025/Day12`. Each script reads the puzzle input,
runs an integer or string algorithm on it and prints a number. This project
models the algorithm of every part from Day 1 to Day 12 except the second
part of Day 10. Each script becomes its own Dafny module, and its input is
given as the sequence of its lines. The structure follows the source:

- a loop that updates variables becomes a `method` with a `while` or `for`
  loop and its invariants. The method is proved against a specification
  function, or against a set described by a predicate;
- the disjoint-set union of Day 8 becomes a `class` over arrays
  (`UnionFind.Dsu`), with `find`, `union` and `component_sizes` as methods;
- the grids that Day 4 part 2, Day 7 and Day 9 update in place become
  arrays or sequence-valued variables that the methods reassign;
- what the code computes by expressions or recursion becomes functions and
  lemmas.

Shared helpers live in their own modules:

- `Maybe`: `Option` and `Result`;
- `Strings`: `strip`, `int()` and `split` on ASCII text;
- `Seqs`: sequence helpers;
- `Sums`: sums and products of sequences and sets;
- `Sorting`: a sort that stands in for `list.sort`.

Module per puzzle part:

| day | source | modules |
|---|---|---|
| 1 | `puzzle1.py`, `puzzle2.py` | `DialLanding`, `DialClicks` |
| 2 | `puzzle3.py`, `puzzle4.py` | `DigitBlocks`, `DoubleRepeatIds`, `RepeatedBlockIds` |
| 3 | `puzzle5.py`, `puzzle6.py` | `TwoDigitMax`, `KDigitMax` |
| 4 | `puzzle7.py`, `puzzle8.py` | `RollGrid`, `RollRemoval` |
| 5 | `puzzle9.py`, `puzzle10.py` | `RangeMerge`, `FreshIds`, `CoveredLength` |
| 6 | `puzzle11.py`, `puzzle12.py` | `ColumnGroups`, `RowWiseSheet`, `ColumnWiseSheet` |
| 7 | `puzzle13.py`, `puzzle14.py` | `BeamStart`, `BeamSplitting`, `BeamTimelines` |
| 8 | `puzzle15.py`, `puzzle16.py` | `Linking`, `UnionFind`, `JunctionPairs`, `CircuitProduct`, `FinalConnection` |
| 9 | `puzzle17.py`, `puzzle18.py` | `RedTiles`, `CompressedAxis`, `Outline`, `AllowedGrid`, `FloodFill`, `AreaTable`, `GreenRectangles` |
| 10 | `puzzle19.py` | `Gf2`, `Elimination`, `FewestPresses`, `Machines`, `Factory` |
| 11 | `puzzle21.py`, `puzzle22.py` | `DeviceGraph`, `DevicePaths`, `DevicePathsBoth` |
| 12 | `puzzle23.py` | `Headers`, `Presents` |

## Model

| member | source | states |
|---|---|---|
| DialLanding.ParseRotation | 2025/Day1/puzzle1.py:11-18 | A blank line, or one whose tail after the first character is not an integer, gives no instruction. Otherwise the instruction turns left exactly when the first character is `L` or `l`, and its distance is `int()` of the tail. |
| DialLanding.Turn | 2025/Day1/puzzle1.py:19-22 | The new position is always in 0..99. |
| DialLanding.RunBounds | 2025/Day1/puzzle1.py:8-24 | From the start position 50, the position stays in 0..99 after every instruction. The landing count never exceeds the number of instructions. |
| DialLanding.RunStep | 2025/Day1/puzzle1.py:19-24 | An instruction moves the dial by `Turn`. It adds exactly one to the count when the dial lands on 0, and nothing otherwise. |
| DialLanding.SkippedLine | 2025/Day1/puzzle1.py:11-18 | A line that does not parse adds no instruction, so it changes neither the position nor the count. |
| DialLanding.RotationsSkip | 2025/Day1/puzzle1.py:12-18 | Line i is skipped when it does not parse. |
| DialLanding.RotationsTake | 2025/Day1/puzzle1.py:14-18 | Line i appends its instruction when it parses. |
| DialLanding.CountZeros | 2025/Day1/puzzle1.py:7-25 | The loop returns the landing count of the run over the parsed instructions. That count is at most the number of lines. |
| DialLanding.ExampleR50L50 | 2025/Day1/puzzle1.py:8-24 | "R50" then "L50" lands on 0 once and ends at 50. |
| DialClicks.HitCongruence | 2025/Day1/puzzle2.py:19-24 | After t clicks the dial shows 0 exactly when t ≡ k0 (mod 100). Here k0 is `pos % 100` for a left turn and `(-pos) % 100` for a right turn. |
| DialClicks.ClosedHitsCorrect | 2025/Day1/puzzle2.py:19-26 | The closed form `1 + (dist - k_first) // 100` (0 when `dist < k_first`) equals the click-by-click count of t in 1..dist that show 0. |
| DialClicks.ClosedHitsStep | 2025/Day1/puzzle2.py:24-26 | One more click adds one to the closed form exactly when that click shows 0. |
| DialClicks.FirstHitFromZero | 2025/Day1/puzzle2.py:24 | Starting on 0, the first hit is 100 clicks away, not 0. |
| DialClicks.AllHitsStep | 2025/Day1/puzzle2.py:19-31 | Each instruction adds its click count, and the position advances as in part 1. |
| DialClicks.CountZerosAllClicks | 2025/Day1/puzzle2.py:6-33 | The loop returns the number of clicks showing 0, summed over the parsed instructions by the reference click count. Lines that do not parse are skipped. |
| DoubleRepeatIds.RangeOf | 2025/Day2/puzzle3.py:21-31 | A piece yields a range exactly when it holds a '-' and both sides of the first '-' are integers. The range has lo ≤ hi, and its bounds are the two integers with a reversed pair swapped. |
| DoubleRepeatIds.Ranges | 2025/Day2/puzzle3.py:20-31 | The pieces that parse yield at most one range each, every range with lo ≤ hi. |
| DoubleRepeatIds.RangesOfPieces | 2025/Day2/puzzle3.py:20-31 | The ranges are exactly the readings of the pieces that parse: each range comes from one piece, in the order of the pieces, and every piece that parses yields its range. |
| DoubleRepeatIds.IterRangesFromLine | 2025/Day2/puzzle3.py:18-31 | Every range yielded for the line has lo ≤ hi. |
| DoubleRepeatIds.NoDashSkipped | 2025/Day2/puzzle3.py:21-22 | A piece without a '-' yields nothing. |
| DoubleRepeatIds.DoubleRepeatIsRepeat | 2025/Day2/puzzle3.py:34-47 | `is_double_repeat(n)` holds exactly when `str(n)` has even length and is one block, with no leading zero, written twice. |
| DoubleRepeatIds.DoubleRepeatHalf | 2025/Day2/puzzle3.py:40-47 | Every double repeat is its first half, a block without a leading zero, written twice. |
| DoubleRepeatIds.DoubleOfBlock | 2025/Day2/puzzle3.py:63-67 | An h-digit half written twice is a double repeat of 2h digits. |
| DoubleRepeatIds.DoubleRepeatsInRange | 2025/Day2/puzzle3.py:50-73 | For lo ≥ 0, the ids the length loop reaches are exactly the double repeats in [lo, hi]. |
| DoubleRepeatIds.NegativeLowerBound | 2025/Day2/puzzle3.py:55-58 | `len(str(lo))` counts the minus sign. So for the range -100..99 no length is tried and 11 is not counted. |
| DoubleRepeatIds.DoublesShorterAll | 2025/Day2/puzzle3.py:58-60 | Once the lengths pass `len(str(hi))`, every double repeat of the window has been produced. |
| DoubleRepeatIds.DoubleTry | 2025/Day2/puzzle3.py:65-72 | A try of half `f` produces a value not added before. The value is added exactly when it lies in [lo, hi], and a value above hi means no later half can land in range. This is why the early break is sound. |
| DoubleRepeatIds.AddDoublesOfLength | 2025/Day2/puzzle3.py:61-72 | The inner loop adds to `total` exactly the in-range double repeats of one even length, each once. |
| DoubleRepeatIds.SumDoubleRepeatsInRange | 2025/Day2/puzzle3.py:50-73 | `sum_invalid_in_range` returns the sum of the set of double repeats of [lo, hi] that have a tried length. |
| DoubleRepeatIds.RangeTwice | 2025/Day2/puzzle3.py:76-80 | Ranges are not merged: a range listed twice counts its ids twice. |
| DoubleRepeatIds.SolveRangesLine | 2025/Day2/puzzle3.py:76-80 | `solve_ranges_line` returns the plain sum of the per-range sums over the yielded ranges. |
| DigitBlocks.StrRepeat | 2025/Day2/puzzle4.py:48-49 | For a k-digit block b, `int(str(b) * r)` is b times the rep-unit 1 0..0 1 … 1, and its decimal string is `str(b) * r`. |
| DigitBlocks.RepeatDecompose | 2025/Day2/puzzle4.py:2-6 | Every id whose string is a k-digit block repeated r ≥ 2 times is that block times the rep-unit, and the block has no leading zero. |
| DigitBlocks.RepeatCompose | 2025/Day2/puzzle4.py:43-49 | A k-digit block times the rep-unit is a repeated-block id with that block. |
| DigitBlocks.RepValMono | 2025/Day2/puzzle4.py:46 | For fixed k and r, a larger block gives a larger value. |
| DigitBlocks.BlocksBelowStep | 2025/Day2/puzzle4.py:47-54 | Trying a block adds exactly its value when that value is in [lo, hi], and the value is new. |
| DigitBlocks.BlocksBelowBreak | 2025/Day2/puzzle4.py:52-53 | Once a value passes hi, no later block lands in range, so the break loses nothing. |
| DigitBlocks.BlocksBelowEnd | 2025/Day2/puzzle4.py:47 | After the last k-digit block, every value of the shape has been tried. |
| DigitBlocks.BlocksAreRepeats | 2025/Day2/puzzle4.py:47-54 | Every value the block loop collects lies in [lo, hi] and is a repeated-block id of shape (k, r). |
| DigitBlocks.RepeatsAreBlocks | 2025/Day2/puzzle4.py:47-54 | Every repeated-block id of shape (k, r ≥ 2) in [lo, hi] is collected. |
| RepeatedBlockIds.AllShapes | 2025/Day2/puzzle4.py:35-45 | The shapes the loops try are k in 1..hi_len/2 and r in max(2, ceil(lo_len/k))..hi_len/k. Together they produce exactly the repeated-block ids whose length lies in [lo_len, hi_len]. |
| RepeatedBlockIds.ShapeComplete | 2025/Day2/puzzle4.py:45-54 | An id of shape (k, r) with r in the tried range is collected on the pass for block length k. |
| RepeatedBlockIds.ShapeLength | 2025/Day2/puzzle4.py:37 | A repeated-block id of shape (k, r) has k·r digits. |
| RepeatedBlockIds.TriedShapeLength | 2025/Day2/puzzle4.py:37-41 | Every tried shape has a length in [lo_len, hi_len]. |
| RepeatedBlockIds.LengthShapeTried | 2025/Day2/puzzle4.py:35-41 | Every shape with r ≥ 2 and a length in [lo_len, hi_len] is tried. |
| RepeatedBlockIds.RepeatedBlocksInRange | 2025/Day2/puzzle4.py:2-6 | For lo ≥ 0, the result set is exactly the ids in [lo, hi] that are some block repeated r ≥ 2 times. |
| RepeatedBlockIds.SingleDigitHi | 2025/Day2/puzzle4.py:35-36 | A one-digit hi gives max_k = 0 (or hi < 0), and the set of ids is empty. |
| RepeatedBlockIds.DoubleIsRepeated | 2025/Day2/puzzle4.py:2-6 | Every double repeat of part 1 is a repeated-block id of part 2. |
| RepeatedBlockIds.Example1111 | 2025/Day2/puzzle4.py:30 | 1111 is "1" four times and also "11" twice. The set `found` holds it once. |
| RepeatedBlockIds.AddBlocks | 2025/Day2/puzzle4.py:47-54 | The innermost loop adds to `found` exactly the in-range ids of shape (k, r). |
| RepeatedBlockIds.AddShapesOfLength | 2025/Day2/puzzle4.py:38-54 | The middle loops add exactly the ids of every tried r for block length k. |
| RepeatedBlockIds.SumRepeatedBlocksInRange | 2025/Day2/puzzle4.py:29-56 | `sum_invalid_in_range` returns the sum of the set of repeated-block ids of the window, each counted once. |
| RepeatedBlockIds.SolveRangesLine | 2025/Day2/puzzle4.py:59-63 | `solve_ranges_line` returns the plain sum of the per-range sums over the yielded ranges. |
| TwoDigitMax.BestPair | 2025/Day3/puzzle5.py:6-17 | The result is at least the value `10*d[i] + d[j]` of every pair i < j, where d is `ord - 48`. It is either 0 or the value of some pair, and it is 0 when the string is shorter than 2. |
| TwoDigitMax.DigitsBestPair | 2025/Day3/puzzle5.py:9-17 | For a digit string of length ≥ 2, the result lies in 0..99 and is the value of an actual pair i < j. |
| TwoDigitMax.MaxTwoDigitFromLine | 2025/Day3/puzzle5.py:6-17 | The nested loops return exactly the reference maximum `BestPair`. |
| TwoDigitMax.LineValue | 2025/Day3/puzzle5.py:28-34 | A line contributes a non-negative amount: nothing when it is blank or has no digit, otherwise the best pair of its digits. |
| TwoDigitMax.SumBestPairs | 2025/Day3/puzzle5.py:27-34 | `main`'s loop returns the sum of the line values. Non-digits are stripped, and lines without a digit are skipped. |
| KDigitMax.FirstMaxIsFirstLargest | 2025/Day3/puzzle6.py:15-24 | The window pick is a largest character of the window, and every earlier character of the window is strictly smaller. |
| KDigitMax.FirstMaxUnique | 2025/Day3/puzzle6.py:15-24 | Only one position is both a largest character and the first one. |
| KDigitMax.GreedyPositions | 2025/Day3/puzzle6.py:10-27 | Exactly k digits are picked, at strictly increasing positions. |
| KDigitMax.GreedyOptimal | 2025/Day3/puzzle6.py:4 | No order-preserving choice of `rem` characters from `pos` on reads as a larger number than the greedy digits. |
| KDigitMax.BestIsMaximum | 2025/Day3/puzzle6.py:4 | The result is at least the value of every order-preserving subsequence of length k. |
| KDigitMax.BestIsReached | 2025/Day3/puzzle6.py:4 | The result is the value of some order-preserving subsequence of length k. |
| KDigitMax.MaxK | 2025/Day3/puzzle6.py:5-7 | The call fails exactly when the line is at least k long and k ≤ 0, because `int('')` is reached. Otherwise it is 0 for a line shorter than k, and the greedy value otherwise. |
| KDigitMax.WindowMax | 2025/Day3/puzzle6.py:13-24 | The window scan returns the first position of the largest character of `s[pos..end]` and that character. The early exit on '9' does not change this. |
| KDigitMax.SelectDigits | 2025/Day3/puzzle6.py:8-27 | The `while` loop collects exactly the greedy digits. |
| KDigitMax.MaxKDigitsFromLine | 2025/Day3/puzzle6.py:3-28 | `max_k_digits_from_line` returns exactly `MaxK`, including the `int('')` error. |
| KDigitMax.ShortLine | 2025/Day3/puzzle6.py:6-7 | A line with fewer than twelve digits adds nothing. |
| KDigitMax.SumMaxK | 2025/Day3/puzzle6.py:40-47 | `main`'s loop, with k = 12, returns the sum of the line values. |
| RollGrid.Neighbours | 2025/Day4/puzzle7.py:15-18 | Counting over the eight offsets gives at most 8. |
| RollGrid.NeighboursAreCells | 2025/Day4/puzzle7.py:15-18 | The eight offsets count exactly the '@' cells at the neighbouring positions. A position outside the grid, or past the end of a shorter row, counts as empty. |
| RollGrid.AccessibleAreRolls | 2025/Day4/puzzle7.py:10-22 | Every accessible cell is a roll, so the count is at most the number of '@' cells. |
| RollGrid.CappedNeighbours | 2025/Day4/puzzle7.py:14-20 | The scan with its early exit at 4 returns min(neighbour count, 4). So the test `adj < 4` is the same as on the full count. |
| RollGrid.CountAccessible | 2025/Day4/puzzle7.py:3-23 | `count_accessible` returns the number of '@' cells with fewer than four '@' neighbours, at most the number of '@' cells. An empty grid gives 0. The grid is a value and is not changed. |
| RollRemoval.RoundRemoves | 2025/Day4/puzzle8.py:11-29 | A round removes exactly the cells that are accessible in the grid as it stood at the start of the round. Only '@' cells change, and only to '.'. |
| RollRemoval.RoundShrinks | 2025/Day4/puzzle8.py:26-30 | A round with an accessible roll leaves fewer rolls, by exactly the number removed. So the loop ends. |
| RollRemoval.RemovedIsDifference | 2025/Day4/puzzle8.py:10-30 | The total removed is the initial '@' count minus the final one. In the final grid no roll is accessible. |
| RollRemoval.SettledIsStable | 2025/Day4/puzzle8.py:12-27 | In the final grid every roll has at least four rolls around it. |
| RollRemoval.RoundScan | 2025/Day4/puzzle8.py:11-25 | The scan lists each cell accessible at the start of the round exactly once, and lists no other cell. |
| RollRemoval.ClearAllIsCleared | 2025/Day4/puzzle8.py:28-29 | Writing '.' to the listed cells one by one clears exactly the set of them, whatever the order. |
| RollRemoval.ClearCells | 2025/Day4/puzzle8.py:28-29 | The write-back turns each listed cell of the grid array into '.', in list order. |
| RollRemoval.CountRemovable | 2025/Day4/puzzle8.py:3-31 | The grid array ends settled, with no accessible roll. The total is the number of rolls removed, which is the initial '@' count minus the final one. |
| RangeMerge.CoveredPermutation | 2025/Day5/puzzle9.py:36 | Reordering the list, as the sort does, does not change the set of integers it covers. |
| RangeMerge.SpanJoin | 2025/Day5/puzzle9.py:40-42 | Two intervals that overlap or touch, with the second starting no earlier, cover exactly what their hull covers. |
| RangeMerge.IntervalOf | 2025/Day5/puzzle9.py:20-30 | A line yields an interval exactly when it holds a '-' and both sides of the first '-' are integers. The interval has s ≤ e, and its bounds are the two integers with a reversed pair swapped. |
| RangeMerge.Intervals | 2025/Day5/puzzle9.py:17-31 | The parsed intervals are at most one per line, each with s ≤ e. |
| RangeMerge.ParseRanges | 2025/Day5/puzzle9.py:17-31 | `parse_ranges`' loop returns exactly the intervals of the lines that parse, in order. |
| RangeMerge.SweepInvStep | 2025/Day5/puzzle9.py:39-45 | A step of the sweep keeps this invariant: the closed intervals plus the current one cover what the consumed prefix covers. The closed ones are separated and end more than one below the current start. |
| RangeMerge.SweepInvEnd | 2025/Day5/puzzle9.py:46 | Closing the current interval leaves a separated list that covers exactly the input. |
| RangeMerge.Sweep | 2025/Day5/puzzle9.py:37-47 | On a non-empty list sorted by start, the sweep returns between 1 and n intervals. They are increasing, each next start exceeds the previous end + 1, each has s ≤ e, and together they cover exactly the input's integers. |
| RangeMerge.MergeIntervals | 2025/Day5/puzzle9.py:33-47 | `merge_intervals` sorts its argument in place into a permutation of itself. It returns a separated, well-formed list with the same coverage as the input. The result is empty exactly when the input is. |
| Sorting.Sort | 2025/Day5/puzzle9.py:36 | `intervals.sort()` leaves the array sorted by (start, end) and a permutation of what it held. |
| Sorting.SortedUnique | 2025/Day5/puzzle9.py:36 | Under an antisymmetric order, two sorted permutations of the same elements are the same sequence: the result of a sort does not depend on the algorithm. |
| Sorting.Insert | 2025/Day5/puzzle9.py:36 | One insertion step sorts one more prefix element. The array stays a permutation, and the suffix is untouched. |
| FreshIds.FirstBlank | 2025/Day5/puzzle9.py:6-10 | The result is the index of a blank line with no blank line before it, or none when no line is blank. |
| FreshIds.SeparatorIndex | 2025/Day5/puzzle9.py:6-10 | The search loop returns the first blank line's index, or 0 when there is none. |
| FreshIds.Sections | 2025/Day5/puzzle9.py:4-15 | With no blank line, or a blank first line, every line (unstripped) is a range line and there are no ids. Ids are non-empty stripped lines. |
| FreshIds.ParseSections | 2025/Day5/puzzle9.py:4-15 | `parse_sections` computes `Sections`. |
| FreshIds.BisectRight | 2025/Day5/puzzle9.py:61 | On a sorted list, `bisect_right(a, x)` is the split point: everything before it is ≤ x and everything from it on is > x. |
| FreshIds.RightmostDecides | 2025/Day5/puzzle9.py:60-63 | On separated intervals, testing only the rightmost interval starting at or before x agrees with a linear scan for "some interval covers x". |
| FreshIds.CoverIsRightmost | 2025/Day5/puzzle9.py:61-62 | The interval covering x is the one the binary search lands on. |
| FreshIds.CountFresh | 2025/Day5/puzzle9.py:49-64 | `count_fresh` is at most the number of ids. On separated intervals it is the number of ids that parse and lie in some interval. Unparsable ids are skipped, and an empty list gives 0. |
| FreshIds.ZeroWhenEmpty | 2025/Day5/puzzle9.py:51-52 | No intervals means no fresh id. |
| FreshIds.FreshCount | 2025/Day5/puzzle9.py:73-76 | Part 1 returns the number of ids in the id section that lie in some parsed range of the range section. |
| CoveredLength.RangesSection | 2025/Day5/puzzle10.py:3-14 | The range section is the stripped non-blank lines before the first blank line, or of the whole input when no line is blank. A blank first line gives none. |
| CoveredLength.ParseRangesSection | 2025/Day5/puzzle10.py:3-14 | `parse_ranges_section` computes `RangesSection`. |
| CoveredLength.SpanSize | 2025/Day5/puzzle10.py:58 | An interval s..e holds e - s + 1 integers. |
| CoveredLength.SpanSumCounts | 2025/Day5/puzzle10.py:58 | On well-formed separated intervals, Σ(e − s + 1) is the number of integers covered. |
| CoveredLength.CoveredTotal | 2025/Day5/puzzle10.py:48-59 | Part 2's total is the number of distinct integers the parsed ranges cover. No ranges give 0. |
| ColumnGroups.MaxLen | 2025/Day6/puzzle11.py:20 | The width is at least every line's length and equals some line's length. |
| ColumnGroups.Padded | 2025/Day6/puzzle11.py:21 | Every row is padded with spaces to the width and keeps its own text in front. |
| ColumnGroups.ColumnFlags | 2025/Day6/puzzle11.py:22 | A column is flagged exactly when some padded row has a non-space there. |
| ColumnGroups.ScanRuns | 2025/Day6/puzzle11.py:23-34 | The `in_group`/`start` state machine returns exactly the maximal runs of flagged columns, in increasing order, separated by unflagged columns. |
| ColumnGroups.FindColumnGroups | 2025/Day6/puzzle11.py:17-35 | `find_column_groups` returns the padded grid and the maximal runs of columns holding a non-space in some row. No lines give no groups. |
| ColumnGroups.MaximalRunsUnique | 2025/Day6/puzzle11.py:22-34 | The flags determine the groups: two lists of maximal runs of the same flags are equal. |
| ColumnGroups.OpIndex | 2025/Day6/puzzle11.py:46-49 | The result is the first '+' or '*' at or after the start position, or none when there is none. |
| ColumnGroups.ScanForOp | 2025/Day6/puzzle11.py:45-49 | The scan stops at the first '+' or '*' of the row, or finds none. |
| ColumnGroups.NumberOf | 2025/Day6/puzzle11.py:57-59 | A number is made exactly when the digit string is non-empty. Its value has at most as many digits as the string. |
| ColumnGroups.RunsInGrid | 2025/Day6/puzzle11.py:39 | Every group lies inside every padded row, so the slices are in range. |
| RowWiseSheet.NonBlank | 2025/Day6/puzzle11.py:40 | The kept rows are at most the segments, and none is all spaces. |
| RowWiseSheet.RowNumbersFromRows | 2025/Day6/puzzle11.py:54-59 | Each number is `int()` of the digits of one row that holds a digit, rows taken top to bottom. Every row with a digit gives a number, and rows without one are skipped. |
| RowWiseSheet.CollectRowNumbers | 2025/Day6/puzzle11.py:55-59 | The loop collects exactly those numbers. |
| RowWiseSheet.ParseAndEvalGroup | 2025/Day6/puzzle11.py:37-68 | `parse_and_eval_group` is `RowWiseValue`. The operator row is the last non-blank row. The operator is its first '+' or '*', else its first non-space. The result is the sum for '+', the product for '*', and 0 otherwise or with no numbers. |
| RowWiseSheet.SolveRowWise | 2025/Day6/puzzle11.py:17-19 | No lines make `find_column_groups` return a bare `[]`, which `main` cannot unpack, so the run fails. Otherwise the total is the sum of the group values over the maximal runs. |
| RowWiseSheet.SumGroups | 2025/Day6/puzzle11.py:73-75 | The loop of `main` adds up the group values in order. |
| ColumnWiseSheet.LastRowBelow | 2025/Day6/puzzle12.py:37-41 | The operator row is a row with a non-space inside the group, with no such row after it, or there is none. |
| ColumnWiseSheet.ColumnDigitsFromRows | 2025/Day6/puzzle12.py:55 | A column's digit string is that column's digits above the operator row, top to bottom, and every digit is kept. |
| ColumnWiseSheet.ColumnNumberSource | 2025/Day6/puzzle12.py:54-57 | Each number is the value of one column between start and end that holds a digit. |
| ColumnWiseSheet.ColumnNumbersRightToLeft | 2025/Day6/puzzle12.py:54 | A later number comes from a column further left. |
| ColumnWiseSheet.ColumnNumbersComplete | 2025/Day6/puzzle12.py:54-57 | Every column of the group that holds a digit gives a number. |
| ColumnWiseSheet.ChooseOperator | 2025/Day6/puzzle12.py:44-51 | The operator is the first '+' or '*' of the segment, else its first non-space, else '+'. |
| ColumnWiseSheet.JoinColumnDigits | 2025/Day6/puzzle12.py:55 | The join collects exactly that column's digits. |
| ColumnWiseSheet.ColumnNumbersLeft | 2025/Day6/puzzle12.py:54-57 | Reading one more column to the left appends its number, if it has one. |
| ColumnWiseSheet.CollectColumnNumbers | 2025/Day6/puzzle12.py:53-57 | The right-to-left loop collects exactly the column numbers. |
| ColumnWiseSheet.ParseAndEvalGroup | 2025/Day6/puzzle12.py:35-64 | `parse_and_eval_group` is `ColumnWiseValue`. A group with no non-space row gives 0. Otherwise the operator applies to the column numbers read right to left: sum for '+', product for '*', 0 otherwise or with no numbers. |
| ColumnWiseSheet.SolveColumnWise | 2025/Day6/puzzle12.py:66-72 | The total is the sum of the group values over the maximal runs of the padded grid. No lines give 0. |
| ColumnWiseSheet.SumGroups | 2025/Day6/puzzle12.py:69-71 | The loop of `main` adds up the group values in order. |
| BeamStart.StartFrom | 2025/Day7/puzzle13.py:13-17 | The result is the first row at or after r holding an 'S', with that row's `find('S')`. It is none exactly when no such row holds an 'S'. |
| BeamStart.Start | 2025/Day7/puzzle13.py:12-17 | The start cell holds an 'S', with no 'S' before it in its row and no 'S' in an earlier row. It is none exactly when the grid has no 'S'. |
| BeamStart.FindStart | 2025/Day7/puzzle13.py:12-17 | The row loop of `find_start` returns `Start`. |
| BeamSplitting.Next | 2025/Day7/puzzle13.py:36-50 | The next beam set lies in 0..w−1. |
| BeamSplitting.NextMembers | 2025/Day7/puzzle13.py:37-49 | A column x carries a beam in the next row exactly when x is on the grid and one of these holds: a beam at x on a non-splitter goes straight on, or a splitter at x+1 or x−1 that holds a beam sends it sideways. |
| BeamSplitting.EarlyStopSound | 2025/Day7/puzzle13.py:34-35 | Stopping once no beams remain gives the same count as visiting every row. |
| BeamSplitting.NoBeamsNoSplits | 2025/Day7/puzzle13.py:34-35 | With no beams, no further splits happen. |
| BeamSplitting.PropagateBound | 2025/Day7/puzzle13.py:28-50 | Beams merge in a set, so each splitter cell counts at most once. The splits are at most the number of '^' cells in the rows visited. |
| BeamSplitting.HitAdd | 2025/Day7/puzzle13.py:40-42 | A new beam on a splitter adds exactly one split. |
| BeamSplitting.StepRow | 2025/Day7/puzzle13.py:36-50 | The loop over the beam set builds exactly `Next` and counts the distinct splitters hit. The set's iteration order does not matter. |
| BeamSplitting.Simulate | 2025/Day7/puzzle13.py:19-51 | `simulate` returns the reference split count. An empty grid, no 'S', or an 'S' on the last row gives 0. Otherwise the count is at most the number of '^' cells below the start. |
| BeamTimelines.CascadeTotal | 2025/Day7/puzzle14.py:48-60 | After a row's cascade the total is the arriving total, except that a count on a splitter is doubled (once per side on the grid) and a count pushed past an edge is lost. |
| BeamTimelines.FireStep | 2025/Day7/puzzle14.py:49-60 | Firing a splitter zeroes its column and adds its count to each neighbour on the grid. |
| BeamTimelines.CascadeDone | 2025/Day7/puzzle14.py:36-60 | Once every splitter holding a count has fired, the counts are the reference cascade of the row. |
| BeamTimelines.InitialQueue | 2025/Day7/puzzle14.py:36 | The initial deque holds exactly the splitter columns with a positive count, left to right. This meets the worklist invariant. |
| BeamTimelines.MarkQueued | 2025/Day7/puzzle14.py:37-39 | `visited_in_queue` is true exactly at the queued columns. |
| BeamTimelines.CascadeRow | 2025/Day7/puzzle14.py:34-60 | The `while q` loop leaves the row's counts equal to the reference cascade, and no '^' column holds a count. |
| BeamTimelines.RunRows | 2025/Day7/puzzle14.py:32-62 | The count vector keeps length w from row to row. |
| BeamTimelines.Tally | 2025/Day7/puzzle14.py:64-65 | The function returns the sum of the counts and the number of positive columns. The latter is at most w and at most the sum. |
| BeamTimelines.QuantumTimelines | 2025/Day7/puzzle14.py:20-66 | `quantum_timelines` returns `Timelines`. An empty grid, no 'S', or an 'S' on the last row gives (0, 0). Otherwise the result is the sum and the number of positive columns after the last row, with distinct ≤ total and distinct ≤ w. |
| Linking.JoinedPairs | 2025/Day8/puzzle15.py:82-84 | After the joins, the two ends of every joined pair are in one circuit. |
| Linking.AllJoinedToFirst | 2025/Day8/puzzle16.py:64-70 | When every box is paired with box 0, all boxes are in one circuit. |
| UnionFind.Dsu.constructor | 2025/Day8/puzzle15.py:22-24 | A fresh DSU has every element as its own root with size 1. The invariant holds: sizes are positive exactly at roots, count their members and sum to n. |
| UnionFind.Dsu.Find | 2025/Day8/puzzle15.py:25-30 | `find` returns the root of `a`. Path halving keeps the invariant, every element's root and the set of roots. |
| UnionFind.Dsu.Union | 2025/Day8/puzzle15.py:31-41 | `union` returns False and changes no root, size or class when both share a root. Otherwise the smaller-sized root (the root of `b` on a tie) goes under the other, whose size becomes the sum. The absorbed root's size becomes 0 and it stops being a root. |
| UnionFind.Dsu.FindBoth | 2025/Day8/puzzle15.py:32-33 | The two `find` calls return the roots of `a` and `b` and keep the roots. |
| UnionFind.Dsu.Link | 2025/Day8/puzzle15.py:38-40 | Linking root rb under root ra moves rb's members to ra, adds the sizes, zeroes rb's size and removes rb from the roots. |
| UnionFind.HalveStep | 2025/Day8/puzzle15.py:28-29 | Linking a node to its grandparent keeps the forest invariant and every root, and moves the node up in rank, so `find` ends. |
| UnionFind.LinkStep | 2025/Day8/puzzle15.py:38-40 | Linking one root under another keeps the invariant: sizes are positive exactly at roots, count their members and sum to n. |
| UnionFind.MergeClasses | 2025/Day8/puzzle15.py:36-40 | Whichever root survives, linking joins exactly the classes of `a` and `b`. |
| UnionFind.UnionClasses | 2025/Day8/puzzle15.py:31-41 | A `union` call joins the circuits of `a` and `b`, as joining the pair does in the labelling, also when they already share one. |
| UnionFind.CircuitsOfForest | 2025/Day8/puzzle15.py:42-43 | `component_sizes` lists each circuit's size exactly once, one entry per root. |
| UnionFind.RootCircuit | 2025/Day8/puzzle15.py:39-43 | At a root, the size is the size of its circuit. |
| UnionFind.DistinctRoots | 2025/Day8/puzzle15.py:42-43 | Two distinct roots are in different circuits. |
| UnionFind.OneRootIffConnected | 2025/Day8/puzzle16.py:63-67 | Exactly one root is left exactly when every box is in one circuit. This is why `components == 1` detects the final join. |
| UnionFind.AllRoots | 2025/Day8/puzzle16.py:62-63 | A fresh DSU has n roots, which matches `components = n`. |
| JunctionPairs.Dsq | 2025/Day8/puzzle15.py:69-72 | The squared distance is non-negative and 0 from a box to itself. |
| JunctionPairs.PairOrder | 2025/Day8/puzzle15.py:78 | The key (dsq, i, j) is a total order in which only equal pairs tie. |
| JunctionPairs.SortedPairsUnique | 2025/Day8/puzzle15.py:78 | Any two orderings of the pairs sorted by that key are equal, so the sorted list is the same whatever algorithm sorts it. |
| JunctionPairs.AllPairsMembers | 2025/Day8/puzzle15.py:64-73 | A pair is built exactly when it names boxes i < j and carries their squared distance. |
| JunctionPairs.PairsBeforeCount | 2025/Day8/puzzle15.py:65-73 | The loops build n(n−1)/2 pairs. |
| JunctionPairs.BuildPairs | 2025/Day8/puzzle15.py:64-73 | The nested loops build, for each i, the pairs (i, j) with j > i in increasing j. |
| JunctionPairs.SortPairs | 2025/Day8/puzzle15.py:78 | `pairs.sort` returns the pairs sorted by key, as a permutation of the input. |
| JunctionPairs.SortedMembers | 2025/Day8/puzzle15.py:64-78 | The sorted list holds every pair of boxes and nothing else. |
| JunctionPairs.SortedEndpoints | 2025/Day8/puzzle15.py:83 | Every sorted pair names two of the boxes, so `union(a, b)` is in range. |
| CircuitProduct.DecreasingUnique | 2025/Day8/puzzle15.py:48 | Two decreasing orderings of the same values are equal. |
| CircuitProduct.TopProductUnique | 2025/Day8/puzzle15.py:45-53 | The product of the three largest values does not depend on the ordering that picks them. |
| CircuitProduct.ProductTop3 | 2025/Day8/puzzle15.py:45-53 | `product_top3` returns 1 for no values. Otherwise it returns the product of the up to three largest values in a decreasing ordering, missing ones counting as 1. |
| CircuitProduct.ProductOfSorted | 2025/Day8/puzzle15.py:48-53 | The sort and product loop computes that product. |
| CircuitProduct.ClosestCircuits | 2025/Day8/puzzle15.py:55-86 | Part 1 returns 1 with fewer than two points. Otherwise it returns the product of the three largest circuit sizes after the closest min(1000, #pairs) pairs are joined. A pair already in one circuit is used up all the same. |
| CircuitProduct.SizesAreCircuits | 2025/Day8/puzzle15.py:85 | After the joins, the positive sizes list each circuit of the joined pairs once. |
| CircuitProduct.JoinFirst | 2025/Day8/puzzle15.py:80-84 | The union loop on the first K pairs leaves a valid DSU whose classes are the circuits of those joins. |
| CircuitProduct.JoinNext | 2025/Day8/puzzle15.py:82-84 | Joining one more pair relabels the second end's circuit to the first's. |
| FinalConnection.LastConnection | 2025/Day8/puzzle16.py:43-72 | Part 2 returns 0 with fewer than two points. Otherwise it returns the product of the x coordinates of the pair, in key order, whose join first leaves one circuit. |
| FinalConnection.JoinUntilConnected | 2025/Day8/puzzle16.py:62-72 | The loop always reaches one circuit, so the final `print(0)` is never reached for n ≥ 2. Its answer comes from the first connecting join. |
| FinalConnection.JoinEdge | 2025/Day8/puzzle16.py:64-67 | One `union` on pair k makes the classes those of the first k+1 joins. A merge removes exactly one root. A merge that leaves one root is the first join that connects every box. |
| FinalConnection.EveryPairJoined | 2025/Day8/puzzle16.py:71-72 | Once every pair is joined, one root is left. |
| RedTiles.ParseTile | 2025/Day9/puzzle17.py:7-19 | A line gives a tile exactly when, after stripping, it is non-blank and has exactly two comma-separated fields that are both integers. The tile is those two integers. |
| RedTiles.ParseTileStr | 2025/Day9/puzzle17.py:11-19 | `x,y` written in decimal reads back as the tile (x, y). |
| RedTiles.ReadTiles | 2025/Day9/puzzle17.py:10-20 | There is at most one tile per line. |
| RedTiles.AreaAtLeastFour | 2025/Day9/puzzle17.py:32-34 | Corners that differ in both coordinates give a rectangle of at least 2 by 2 tiles. |
| RedTiles.MaxRectangleArea | 2025/Day9/puzzle17.py:22-37 | `max_rectangle_area` returns at least the area (\|dx\|+1)·(\|dy\|+1) of every pair differing in both coordinates. The result is 0 or the area of such a pair. It is 0 exactly when no such pair exists, and 4 or more otherwise. |
| RedTiles.MaxWith | 2025/Day9/puzzle17.py:28-36 | The inner loop keeps the maximum over the pairs seen so far. |
| CompressedAxis.SeqMin | 2025/Day9/puzzle18.py:30 | `min(...)` is an element of the list and at most every element. |
| CompressedAxis.SeqMax | 2025/Day9/puzzle18.py:31 | `max(...)` is an element of the list and at least every element. |
| CompressedAxis.SortedElements | 2025/Day9/puzzle18.py:39-40 | `sorted(xs)` lists exactly the set's elements in strictly increasing order. |
| CompressedAxis.Compress | 2025/Day9/puzzle18.py:23-45 | One axis: the list holds exactly every value v and v+1 (the minimum and maximum+1 among them), strictly increasing. The index maps each listed value to its position, and the list has at least 2 breaks. |
| CompressedAxis.Breaks | 2025/Day9/puzzle18.py:23-29 | The loop over the points puts exactly every value v and v + 1 into the set. |
| CompressedAxis.Numbering | 2025/Day9/puzzle18.py:41-42 | `x_to_i` maps exactly the listed values, each to its position in the list. |
| CompressedAxis.TwoBreaks | 2025/Day9/puzzle18.py:43-44 | With at least one point there are at least two breaks, so cols and rows are at least 1. |
| CompressedAxis.NextBreak | 2025/Day9/puzzle18.py:26-27 | The break after a tile's value is that value plus one, so its compressed column spans exactly the tile. |
| Outline.CompressCoords | 2025/Day9/puzzle18.py:22-45 | `compress_coords` gives both axes compressed as above, with cols = \|xs\|−1 ≥ 1 and rows = \|ys\|−1 ≥ 1. |
| Outline.TileInGrid | 2025/Day9/puzzle18.py:53-55 | Every tile's compressed column and row lie inside the grid. |
| Outline.SuccIndex | 2025/Day9/puzzle18.py:61 | `points[(k + 1) % n]` is the tile after tile k, the last wrapping to the first. |
| Outline.MarkColumn | 2025/Day9/puzzle18.py:68-69 | The loop sets `allowed[j][ix]` for j0 ≤ j ≤ j1, and nothing else changes. |
| Outline.MarkRow | 2025/Day9/puzzle18.py:76-77 | The loop sets `allowed[jy][i]` for i0 ≤ i ≤ i1, and nothing else changes. |
| AllowedGrid.MarkRedTiles | 2025/Day9/puzzle18.py:51-56 | Each red tile's compressed cell is marked, and its (column, row) is recorded in order. |
| AllowedGrid.MarkSegments | 2025/Day9/puzzle18.py:58-80 | The loop completes exactly when every tile shares a column or a row with the next (wrapping). Then the cells marked are those before it plus every segment's cells. |
| AllowedGrid.BuildAllowed | 2025/Day9/puzzle18.py:47-81 | `build_allowed` returns a rows × cols grid and the compressed tile positions. It fails (the `ValueError`) exactly when two consecutive tiles share neither column nor row. Otherwise exactly the outline is marked: red cells and segment cells. |
| AllowedGrid.MarkSegment | 2025/Day9/puzzle18.py:60-77 | The segment from tile k to the next is marked exactly when the two share a column or a row. Each cell becomes marked when it was marked or lies on the segment. |
| AllowedGrid.ExtendSegments | 2025/Day9/puzzle18.py:58-80 | The loop from segment k on finishes exactly when segment k is aligned, and then marks it. |
| FloodFill.SeedRows | 2025/Day9/puzzle18.py:87-92 | Seeding from column i of the top and bottom rows queues their free cells and keeps the search invariants. |
| FloodFill.SeedColumns | 2025/Day9/puzzle18.py:93-98 | Seeding from row j of the left and right columns queues their free cells and keeps the search invariants. |
| GreenRectangles.FitsIff | 2025/Day9/puzzle18.py:147-155 | A rectangle fits exactly when every cell in its compressed row and column span is allowed. |
| GreenRectangles.PairStep | 2025/Day9/puzzle18.py:150-156 | One more pair keeps the best at least every fitting pair's area seen so far, attained, and 0 or at least 4. |
| RedTiles.MaxStep | 2025/Day9/puzzle17.py:28-36 | One more pair keeps the maximum at least every area seen so far, attained, and 0 or at least 4. |
| Outline.AllInGrid | 2025/Day9/puzzle18.py:41-56 | Every tile's compressed position lies inside the grid. |
| FloodFill.VisitedIffOutside | 2025/Day9/puzzle18.py:84-108 | When the queue empties, a free cell is visited exactly when a path of free cells reaches it from a free border cell. |
| FloodFill.OutsideVisited | 2025/Day9/puzzle18.py:101-108 | Every cell on a path of free cells from the border is visited once the queue is empty. |
| FloodFill.VisitedOutside | 2025/Day9/puzzle18.py:85-108 | Every visited cell is reachable from the border through free cells. |
| FloodFill.SeedBorder | 2025/Day9/puzzle18.py:85-98 | The seeding loops queue and visit every free border cell, each once, and keep the search invariants. |
| FloodFill.Flood | 2025/Day9/puzzle18.py:101-108 | The `while q` loop ends with every queued cell expanded. The visited cells stay sound and closed under free neighbours, and the border stays seeded. |
| FloodFill.Search | 2025/Day9/puzzle18.py:84-108 | On a fresh `vis` grid, the search ends sound, closed and seeded. |
| FloodFill.MarkInterior | 2025/Day9/puzzle18.py:110-113 | A cell becomes allowed exactly when it was allowed or was not visited. |
| FloodFill.Filled | 2025/Day9/puzzle18.py:109-113 | After marking, a cell is allowed exactly when it was allowed or is not reachable from the border. |
| FloodFill.FillInterior | 2025/Day9/puzzle18.py:83-113 | `fill_interior` makes allowed exactly the cells that were allowed or that the border cannot reach through free cells. Nothing else changes. |
| AreaTable.PrefixStep | 2025/Day9/puzzle18.py:126 | The recurrence of the table: a prefix is its upper and left prefixes, minus their overlap, plus the cell's real area. |
| AreaTable.InclusionExclusion | 2025/Day9/puzzle18.py:132 | The four-term combination of prefixes is the weight of the inner block. |
| AreaTable.BlockFull | 2025/Day9/puzzle18.py:153-155 | With increasing breaks, a block's allowed area is at most its full area. It equals it exactly when all its cells are allowed. |
| AreaTable.PrefixRow | 2025/Day9/puzzle18.py:119-126 | Row r+1 of the table becomes the prefix weights of the first r+1 rows, and the other rows do not change. |
| AreaTable.BuildWeightedPrefix | 2025/Day9/puzzle18.py:115-127 | `build_weighted_prefix` fills entry (r, c) with the real area of the allowed cells among the first r rows and c columns. |
| AreaTable.RectAreaAllowed | 2025/Day9/puzzle18.py:129-132 | `rect_area_allowed` is the real area of the allowed cells in columns x0..x1 and rows y0..y1, both inclusive. |
| GreenRectangles.OutlineGrid | 2025/Day9/puzzle18.py:47-81 | The marked grid holds exactly the outline cells. |
| GreenRectangles.FilledGrid | 2025/Day9/puzzle18.py:109-113 | The filled grid holds the outline and every cell it encloses. |
| GreenRectangles.SpanProduct | 2025/Day9/puzzle18.py:153 | `total_cells` is the rectangle's area in tiles, (\|dx\|+1)·(\|dy\|+1). |
| GreenRectangles.BlockFits | 2025/Day9/puzzle18.py:153-155 | `allowed_area == total_cells` exactly when every compressed cell of the rectangle is allowed. |
| GreenRectangles.PairArea | 2025/Day9/puzzle18.py:147-155 | For one pair: it is a candidate exactly when the tiles differ in both compressed coordinates and the rectangle fits. Its allowed area is then the rectangle's area. |
| GreenRectangles.BestWith | 2025/Day9/puzzle18.py:145-156 | The inner loop keeps the maximum over the fitting pairs seen so far. |
| GreenRectangles.BestRectangle | 2025/Day9/puzzle18.py:141-157 | The result is at least the area of every fitting rectangle with opposite red corners. It is 0 or the area of one of them, and 4 or more when not 0. |
| GreenRectangles.MaxAllowedRectangleArea | 2025/Day9/puzzle18.py:134-157 | No tiles give 0. The error is raised exactly when two consecutive tiles share neither column nor row. Otherwise the result is the largest rectangle with red corners whose compressed cells all lie on or inside the outline. |
| GreenRectangles.SearchFilled | 2025/Day9/puzzle18.py:139-157 | Filling, building the table and searching the pairs give that answer. |
| Gf2.Zeros | 2025/Day10/puzzle19.py:89 | `[0]*n` is the vector of n clear positions. |
| Gf2.Xor | 2025/Day10/puzzle19.py:81 | `rows[r] ^= rows[row]`: each position of the result is set exactly when the two inputs differ there. |
| Gf2.Popcount | 2025/Day10/puzzle19.py:135 | `bit_count()` is at most the vector's width. |
| Gf2.PopcountZero | 2025/Day10/puzzle19.py:135 | A bit count of 0 means every position is clear. |
| Gf2.PopcountZeros | 2025/Day10/puzzle19.py:135 | A vector with every position clear has bit count 0. |
| Gf2.PopcountPositive | 2025/Day10/puzzle19.py:135 | A vector with a set position has bit count at least 1. |
| Gf2.PopcountPair | 2025/Day10/puzzle19.py:135 | A vector with two set positions has bit count at least 2. |
| Gf2.PopcountUnit | 2025/Day10/puzzle19.py:97-98 | A unit vector has bit count 1. |
| Gf2.DotXor | 2025/Day10/puzzle19.py:79-82 | A row's parity against x XOR y is its parity against x XOR its parity against y. |
| Gf2.XorDot | 2025/Day10/puzzle19.py:79-82 | Adding two rows adds their parities against x. |
| Gf2.DotSupport | 2025/Day10/puzzle19.py:99-105 | When a row and x share no set position except possibly k, their parity is the row's bit at k AND x's bit at k. |
| Gf2.DotNone | 2025/Day10/puzzle19.py:99-105 | A row and x with no shared set position have parity 0. |
| Gf2.DotPair | 2025/Day10/puzzle19.py:99-105 | When the shared positions lie among k1 and k2 only, the parity is the XOR of the two products. |
| Gf2.SolutionsDiffer | 2025/Day10/puzzle19.py:93-106 | The XOR of two solutions of A x = b solves A x = 0. |
| Gf2.SolutionPlusKernel | 2025/Day10/puzzle19.py:129-134 | A solution XOR a null-space vector is again a solution. |
| Gf2.SweepAt | 2025/Day10/puzzle19.py:130-134 | Position k after XORing in the picked basis vectors is the start's bit XOR the parity of the picked vectors' bits at k. |
| Gf2.SweepSolves | 2025/Day10/puzzle19.py:129-134 | A particular solution with any subset of null-space vectors XORed in is a solution. |
| Gf2.EncodeBits | 2025/Day10/puzzle19.py:129-133 | `range(1<<f)` visits every subset of f basis vectors: each subset is the low f bits of some s < 2^f. |
| Elimination.Swap | 2025/Day10/puzzle19.py:75-76 | The exchange swaps entries i and j and keeps every other entry. |
| Elimination.SwapSame | 2025/Day10/puzzle19.py:75-76 | Exchanging two equations keeps the set of solutions. |
| Elimination.AddRowSame | 2025/Day10/puzzle19.py:79-82 | Adding the pivot equation to another equation keeps the set of solutions. |
| Elimination.SameRefl | 2025/Day10/puzzle19.py:49-107 | A system has the same solutions as itself. |
| Elimination.SameTrans | 2025/Day10/puzzle19.py:49-107 | Having the same solutions is transitive across elimination steps. |
| Elimination.FindPivot | 2025/Day10/puzzle19.py:68-71 | -1 means no row from `row` on has a 1 in column col. Otherwise the result is the first such row. |
| Elimination.Cleared | 2025/Day10/puzzle19.py:79-81 | Once rows before upto are processed, each row other than p with a 1 in col has had row p added. The rest are unchanged. |
| Elimination.ClearedRhs | 2025/Day10/puzzle19.py:79-82 | The right-hand sides change the same way. |
| Elimination.ClearedNext | 2025/Day10/puzzle19.py:79-82 | Processing row r adds the pivot row to row r exactly when r is not p and has a 1 in col. |
| Elimination.ClearStep | 2025/Day10/puzzle19.py:79-82 | Each processed row keeps the set of solutions. |
| Elimination.EliminateColumn | 2025/Day10/puzzle19.py:79-82 | The loop leaves every row other than the pivot with a 0 in col, keeping the solutions. |
| Elimination.ClearedSame | 2025/Day10/puzzle19.py:79-82 | Clearing col from any number of rows with the pivot row leaves a system with exactly the same solutions. |
| Elimination.NoPivot | 2025/Day10/puzzle19.py:72-73 | A column with no 1 at or below the current row is skipped (`continue`). The reduced-echelon invariant still holds one column further. |
| Elimination.ColumnStep | 2025/Day10/puzzle19.py:74-83 | Swapping the pivot up and clearing its column extends the reduced-echelon invariant by one column and one pivot. `where[col]` becomes the pivot row. |
| Elimination.PivotColumn | 2025/Day10/puzzle19.py:74-83 | One pivoting step keeps the invariant and the solutions. |
| Elimination.Reduce | 2025/Day10/puzzle19.py:64-83 | The column loop ends in reduced echelon form: each pivot column is a unit column, and rows below the rank are 0 in every column. The system keeps the solutions of A x = b. |
| Elimination.Consistent | 2025/Day10/puzzle19.py:85-87 | The check passes exactly when no all-zero row below the rank has right-hand side 1. |
| Elimination.NoSolution | 2025/Day10/puzzle19.py:85-87 | A failed check means A x = b has no solution. |
| Elimination.Particular | 2025/Day10/puzzle19.py:89-92 | `x_part[j]` is the pivot row's right-hand side for a pivot column, and 0 for a free column. |
| Elimination.ParticularSolves | 2025/Day10/puzzle19.py:89-92 | On a consistent reduced system, the particular solution is a solution. |
| Elimination.FreeVector | 2025/Day10/puzzle19.py:96-106 | The vector of free column j is 1 at j. At each pivot column k it is the bit of k's pivot row in column j, and 0 elsewhere. |
| Elimination.NullBasis | 2025/Day10/puzzle19.py:94-106 | There is one such vector for each free column, in increasing column order. |
| Elimination.BasisKernel | 2025/Day10/puzzle19.py:96-106 | Each basis vector solves the reduced system with right-hand side 0. |
| Elimination.BasisUnits | 2025/Day10/puzzle19.py:96-106 | Each basis vector is 1 at its own free column and 0 at the other free columns. The particular solution is 0 at every free column. |
| Elimination.KernelTransfer | 2025/Day10/puzzle19.py:49-107 | Solutions and null-space vectors of the reduced system are those of A x = b. |
| Elimination.Pick | 2025/Day10/puzzle19.py:93-106 | It reads a solution's values at the free columns. |
| Elimination.Spanning | 2025/Day10/puzzle19.py:88-106 | Every solution of the reduced system is the particular solution plus the basis vectors of the free columns it sets. |
| Elimination.SpanningAll | 2025/Day10/puzzle19.py:88-106 | This carries over to every solution of A x = b. |
| Elimination.Solved | 2025/Day10/puzzle19.py:84-107 | A consistent elimination's outputs describe every solution of A x = b. |
| Elimination.GaussianElimBits | 2025/Day10/puzzle19.py:49-107 | `gaussian_elim_bits` returns ok exactly when A x = b has a solution over GF(2), with empty outputs otherwise. When ok, the solutions are exactly: the particular solution, a solution, plus any subset of the basis vectors, which are null-space vectors, one per free column. |
| FewestPresses.SubsetSum | 2025/Day10/puzzle19.py:130-134 | The inner loop XORs the basis vectors picked by the bits of s into the start and counts them. |
| FewestPresses.BruteForce | 2025/Day10/puzzle19.py:128-138 | The search over at most 22 basis vectors returns the least bit count over all 2^f subsets. That count is attained by one subset. |
| FewestPresses.Sub | 2025/Day10/puzzle19.py:144-149 | The XOR of the picked vectors has the vectors' width. |
| FewestPresses.Table | 2025/Day10/puzzle19.py:142-166 | The `left` and `right` dictionaries map each subset XOR of their half to the fewest vectors giving it. Every subset is recorded. |
| FewestPresses.TableStep | 2025/Day10/puzzle19.py:151-154 | Recording one subset keeps that property for one more subset. |
| FewestPresses.TableKeys | 2025/Day10/puzzle19.py:142-166 | Every subset XOR is a key, and every key is some subset's XOR. |
| FewestPresses.TableCounts | 2025/Day10/puzzle19.py:151-154 | Each key's count is attained by a subset and is at most every subset's count for that key. |
| FewestPresses.BestWithLeft | 2025/Day10/puzzle19.py:172-177 | The inner loop lowers the best to at most every pair cost for this left entry, and to one of them unless unchanged. |
| FewestPresses.BestPair | 2025/Day10/puzzle19.py:168-178 | The outer loop returns the least cost over all pairs of table entries. |
| FewestPresses.Halves | 2025/Day10/puzzle19.py:141-166 | The basis splits at f // 2 into two halves, each with its own complete table. |
| FewestPresses.SplitAt | 2025/Day10/puzzle19.py:141 | The halves are the slices at f // 2. |
| FewestPresses.MeetInTheMiddle | 2025/Day10/puzzle19.py:141-178 | The meet-in-the-middle search, costing each pair by the bit count of the combined vector alone, returns the least bit count over all subsets. |
| FewestPresses.MeetLightest | 2025/Day10/puzzle19.py:168-178 | The least pair cost over the two tables is the least bit count over every subset of the whole basis. |
| FewestPresses.MeetBounds | 2025/Day10/puzzle19.py:168-178 | No subset weighs less than that minimum. |
| FewestPresses.MeetBound | 2025/Day10/puzzle19.py:168-178 | One subset weighs no less than that minimum. |
| FewestPresses.MeetAttained | 2025/Day10/puzzle19.py:168-178 | The minimum is the weight of some subset. |
| FewestPresses.SplitWeight | 2025/Day10/puzzle19.py:173 | A left subset and a right subset together form one subset of the basis, whose weight is the bit count of `part_mask ^ lmask ^ rmask`. |
| FewestPresses.SweepSplit | 2025/Day10/puzzle19.py:173 | XORing in a subset of the whole basis is the start XOR the left half's subset XOR the right half's. |
| FewestPresses.MinWeightSolution | 2025/Day10/puzzle19.py:110-178 | `min_weight_solution`, with the corrected combination step, returns the least bit count of the particular solution plus any subset of the basis. That count is attained. |
| FewestPresses.MeetInTheMiddleAsWritten | 2025/Day10/puzzle19.py:141-178 | The search as written returns the least `w + lcnt + rcnt` over all pairs of half-subsets. |
| FewestPresses.DoubleLeast | 2025/Day10/puzzle19.py:168-178 | The as-written minimum over table entries is the least such cost over all pairs of half-subsets. |
| FewestPresses.DoubleAttained | 2025/Day10/puzzle19.py:173-175 | The cost of two recorded table entries is the as-written cost of their subsets. |
| FewestPresses.DoubleBound | 2025/Day10/puzzle19.py:168-178 | No pair of half-subsets costs less than the as-written minimum. |
| FewestPresses.ExampleSweep | 2025/Day10/puzzle19.py:129-138 | In the counterexample machine every subset leaves at least one lit press, and two when it is empty. |
| FewestPresses.ExampleOnePress | 2025/Day10/puzzle19.py:129-138 | In the counterexample one basis vector alone gives a single press. |
| FewestPresses.ExampleDoubleCost | 2025/Day10/puzzle19.py:175 | In the counterexample every cost the as-written search compares is at least 2. |
| FewestPresses.DoubleCounted | 2025/Day10/puzzle19.py:168-178 | The counterexample: the fewest presses is 1, but the search as written returns at least 2. |
| FewestPresses.LightestIsFewest | 2025/Day10/puzzle19.py:190-195 | The least weight over the described solutions is the fewest presses over all solutions of A x = b. |
| Machines.Lights | 2025/Day10/puzzle19.py:20 | Light i is on exactly when diagram character i is `#`. |
| Machines.Incidence | 2025/Day10/puzzle19.py:39-45 | The matrix has m rows and one column per button. Entry (i, j) is 1 exactly when button j lists i, and literals outside 0..m-1 are ignored. |
| Machines.Literals | 2025/Day10/puzzle19.py:35-36 | A button's literals are at most its non-empty pieces. A piece that is not an integer is an error. |
| Machines.AllLits | 2025/Day10/puzzle19.py:25-38 | There is one button per text found, in order, or the first error. |
| Machines.AllLitsSnoc | 2025/Day10/puzzle19.py:31-38 | Reading one more button text appends its literals, or turns the result into its error. |
| Machines.AllLitsErr | 2025/Day10/puzzle19.py:36 | An error stays the result whatever follows. |
| Machines.MachineOf | 2025/Day10/puzzle19.py:7-46 | A blank line is (0, [], []). A line without `[`, or without a `]` after it, is the `no diagram` error. A machine has m = \|A\| = \|b\| and rows of one width. |
| Machines.ScanButtons | 2025/Day10/puzzle19.py:22-38 | The `while True` loop reads exactly the texts between each `(` and the next `)`, left to right, until none is left. |
| Machines.ScanStep | 2025/Day10/puzzle19.py:27-38 | One turn moves the text it finds from the part still to scan to the part scanned. |
| Machines.AppendButton | 2025/Day10/puzzle19.py:31-37 | The loop body reads one button text and appends its literals. |
| Machines.InsidesEnd | 2025/Day10/puzzle19.py:26-30 | The scan ends when no `(` is left or none is closed. |
| Machines.InsidesNext | 2025/Day10/puzzle19.py:27-38 | A `(` at p0 closed at p1 gives the text between them, and the scan resumes at p1 + 1. |
| Machines.BuildMatrix | 2025/Day10/puzzle19.py:41-45 | The loops setting `A[lit][j] = 1` build exactly the incidence matrix. |
| Machines.BuildMachine | 2025/Day10/puzzle19.py:18-46 | The machine has m = \|diagram\| and the diagram's lights, or the error met while reading the buttons. |
| Machines.ParseLine | 2025/Day10/puzzle19.py:7-46 | `parse_line` computes the machine the line describes. |
| Machines.MachineOfText | 2025/Day10/puzzle19.py:10-46 | On the stripped line: an empty line is (0, [], []), a line without `[` is the `no diagram` error, and a machine has m = \|A\| = \|b\| and rows of one width. |
| Machines.ParseText | 2025/Day10/puzzle19.py:10-46 | After the strip, the body of `parse_line` computes the machine of the stripped line: the diagram between the first `[` and the next `]`, the buttons after it. |
| Machines.Diagram | 2025/Day10/puzzle19.py:20 | Rendering a diagram writes `#` for a lit light and `.` for an unlit one. |
| Machines.ParseRender | 2025/Day10/puzzle19.py:7-46 | A line written from lights, buttons and a tail without `(` reads back as that machine. |
| Machines.ReadLine | 2025/Day10/puzzle19.py:13-22 | A stripped line `[d]rest` is diagram d with the buttons of rest. |
| Machines.DiagramAt | 2025/Day10/puzzle19.py:14-18 | In `[d]rest` the diagram is found at the front. |
| Machines.FindFromShift | 2025/Day10/puzzle19.py:27-28 | `index(c, start)` past a prefix is the search in what follows, shifted by the prefix. |
| Machines.InsidesShift | 2025/Day10/puzzle19.py:22-38 | Scanning past a prefix is scanning what follows. |
| Machines.FirstButton | 2025/Day10/puzzle19.py:27-38 | Text that opens with one parenthesised button yields that button's text first. |
| Machines.InsidesRender | 2025/Day10/puzzle19.py:22-38 | Scanning rendered buttons finds each button's text in order. |
| Machines.NumbersRead | 2025/Day10/puzzle19.py:35-36 | Comma-joined decimal literals read back as those numbers. |
| Machines.ReadNumber | 2025/Day10/puzzle19.py:36 | `int(x)` of a number's decimal text is that number. |
| Factory.FewestUnique | 2025/Day10/puzzle19.py:194 | The fewest presses of a machine is one number. |
| Factory.TallyUnique | 2025/Day10/puzzle19.py:181-196 | What each line adds is determined by the line. |
| Factory.LineTotal | 2025/Day10/puzzle19.py:185-195 | One line adds the fewest presses of its machine. It adds 0 when the line is blank, the machine has no lights or no presses light it. A line that is not a machine raises its parse error. |
| Factory.TallyStep | 2025/Day10/puzzle19.py:184-195 | One more line is tallied and its presses are added to the total. |
| Factory.TallyError | 2025/Day10/puzzle19.py:187 | An error on a line after only machines is the first error. |
| Factory.TallyOk | 2025/Day10/puzzle19.py:181-196 | When every line is tallied, no line is an error. |
| Factory.SolveLines | 2025/Day10/puzzle19.py:181-196 | `solve_file` fails exactly when some line is not a machine, with the first such line's error. Otherwise it returns the sum over the lines of what each adds. |
| DeviceGraph.LineEdges | 2025/Day11/puzzle21.py:8-15 | A line adds nothing exactly when it is blank after stripping or has no `:`. Otherwise it adds its source and the tokens after the first `:`. |
| DeviceGraph.ParseGraph | 2025/Day11/puzzle21.py:5-17 | The loop of `parse` builds the graph the lines describe, one line at a time. |
| DeviceGraph.EntriesStep | 2025/Day11/puzzle21.py:7-16 | A line without an entry adds nothing. A line with one appends that entry after the others. |
| DeviceGraph.BuildSnoc | 2025/Day11/puzzle21.py:16 | `g[src].extend(toks)` appends the tokens to the source's outputs, starting from empty for a new source. |
| DeviceGraph.GraphOutputs | 2025/Day11/puzzle21.py:5-17 | A device's outputs are the tokens of every entry naming it, concatenated in input order. Nothing is dropped, reordered or merged. |
| DeviceGraph.GraphSources | 2025/Day11/puzzle21.py:11-16 | A device is a key exactly when some line with `:` names it as source, even with nothing after the `:`. |
| DevicePaths.Nodes | 2025/Day11/puzzle21.py:24-38 | Every source and every output is a device the search can reach. |
| DevicePaths.ViaStep | 2025/Day11/puzzle21.py:34-35 | `total += dfs(v)` adds output i's path count to the sum over the outputs before it. |
| DevicePaths.PathCountAnyRank | 2025/Day11/puzzle21.py:24-38 | The path count does not depend on which ranking witnesses that the graph has no cycle. |
| DevicePaths.PathsViaAnyRank | 2025/Day11/puzzle21.py:34-35 | Neither does the sum over a device's outputs. |
| DevicePaths.DeadEnd | 2025/Day11/puzzle21.py:34 | `graph.get(u, [])` is empty for a device other than the goal with no outputs, so it leads to 0 paths. |
| DevicePaths.AboveStep | 2025/Day11/puzzle21.py:32-35 | On a graph without cycles, the search path plus u still ranks above each output of u. |
| DevicePaths.Deeper | 2025/Day11/puzzle21.py:32 | `visiting.add(u)` leaves fewer devices off the path, which makes the recursion end. |
| DevicePaths.Unmark | 2025/Day11/puzzle21.py:36 | `visiting.remove(u)` restores the path as it was. |
| DevicePaths.PathCounter.constructor | 2025/Day11/puzzle21.py:21-22 | The search starts with `memo = {}` and `visiting = set()`. |
| DevicePaths.PathCounter.Dfs | 2025/Day11/puzzle21.py:24-38 | `dfs(u)` gives 1 at the goal, a stored count, 0 for a device on the search path, or the stored sum over the outputs. The path is restored and no stored count changes. Without cycles the result is the number of paths from u to the goal. |
| DevicePaths.PathCounter.Visit | 2025/Day11/puzzle21.py:32-38 | u joins the path while its outputs are searched and leaves it after. The sum is stored for u. |
| DevicePaths.PathCounter.SumOutputs | 2025/Day11/puzzle21.py:33-35 | The loop sums the outputs' path counts, and 0 when there are none. |
| DevicePaths.PathCounter.Store | 2025/Day11/puzzle21.py:37 | `memo[u] = total` keeps every stored count a path count. |
| DevicePaths.CountPaths | 2025/Day11/puzzle21.py:20-40 | `count_paths` is 1 when start is the goal, and 0 from a device other than the goal with no outputs. On a graph without cycles it is the number of paths from start to goal. |
| DevicePathsBoth.BothViaStep | 2025/Day11/puzzle22.py:35-36 | `total += dfs(v, saw_a or v == a, saw_b or v == b)` adds output i's count to the sum before it. |
| DevicePathsBoth.BothSeen | 2025/Day11/puzzle22.py:24-39 | Once both devices are passed, the count from u is the plain path count. |
| DevicePathsBoth.BothSeenVia | 2025/Day11/puzzle22.py:35-36 | Once both devices are passed, the sum over the outputs is the plain sum. |
| DevicePathsBoth.BothAtMost | 2025/Day11/puzzle22.py:24-39 | The paths through both devices are at most all the paths. |
| DevicePathsBoth.BothAtMostVia | 2025/Day11/puzzle22.py:35-36 | The same holds output by output. |
| DevicePathsBoth.BothCounter.constructor | 2025/Day11/puzzle22.py:21-22 | The search starts with an empty memo and an empty path. |
| DevicePathsBoth.BothCounter.Dfs | 2025/Day11/puzzle22.py:24-39 | `dfs(u, saw_a, saw_b)` gives the stored count for the key. Otherwise it is, at the goal, 1 when both devices were seen and 0 otherwise; 0 for a device on the path; or the sum over the outputs, stored under the key. The path is restored and no stored count changes. Without cycles it is the number of paths from u to the goal through both devices, given what was seen. |
| DevicePathsBoth.BothCounter.Visit | 2025/Day11/puzzle22.py:33-39 | u joins the path while its outputs are searched and leaves it after. The sum is stored under the key. |
| DevicePathsBoth.BothCounter.SumOutputs | 2025/Day11/puzzle22.py:34-36 | The loop sums the outputs' counts, turning a flag on when the output is a or b. |
| DevicePathsBoth.BothCounter.AddOutput | 2025/Day11/puzzle22.py:35-36 | One turn of that loop adds output i's count. |
| DevicePathsBoth.BothCounter.GrowsTrans | 2025/Day11/puzzle22.py:38 | Stored counts only grow across nested searches. |
| DevicePathsBoth.BothCounter.Store | 2025/Day11/puzzle22.py:38 | `memo[key] = total` keeps every stored count correct. |
| DevicePathsBoth.CountPathsWithBoth | 2025/Day11/puzzle22.py:20-44 | The flags start as whether start is a or b. When start is the goal, the result is 1 exactly when start is both a and b. On a graph without cycles, it is the number of paths from start to goal passing a and b. |
| Headers.DigitsEnd | 2025/Day12/puzzle23.py:19 | The `\d+` run starting at i ends at the first non-digit, or at the end of the line. |
| Headers.DigitsEndAt | 2025/Day12/puzzle23.py:19 | A digit run followed by a non-digit at e ends at e. |
| Headers.DigitsSlice | 2025/Day12/puzzle23.py:22 | A slice is all digits exactly when each of its characters is a digit. |
| Headers.IndexHeaderMeans | 2025/Day12/puzzle23.py:22 | `re.match(r"^(\d+):", line)` succeeds exactly when the line starts with a non-empty digit run followed by `:`. |
| Headers.RegionHeaderMeans | 2025/Day12/puzzle23.py:19 | `re.match(r"^\d+x\d+:", line)` succeeds exactly when the line starts with digits, `x`, digits and `:`. |
| Headers.RegionHeaderParts | 2025/Day12/puzzle23.py:61 | A region header splits where its two digit runs end. |
| Headers.RegionSplitAt | 2025/Day12/puzzle23.py:61 | A line that reads as a region at k and j is a region header, and its digit runs end at k and j. |
| Headers.HeadersDisjoint | 2025/Day12/puzzle23.py:19-22 | No line is both a shape header and a region header: the leading digits are followed by `:` in one and by `x` in the other. |
| Headers.GroupsAt | 2025/Day12/puzzle23.py:61-65 | The groups of `^(\d+)x(\d+):\s*(.*)$` on a line that reads as a region at k and j are the digits before k, the digits between k and j, and the text after j. |
| Headers.Ints | 2025/Day12/puzzle23.py:68 | `[int(x) for x in ...]` gives one integer per token. It fails exactly when some token is not an integer. |
| Headers.CountsWords | 2025/Day12/puzzle23.py:67-68 | The counts are the whitespace-separated words read as integers, and an empty rest gives no counts. Reading fails exactly when a word is not an integer. |
| Headers.RegionOfAt | 2025/Day12/puzzle23.py:61-68 | The width is the digits before `x` and the height the digits between `x` and `:`. The counts are the words after `:`. The line fails exactly when one of those words is not an integer. |
| Presents.RawHeaderStripped | 2025/Day12/puzzle23.py:15-22 | A line that starts with a shape header still starts with one once stripped. |
| Presents.KindOf | 2025/Day12/puzzle23.py:15-34 | A line's kind is consistent: a blank line is no header, and a shape header as written is a shape header once stripped. |
| Presents.Kinds | 2025/Day12/puzzle23.py:15-34 | Each line is classified once, in order. |
| Presents.RowsEnd | 2025/Day12/puzzle23.py:29-37 | The inner row loop stops at the first line that is blank, a shape header as written or a region header once stripped, or at the end. |
| Presents.RowsEndSpec | 2025/Day12/puzzle23.py:29-37 | The line where the rows stop ends rows, and no line before it does. |
| Presents.After | 2025/Day12/puzzle23.py:31-33 | A blank line that stops the rows is consumed (`i += 1; break`). A header that stops them is not. |
| Presents.ShapeSection | 2025/Day12/puzzle23.py:14-42 | The shape loop's outcome is always a position within the input. |
| Presents.FirstRegion | 2025/Day12/puzzle23.py:19-20 | The first stripped region header at or after i, or the end. |
| Presents.FirstRegionSkip | 2025/Day12/puzzle23.py:19-20 | Skipping lines that are not region headers does not move it. |
| Presents.ShapeSpan | 2025/Day12/puzzle23.py:26-37 | No region header lies between a shape header and the point after its rows. |
| Presents.SectionEnd | 2025/Day12/puzzle23.py:14-42 | When the shape section succeeds, the regions start at the first stripped region header. |
| Presents.SectionError | 2025/Day12/puzzle23.py:22-24 | The shape section fails only at a line that is neither blank nor a shape header nor a region header, before the first region header. |
| Presents.StrayFirst | 2025/Day12/puzzle23.py:14-24 | Such a line after only blank lines makes the section fail: the `ValueError`. |
| Presents.RowsFrom | 2025/Day12/puzzle23.py:29-37 | Every shape row is a line from i on that does not end rows. |
| Presents.RowsClean | 2025/Day12/puzzle23.py:29-37 | Every row of every shape is a line that is not blank, not a shape header as written, and not a region header once stripped. |
| Presents.CollectRows | 2025/Day12/puzzle23.py:26-37 | The rows of one shape are the lines up to the first that ends them, and the loop goes on after that point. |
| Presents.SkipBlanks | 2025/Day12/puzzle23.py:41-42 | Skipping blank lines stops at a non-blank line or the end, and does not change the rest of the section. |
| Presents.SkipBlank | 2025/Day12/puzzle23.py:16-18 | A blank line at the top of the loop is skipped without effect. |
| Presents.ReadSection | 2025/Day12/puzzle23.py:14-42 | The `while i < n` shape loop computes the shape section. |
| Presents.ReadShapes | 2025/Day12/puzzle23.py:9-42 | The shapes and the line where the regions start, each line classified once. |
| Presents.CountCharAppend | 2025/Day12/puzzle23.py:49 | `count("#")` over a concatenation is the sum of the two counts. |
| Presents.AreaConcat | 2025/Day12/puzzle23.py:46-50 | A shape's area is the number of `#` in its rows taken together. |
| Presents.Areas | 2025/Day12/puzzle23.py:45-50 | There is one area per shape, in order. |
| Presents.ShapeAreas | 2025/Day12/puzzle23.py:45-50 | The loop computes every shape's area. |
| Presents.PresentAreaTruncated | 2025/Day12/puzzle23.py:71 | `zip` stops at the shorter list: counts past the last shape and shapes past the last count add nothing. |
| Presents.PresentAreaSnoc | 2025/Day12/puzzle23.py:71 | One more count and area pair adds c·a to the present area. |
| Presents.RegionEntries | 2025/Day12/puzzle23.py:55-68 | Each line of the region section is read on its own. |
| Presents.EntryIsHeader | 2025/Day12/puzzle23.py:56-63 | A line counts as a region exactly when it is a region header once stripped. Blank and other lines are skipped. |
| Presents.RegionCountBound | 2025/Day12/puzzle23.py:55-74 | At most one region passes per region line. |
| Presents.CountStep | 2025/Day12/puzzle23.py:55-74 | A skipped line adds nothing, and a line whose counts fail stops the loop with that error. A region adds 1 exactly when its present area is at most w·h. |
| Presents.CountRegions | 2025/Day12/puzzle23.py:55-74 | The region loop counts the regions from line i whose present area fits. |
| Presents.CountValidRegions | 2025/Day12/puzzle23.py:6-76 | `main` reads the shapes, then their areas, then counts the regions that pass. A stray line in the shape section, or a count that is not an integer, is an error. |

## Left out

- `2025/Day10/puzzle20.py` (Day 10 part 2) hands an integer linear program to an external solver. It is a foreign call, so it is not part of this model.
- File and standard-input reading, `sys.argv`, default paths, `argparse`, the `--mode=` switch of `2025/Day7/puzzle14.py` and all printing are left out. Every solver takes its input as a sequence of lines, or as the values that `read_lines`/`read_points` would produce.
- Day 8 `read_points` is left out with the other input readers: the Day 8 models take the list of points. Day 9 part 1 `read_points` is modelled because its line filter is part of the puzzle.
- `str.strip` and `str.split` use the ASCII characters for which `str.isspace` holds: blank, tab, line feed, vertical tab, form feed, carriage return and 0x1C–0x1F. Unicode whitespace beyond ASCII, such as U+00A0, is not modelled.
- Python's `int()` is modelled as strip, an optional sign and ASCII decimal digits. Underscores and non-ASCII digits are not accepted, and `str.isdigit` is ASCII only.
- The regular expressions of `2025/Day12/puzzle23.py` are written as recognisers: digits then `:`, and digits, `x`, digits, `:`. `\s*(.*)$` is modelled as strip-then-split, which gives the same words.
- `list.sort` and `sorted` are modelled by an insertion sort (`Sorting.Sort`) proved to produce a sorted permutation under the same order. Timsort's stability and speed are not modelled.
- Python integers that encode GF(2) bit vectors (`mask`, `rows[r]`, `1 << j`) are modelled as sequences of booleans, element j standing for bit j.
- Dictionary iteration order in `min_weight_solution` and the order of `set` iteration are not modelled. The results are stated as minima and sums, which do not depend on order.
- Error messages are modelled as fixed strings. Only whether an error occurs, and which line causes it, is stated.
- Performance is not modelled: the early exit on `9` in Day 3 part 2, the 4-neighbour cut-off in Day 4 part 1 and the meet-in-the-middle split only change speed. The model states their results.
- BeamSplitting.Simulate: requires every row to have the same width. The source's `main` pads the rows with `ljust` before calling `simulate` (`2025/Day7/puzzle13.py:59-60`).
- BeamTimelines.QuantumTimelines: requires every row to have the same width, as above. It also requires no two splitters side by side in a row: with a positive count between two adjacent `^`, the source's cascade bounces it back and forth forever (`2025/Day7/puzzle14.py:50-60`).
- BeamTimelines.QuantumTimelines: the source copies each row's counts before its cascade. The model cascades one array in place, which ends with the same counts.
- KDigitMax.MaxKDigitsFromLine: requires a string of digits. `main` passes only the digits of a line (`2025/Day3/puzzle6.py:44`).
- FreshIds.CountFresh: requires the intervals sorted by start. `main` passes the output of `merge_intervals`, which is.
- RowWiseSheet.ParseAndEvalGroup and ColumnWiseSheet.ParseAndEvalGroup: require the group to lie inside the padded grid, as the groups of `find_column_groups` do.
- ColumnGroups.FindColumnGroups: for no lines, part 1's version returns a bare `[]`, which its `main` cannot unpack into two values. The model returns no grid and no groups, as part 2's version does. The failing unpack in `main` is not modelled.
- CoveredLength: part 2 reuses `RangeMerge.MergeIntervals` and the range parser of part 1, because the two scripts' `merge_intervals` are the same code.
- RollRemoval.CountRemovable: the source's grid is a list of lists of characters. The model uses an array of row strings, and a removal replaces the row with that character changed. Rows shared between lists (aliasing) are not modelled.
- DevicePaths.CountPaths and DevicePathsBoth.CountPathsWithBoth: the path count is proved only for graphs without cycles, witnessed by a ranking of the devices. On a graph with cycles, the model states what each call returns (0 for a device on the search path, stored counts unchanged), but not what the total means.
- DevicePaths.PathCounter.Dfs and DevicePathsBoth.BothCounter.Dfs: the nested `dfs` closure becomes a class holding `memo` and `visiting`. Its body is split into `Dfs`, `Visit` and `SumOutputs`.
- FinalConnection.LastConnection: the body of the Kruskal loop of `2025/Day8/puzzle16.py` is the method `FinalConnection.JoinEdge`.
- Presents.CountValidRegions: `main` is split into its phases (`ReadShapes`, `ShapeAreas`, `CountRegions`). Each line is classified once, up front, into a `Kind`. The number in a shape header is not kept, as in the source, where shapes are numbered by position.
- FewestPresses.MinWeightSolution: for more than 22 basis vectors it uses the corrected combination step; see Findings. The as-written search is `FewestPresses.MeetInTheMiddleAsWritten`.

## Findings

| source | as written | input that shows it | evidently intended | confidence | as-written member | corrected member |
|---|---|---|---|---|---|---|
| 2025/Day10/puzzle19.py:168-178 | With more than 22 free variables, each candidate is costed `w + lcnt + rcnt`: the bit count of the full solution plus the number of basis vectors chosen in each half. The basis vectors are already part of the solution, so they are counted twice. | A machine with lights `[##]` and buttons `(0)`, `(1)` and 23 copies of `(0,1)`. The fewest presses is 1, pressing one `(0,1)`, but every cost the search compares is at least 2. | The fewest presses, the least bit count of `part_mask ^ lmask ^ rmask` over all pairs, as in the exhaustive branch at lines 128-138. | not executed | FewestPresses.MeetInTheMiddleAsWritten, FewestPresses.DoubleCounted | FewestPresses.MeetInTheMiddle, FewestPresses.MinWeightSolution |
