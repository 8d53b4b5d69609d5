/** Day 3, part 1 (2025/Day3/puzzle5.py): for each line, keep its digits and
    take the largest two-digit number `10*a + b` formed by a digit `a` before a
    digit `b`; the answer is the sum over all lines. */
module TwoDigitMax {
  import opened Strings

  /** `ord(c) - 48`: a digit's value for '0'..'9', defined for any character. */
  function Ord48(c: char): int {
    c as int - 48
  }

  /** The number read from position `i` followed by position `j`. */
  function PairValue(s: string, i: nat, j: nat): int
    requires i < j < |s|
  {
    10 * Ord48(s[i]) + Ord48(s[j])
  }

  /** The largest `Ord48` among the positions `lo..|s|-1`. */
  function MaxOrdFrom(s: string, lo: nat): (m: int)
    requires lo < |s|
    ensures forall j :: lo <= j < |s| ==> Ord48(s[j]) <= m
    ensures exists j :: lo <= j < |s| && Ord48(s[j]) == m
    decreases |s| - lo
  {
    if lo == |s| - 1 then Ord48(s[lo])
    else
      var m := MaxOrdFrom(s, lo + 1);
      if Ord48(s[lo]) > m then Ord48(s[lo]) else m
  }

  /** Reference definition: the best pair whose first position is at least
      `lo`, or 0 when that is larger (or there is no pair). */
  function BestFrom(s: string, lo: nat): (r: int)
    ensures r >= 0
    ensures forall i, j :: lo <= i < j < |s| ==> PairValue(s, i, j) <= r
    ensures r == 0 || exists i, j :: lo <= i < j < |s| && PairValue(s, i, j) == r
    decreases |s| - lo
  {
    if lo + 1 >= |s| then 0
    else
      var rest := BestFrom(s, lo + 1);
      var m := MaxOrdFrom(s, lo + 1);
      var j :| lo + 1 <= j < |s| && Ord48(s[j]) == m;
      var here := PairValue(s, lo, j);
      if here > rest then here else rest
  }

  /** The answer for one digit string: the maximum of `10*d[i] + d[j]` over
      `i < j`, and 0 when there are fewer than two characters. */
  function BestPair(s: string): (r: int)
    ensures r >= 0
    ensures forall i, j :: 0 <= i < j < |s| ==> PairValue(s, i, j) <= r
    ensures r == 0 || exists i, j :: 0 <= i < j < |s| && PairValue(s, i, j) == r
    ensures |s| < 2 ==> r == 0
  {
    BestFrom(s, 0)
  }

  /** For a string of digits with at least two of them, the best pair is a
      two-digit number (0..99) formed by an actual pair of positions. */
  lemma DigitsBestPair(s: string)
    requires AllDigits(s) && |s| >= 2
    ensures 0 <= BestPair(s) <= 99
    ensures exists i, j :: 0 <= i < j < |s| && PairValue(s, i, j) == BestPair(s)
  {
    var r := BestPair(s);
    assert 0 <= PairValue(s, 0, 1) <= r;
    if r != 0 {
      var i, j :| 0 <= i < j < |s| && PairValue(s, i, j) == r;
      assert Ord48(s[i]) <= 9 && Ord48(s[j]) <= 9;
    }
  }

  /** All pairs `(i, j)` visited before `(i0, j0)` in the nested loops are at most `v`. */
  ghost predicate Covers(s: string, v: int, i0: nat, j0: nat) {
    forall i, j :: 0 <= i < j < |s| && (i < i0 || (i == i0 && j < j0)) ==> PairValue(s, i, j) <= v
  }

  ghost predicate Attained(s: string, v: int) {
    v == 0 || exists i, j :: 0 <= i < j < |s| && PairValue(s, i, j) == v
  }

  /** `max_two_digit_from_line`: the nested loops compute the reference maximum. */
  method MaxTwoDigitFromLine(s: string) returns (maxVal: int)
    ensures maxVal == BestPair(s)
  {
    if |s| < 2 {
      return 0;
    }
    maxVal := 0;
    for i := 0 to |s| - 1
      invariant maxVal >= 0 && Covers(s, maxVal, i, 0) && Attained(s, maxVal)
    {
      var a := Ord48(s[i]);
      for j := i + 1 to |s|
        invariant maxVal >= 0 && Covers(s, maxVal, i, j) && Attained(s, maxVal)
      {
        var b := Ord48(s[j]);
        var val := 10 * a + b;
        if val > maxVal {
          assert val == PairValue(s, i, j);
          maxVal := val;
        }
      }
    }
    assert Covers(s, maxVal, |s|, 0);
    var r := BestPair(s);
    if maxVal != 0 {
      var i, j :| 0 <= i < j < |s| && PairValue(s, i, j) == maxVal;
      assert maxVal <= r;
    }
    if r != 0 {
      var i, j :| 0 <= i < j < |s| && PairValue(s, i, j) == r;
      assert r <= maxVal;
    }
  }

  /** One line of input as `main` treats it: stripped, reduced to its digits,
      and contributing nothing when no digit is left. */
  function LineValue(line: string): (v: int)
    ensures v >= 0
  {
    var digits := DigitsOf(Strip(line));
    if digits == [] then 0 else BestPair(digits)
  }

  function Total(lines: seq<string>): int
  {
    if lines == [] then 0 else Total(lines[..|lines| - 1]) + LineValue(lines[|lines| - 1])
  }

  lemma TotalStep(lines: seq<string>, i: nat)
    requires i < |lines|
    ensures Total(lines[..i + 1]) == Total(lines[..i]) + LineValue(lines[i])
  {
    var l := lines[..i + 1];
    assert l[..i] == lines[..i] && l[i] == lines[i];
  }

  /** The summing loop of `main`: blank lines and lines without a digit are
      skipped, every other line adds its best pair. */
  method SumBestPairs(lines: seq<string>) returns (total: int)
    ensures total == Total(lines)
    ensures total >= 0
  {
    total := 0;
    for i := 0 to |lines|
      invariant total == Total(lines[..i]) && total >= 0
    {
      assert Total(lines[..i + 1]) == Total(lines[..i]) + LineValue(lines[i]) by {
        TotalStep(lines, i);
      }
      var line := Strip(lines[i]);
      if line == [] {
        continue;
      }
      var digits := DigitsOf(line);
      if digits == [] {
        continue;
      }
      var best := MaxTwoDigitFromLine(digits);
      total := total + best;
    }
    assert lines[..|lines|] == lines;
  }
}

/** Day 3, part 2 (2025/Day3/puzzle6.py): for each line, the largest number
    formed by keeping exactly `k` of its digits in order, picked greedily:
    each pick is the first largest digit of the window that still leaves room
    for the remaining picks. `main` uses k = 12. */
module KDigitMax {
  import opened Maybe
  import opened Strings

  const InputK: nat := 12

  /** Strictly increasing positions, all in `lo..n-1`: a choice of characters
      that keeps their order. */
  ghost predicate Increasing(idx: seq<nat>, lo: nat, n: nat) {
    && (forall i :: 0 <= i < |idx| ==> lo <= idx[i] < n)
    && (forall i, j :: 0 <= i < j < |idx| ==> idx[i] < idx[j])
  }

  /** The characters of `s` at the positions `idx`. */
  function Picked(s: string, idx: seq<nat>): (t: string)
    requires forall i :: 0 <= i < |idx| ==> idx[i] < |s|
    ensures |t| == |idx|
    ensures AllDigits(s) ==> AllDigits(t)
  {
    if idx == [] then []
    else
      var t := [s[idx[0]]] + Picked(s, idx[1..]);
      assert forall i :: 0 < i < |t| ==> t[i] == Picked(s, idx[1..])[i - 1];
      t
  }

  lemma PickedCons(s: string, m: nat, rest: seq<nat>)
    requires m < |s| && forall i :: 0 <= i < |rest| ==> rest[i] < |s|
    ensures Picked(s, [m] + rest) == [s[m]] + Picked(s, rest)
  {
    assert ([m] + rest)[1..] == rest;
  }

  /** The first position of the largest character in the window `lo..hi`. */
  function FirstMax(s: string, lo: nat, hi: nat): (m: nat)
    requires lo <= hi < |s|
    ensures lo <= m <= hi
    decreases hi - lo
  {
    if lo == hi then lo
    else
      var m := FirstMax(s, lo + 1, hi);
      if s[lo] >= s[m] then lo else m
  }

  /** `FirstMax` is a largest character of the window, and every character
      before it in the window is strictly smaller. */
  lemma {:induction false} FirstMaxIsFirstLargest(s: string, lo: nat, hi: nat)
    requires lo <= hi < |s|
    ensures forall j :: lo <= j <= hi ==> s[j] <= s[FirstMax(s, lo, hi)]
    ensures forall j :: lo <= j < FirstMax(s, lo, hi) ==> s[j] < s[FirstMax(s, lo, hi)]
    decreases hi - lo
  {
    if lo < hi {
      FirstMaxIsFirstLargest(s, lo + 1, hi);
    }
  }

  /** Any position with the two properties of `FirstMax` is `FirstMax`. */
  lemma FirstMaxUnique(s: string, lo: nat, hi: nat, m: nat)
    requires lo <= m <= hi < |s|
    requires forall j :: lo <= j <= hi ==> s[j] <= s[m]
    requires forall j :: lo <= j < m ==> s[j] < s[m]
    ensures m == FirstMax(s, lo, hi)
  {
    var f := FirstMax(s, lo, hi);
    FirstMaxIsFirstLargest(s, lo, hi);
    assert s[f] <= s[m] && s[m] <= s[f];
  }

  /** The greedy digits: `rem` picks from position `pos` on, each the first
      largest character of the window that leaves room for the picks after it. */
  function Greedy(s: string, pos: nat, rem: nat): (t: string)
    requires pos + rem <= |s|
    ensures |t| == rem
    decreases rem
  {
    if rem == 0 then []
    else
      var m := FirstMax(s, pos, |s| - rem);
      var t := [s[m]] + Greedy(s, m + 1, rem - 1);
      assert forall i :: 0 < i < rem ==> t[i] == Greedy(s, m + 1, rem - 1)[i - 1];
      t
  }

  lemma {:induction false} GreedyAllDigits(s: string, pos: nat, rem: nat)
    requires AllDigits(s) && pos + rem <= |s|
    ensures AllDigits(Greedy(s, pos, rem))
    decreases rem
  {
    if rem > 0 {
      var m := FirstMax(s, pos, |s| - rem);
      var t := Greedy(s, m + 1, rem - 1);
      GreedyAllDigits(s, m + 1, rem - 1);
      assert forall i :: 0 < i < rem ==> Greedy(s, pos, rem)[i] == t[i - 1];
    }
  }

  /** The greedy digits are read at strictly increasing positions. */
  lemma {:induction false} GreedyPositions(s: string, pos: nat, rem: nat) returns (idx: seq<nat>)
    requires pos + rem <= |s|
    ensures |idx| == rem && Increasing(idx, pos, |s|)
    ensures Picked(s, idx) == Greedy(s, pos, rem)
    decreases rem
  {
    if rem == 0 {
      idx := [];
    } else {
      var m := FirstMax(s, pos, |s| - rem);
      var rest := GreedyPositions(s, m + 1, rem - 1);
      idx := [m] + rest;
      assert Increasing(idx, pos, |s|) by {
        assert forall i :: 0 < i < rem ==> idx[i] == rest[i - 1];
      }
      assert Picked(s, idx) == [s[m]] + Greedy(s, m + 1, rem - 1) by {
        PickedCons(s, m, rest);
      }
    }
  }

  lemma ConcatAssoc<T>(a: seq<T>, b: seq<T>, c: seq<T>)
    ensures a + (b + c) == (a + b) + c
  {
  }

  /** The answer for `n >= k`: the value of the greedy digits. */
  function Best(s: string, k: nat): (v: nat)
    requires AllDigits(s) && k <= |s|
  {
    GreedyAllDigits(s, 0, k);
    Value(Greedy(s, 0, k))
  }

  /** `int(...)` of a digit string that starts with `c`. */
  lemma ValueCons(c: char, t: string)
    requires IsDigit(c) && AllDigits(t)
    ensures AllDigits([c] + t)
    ensures Value([c] + t) == DigitValue(c) * Pow10(|t|) + Value(t)
  {
    assert Value([c]) == DigitValue(c) by {
      assert [c][..0] == [];
    }
    ValueAppend([c], t);
  }

  /** In a strictly increasing choice, the first position leaves room for the others. */
  lemma {:induction false} IncreasingSpread(idx: seq<nat>, lo: nat, n: nat)
    requires Increasing(idx, lo, n) && idx != []
    ensures idx[0] + |idx| <= n
    decreases |idx|
  {
    if |idx| > 1 {
      var rest := idx[1..];
      assert Increasing(rest, idx[1], n) by {
        assert forall i :: 0 < i < |rest| ==> rest[i] == idx[i + 1];
      }
      IncreasingSpread(rest, idx[1], n);
    }
  }

  /** Dropping the first position leaves positions after it. */
  lemma IncreasingTail(idx: seq<nat>, lo: nat, n: nat, lo': nat)
    requires Increasing(idx, lo, n) && idx != [] && lo' <= idx[0] + 1
    ensures Increasing(idx[1..], lo', n)
  {
    assert forall i :: 0 <= i < |idx| - 1 ==> idx[1..][i] == idx[i + 1];
  }

  /** The number read from chosen positions, split after its first digit. */
  lemma PickedValue(s: string, idx: seq<nat>)
    requires AllDigits(s) && idx != [] && forall i :: 0 <= i < |idx| ==> idx[i] < |s|
    ensures Value(Picked(s, idx)) == DigitValue(s[idx[0]]) * Pow10(|idx| - 1) + Value(Picked(s, idx[1..]))
  {
    var t := Picked(s, idx[1..]);
    assert Picked(s, idx) == [s[idx[0]]] + t;
    ValueCons(s[idx[0]], t);
  }

  /** The greedy number, split after its first digit. */
  lemma GreedyValue(s: string, pos: nat, rem: nat)
    requires AllDigits(s) && rem >= 1 && pos + rem <= |s|
    ensures AllDigits(Greedy(s, pos, rem))
    ensures var m := FirstMax(s, pos, |s| - rem);
      AllDigits(Greedy(s, m + 1, rem - 1)) &&
      Value(Greedy(s, pos, rem)) == DigitValue(s[m]) * Pow10(rem - 1) + Value(Greedy(s, m + 1, rem - 1))
  {
    var m := FirstMax(s, pos, |s| - rem);
    GreedyAllDigits(s, m + 1, rem - 1);
    ValueCons(s[m], Greedy(s, m + 1, rem - 1));
  }

  /** The window scan's pick extends the digits chosen so far. */
  lemma GreedyAdvance(s: string, k: nat, pos: nat, rem: nat, digits: string, m: nat)
    requires rem >= 1 && pos + rem <= |s| && k <= |s|
    requires m == FirstMax(s, pos, |s| - rem)
    requires digits + Greedy(s, pos, rem) == Greedy(s, 0, k)
    ensures (digits + [s[m]]) + Greedy(s, m + 1, rem - 1) == Greedy(s, 0, k)
  {
    ConcatAssoc(digits, [s[m]], Greedy(s, m + 1, rem - 1));
  }

  /** A smaller leading digit loses however the rest is chosen. */
  lemma LeadingDigitDecides(a: nat, b: nat, x: nat, y: nat, p: nat)
    requires a < b && x < p
    ensures a * p + x < b * p + y
  {
    assert (a + 1) * p <= b * p;
  }

  /** The first of any order-preserving choice lies in the first greedy
      window, so its character is at most the greedy pick; when it is equal,
      the rest of the choice lies after the greedy pick. */
  lemma FirstChoice(s: string, pos: nat, rem: nat, idx: seq<nat>)
    requires pos + rem <= |s| && rem >= 1
    requires |idx| == rem && Increasing(idx, pos, |s|)
    ensures s[idx[0]] <= s[FirstMax(s, pos, |s| - rem)]
    ensures s[idx[0]] == s[FirstMax(s, pos, |s| - rem)] ==>
      Increasing(idx[1..], FirstMax(s, pos, |s| - rem) + 1, |s|)
  {
    var m := FirstMax(s, pos, |s| - rem);
    IncreasingSpread(idx, pos, |s|);
    FirstMaxIsFirstLargest(s, pos, |s| - rem);
    if s[idx[0]] == s[m] {
      IncreasingTail(idx, pos, |s|, m + 1);
    }
  }

  /** Comparing a choice with the greedy digits by their first digit, then
      by the rest. */
  lemma CompareFirst(s: string, pos: nat, rem: nat, idx: seq<nat>)
    requires AllDigits(s) && pos + rem <= |s| && rem >= 1
    requires |idx| == rem && Increasing(idx, pos, |s|)
    ensures AllDigits(Greedy(s, pos, rem))
    ensures var m := FirstMax(s, pos, |s| - rem);
      AllDigits(Greedy(s, m + 1, rem - 1)) &&
      (s[idx[0]] < s[m] ==> Value(Picked(s, idx)) < Value(Greedy(s, pos, rem))) &&
      (s[idx[0]] == s[m] && Value(Picked(s, idx[1..])) <= Value(Greedy(s, m + 1, rem - 1)) ==>
        Value(Picked(s, idx)) <= Value(Greedy(s, pos, rem)))
  {
    var m := FirstMax(s, pos, |s| - rem);
    var p := Pow10(rem - 1);
    var mine := Picked(s, idx[1..]);
    var theirs := Greedy(s, m + 1, rem - 1);
    PickedValue(s, idx);
    GreedyValue(s, pos, rem);
    if s[idx[0]] < s[m] {
      LeadingDigitDecides(DigitValue(s[idx[0]]), DigitValue(s[m]), Value(mine), Value(theirs), p);
    }
  }

  /** Greedy is optimal: no order-preserving choice of `rem` characters from
      `pos` on reads as a larger number than the greedy digits. */
  lemma {:induction false} GreedyOptimal(s: string, pos: nat, rem: nat, idx: seq<nat>)
    requires AllDigits(s) && pos + rem <= |s|
    requires |idx| == rem && Increasing(idx, pos, |s|)
    ensures AllDigits(Greedy(s, pos, rem))
    ensures Value(Picked(s, idx)) <= Value(Greedy(s, pos, rem))
    decreases rem
  {
    GreedyAllDigits(s, pos, rem);
    if rem > 0 {
      var m := FirstMax(s, pos, |s| - rem);
      FirstChoice(s, pos, rem, idx);
      if s[idx[0]] == s[m] {
        GreedyOptimal(s, m + 1, rem - 1, idx[1..]);
      }
      CompareFirst(s, pos, rem, idx);
    }
  }

  /** `Best` is the maximum over all order-preserving choices of `k`
      characters... */
  lemma BestIsMaximum(s: string, k: nat, idx: seq<nat>)
    requires AllDigits(s) && k <= |s|
    requires |idx| == k && Increasing(idx, 0, |s|)
    ensures Value(Picked(s, idx)) <= Best(s, k)
  {
    GreedyOptimal(s, 0, k, idx);
  }

  /** ...and it is reached by one of them. */
  lemma BestIsReached(s: string, k: nat) returns (idx: seq<nat>)
    requires AllDigits(s) && k <= |s|
    ensures |idx| == k && Increasing(idx, 0, |s|) && Value(Picked(s, idx)) == Best(s, k)
  {
    idx := GreedyPositions(s, 0, k);
  }

  /** `max_k_digits_from_line`'s outcome: 0 when the line is shorter than `k`;
      an error for `k <= 0`, where no digit is picked and `int('')` raises. */
  function MaxK(s: string, k: int): (r: Result<nat>)
    requires AllDigits(s)
    ensures r.Err? <==> |s| >= k && k <= 0
  {
    if |s| < k then Ok(0)
    else if k <= 0 then Err("invalid literal for int() with base 10: ''")
    else Ok(Best(s, k))
  }

  /** The window scan of `max_k_digits_from_line`: the largest digit of
      `s[lo..hi]` and its first position. The early exit on '9' does not
      change the outcome, since no digit is larger. */
  method WindowMax(s: string, lo: nat, hi: nat) returns (maxD: char, maxIdx: nat)
    requires AllDigits(s) && lo <= hi < |s|
    ensures maxIdx == FirstMax(s, lo, hi) && maxD == s[maxIdx]
  {
    var found: Option<char> := None; // '-1', below every digit
    maxIdx := lo;
    var idx := lo;
    while idx <= hi
      invariant lo <= idx <= hi + 1
      invariant found.None? <==> idx == lo
      invariant found.Some? ==> lo <= maxIdx < idx && found.value == s[maxIdx]
      invariant found.Some? ==> forall j :: lo <= j < idx ==> s[j] <= s[maxIdx]
      invariant found.Some? ==> forall j :: lo <= j < maxIdx ==> s[j] < s[maxIdx]
    {
      var ch := s[idx];
      if found.None? || ch > found.value {
        found := Some(ch);
        maxIdx := idx;
        if ch == '9' {
          break;
        }
      }
      idx := idx + 1;
    }
    assert found.Some? && lo <= maxIdx <= hi;
    assert forall j :: lo <= j <= hi ==> s[j] <= s[maxIdx];
    FirstMaxUnique(s, lo, hi, maxIdx);
    maxD := found.value;
  }

  /** The selection loop of `max_k_digits_from_line`: `k` window scans, each
      starting just after the previous pick. */
  method SelectDigits(s: string, k: nat) returns (digits: string)
    requires AllDigits(s) && k <= |s|
    ensures digits == Greedy(s, 0, k)
  {
    var n := |s|;
    var pos: nat := 0;
    var remaining: nat := k;
    digits := [];
    while remaining > 0
      invariant pos + remaining <= n
      invariant digits + Greedy(s, pos, remaining) == Greedy(s, 0, k)
    {
      var end := n - remaining;
      var maxD, maxIdx := WindowMax(s, pos, end);
      GreedyAdvance(s, k, pos, remaining, digits, maxIdx);
      digits := digits + [maxD];
      pos := maxIdx + 1;
      remaining := remaining - 1;
    }
    assert Greedy(s, pos, remaining) == [];
    assert digits + [] == digits;
  }

  /** `max_k_digits_from_line`: the number read from the greedy digits. */
  method MaxKDigitsFromLine(s: string, k: int) returns (r: Result<nat>)
    requires AllDigits(s)
    ensures r == MaxK(s, k)
  {
    if |s| < k {
      return Ok(0);
    }
    if k <= 0 {
      // the selection loop does not run, and `int('')` raises
      return Err("invalid literal for int() with base 10: ''");
    }
    var digits := SelectDigits(s, k);
    GreedyAllDigits(s, 0, k);
    return Ok(Value(digits));
  }

  /** One line of input as `main` treats it, with k = 12. */
  function LineValue(line: string): (v: nat)
  {
    var digits := DigitsOf(Strip(line));
    if digits == [] then 0 else MaxK(digits, InputK).value
  }

  function Total(lines: seq<string>): nat
  {
    if lines == [] then 0 else Total(lines[..|lines| - 1]) + LineValue(lines[|lines| - 1])
  }

  lemma TotalStep(lines: seq<string>, i: nat)
    requires i < |lines|
    ensures Total(lines[..i + 1]) == Total(lines[..i]) + LineValue(lines[i])
  {
    var l := lines[..i + 1];
    assert l[..i] == lines[..i] && l[i] == lines[i];
  }

  /** A line with fewer than twelve digits adds nothing. */
  lemma ShortLine(line: string)
    requires |DigitsOf(Strip(line))| < InputK
    ensures LineValue(line) == 0
  {
  }

  /** The summing loop of `main`. */
  method SumMaxK(lines: seq<string>) returns (total: nat)
    ensures total == Total(lines)
  {
    total := 0;
    for i := 0 to |lines|
      invariant total == Total(lines[..i])
    {
      assert Total(lines[..i + 1]) == Total(lines[..i]) + LineValue(lines[i]) by {
        TotalStep(lines, i);
      }
      var line := Strip(lines[i]);
      if line == [] {
        continue;
      }
      var digits := DigitsOf(line);
      if digits == [] {
        continue;
      }
      var best := MaxKDigitsFromLine(digits, InputK);
      total := total + best.value;
    }
    assert lines[..|lines|] == lines;
  }
}
