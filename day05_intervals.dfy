/** Day 5 (2025/Day5/puzzle9.py and 2025/Day5/puzzle10.py): inclusive id
    ranges "a-b", merged into a sorted list of separated intervals. Both files
    carry the same `parse_ranges`/`parse_intervals` loop and the same
    `merge_intervals`; they are modelled once, here. */
module RangeMerge {
  import opened Maybe
  import opened Strings
  import opened Sorting

  /** An inclusive range; the parser orders its bounds. */
  datatype Interval = Interval(lo: int, hi: int)

  predicate Contains(iv: Interval, x: int) {
    iv.lo <= x <= iv.hi
  }

  /** The integers an interval covers (none when `lo > hi`). */
  ghost function Span(iv: Interval): set<int> {
    set x | iv.lo <= x <= iv.hi && Contains(iv, x)
  }

  /** The integers some interval of the list covers. */
  ghost function Covered(ivs: seq<Interval>): set<int> {
    if ivs == [] then {} else Covered(ivs[..|ivs| - 1]) + Span(ivs[|ivs| - 1])
  }

  lemma {:induction false} CoveredMember(ivs: seq<Interval>, x: int)
    ensures x in Covered(ivs) <==> exists i :: 0 <= i < |ivs| && ivs[i].lo <= x <= ivs[i].hi
  {
    if ivs != [] {
      var init := ivs[..|ivs| - 1];
      CoveredMember(init, x);
      if x in Covered(init) {
        var i :| 0 <= i < |init| && init[i].lo <= x <= init[i].hi;
        assert ivs[i] == init[i];
      }
      if exists i :: 0 <= i < |ivs| && ivs[i].lo <= x <= ivs[i].hi {
        var i :| 0 <= i < |ivs| && ivs[i].lo <= x <= ivs[i].hi;
        if i < |ivs| - 1 {
          assert init[i] == ivs[i];
        }
      }
    }
  }

  lemma CoveredSnoc(ivs: seq<Interval>, iv: Interval)
    ensures Covered(ivs + [iv]) == Covered(ivs) + Span(iv)
  {
    assert (ivs + [iv])[..|ivs|] == ivs;
  }

  /** Coverage does not depend on the order of the list. */
  lemma CoveredPermutation(s: seq<Interval>, t: seq<Interval>)
    requires multiset(s) == multiset(t)
    ensures Covered(s) == Covered(t)
  {
    forall x | x in Covered(s)
      ensures x in Covered(t)
    {
      CoveredMember(s, x);
      var i :| 0 <= i < |s| && s[i].lo <= x <= s[i].hi;
      assert s[i] in multiset(t);
      var j :| 0 <= j < |t| && t[j] == s[i];
      CoveredMember(t, x);
    }
    forall x | x in Covered(t)
      ensures x in Covered(s)
    {
      CoveredMember(t, x);
      var j :| 0 <= j < |t| && t[j].lo <= x <= t[j].hi;
      assert t[j] in multiset(s);
      var i :| 0 <= i < |s| && s[i] == t[j];
      CoveredMember(s, x);
    }
  }

  /** Two intervals that overlap or touch, the second starting no earlier,
      cover what their hull covers. */
  lemma SpanJoin(a: Interval, b: Interval)
    requires a.lo <= b.lo <= a.hi + 1
    ensures Span(a) + Span(b) == Span(Interval(a.lo, if b.hi > a.hi then b.hi else a.hi))
  {
  }

  /** The sweep joins an overlapping or touching interval into the current one. */
  lemma JoinStep(before: set<int>, merged: seq<Interval>, cur: Interval, iv: Interval)
    requires before == Covered(merged) + Span(cur)
    requires cur.lo <= iv.lo <= cur.hi + 1
    ensures before + Span(iv) == Covered(merged) + Span(Interval(cur.lo, if iv.hi > cur.hi then iv.hi else cur.hi))
  {
    SpanJoin(cur, iv);
  }

  /** The sweep closes the current interval and starts a new one. */
  lemma PushStep(before: set<int>, merged: seq<Interval>, cur: Interval, iv: Interval)
    requires before == Covered(merged) + Span(cur)
    ensures before + Span(iv) == Covered(merged + [cur]) + Span(iv)
  {
    CoveredSnoc(merged, cur);
  }

  /** Every interval has `lo <= hi`. */
  predicate WellFormed(ivs: seq<Interval>) {
    forall i :: 0 <= i < |ivs| ==> ivs[i].lo <= ivs[i].hi
  }

  /** Starts in order, and a gap of at least one integer between any interval
      and every later one. */
  predicate Separated(ivs: seq<Interval>) {
    forall i, j :: 0 <= i < j < |ivs| ==> ivs[i].lo <= ivs[j].lo && ivs[i].hi + 1 < ivs[j].lo
  }

  lemma WellFormedPermutation(s: seq<Interval>, t: seq<Interval>)
    requires multiset(s) == multiset(t) && WellFormed(s)
    ensures WellFormed(t)
  {
    forall j | 0 <= j < |t|
      ensures t[j].lo <= t[j].hi
    {
      assert t[j] in multiset(s);
    }
  }

  /** Python's order on `(s, e)` tuples: by start, then by end. */
  predicate IntervalLe(a: Interval, b: Interval) {
    a.lo < b.lo || (a.lo == b.lo && a.hi <= b.hi)
  }

  lemma IntervalOrder()
    ensures TotalPreorder(IntervalLe)
  {
  }

  /** One line of the range section: it needs a '-', and both sides of the
      first '-' must be integers; reversed bounds are swapped. */
  function IntervalOf(ln: string): (r: Option<Interval>)
    ensures r.Some? <==>
      '-' in ln && ParseInt(SplitOnce(ln, '-').0).Some? && ParseInt(SplitOnce(ln, '-').1).Some?
    ensures r.Some? ==> r.value.lo <= r.value.hi
    ensures r.Some? ==>
      var (a, b) := SplitOnce(ln, '-');
      {r.value.lo, r.value.hi} == {ParseInt(a).value, ParseInt(b).value}
  {
    if '-' !in ln then None
    else
      var (a, b) := SplitOnce(ln, '-');
      match (ParseInt(a), ParseInt(b))
      case (Some(s), Some(e)) => Some(if s > e then Interval(e, s) else Interval(s, e))
      case _ => None
  }

  /** The intervals of the lines that parse, in order. */
  function Intervals(lines: seq<string>): (ivs: seq<Interval>)
    ensures |ivs| <= |lines|
    ensures WellFormed(ivs)
  {
    if lines == [] then []
    else
      var init := Intervals(lines[..|lines| - 1]);
      match IntervalOf(lines[|lines| - 1])
      case None => init
      case Some(iv) => init + [iv]
  }

  /** `parse_ranges` / `parse_intervals`. */
  method ParseRanges(lines: seq<string>) returns (ranges: seq<Interval>)
    ensures ranges == Intervals(lines)
  {
    ranges := [];
    for i := 0 to |lines|
      invariant ranges == Intervals(lines[..i])
    {
      var ln := lines[i];
      assert lines[..i + 1][..i] == lines[..i];
      if '-' !in ln {
        continue;
      }
      var (a, b) := SplitOnce(ln, '-');
      var s, e := ParseInt(a), ParseInt(b);
      if s.None? || e.None? {
        continue;
      }
      var lo, hi := s.value, e.value;
      if lo > hi {
        lo, hi := hi, lo;
      }
      ranges := ranges + [Interval(lo, hi)];
    }
    assert lines[..|lines|] == lines;
  }

  /** What the sweep of `merge_intervals` keeps after reading `ivs[..k]`:
      `merged` and the open interval `cur` cover what was read, `merged` is
      separated and lies strictly left of `cur` with a gap, and nothing yet
      to be read starts before `cur`. */
  ghost predicate SweepInv(ivs: seq<Interval>, k: nat, merged: seq<Interval>, cur: Interval) {
    && 1 <= k <= |ivs|
    && Covered(ivs[..k]) == Covered(merged) + Span(cur)
    && Separated(merged)
    && (forall i :: 0 <= i < |merged| ==> merged[i].lo <= cur.lo && merged[i].hi + 1 < cur.lo)
    && (forall j :: k <= j < |ivs| ==> cur.lo <= ivs[j].lo)
    && (WellFormed(ivs) ==> cur.lo <= cur.hi && WellFormed(merged))
    && |merged| < k
  }

  /** One step of the sweep: an interval that overlaps or touches `cur` is
      joined into it; any other closes `cur` and becomes the new one. */
  function SweepStep(merged: seq<Interval>, cur: Interval, iv: Interval): (seq<Interval>, Interval) {
    if iv.lo <= cur.hi + 1 then (merged, Interval(cur.lo, if iv.hi > cur.hi then iv.hi else cur.hi))
    else (merged + [cur], iv)
  }

  lemma SweepInvStart(ivs: seq<Interval>)
    requires ivs != []
    requires forall i, j :: 0 <= i < j < |ivs| ==> ivs[i].lo <= ivs[j].lo
    ensures SweepInv(ivs, 1, [], ivs[0])
  {
    assert ivs[..1] == [] + [ivs[0]];
    assert Covered(ivs[..1]) == Span(ivs[0]) by {
      CoveredSnoc([], ivs[0]);
    }
    assert Covered([]) == {};
  }

  /** The step keeps the sweep's invariant. */
  lemma SweepInvStep(ivs: seq<Interval>, k: nat, merged: seq<Interval>, cur: Interval)
    requires forall i, j :: 0 <= i < j < |ivs| ==> ivs[i].lo <= ivs[j].lo
    requires SweepInv(ivs, k, merged, cur) && k < |ivs|
    ensures SweepInv(ivs, k + 1, SweepStep(merged, cur, ivs[k]).0, SweepStep(merged, cur, ivs[k]).1)
  {
    var iv := ivs[k];
    assert ivs[..k + 1] == ivs[..k] + [iv];
    CoveredSnoc(ivs[..k], iv);
    if iv.lo <= cur.hi + 1 {
      JoinStep(Covered(ivs[..k]), merged, cur, iv);
    } else {
      PushStep(Covered(ivs[..k]), merged, cur, iv);
      var m := merged + [cur];
      assert Separated(m) by {
        forall i, j | 0 <= i < j < |m| ensures m[i].lo <= m[j].lo && m[i].hi + 1 < m[j].lo {
          if j == |merged| {
            assert m[i] == merged[i] && m[j] == cur;
          }
        }
      }
      assert WellFormed(ivs) ==> iv.lo <= iv.hi;
    }
  }

  /** At the end, closing `cur` leaves a separated list covering the input. */
  lemma SweepInvEnd(ivs: seq<Interval>, merged: seq<Interval>, cur: Interval)
    requires SweepInv(ivs, |ivs|, merged, cur)
    ensures Covered(merged + [cur]) == Covered(ivs)
    ensures Separated(merged + [cur])
    ensures WellFormed(ivs) ==> WellFormed(merged + [cur])
  {
    CoveredSnoc(merged, cur);
    assert ivs[..|ivs|] == ivs;
    var m := merged + [cur];
    forall i, j | 0 <= i < j < |m| ensures m[i].lo <= m[j].lo && m[i].hi + 1 < m[j].lo {
      if j == |merged| {
        assert m[i] == merged[i] && m[j] == cur;
      }
    }
  }

  /** The sweep of `merge_intervals` over a list sorted by start: joins each
      interval that overlaps or touches the current one. The result covers
      the same integers, in separated intervals in increasing order. */
  method Sweep(ivs: seq<Interval>) returns (merged: seq<Interval>)
    requires ivs != []
    requires forall i, j :: 0 <= i < j < |ivs| ==> ivs[i].lo <= ivs[j].lo
    ensures Covered(merged) == Covered(ivs)
    ensures Separated(merged)
    ensures WellFormed(ivs) ==> WellFormed(merged)
    ensures 0 < |merged| <= |ivs|
  {
    merged := [];
    var curS, curE := ivs[0].lo, ivs[0].hi;
    SweepInvStart(ivs);
    for k := 1 to |ivs|
      invariant SweepInv(ivs, k, merged, Interval(curS, curE))
    {
      SweepInvStep(ivs, k, merged, Interval(curS, curE));
      var s, e := ivs[k].lo, ivs[k].hi;
      if s <= curE + 1 {
        if e > curE {
          curE := e;
        }
      } else {
        merged := merged + [Interval(curS, curE)];
        curS, curE := s, e;
      }
    }
    SweepInvEnd(ivs, merged, Interval(curS, curE));
    merged := merged + [Interval(curS, curE)];
  }

  /** `merge_intervals`: sorts its argument in place, then sweeps it. The
      result covers the same integers as the input, in separated intervals in
      increasing order. */
  method MergeIntervals(intervals: array<Interval>) returns (merged: seq<Interval>)
    modifies intervals
    ensures Sorted(intervals[..], IntervalLe)
    ensures multiset(intervals[..]) == multiset(old(intervals[..]))
    ensures Covered(merged) == Covered(old(intervals[..]))
    ensures Separated(merged)
    ensures WellFormed(old(intervals[..])) ==> WellFormed(merged)
    ensures |merged| <= intervals.Length
    ensures merged == [] <==> intervals.Length == 0
  {
    if intervals.Length == 0 {
      return [];
    }
    IntervalOrder();
    Sort(intervals, IntervalLe);
    var ivs := intervals[..];
    CoveredPermutation(old(intervals[..]), ivs);
    if WellFormed(old(intervals[..])) {
      WellFormedPermutation(old(intervals[..]), ivs);
    }
    merged := Sweep(ivs);
  }
}

/** Day 5, part 1 (2025/Day5/puzzle9.py): the input has a range section and,
    after the first blank line, a list of ids; the answer is the number of ids
    that lie in some range, found by binary search over the merged ranges. */
module FreshIds {
  import opened Maybe
  import opened Strings
  import opened RangeMerge

  predicate IsBlank(ln: string) {
    Strip(ln) == []
  }

  /** The index of the first blank line at or after `start`. */
  function FirstBlankFrom(lines: seq<string>, start: nat): (r: Option<nat>)
    decreases |lines| - start
    ensures r.Some? ==> start <= r.value < |lines| && IsBlank(lines[r.value])
    ensures r.Some? ==> forall j :: start <= j < r.value ==> !IsBlank(lines[j])
    ensures r.None? ==> forall j :: start <= j < |lines| ==> !IsBlank(lines[j])
  {
    if start >= |lines| then None
    else if IsBlank(lines[start]) then Some(start)
    else FirstBlankFrom(lines, start + 1)
  }

  /** The index of the first blank line, if any. */
  function FirstBlank(lines: seq<string>): (r: Option<nat>)
    ensures r.Some? ==> r.value < |lines| && IsBlank(lines[r.value])
    ensures r.Some? ==> forall j :: 0 <= j < r.value ==> !IsBlank(lines[j])
    ensures r.None? ==> forall j :: 0 <= j < |lines| ==> !IsBlank(lines[j])
  {
    FirstBlankFrom(lines, 0)
  }

  /** `[ln.strip() for ln in lines if ln.strip() != '']`. */
  function NonBlankStripped(lines: seq<string>): (r: seq<string>)
    ensures |r| <= |lines|
    ensures forall i :: 0 <= i < |r| ==> r[i] != []
  {
    if lines == [] then []
    else
      var init := NonBlankStripped(lines[..|lines| - 1]);
      var t := Strip(lines[|lines| - 1]);
      if t != [] then init + [t] else init
  }

  /** The search loop of `parse_sections`: the first blank line, or 0 when
      there is none. */
  method SeparatorIndex(lines: seq<string>) returns (sep: nat)
    ensures sep == match FirstBlank(lines) case Some(i) => i case None => 0
  {
    sep := 0;
    for i := 0 to |lines|
      invariant forall j :: 0 <= j < i ==> !IsBlank(lines[j])
    {
      if Strip(lines[i]) == [] {
        sep := i;
        assert FirstBlank(lines) == Some(i);
        return;
      }
    }
    assert FirstBlank(lines).None?;
  }

  /** `parse_sections`: splitting at the first blank line. When there is none,
      or it is the first line, every line, unstripped, is a range line and
      there are no ids. */
  function Sections(lines: seq<string>): (r: (seq<string>, seq<string>))
    ensures (FirstBlank(lines).None? || FirstBlank(lines) == Some(0)) ==> r == (lines, [])
    ensures forall i :: 0 <= i < |r.1| ==> r.1[i] != []
    ensures |r.0| + |r.1| <= |lines|
  {
    match FirstBlank(lines)
    case Some(i) =>
      if i == 0 then (lines, [])
      else (NonBlankStripped(lines[..i]), NonBlankStripped(lines[i + 1..]))
    case None => (lines, [])
  }

  method ParseSections(lines: seq<string>) returns (ranges: seq<string>, ids: seq<string>)
    ensures (ranges, ids) == Sections(lines)
  {
    var sep := SeparatorIndex(lines);
    if sep == 0 {
      return lines, [];
    }
    ranges := NonBlankStripped(lines[..sep]);
    ids := NonBlankStripped(lines[sep + 1..]);
  }

  predicate StartsSorted(ivs: seq<Interval>) {
    forall i, j :: 0 <= i < j < |ivs| ==> ivs[i].lo <= ivs[j].lo
  }

  /** `bisect_right(a, x)` on a sorted list: the number of leading elements
      that are at most `x`. */
  function BisectRight(a: seq<int>, x: int): (i: nat)
    requires forall p, q :: 0 <= p < q < |a| ==> a[p] <= a[q]
    ensures i <= |a|
    ensures forall j :: 0 <= j < i ==> a[j] <= x
    ensures forall j :: i <= j < |a| ==> a[j] > x
  {
    if a == [] then 0
    else if a[|a| - 1] <= x then |a|
    else BisectRight(a[..|a| - 1], x)
  }

  function Starts(ivs: seq<Interval>): (a: seq<int>)
    ensures |a| == |ivs| && forall i :: 0 <= i < |ivs| ==> a[i] == ivs[i].lo
  {
    seq(|ivs|, i requires 0 <= i < |ivs| => ivs[i].lo)
  }

  /** The test of `count_fresh`: the rightmost interval starting at or before
      `x` contains it. */
  predicate InRightmost(merged: seq<Interval>, x: int)
    requires StartsSorted(merged)
  {
    var i := BisectRight(Starts(merged), x) - 1;
    i >= 0 && merged[i].lo <= x <= merged[i].hi
  }

  /** On separated intervals the binary search test agrees with a linear
      scan: `x` lies in the rightmost interval starting at or before it
      exactly when some interval covers it. */
  lemma RightmostDecides(merged: seq<Interval>, x: int)
    requires Separated(merged)
    ensures InRightmost(merged, x) <==> x in Covered(merged)
  {
    CoveredMember(merged, x);
    if x in Covered(merged) {
      var j :| 0 <= j < |merged| && merged[j].lo <= x <= merged[j].hi;
      CoverIsRightmost(merged, x, j);
    }
  }

  /** An interval covering `x` is the rightmost one starting at or before it. */
  lemma CoverIsRightmost(merged: seq<Interval>, x: int, j: nat)
    requires Separated(merged)
    requires j < |merged| && merged[j].lo <= x <= merged[j].hi
    ensures BisectRight(Starts(merged), x) == j + 1
  {
    var b := BisectRight(Starts(merged), x);
    assert Starts(merged)[j] <= x;
    if j + 1 < |merged| {
      assert Starts(merged)[j + 1] > x;
    }
  }

  /** The number of ids that parse as integers lying in `cov`. */
  ghost function CoveredIds(ids: seq<string>, cov: set<int>): (n: nat)
    ensures n <= |ids|
  {
    if ids == [] then 0
    else
      var p := ParseInt(ids[|ids| - 1]);
      CoveredIds(ids[..|ids| - 1], cov) + if p.Some? && p.value in cov then 1 else 0
  }

  /** `count_fresh`: counts the ids that parse and lie in a merged interval,
      each found by binary search over the starts. Unparsable ids are
      skipped. */
  method CountFresh(ids: seq<string>, merged: seq<Interval>) returns (count: nat)
    requires StartsSorted(merged)
    ensures count <= |ids|
    ensures Separated(merged) ==> count == CoveredIds(ids, Covered(merged))
  {
    if merged == [] {
      ZeroWhenEmpty(ids, Covered(merged));
      return 0;
    }
    var starts := Starts(merged);
    count := 0;
    for k := 0 to |ids|
      invariant count <= k
      invariant Separated(merged) ==> count == CoveredIds(ids[..k], Covered(merged))
    {
      assert ids[..k + 1][..k] == ids[..k];
      var p := ParseInt(ids[k]);
      if p.None? {
        continue;
      }
      var x := p.value;
      var i := BisectRight(starts, x) - 1;
      if Separated(merged) {
        RightmostDecides(merged, x);
      }
      if i >= 0 && merged[i].lo <= x <= merged[i].hi {
        count := count + 1;
      }
    }
    assert ids[..|ids|] == ids;
  }

  lemma {:induction false} ZeroWhenEmpty(ids: seq<string>, cov: set<int>)
    requires cov == {}
    ensures CoveredIds(ids, cov) == 0
  {
    if ids != [] {
      ZeroWhenEmpty(ids[..|ids| - 1], cov);
    }
  }

  /** The program of part 1: the number of ids lying in some parsed range. */
  method FreshCount(lines: seq<string>) returns (count: nat)
    ensures count == CoveredIds(Sections(lines).1, Covered(Intervals(Sections(lines).0)))
  {
    var rangeLines, ids := ParseSections(lines);
    var ivs := ParseRanges(rangeLines);
    var a := new Interval[|ivs|](i requires 0 <= i < |ivs| => ivs[i]);
    assert a[..] == ivs;
    var merged := MergeIntervals(a);
    count := CountFresh(ids, merged);
  }
}

/** Day 5, part 2 (2025/Day5/puzzle10.py): the range section alone; the answer
    is the total length of the merged ranges, which is the number of distinct
    ids some range covers. */
module CoveredLength {
  import opened Maybe
  import opened Strings
  import opened RangeMerge
  import opened FreshIds

  /** `parse_ranges_section`: the stripped non-blank lines before the first
      blank line, or of the whole input when there is none. */
  function RangesSection(lines: seq<string>): (r: seq<string>)
    ensures FirstBlank(lines).None? ==> r == NonBlankStripped(lines)
    ensures FirstBlank(lines) == Some(0) ==> r == []
    ensures forall i :: 0 <= i < |r| ==> r[i] != []
  {
    match FirstBlank(lines)
    case Some(i) => NonBlankStripped(lines[..i])
    case None => NonBlankStripped(lines)
  }

  method ParseRangesSection(lines: seq<string>) returns (section: seq<string>)
    ensures section == RangesSection(lines)
  {
    var sep: Option<nat> := None;
    for i := 0 to |lines|
      invariant forall j :: 0 <= j < i ==> !IsBlank(lines[j])
    {
      if Strip(lines[i]) == [] {
        sep := Some(i);
        assert FirstBlank(lines) == sep;
        break;
      }
    }
    if sep.None? {
      section := NonBlankStripped(lines);
    } else {
      section := NonBlankStripped(lines[..sep.value]);
    }
  }

  /** `sum(e - s + 1 for s, e in merged)`. */
  function SpanSum(ivs: seq<Interval>): int {
    if ivs == [] then 0 else SpanSum(ivs[..|ivs| - 1]) + (ivs[|ivs| - 1].hi - ivs[|ivs| - 1].lo + 1)
  }

  lemma {:induction false} SpanSize(lo: int, hi: int)
    requires lo <= hi + 1
    ensures |Span(Interval(lo, hi))| == hi - lo + 1
    decreases hi - lo
  {
    if lo <= hi {
      SpanSize(lo, hi - 1);
      assert Span(Interval(lo, hi)) == Span(Interval(lo, hi - 1)) + {hi};
    } else {
      assert Span(Interval(lo, hi)) == {};
    }
  }

  lemma {:induction false} CoveredBelow(ivs: seq<Interval>, b: int)
    requires forall i :: 0 <= i < |ivs| ==> ivs[i].hi < b
    ensures forall x :: x in Covered(ivs) ==> x < b
  {
    if ivs != [] {
      CoveredBelow(ivs[..|ivs| - 1], b);
    }
  }

  /** On well-formed separated intervals the lengths add up to the number of
      integers covered. */
  lemma {:induction false} SpanSumCounts(ivs: seq<Interval>)
    requires WellFormed(ivs) && Separated(ivs)
    ensures SpanSum(ivs) == |Covered(ivs)|
  {
    if ivs != [] {
      var init, last := ivs[..|ivs| - 1], ivs[|ivs| - 1];
      SpanSumCounts(init);
      SpanSize(last.lo, last.hi);
      CoveredBelow(init, last.lo);
      assert Covered(init) * Span(last) == {};
    }
  }

  /** The program of part 2: the total is the number of distinct integers the
      parsed ranges cover; no ranges give 0. */
  method CoveredTotal(lines: seq<string>) returns (total: int)
    ensures total == |Covered(Intervals(RangesSection(lines)))|
  {
    var rangeLines := ParseRangesSection(lines);
    var ivs := ParseRanges(rangeLines);
    var a := new Interval[|ivs|](i requires 0 <= i < |ivs| => ivs[i]);
    assert a[..] == ivs;
    var merged := MergeIntervals(a);
    SpanSumCounts(merged);
    total := SpanSum(merged);
  }
}
