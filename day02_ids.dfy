/** Day 2, part 1 (2025/Day2/puzzle3.py): the input is one line of
    comma-separated ranges "lo-hi"; an id is invalid when its decimal string
    is a block written twice (55, 6464, 123123). The answer is the sum, over
    the ranges, of the invalid ids each range contains. */
module DoubleRepeatIds {
  import opened Maybe
  import opened Strings
  import opened Sums
  import opened DigitBlocks
  import opened Seqs

  /** An inclusive range of ids, with `lo <= hi` once parsed. */
  datatype IdRange = IdRange(lo: int, hi: int)

  /** One comma-separated piece: it needs a '-', and both sides of the first
      '-' must be integers; reversed bounds are swapped. */
  function RangeOf(piece: string): (r: Option<IdRange>)
    ensures r.Some? <==>
      var p := Strip(piece);
      '-' in p && ParseInt(SplitOnce(p, '-').0).Some? && ParseInt(SplitOnce(p, '-').1).Some?
    ensures r.Some? ==> r.value.lo <= r.value.hi
    ensures r.Some? ==>
      var (a, b) := SplitOnce(Strip(piece), '-');
      {r.value.lo, r.value.hi} == {ParseInt(a).value, ParseInt(b).value}
  {
    var p := Strip(piece);
    if '-' !in p then None
    else
      var (a, b) := SplitOnce(p, '-');
      match (ParseInt(a), ParseInt(b))
      case (Some(lo), Some(hi)) => Some(if lo > hi then IdRange(hi, lo) else IdRange(lo, hi))
      case _ => None
  }

  /** The ranges of the pieces that parse, in order. */
  function Ranges(pieces: seq<string>): (rs: seq<IdRange>)
    ensures |rs| <= |pieces|
    ensures forall i :: 0 <= i < |rs| ==> rs[i].lo <= rs[i].hi
  {
    RangesBounded(pieces);
    FilterMap(pieces, RangeOf)
  }

  /** Every range read from the pieces has its bounds in order. */
  lemma RangesBounded(pieces: seq<string>)
    ensures forall i :: 0 <= i < |FilterMap(pieces, RangeOf)| ==> FilterMap(pieces, RangeOf)[i].lo <= FilterMap(pieces, RangeOf)[i].hi
  {
    var idx := FilterMapWitness(pieces, RangeOf);
  }

  /** The ranges are exactly the readings of the pieces that parse: each
      comes from one piece, in the order of the pieces, and every piece
      that parses gives one. */
  lemma RangesOfPieces(pieces: seq<string>) returns (idx: seq<nat>)
    ensures |idx| == |Ranges(pieces)|
    ensures forall k :: 0 <= k < |idx| ==> idx[k] < |pieces| && RangeOf(pieces[idx[k]]) == Some(Ranges(pieces)[k])
    ensures forall k, l :: 0 <= k < l < |idx| ==> idx[k] < idx[l]
    ensures forall j :: 0 <= j < |pieces| && RangeOf(pieces[j]).Some? ==> j in idx
  {
    idx := FilterMapWitness(pieces, RangeOf);
  }

  /** `iter_ranges_from_line`: what the generator yields for a line. */
  function IterRangesFromLine(line: string): (rs: seq<IdRange>)
    ensures forall i :: 0 <= i < |rs| ==> rs[i].lo <= rs[i].hi
  {
    Ranges(Split(Strip(line), ','))
  }

  /** A piece without a '-' yields nothing. */
  lemma NoDashSkipped(pieces: seq<string>, piece: string)
    requires '-' !in Strip(piece)
    ensures Ranges(pieces + [piece]) == Ranges(pieces)
  {
    FilterMapSnoc(pieces, piece, RangeOf);
  }

  /** `is_double_repeat`: the decimal string has even length and two equal
      halves, the first of which does not start with '0'. */
  predicate IsDoubleRepeat(n: nat) {
    var s := Str(n);
    var half := |s| / 2;
    |s| % 2 == 0 && s[..half][0] != '0' && s[..half] == s[half..]
  }

  /** The arithmetic form: f written twice is f * (10^h + 1) for an h-digit f. */
  function Double(f: nat, h: nat): nat {
    f * (Pow10(h) + 1)
  }

  lemma DoubleIsRepUnit(f: nat, h: nat)
    ensures Double(f, h) == f * RepUnit(h, 2)
  {
    assert RepUnit(h, 1) == 1;
    assert RepUnit(h, 2) == Pow10(h) + 1;
  }

  /** A double repeat is a repeated number with r = 2, and conversely. */
  lemma DoubleRepeatIsRepeat(n: nat)
    ensures IsDoubleRepeat(n) <==> |Str(n)| % 2 == 0 && IsRepeatOf(n, |Str(n)| / 2, 2)
  {
    var s := Str(n);
    var half := |s| / 2;
    assert RepStr(s[..half], 1) == s[..half];
    assert RepStr(s[..half], 2) == s[..half] + s[..half];
    if |s| % 2 == 0 {
      assert s == s[..half] + s[half..];
      assert s[0] != '0';
    }
  }

  /** Every double repeat is some h-digit f written twice... */
  lemma DoubleRepeatHalf(n: nat)
    requires IsDoubleRepeat(n)
    ensures IsBlock(BlockOf(n, |Str(n)| / 2), |Str(n)| / 2)
    ensures n == Double(BlockOf(n, |Str(n)| / 2), |Str(n)| / 2)
  {
    DoubleRepeatIsRepeat(n);
    RepeatDecompose(n, |Str(n)| / 2, 2);
    DoubleIsRepUnit(BlockOf(n, |Str(n)| / 2), |Str(n)| / 2);
  }

  /** ...and every h-digit f written twice is a double repeat of 2h digits. */
  lemma DoubleOfBlock(f: nat, h: nat)
    requires IsBlock(f, h)
    ensures IsDoubleRepeat(Double(f, h))
    ensures NumLen(Double(f, h)) == 2 * h
  {
    var d := Double(f, h);
    DoubleIsRepUnit(f, h);
    RepeatCompose(f, h, 2);
    StrRepeat(f, h, 2);
    assert IsRepeatOf(d, h, 2) && NumLen(d) == h * 2;
    assert |Str(d)| / 2 == h;
    DoubleRepeatIsRepeat(d);
  }

  /** The ids `sum_invalid_in_range(lo, hi)` adds up: the double repeats in
      [lo, hi] whose length lies between `len(str(lo))` and `len(str(hi))`. */
  ghost function DoubleRepeatsIn(lo: int, hi: int): set<int>
  {
    set n: int | lo <= n <= hi && 0 <= n && IsDoubleRepeat(n) && IntLen(lo) <= NumLen(n) <= IntLen(hi)
  }

  /** For a non-negative lower bound the length window excludes nothing: the
      result is the sum of all double repeats in [lo, hi]. */
  lemma DoubleRepeatsInRange(lo: int, hi: int)
    requires 0 <= lo
    ensures DoubleRepeatsIn(lo, hi) == set n: int | lo <= n <= hi && 0 <= n && IsDoubleRepeat(n)
  {
    forall n: int | lo <= n <= hi && 0 <= n
      ensures IntLen(lo) <= NumLen(n) <= IntLen(hi)
    {
      NumLenMono(lo, n);
      NumLenMono(n, hi);
    }
  }

  /** A negative lower bound makes `len(str(lo))` count the sign: with
      lo = -100 only ids of 4 or more digits are tried, so 11..99 is missed. */
  lemma NegativeLowerBound()
    ensures IsDoubleRepeat(11) && -100 <= 11 <= 99
    ensures DoubleRepeatsIn(-100, 99) == {}
  {
    assert IsBlock(1, 1);
    DoubleOfBlock(1, 1);
    NumLenUnique(100, 3);
    NumLenUnique(99, 2);
    forall n: int | -100 <= n <= 99 && 0 <= n
      ensures NumLen(n) <= 2
    {
      NumLenMono(n, 99);
    }
  }

  /** Double repeats whose length is in [minLen, len). */
  ghost function DoublesShorter(lo: int, hi: int, minLen: nat, len: nat): set<int>
  {
    set n: int | lo <= n <= hi && 0 <= n && IsDoubleRepeat(n) && minLen <= NumLen(n) < len
  }

  lemma DoublesShorterStep(lo: int, hi: int, minLen: nat, len: nat)
    requires len >= 1
    ensures len % 2 == 0 && minLen <= len ==>
      DoublesShorter(lo, hi, minLen, len + 1) == DoublesShorter(lo, hi, minLen, len) + Blocks(lo, hi, len / 2, 2)
    ensures len % 2 != 0 ==> DoublesShorter(lo, hi, minLen, len + 1) == DoublesShorter(lo, hi, minLen, len)
  {
    forall n: int | lo <= n <= hi && 0 <= n && NumLen(n) == len
      ensures IsDoubleRepeat(n) <==> len % 2 == 0 && IsRepeatOf(n, len / 2, 2)
    {
      DoubleRepeatIsRepeat(n);
    }
    if len % 2 == 0 && minLen <= len {
      forall n | n in Blocks(lo, hi, len / 2, 2)
        ensures n in DoublesShorter(lo, hi, minLen, len + 1)
      {
        BlocksAreRepeats(lo, hi, len / 2, 2, n);
        RepStrLen(Str(n)[..len / 2], 2);
        DoubleRepeatIsRepeat(n);
      }
      forall n: int | lo <= n <= hi && 0 <= n && IsDoubleRepeat(n) && NumLen(n) == len
        ensures n in Blocks(lo, hi, len / 2, 2)
      {
        RepeatsAreBlocks(lo, hi, len / 2, 2, n);
      }
    }
  }

  /** Past `len(str(hi))` every double repeat in range has been counted. */
  lemma DoublesShorterAll(lo: int, hi: int, len: nat)
    requires len > IntLen(hi)
    ensures DoublesShorter(lo, hi, IntLen(lo), len) == DoubleRepeatsIn(lo, hi)
  {
    forall n: int | lo <= n <= hi && 0 <= n
      ensures NumLen(n) <= IntLen(hi)
    {
      NumLenMono(n, hi);
    }
  }

  /** One try of the inner loop: the value for half `f` is new, and it joins
      the produced set exactly when it lies in [lo, hi]. */
  lemma DoubleTry(lo: int, hi: int, len: nat, f: nat, shorter: set<int>, added: set<int>)
    requires len >= 2 && len % 2 == 0 && IsBlock(f, len / 2)
    requires forall n :: n in shorter ==> n < Pow10(len - 1)
    requires added == shorter + BlocksBelow(lo, hi, len / 2, 2, f)
    ensures Double(f, len / 2) !in added
    ensures !(lo <= Double(f, len / 2) <= hi) ==>
      shorter + BlocksBelow(lo, hi, len / 2, 2, f + 1) == added
    ensures lo <= Double(f, len / 2) <= hi ==>
      shorter + BlocksBelow(lo, hi, len / 2, 2, f + 1) == added + {Double(f, len / 2)}
    ensures Double(f, len / 2) > hi ==> BlocksBelow(lo, hi, len / 2, 2, f) == Blocks(lo, hi, len / 2, 2)
  {
    var half := len / 2;
    var val := Double(f, half);
    DoubleIsRepUnit(f, half);
    assert val == RepVal(f, half, 2);
    BlocksBelowStep(lo, hi, half, 2, f);
    if val > hi {
      BlocksBelowBreak(lo, hi, half, 2, f);
    }
    DoubleOfBlock(f, half);
    assert val >= Pow10(len - 1);
  }

  /** Every double repeat shorter than `len` digits is below 10^(len-1). */
  lemma ShorterBelow(lo: int, hi: int, minLen: nat, len: nat)
    requires len >= 1
    ensures forall n :: n in DoublesShorter(lo, hi, minLen, len) ==> n < Pow10(len - 1)
  {
    forall n | n in DoublesShorter(lo, hi, minLen, len)
      ensures n < Pow10(len - 1)
    {
      Pow10Mono(NumLen(n), len - 1);
    }
  }

  /** The inner loop of `sum_invalid_in_range` for one even length: try every
      half of `len / 2` digits in increasing order, skip values below `lo`,
      stop at the first value above `hi`, and add the rest to `total`. The
      values found for shorter lengths, `shorter`, are all smaller. */
  method AddDoublesOfLength(lo: int, hi: int, len: nat, total0: int, ghost shorter: set<int>)
    returns (total: int, ghost added: set<int>)
    requires len >= 2 && len % 2 == 0
    requires forall n :: n in shorter ==> n < Pow10(len - 1)
    requires total0 == SetSum(shorter)
    ensures added == shorter + Blocks(lo, hi, len / 2, 2)
    ensures total == SetSum(added)
  {
    total, added := total0, shorter;
    var half := len / 2;
    var start := Pow10(half - 1);
    var end := Pow10(half) - 1;
    var first := start;
    BlocksBelowStart(lo, hi, half, 2);
    while first <= end
      invariant start <= first <= end + 1
      invariant added == shorter + BlocksBelow(lo, hi, half, 2, first)
      invariant total == SetSum(added)
      decreases end + 1 - first
    {
      var val := Double(first, half);
      DoubleTry(lo, hi, len, first, shorter, added);
      if val < lo {
        first := first + 1;
        continue;
      }
      if val > hi {
        return;
      }
      SetSumInsert(added, val);
      total := total + val;
      added := added + {val};
      first := first + 1;
    }
    BlocksBelowEnd(lo, hi, half, 2);
  }

  /** `sum_invalid_in_range`: every even length between `len(str(lo))` and
      `len(str(hi))`, odd lengths skipped. */
  method SumDoubleRepeatsInRange(lo: int, hi: int) returns (total: int)
    ensures total == SetSum(DoubleRepeatsIn(lo, hi))
  {
    total := 0;
    ghost var added: set<int> := {};
    var minLen := IntLen(lo);
    var maxLen := IntLen(hi);
    var len := minLen;
    assert added == DoublesShorter(lo, hi, minLen, len);
    while len <= maxLen
      invariant minLen <= len
      invariant added == DoublesShorter(lo, hi, minLen, len)
      invariant total == SetSum(added)
      decreases maxLen as int + 1 - len
    {
      if len % 2 == 0 {
        ShorterBelow(lo, hi, minLen, len);
        total, added := AddDoublesOfLength(lo, hi, len, total, added);
        assert added == DoublesShorter(lo, hi, minLen, len + 1) by {
          DoublesShorterStep(lo, hi, minLen, len);
        }
      } else {
        assert added == DoublesShorter(lo, hi, minLen, len + 1) by {
          DoublesShorterStep(lo, hi, minLen, len);
        }
      }
      len := len + 1;
    }
    assert added == DoubleRepeatsIn(lo, hi) by {
      DoublesShorterAll(lo, hi, len);
    }
  }

  /** The answer for a sequence of ranges: each range's sum, added up. */
  ghost function RangesTotal(rs: seq<IdRange>): int
  {
    if rs == [] then 0
    else RangesTotal(rs[..|rs| - 1]) + SetSum(DoubleRepeatsIn(rs[|rs| - 1].lo, rs[|rs| - 1].hi))
  }

  lemma RangesTotalSnoc(rs: seq<IdRange>, i: nat)
    requires i < |rs|
    ensures RangesTotal(rs[..i + 1]) == RangesTotal(rs[..i]) + SetSum(DoubleRepeatsIn(rs[i].lo, rs[i].hi))
  {
    assert rs[..i + 1][..i] == rs[..i];
  }

  /** Ranges are not merged: a range listed twice counts its ids twice. */
  lemma RangeTwice(r: IdRange)
    ensures RangesTotal([r, r]) == 2 * RangesTotal([r])
  {
    assert [r, r][..1] == [r];
  }

  /** `solve_ranges_line`: the plain sum of `sum_invalid_in_range` over the ranges. */
  method SolveRangesLine(line: string) returns (total: int)
    ensures total == RangesTotal(IterRangesFromLine(line))
  {
    var rs := IterRangesFromLine(line);
    total := 0;
    for i := 0 to |rs|
      invariant total == RangesTotal(rs[..i])
    {
      var s := SumDoubleRepeatsInRange(rs[i].lo, rs[i].hi);
      RangesTotalSnoc(rs, i);
      total := total + s;
    }
    assert rs[..|rs|] == rs;
  }
}

/** Day 2, part 2 (2025/Day2/puzzle4.py): an id is invalid when its decimal
    string is one block written r >= 2 times (1111, 121212, 824824824). Each
    range's invalid ids are collected in a set, so an id reachable from several
    block lengths is added once. The range parsing is the same code as in
    part 1 and is reused from there. */
module RepeatedBlockIds {
  import opened Strings
  import opened Sums
  import opened DigitBlocks
  import DoubleRepeatIds

  /** The id is some block written at least twice. */
  ghost predicate HasRepeatedBlock(n: nat) {
    exists k: nat, r: nat :: r >= 2 && IsRepeatOf(n, k, r)
  }

  /** Repeated-block ids in [lo, hi] whose length lies in [loLen, hiLen]. */
  ghost function RepeatedWindow(lo: int, hi: int, loLen: nat, hiLen: nat): set<int>
  {
    set n: int | lo <= n <= hi && 0 <= n && HasRepeatedBlock(n) && loLen <= NumLen(n) <= hiLen
  }

  /** The ids `sum_invalid_in_range(lo, hi)` adds up: repeated-block ids in
      [lo, hi] whose length lies between `len(str(lo))` and `len(str(hi))`. */
  ghost function RepeatedBlocksIn(lo: int, hi: int): set<int>
  {
    RepeatedWindow(lo, hi, IntLen(lo), IntLen(hi))
  }

  /** `ceil(a / k)` for positive k. */
  function CeilDiv(a: nat, k: nat): nat
    requires k >= 1
  {
    (a + k - 1) / k
  }

  /** The smallest repeat count tried for block length k: at least 2, and
      enough copies to reach `len(str(lo))` digits. */
  function RMin(loLen: nat, k: nat): nat
    requires k >= 1
  {
    if CeilDiv(loLen, k) > 2 then CeilDiv(loLen, k) else 2
  }

  lemma CeilDivBound(a: nat, k: nat, r: nat)
    requires k >= 1
    ensures r >= CeilDiv(a, k) <==> k * r >= a
  {
    var q := (a + k - 1) / k;
    assert a + k - 1 == k * q + (a + k - 1) % k;
    if r >= q {
      assert k * r >= k * q;
    } else {
      assert k * r <= k * (q - 1);
    }
  }

  lemma FloorDivBound(a: nat, k: nat, r: nat)
    requires k >= 1
    ensures r <= a / k <==> k * r <= a
  {
    var q := a / k;
    assert a == k * q + a % k;
    if r <= q {
      assert k * r <= k * q;
    } else {
      assert k * r >= k * (q + 1);
    }
  }

  /** Ids of shape (k, r) for the repeat counts a <= r < b. */
  ghost function BlocksOver(lo: int, hi: int, k: nat, a: nat, b: nat): set<int>
    decreases b
  {
    if b <= a then {} else BlocksOver(lo, hi, k, a, b - 1) + Blocks(lo, hi, k, b - 1)
  }

  lemma {:induction false} BlocksOverSound(lo: int, hi: int, k: nat, a: nat, b: nat, n: int) returns (r: nat)
    requires n in BlocksOver(lo, hi, k, a, b)
    ensures a <= r < b && n in Blocks(lo, hi, k, r)
    decreases b
  {
    if n in Blocks(lo, hi, k, b - 1) {
      r := b - 1;
    } else {
      r := BlocksOverSound(lo, hi, k, a, b - 1, n);
    }
  }

  lemma {:induction false} BlocksOverComplete(lo: int, hi: int, k: nat, a: nat, b: nat, r: nat, n: int)
    requires a <= r < b && n in Blocks(lo, hi, k, r)
    ensures n in BlocksOver(lo, hi, k, a, b)
    decreases b
  {
    if r < b - 1 {
      BlocksOverComplete(lo, hi, k, a, b - 1, r, n);
    }
  }

  /** Ids of block length k with repeat counts RMin..hi_len/k: one pass of the
      middle loop. */
  ghost function ShapesOfLength(lo: int, hi: int, loLen: nat, hiLen: nat, k: nat): set<int>
  {
    if k == 0 then {} else BlocksOver(lo, hi, k, RMin(loLen, k), hiLen / k + 1)
  }

  /** Ids of every block length 1 <= k < b: what the outer loop has collected. */
  ghost function ShapesBelow(lo: int, hi: int, loLen: nat, hiLen: nat, b: nat): set<int>
    decreases b
  {
    if b <= 1 then {} else ShapesBelow(lo, hi, loLen, hiLen, b - 1) + ShapesOfLength(lo, hi, loLen, hiLen, b - 1)
  }

  lemma {:induction false} ShapesBelowSound(lo: int, hi: int, loLen: nat, hiLen: nat, b: nat, n: int) returns (k: nat)
    requires n in ShapesBelow(lo, hi, loLen, hiLen, b)
    ensures 1 <= k < b && n in ShapesOfLength(lo, hi, loLen, hiLen, k)
    decreases b
  {
    if n in ShapesOfLength(lo, hi, loLen, hiLen, b - 1) {
      k := b - 1;
    } else {
      k := ShapesBelowSound(lo, hi, loLen, hiLen, b - 1, n);
    }
  }

  lemma {:induction false} ShapesBelowComplete(lo: int, hi: int, loLen: nat, hiLen: nat, b: nat, k: nat, n: int)
    requires 1 <= k < b && n in ShapesOfLength(lo, hi, loLen, hiLen, k)
    ensures n in ShapesBelow(lo, hi, loLen, hiLen, b)
    decreases b
  {
    if k < b - 1 {
      ShapesBelowComplete(lo, hi, loLen, hiLen, b - 1, k, n);
    }
  }

  lemma UnionAssoc(x: set<int>, y: set<int>, z: set<int>)
    ensures x + y + z == x + (y + z)
  {
  }

  /** The shapes the three loops try, k in 1..hi_len/2 and r in
      RMin..hi_len/k, produce exactly the repeated-block ids of the window. */
  lemma AllShapes(lo: int, hi: int, loLen: nat, hiLen: nat, maxK: nat)
    requires maxK == hiLen / 2
    ensures ShapesBelow(lo, hi, loLen, hiLen, maxK + 1) == RepeatedWindow(lo, hi, loLen, hiLen)
  {
    forall n | n in ShapesBelow(lo, hi, loLen, hiLen, maxK + 1)
      ensures n in RepeatedWindow(lo, hi, loLen, hiLen)
    {
      ShapesSound(lo, hi, loLen, hiLen, maxK, n);
    }
    forall n | n in RepeatedWindow(lo, hi, loLen, hiLen)
      ensures n in ShapesBelow(lo, hi, loLen, hiLen, maxK + 1)
    {
      ShapesComplete(lo, hi, loLen, hiLen, maxK, n);
    }
  }

  lemma ShapesSound(lo: int, hi: int, loLen: nat, hiLen: nat, maxK: nat, n: int)
    requires n in ShapesBelow(lo, hi, loLen, hiLen, maxK + 1)
    ensures n in RepeatedWindow(lo, hi, loLen, hiLen)
  {
    var k := ShapesBelowSound(lo, hi, loLen, hiLen, maxK + 1, n);
    var r := BlocksOverSound(lo, hi, k, RMin(loLen, k), hiLen / k + 1, n);
    BlocksAreRepeats(lo, hi, k, r, n);
    assert loLen <= NumLen(n) <= hiLen by {
      TriedShapeLength(loLen, hiLen, n, k, r);
    }
    InRepeatedWindow(lo, hi, loLen, hiLen, n, k, r);
  }

  lemma ShapesComplete(lo: int, hi: int, loLen: nat, hiLen: nat, maxK: nat, n: int)
    requires maxK == hiLen / 2
    requires n in RepeatedWindow(lo, hi, loLen, hiLen)
    ensures n in ShapesBelow(lo, hi, loLen, hiLen, maxK + 1)
  {
    var k: nat, r: nat :| r >= 2 && IsRepeatOf(n, k, r);
    assert n in Blocks(lo, hi, k, r) && 1 <= k <= maxK && RMin(loLen, k) <= r <= hiLen / k by {
      RepeatsAreBlocks(lo, hi, k, r, n);
      ShapeLength(n, k, r);
      LengthShapeTried(loLen, hiLen, k, r);
    }
    ShapeComplete(lo, hi, loLen, hiLen, k, r, n);
    ShapesBelowComplete(lo, hi, loLen, hiLen, maxK + 1, k, n);
  }

  /** An id of shape (k, r) with r in the tried range is collected on the
      pass for block length k. */
  lemma ShapeComplete(lo: int, hi: int, loLen: nat, hiLen: nat, k: nat, r: nat, n: int)
    requires n in Blocks(lo, hi, k, r) && k >= 1 && RMin(loLen, k) <= r <= hiLen / k
    ensures n in ShapesOfLength(lo, hi, loLen, hiLen, k)
  {
    BlocksOverComplete(lo, hi, k, RMin(loLen, k), hiLen / k + 1, r, n);
  }

  /** A repeated id of shape (k, r) has k * r digits... */
  lemma ShapeLength(n: nat, k: nat, r: nat)
    requires r >= 2 && IsRepeatOf(n, k, r)
    ensures NumLen(n) == k * r
  {
    RepStrLen(Str(n)[..k], r);
  }

  /** ...so the shapes the loops try give lengths in [lo_len, hi_len]... */
  lemma TriedShapeLength(loLen: nat, hiLen: nat, n: nat, k: nat, r: nat)
    requires r >= 2 && IsRepeatOf(n, k, r) && RMin(loLen, k) <= r <= hiLen / k
    ensures loLen <= NumLen(n) <= hiLen
  {
    ShapeLength(n, k, r);
    CeilDivBound(loLen, k, r);
    FloorDivBound(hiLen, k, r);
  }

  /** ...and every shape with a length in [lo_len, hi_len] is tried. */
  lemma LengthShapeTried(loLen: nat, hiLen: nat, k: nat, r: nat)
    requires r >= 2 && k >= 1 && loLen <= k * r <= hiLen
    ensures k <= hiLen / 2 && RMin(loLen, k) <= r <= hiLen / k
  {
    CeilDivBound(loLen, k, r);
    FloorDivBound(hiLen, k, r);
    FloorDivBound(hiLen, 2, k);
    assert k * 2 <= k * r;
  }

  lemma InRepeatedWindow(lo: int, hi: int, loLen: nat, hiLen: nat, n: int, k: nat, r: nat)
    requires lo <= n <= hi && 0 <= n && r >= 2 && IsRepeatOf(n, k, r)
    requires loLen <= NumLen(n) <= hiLen
    ensures n in RepeatedWindow(lo, hi, loLen, hiLen)
  {
    assert HasRepeatedBlock(n);
  }

  /** For a non-negative lower bound the length window excludes nothing. */
  lemma RepeatedBlocksInRange(lo: int, hi: int)
    requires 0 <= lo
    ensures RepeatedBlocksIn(lo, hi) == set n: int | lo <= n <= hi && 0 <= n && HasRepeatedBlock(n)
  {
    forall n: int | lo <= n <= hi && 0 <= n
      ensures IntLen(lo) <= NumLen(n) <= IntLen(hi)
    {
      NumLenMono(lo, n);
      NumLenMono(n, hi);
    }
  }

  /** A one-digit `hi` leaves no block length to try, and indeed no id of the
      range has a repeated block. */
  lemma SingleDigitHi(lo: int, hi: int)
    requires hi < 10
    ensures IntLen(hi) / 2 == 0 || hi < 0
    ensures RepeatedBlocksIn(lo, hi) == {}
  {
    forall n: int, k: nat, r: nat | 0 <= n <= hi && r >= 2 && IsRepeatOf(n, k, r)
      ensures false
    {
      RepStrLonger(Str(n)[..k], r);
    }
  }

  /** Part 1's ids are among part 2's. */
  lemma DoubleIsRepeated(n: nat)
    requires DoubleRepeatIds.IsDoubleRepeat(n)
    ensures HasRepeatedBlock(n)
  {
    DoubleRepeatIds.DoubleRepeatIsRepeat(n);
  }

  /** 1111 is "1" four times and "11" twice; the set holds it once. */
  lemma Example1111()
    ensures IsRepeatOf(1111, 1, 4) && IsRepeatOf(1111, 2, 2)
  {
    assert RepUnit(1, 1) == 1;
    assert RepUnit(1, 2) == 11;
    assert RepUnit(1, 3) == 111;
    assert RepUnit(1, 4) == 1111;
    assert RepUnit(2, 1) == 1;
    assert RepUnit(2, 2) == 101;
    RepeatCompose(1, 1, 4);
    RepeatCompose(11, 2, 2);
  }

  /** The innermost loop: blocks `base` of k digits in increasing order, values
      below `lo` skipped, the first value above `hi` ends the loop. */
  method AddBlocks(lo: int, hi: int, k: nat, r: nat, found0: set<int>) returns (found: set<int>)
    requires k >= 1 && r >= 2
    ensures found == found0 + Blocks(lo, hi, k, r)
  {
    found := found0;
    var start := Pow10(k - 1);
    var end := Pow10(k) - 1;
    BlocksBelowStart(lo, hi, k, r);
    for base := start to end + 1
      invariant found == found0 + BlocksBelow(lo, hi, k, r, base)
    {
      // int(str(base) * r)
      var val := RepVal(base, k, r);
      if val < lo {
        assert found == found0 + BlocksBelow(lo, hi, k, r, base + 1) by {
          BlocksBelowStep(lo, hi, k, r, base);
        }
        continue;
      }
      if val > hi {
        assert found == found0 + Blocks(lo, hi, k, r) by {
          BlocksBelowBreak(lo, hi, k, r, base);
        }
        return;
      }
      assert found + {val} == found0 + BlocksBelow(lo, hi, k, r, base + 1) by {
        BlocksBelowStep(lo, hi, k, r, base);
      }
      found := found + {val};
    }
    BlocksBelowEnd(lo, hi, k, r);
  }

  /** The middle loop: repeat counts `r_min..r_max` for block length k, where
      `r_min = max(2, ceil(lo_len / k))` and `r_max = hi_len // k`. */
  method AddShapesOfLength(lo: int, hi: int, loLen: nat, hiLen: nat, k: nat, found0: set<int>)
    returns (found: set<int>)
    requires k >= 1
    ensures found == found0 + ShapesOfLength(lo, hi, loLen, hiLen, k)
  {
    found := found0;
    var rMin := RMin(loLen, k);
    var rMax := hiLen / k;
    assert ShapesOfLength(lo, hi, loLen, hiLen, k) == BlocksOver(lo, hi, k, rMin, rMax + 1);
    if rMin > rMax {
      assert found == found0 + BlocksOver(lo, hi, k, rMin, rMax + 1);
      return;
    }
    for r := rMin to rMax + 1
      invariant found == found0 + BlocksOver(lo, hi, k, rMin, r)
    {
      ghost var prev := found;
      found := AddBlocks(lo, hi, k, r, found);
      assert found == found0 + BlocksOver(lo, hi, k, rMin, r + 1) by {
        assert BlocksOver(lo, hi, k, rMin, r + 1) == BlocksOver(lo, hi, k, rMin, r) + Blocks(lo, hi, k, r);
        UnionAssoc(found0, BlocksOver(lo, hi, k, rMin, r), Blocks(lo, hi, k, r));
      }
    }
  }

  /** `sum_invalid_in_range`: collect every repeated-block id of the range in
      `found`, then sum the set. */
  method SumRepeatedBlocksInRange(lo: int, hi: int) returns (total: int)
    ensures total == SetSum(RepeatedBlocksIn(lo, hi))
  {
    var found: set<int> := {};
    var loLen := IntLen(lo);
    var hiLen := IntLen(hi);
    var maxK := hiLen / 2;
    for k := 1 to maxK + 1
      invariant found == ShapesBelow(lo, hi, loLen, hiLen, k)
    {
      found := AddShapesOfLength(lo, hi, loLen, hiLen, k, found);
      assert found == ShapesBelow(lo, hi, loLen, hiLen, k + 1);
    }
    AllShapes(lo, hi, loLen, hiLen, maxK);
    total := SumOfSet(found);
  }

  /** The answer for a sequence of ranges: each range's sum, added up. */
  ghost function RangesTotal(rs: seq<DoubleRepeatIds.IdRange>): int
  {
    if rs == [] then 0
    else RangesTotal(rs[..|rs| - 1]) + SetSum(RepeatedBlocksIn(rs[|rs| - 1].lo, rs[|rs| - 1].hi))
  }

  lemma RangesTotalSnoc(rs: seq<DoubleRepeatIds.IdRange>, i: nat)
    requires i < |rs|
    ensures RangesTotal(rs[..i + 1]) == RangesTotal(rs[..i]) + SetSum(RepeatedBlocksIn(rs[i].lo, rs[i].hi))
  {
    assert rs[..i + 1][..i] == rs[..i];
  }

  /** `solve_ranges_line`: the plain sum of `sum_invalid_in_range` over the ranges. */
  method SolveRangesLine(line: string) returns (total: int)
    ensures total == RangesTotal(DoubleRepeatIds.IterRangesFromLine(line))
  {
    var rs := DoubleRepeatIds.IterRangesFromLine(line);
    total := 0;
    for i := 0 to |rs|
      invariant total == RangesTotal(rs[..i])
    {
      var s := SumRepeatedBlocksInRange(rs[i].lo, rs[i].hi);
      RangesTotalSnoc(rs, i);
      total := total + s;
    }
    assert rs[..|rs|] == rs;
  }
}
