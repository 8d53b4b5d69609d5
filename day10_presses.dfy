/** `min_weight_solution` of 2025/Day10/puzzle19.py: the fewest button
    presses among the solutions `part` plus a subset of `basis`. The bitmask
    conversions at its start are the identity on the vectors used here. */
module FewestPresses {
  import opened Gf2
  import opened Maybe
  import opened Elimination

  /** The presses of the solution picked by the bits of `s`. */
  function Weight(part: Vec, basis: seq<Vec>, s: nat): nat
    requires Widths(basis, |part|)
  {
    Popcount(Sweep(part, basis, Bits(s, |basis|)))
  }

  /** `best` is the least `Weight` over the `2^f` subsets of the basis. */
  ghost predicate Lightest(part: Vec, basis: seq<Vec>, best: nat) {
    && Widths(basis, |part|)
    && (exists s :: 0 <= s < Pow2(|basis|) && best == Weight(part, basis, s))
    && (forall s :: 0 <= s < Pow2(|basis|) ==> best <= Weight(part, basis, s))
  }

  /** The inner loop: `start` with the basis vectors picked by `s` XORed in,
      and how many were picked. */
  method SubsetSum(start: Vec, basis: seq<Vec>, s: nat) returns (mask: Vec, cnt: nat)
    requires Widths(basis, |start|)
    ensures mask == Sweep(start, basis, Bits(s, |basis|)) && cnt == Popcount(Bits(s, |basis|))
  {
    mask, cnt := start, 0;
    for i := 0 to |basis|
      invariant mask == Sweep(start, basis[..i], Bits(s, i)) && cnt == Popcount(Bits(s, i))
    {
      assert basis[..i + 1][..i] == basis[..i] && Bits(s, i + 1)[..i] == Bits(s, i);
      if Bit(s, i) {
        mask := Xor(mask, basis[i]);
        cnt := cnt + 1;
      }
    }
    assert basis[..|basis|] == basis;
  }

  /** The exhaustive search used for at most 22 basis vectors. */
  method BruteForce(part: Vec, basis: seq<Vec>) returns (best: nat)
    requires Widths(basis, |part|)
    ensures Lightest(part, basis, best)
  {
    var found: Option<nat> := None;
    for s := 0 to Pow2(|basis|)
      invariant found.None? <==> s == 0
      invariant found.Some? ==> exists s' :: 0 <= s' < s && found.value == Weight(part, basis, s')
      invariant found.Some? ==> forall s' :: 0 <= s' < s ==> found.value <= Weight(part, basis, s')
    {
      var mask, cnt := SubsetSum(part, basis, s);
      var w := Popcount(mask);
      assert w == Weight(part, basis, s);
      if found.None? || w < found.value {
        found := Some(w);
      }
    }
    // `range(1 << f)` is never empty, so `best` is never left as None.
    best := found.value;
  }

  // ---------------------------------------------------------------------------
  // Meet in the middle

  /** The subset sum of `bs` picked by the bits of `s`. */
  function Sub(bs: seq<Vec>, n: nat, s: nat): (m: Vec)
    requires Widths(bs, n)
    ensures |m| == n
  {
    Sweep(Zeros(n), bs, Bits(s, |bs|))
  }

  /** `t` maps each subset sum of `bs` for `s < upto` to the fewest vectors
      giving it among those. */
  ghost predicate Tabulates(t: map<Vec, nat>, bs: seq<Vec>, n: nat, upto: nat) {
    && Widths(bs, n)
    && (forall s :: 0 <= s < upto ==> Sub(bs, n, s) in t && t[Sub(bs, n, s)] <= Popcount(Bits(s, |bs|)))
    && (forall m :: m in t ==> exists s :: 0 <= s < upto && Sub(bs, n, s) == m && t[m] == Popcount(Bits(s, |bs|)))
  }

  /** Every subset sum of `bs` for `s < upto` is a key of `t`. */
  ghost predicate Covers(t: map<Vec, nat>, bs: seq<Vec>, n: nat, upto: nat)
    requires Widths(bs, n)
  {
    forall s :: 0 <= s < upto ==> Sub(bs, n, s) in t
  }

  /** Every key of `t` is a subset sum of `bs` for some `s < upto`. */
  ghost predicate KeysReached(t: map<Vec, nat>, bs: seq<Vec>, n: nat, upto: nat)
    requires Widths(bs, n)
  {
    forall m :: m in t ==> exists s :: 0 <= s < upto && Sub(bs, n, s) == m
  }

  lemma TableKeys(t: map<Vec, nat>, bs: seq<Vec>, n: nat, upto: nat)
    requires Tabulates(t, bs, n, upto)
    ensures Covers(t, bs, n, upto) && KeysReached(t, bs, n, upto)
  {
  }

  /** The `left` and `right` dictionaries. */
  method Table(bs: seq<Vec>, n: nat) returns (t: map<Vec, nat>)
    requires Widths(bs, n)
    ensures Tabulates(t, bs, n, Pow2(|bs|))
  {
    t := map[];
    for s := 0 to Pow2(|bs|)
      invariant Tabulates(t, bs, n, s)
    {
      var mask, cnt := SubsetSum(Zeros(n), bs, s);
      TableStep(t, bs, n, s, cnt);
      if mask in t {
        if cnt < t[mask] {
          t := t[mask := cnt];
        }
      } else {
        t := t[mask := cnt];
      }
    }
  }

  /** Recording subset `s` with its count keeps `t` a table of the subsets
      before `s + 1`. */
  lemma TableStep(t: map<Vec, nat>, bs: seq<Vec>, n: nat, s: nat, cnt: nat)
    requires Tabulates(t, bs, n, s) && cnt == Popcount(Bits(s, |bs|))
    ensures var mask := Sub(bs, n, s);
      Tabulates(if mask in t && cnt >= t[mask] then t else t[mask := cnt], bs, n, s + 1)
  {
    var mask := Sub(bs, n, s);
    var t' := if mask in t && cnt >= t[mask] then t else t[mask := cnt];
    forall m | m in t'
      ensures exists s' :: 0 <= s' < s + 1 && Sub(bs, n, s') == m && t'[m] == Popcount(Bits(s', |bs|))
    {
      if m == mask && t'[m] == cnt {
        assert Sub(bs, n, s) == m && t'[m] == Popcount(Bits(s, |bs|));
      } else {
        assert m in t && t'[m] == t[m];
      }
    }
  }

  /** The cost of a left and a right entry: the presses of `part ^ lm ^ rm`,
      plus both entries' vector counts when `counted`. */
  function PairCost(part: Vec, lm: Vec, lc: nat, rm: Vec, rc: nat, counted: bool): nat
    requires |lm| == |part| && |rm| == |part|
  {
    Popcount(Xor(Xor(part, lm), rm)) + (if counted then lc + rc else 0)
  }

  ghost predicate KeysWidth(t: map<Vec, nat>, n: nat) {
    forall m :: m in t ==> |m| == n
  }

  /** `best` is the least `PairCost` over the entries of `left` and `right`. */
  ghost predicate BestOf(part: Vec, left: map<Vec, nat>, right: map<Vec, nat>, counted: bool, best: nat) {
    && KeysWidth(left, |part|) && KeysWidth(right, |part|)
    && (exists lm, rm :: lm in left && rm in right && best == PairCost(part, lm, left[lm], rm, right[rm], counted))
    && (forall lm, rm :: lm in left && rm in right ==> best <= PairCost(part, lm, left[lm], rm, right[rm], counted))
  }

  /** The inner loop over `right_items` for one left entry. */
  method BestWithLeft(part: Vec, lm: Vec, lc: nat, right: map<Vec, nat>, counted: bool, found: Option<nat>)
      returns (found': Option<nat>)
    requires |lm| == |part| && KeysWidth(right, |part|) && right != map[]
    ensures found'.Some?
    ensures forall rm :: rm in right ==> found'.value <= PairCost(part, lm, lc, rm, right[rm], counted)
    ensures found.Some? ==> found'.value <= found.value
    ensures (found.Some? && found'.value == found.value) ||
            exists rm :: rm in right && found'.value == PairCost(part, lm, lc, rm, right[rm], counted)
  {
    found' := found;
    var todo := right.Keys;
    while todo != {}
      invariant todo <= right.Keys
      invariant found'.None? ==> found.None? && todo == right.Keys
      invariant found'.Some? ==> forall rm :: rm in right && rm !in todo ==>
        found'.value <= PairCost(part, lm, lc, rm, right[rm], counted)
      invariant found.Some? ==> found'.Some? && found'.value <= found.value
      invariant found'.Some? ==> ((found.Some? && found'.value == found.value) ||
        exists rm :: rm in right && found'.value == PairCost(part, lm, lc, rm, right[rm], counted))
      decreases |todo|
    {
      var rm :| rm in todo;
      var total := PairCost(part, lm, lc, rm, right[rm], counted);
      if found'.None? || total < found'.value {
        found' := Some(total);
      }
      todo := todo - {rm};
    }
  }

  /** The outer loop over `left.items()`. */
  method BestPair(part: Vec, left: map<Vec, nat>, right: map<Vec, nat>, counted: bool) returns (best: nat)
    requires KeysWidth(left, |part|) && KeysWidth(right, |part|) && left != map[] && right != map[]
    ensures BestOf(part, left, right, counted, best)
  {
    var found: Option<nat> := None;
    var todo := left.Keys;
    while todo != {}
      invariant todo <= left.Keys
      invariant found.None? <==> todo == left.Keys
      invariant found.Some? ==> exists lm, rm :: (lm in left && rm in right &&
        found.value == PairCost(part, lm, left[lm], rm, right[rm], counted))
      invariant found.Some? ==> forall lm, rm :: lm in left && lm !in todo && rm in right ==>
        found.value <= PairCost(part, lm, left[lm], rm, right[rm], counted)
      decreases |todo|
    {
      var lm :| lm in todo;
      found := BestWithLeft(part, lm, left[lm], right, counted, found);
      todo := todo - {lm};
    }
    // `left` is never empty, so `best` is never left as None.
    best := found.value;
  }

  /** The two halves of the basis, split at `f // 2`, and their tables. */
  method Halves(part: Vec, basis: seq<Vec>) returns (b1: seq<Vec>, b2: seq<Vec>, left: map<Vec, nat>, right: map<Vec, nat>)
    requires Widths(basis, |part|)
    ensures b1 + b2 == basis && |b1| == |basis| / 2 && Widths(b1, |part|) && Widths(b2, |part|)
    ensures Tabulates(left, b1, |part|, Pow2(|b1|)) && Tabulates(right, b2, |part|, Pow2(|b2|))
    ensures KeysWidth(left, |part|) && KeysWidth(right, |part|) && left != map[] && right != map[]
  {
    var half := |basis| / 2;
    b1, b2 := basis[..half], basis[half..];
    assert b1 + b2 == basis;
    left := Table(b1, |part|);
    right := Table(b2, |part|);
    assert Sub(b1, |part|, 0) in left;
    assert Sub(b2, |part|, 0) in right;
  }

  /** The meet-in-the-middle search with each candidate costed by its
      presses alone; see `MeetInTheMiddleAsWritten` for the source's cost. */
  method MeetInTheMiddle(part: Vec, basis: seq<Vec>) returns (best: nat)
    requires Widths(basis, |part|)
    ensures Lightest(part, basis, best)
  {
    var b1, b2, left, right := Halves(part, basis);
    best := BestPair(part, left, right, false);
    TableKeys(left, b1, |part|, Pow2(|b1|));
    TableKeys(right, b2, |part|, Pow2(|b2|));
    WidthsConcat(b1, b2, |part|);
    MeetLightest(part, b1, b2, left, right, best);
  }

  /** `min_weight_solution`, with the corrected meet-in-the-middle search:
      the fewest presses of `part` plus any subset of `basis`. */
  method MinWeightSolution(part: Vec, basis: seq<Vec>) returns (best: nat)
    requires Widths(basis, |part|)
    ensures Lightest(part, basis, best)
  {
    if |basis| <= 22 {
      best := BruteForce(part, basis);
    } else {
      best := MeetInTheMiddle(part, basis);
    }
  }

  // ---------------------------------------------------------------------------
  // The meet-in-the-middle search as written

  /** The cost the source gives subsets `sl` of `b1` and `sr` of `b2`: the
      presses of the solution they pick plus, once more, the number of basis
      vectors picked. */
  function DoubleCost(part: Vec, b1: seq<Vec>, b2: seq<Vec>, sl: nat, sr: nat): nat
    requires Widths(b1, |part|) && Widths(b2, |part|)
  {
    Popcount(Xor(Xor(part, Sub(b1, |part|, sl)), Sub(b2, |part|, sr)))
      + Popcount(Bits(sl, |b1|)) + Popcount(Bits(sr, |b2|))
  }

  /** `best` is the least `DoubleCost` over the subsets of the two halves. */
  ghost predicate LeastDoubleCost(part: Vec, b1: seq<Vec>, b2: seq<Vec>, best: nat) {
    && Widths(b1, |part|) && Widths(b2, |part|)
    && (exists sl, sr :: 0 <= sl < Pow2(|b1|) && 0 <= sr < Pow2(|b2|) && best == DoubleCost(part, b1, b2, sl, sr))
    && (forall sl, sr :: 0 <= sl < Pow2(|b1|) && 0 <= sr < Pow2(|b2|) ==> best <= DoubleCost(part, b1, b2, sl, sr))
  }

  /** Every subset sum of `bs` for `s < upto` is a key of `t` whose count is
      at most that subset's size. */
  ghost predicate CountsAtMost(t: map<Vec, nat>, bs: seq<Vec>, n: nat, upto: nat)
    requires Widths(bs, n)
  {
    forall s :: 0 <= s < upto ==> Sub(bs, n, s) in t && t[Sub(bs, n, s)] <= Popcount(Bits(s, |bs|))
  }

  /** Every key of `t` is the subset sum of some `s < upto` of the size it
      records. */
  ghost predicate KeysCounted(t: map<Vec, nat>, bs: seq<Vec>, n: nat, upto: nat)
    requires Widths(bs, n)
  {
    forall m :: m in t ==> exists s :: 0 <= s < upto && Sub(bs, n, s) == m && t[m] == Popcount(Bits(s, |bs|))
  }

  lemma TableCounts(t: map<Vec, nat>, bs: seq<Vec>, n: nat, upto: nat)
    requires Tabulates(t, bs, n, upto)
    ensures CountsAtMost(t, bs, n, upto) && KeysCounted(t, bs, n, upto)
  {
  }

  /** What the as-written combining step uses of the two tables. */
  ghost predicate DoubleTables(part: Vec, b1: seq<Vec>, b2: seq<Vec>, left: map<Vec, nat>, right: map<Vec, nat>) {
    && Widths(b1, |part|) && Widths(b2, |part|)
    && KeysWidth(left, |part|) && KeysWidth(right, |part|)
    && CountsAtMost(left, b1, |part|, Pow2(|b1|)) && CountsAtMost(right, b2, |part|, Pow2(|b2|))
    && KeysCounted(left, b1, |part|, Pow2(|b1|)) && KeysCounted(right, b2, |part|, Pow2(|b2|))
  }

  /** The search used for more than 22 basis vectors, as the source writes it:
      each pair of table entries is costed `w + lcnt + rcnt`. */
  method MeetInTheMiddleAsWritten(part: Vec, basis: seq<Vec>) returns (best: nat)
    requires Widths(basis, |part|)
    ensures LeastDoubleCost(part, basis[..|basis| / 2], basis[|basis| / 2..], best)
  {
    var b1, b2, left, right := Halves(part, basis);
    best := BestPair(part, left, right, true);
    TableCounts(left, b1, |part|, Pow2(|b1|));
    TableCounts(right, b2, |part|, Pow2(|b2|));
    SplitAt(basis, b1, b2);
    DoubleLeast(part, b1, b2, left, right, best);
  }

  /** The halves `Halves` returns are the slices at `f // 2`. */
  lemma SplitAt(basis: seq<Vec>, b1: seq<Vec>, b2: seq<Vec>)
    requires b1 + b2 == basis && |b1| == |basis| / 2
    ensures b1 == basis[..|basis| / 2] && b2 == basis[|basis| / 2..]
  {
  }

  /** The as-written minimum over table entries is the least `DoubleCost`. */
  lemma DoubleLeast(part: Vec, b1: seq<Vec>, b2: seq<Vec>, left: map<Vec, nat>, right: map<Vec, nat>, best: nat)
    requires DoubleTables(part, b1, b2, left, right)
    requires BestOf(part, left, right, true, best)
    ensures LeastDoubleCost(part, b1, b2, best)
  {
    var lm, rm :| lm in left && rm in right && best == PairCost(part, lm, left[lm], rm, right[rm], true);
    var sl := Counted(left, b1, |part|, Pow2(|b1|), lm);
    var sr := Counted(right, b2, |part|, Pow2(|b2|), rm);
    DoubleAttained(part, b1, b2, lm, left[lm], rm, right[rm], sl, sr);
    forall sl, sr | 0 <= sl < Pow2(|b1|) && 0 <= sr < Pow2(|b2|)
      ensures best <= DoubleCost(part, b1, b2, sl, sr)
    {
      DoubleBound(part, b1, b2, left, right, best, sl, sr);
    }
  }

  /** A pair of entries recorded for subsets `sl` and `sr` costs what the
      source charges for those subsets. */
  lemma DoubleAttained(part: Vec, b1: seq<Vec>, b2: seq<Vec>, lm: Vec, lc: nat, rm: Vec, rc: nat, sl: nat, sr: nat)
    requires Widths(b1, |part|) && Widths(b2, |part|)
    requires Sub(b1, |part|, sl) == lm && lc == Popcount(Bits(sl, |b1|))
    requires Sub(b2, |part|, sr) == rm && rc == Popcount(Bits(sr, |b2|))
    ensures PairCost(part, lm, lc, rm, rc, true) == DoubleCost(part, b1, b2, sl, sr)
  {
  }

  /** The subset recorded for a key of `t`. */
  lemma Counted(t: map<Vec, nat>, bs: seq<Vec>, n: nat, upto: nat, m: Vec) returns (s: nat)
    requires Widths(bs, n) && KeysCounted(t, bs, n, upto) && m in t
    ensures s < upto && Sub(bs, n, s) == m && t[m] == Popcount(Bits(s, |bs|))
  {
    s :| 0 <= s < upto && Sub(bs, n, s) == m && t[m] == Popcount(Bits(s, |bs|));
  }

  /** No pair of subsets costs less than the as-written value. */
  lemma DoubleBound(part: Vec, b1: seq<Vec>, b2: seq<Vec>, left: map<Vec, nat>, right: map<Vec, nat>, best: nat, sl: nat, sr: nat)
    requires Widths(b1, |part|) && Widths(b2, |part|) && KeysWidth(left, |part|) && KeysWidth(right, |part|)
    requires CountsAtMost(left, b1, |part|, Pow2(|b1|)) && CountsAtMost(right, b2, |part|, Pow2(|b2|))
    requires forall lm, rm :: lm in left && rm in right ==> best <= PairCost(part, lm, left[lm], rm, right[rm], true)
    requires sl < Pow2(|b1|) && sr < Pow2(|b2|)
    ensures best <= DoubleCost(part, b1, b2, sl, sr)
  {
    var lm, rm := Sub(b1, |part|, sl), Sub(b2, |part|, sr);
    assert best <= PairCost(part, lm, left[lm], rm, right[rm], true);
  }

  /** Lights `[##]` with buttons `(0)`, `(1)` and 23 copies of `(0,1)`: the
      particular solution presses buttons 0 and 1, and free button `j + 2`
      adds the vector setting buttons 0, 1 and `j + 2`. */
  function ExamplePart(): (p: Vec)
    ensures |p| == 25
  {
    seq(25, k => k < 2)
  }

  function ExampleBasis(): (basis: seq<Vec>)
    ensures |basis| == 23 && Widths(basis, 25)
  {
    seq(23, j => seq(25, k => k < 2 || k == j + 2))
  }

  /** In the example, any subset leaves at least one press, and two when it
      is empty. */
  lemma ExampleSweep(pick: seq<bool>)
    requires |pick| == 23
    ensures Popcount(Sweep(ExamplePart(), ExampleBasis(), pick)) >= (if IsZero(pick) then 2 else 1)
  {
    var P, B := ExamplePart(), ExampleBasis();
    var x := Sweep(P, B, pick);
    if IsZero(pick) {
      forall k | 0 <= k < 2
        ensures x[k]
      {
        SweepAt(P, B, pick, k);
        DotNone(pick, Column(B, k));
      }
      PopcountPair(x, 0, 1);
    } else {
      var j :| 0 <= j < 23 && pick[j];
      SweepAt(P, B, pick, j + 2);
      DotSupport(pick, Column(B, j + 2), j);
      PopcountPositive(x, j + 2);
    }
  }

  /** Picking the first basis vector alone costs one press. */
  lemma ExampleOnePress()
    ensures Weight(ExamplePart(), ExampleBasis(), 1) == 1
  {
    var P, B := ExamplePart(), ExampleBasis();
    var pick := Bits(1, 23);
    forall i | 0 < i < 23
      ensures !pick[i]
    {
      BitOfOne(i);
    }
    var x := Sweep(P, B, pick);
    forall k | 0 <= k < 25
      ensures x[k] == (k == 2)
    {
      SweepAt(P, B, pick, k);
      DotSupport(pick, Column(B, k), 0);
    }
    PopcountUnit(x, 2);
  }

  /** Bit `i > 0` of 1 is clear. */
  lemma {:induction false} BitOfOne(i: nat)
    requires i > 0
    ensures !Bit(1, i)
  {
    BitOfZero(i - 1);
  }

  lemma {:induction false} BitOfZero(i: nat)
    ensures !Bit(0, i)
  {
    if i > 0 {
      BitOfZero(i - 1);
    }
  }

  /** Every cost the as-written search compares in the example is at least 2. */
  lemma ExampleDoubleCost(sl: nat, sr: nat)
    ensures DoubleCost(ExamplePart(), ExampleBasis()[..11], ExampleBasis()[11..], sl, sr) >= 2
  {
    var P, B := ExamplePart(), ExampleBasis();
    var b1, b2 := B[..11], B[11..];
    var p1, p2 := Bits(sl, 11), Bits(sr, 12);
    assert b1 + b2 == B;
    SweepSplit(P, b1, b2, p1, p2);
    ExampleSweep(p1 + p2);
    if !IsZero(p1) {
      var j :| 0 <= j < 11 && p1[j];
      PopcountPositive(p1, j);
      assert !IsZero(p1 + p2) by { assert (p1 + p2)[j]; }
    } else if !IsZero(p2) {
      var j :| 0 <= j < 12 && p2[j];
      PopcountPositive(p2, j);
      assert !IsZero(p1 + p2) by { assert (p1 + p2)[11 + j]; }
    }
  }

  /** The counterexample: with 23 free buttons the fewest presses is 1, but
      the search as written returns at least 2. */
  lemma DoubleCounted()
    ensures Lightest(ExamplePart(), ExampleBasis(), 1)
    ensures forall best :: LeastDoubleCost(ExamplePart(), ExampleBasis()[..11], ExampleBasis()[11..], best) ==> best >= 2
  {
    var P, B := ExamplePart(), ExampleBasis();
    ExampleOnePress();
    assert Pow2(23) > 1;
    forall s | 0 <= s < Pow2(23)
      ensures 1 <= Weight(P, B, s)
    {
      ExampleSweep(Bits(s, 23));
    }
    forall best | LeastDoubleCost(P, B[..11], B[11..], best)
      ensures best >= 2
    {
      ExampleLeastDouble(best);
    }
  }

  lemma ExampleLeastDouble(best: nat)
    requires LeastDoubleCost(ExamplePart(), ExampleBasis()[..11], ExampleBasis()[11..], best)
    ensures best >= 2
  {
    var sl, sr :| 0 <= sl < Pow2(11) && 0 <= sr < Pow2(12) &&
      best == DoubleCost(ExamplePart(), ExampleBasis()[..11], ExampleBasis()[11..], sl, sr);
    ExampleDoubleCost(sl, sr);
  }

  // ---------------------------------------------------------------------------
  // The meet-in-the-middle search reaches every subset

  /** `Dot` over concatenations. */
  lemma {:induction false} DotConcat(u1: Vec, u2: Vec, x1: Vec, x2: Vec)
    requires |u1| == |x1| && |u2| == |x2|
    ensures Dot(u1 + u2, x1 + x2) == (Dot(u1, x1) != Dot(u2, x2))
    decreases |u2|
  {
    if u2 == [] {
      assert u1 + u2 == u1 && x1 + x2 == x1;
    } else {
      var k := |u2| - 1;
      DotConcat(u1, u2[..k], x1, x2[..k]);
      assert (u1 + u2)[..|u1| + k] == u1 + u2[..k];
      assert (x1 + x2)[..|u1| + k] == x1 + x2[..k];
    }
  }

  /** The columns of a concatenation. */
  lemma ColumnConcat(b1: seq<Vec>, b2: seq<Vec>, k: nat)
    requires forall i :: 0 <= i < |b1| ==> k < |b1[i]|
    requires forall i :: 0 <= i < |b2| ==> k < |b2[i]|
    ensures Column(b1 + b2, k) == Column(b1, k) + Column(b2, k)
  {
  }

  /** Position `k` of a sweep over two halves. */
  lemma SweepSplitAt(start: Vec, b1: seq<Vec>, b2: seq<Vec>, p1: seq<bool>, p2: seq<bool>, k: nat)
    requires |p1| == |b1| && |p2| == |b2| && Widths(b1, |start|) && Widths(b2, |start|) && k < |start|
    ensures Sweep(start, b1 + b2, p1 + p2)[k] ==
      ((start[k] != Sweep(Zeros(|start|), b1, p1)[k]) != Sweep(Zeros(|start|), b2, p2)[k])
  {
    SweepAt(start, b1 + b2, p1 + p2, k);
    SweepAt(Zeros(|start|), b1, p1, k);
    SweepAt(Zeros(|start|), b2, p2, k);
    ColumnConcat(b1, b2, k);
    DotConcat(p1, p2, Column(b1, k), Column(b2, k));
  }

  /** A sweep over two halves is the start plus the two halves' subset sums. */
  lemma SweepSplit(start: Vec, b1: seq<Vec>, b2: seq<Vec>, p1: seq<bool>, p2: seq<bool>)
    requires |p1| == |b1| && |p2| == |b2| && Widths(b1, |start|) && Widths(b2, |start|)
    ensures Sweep(start, b1 + b2, p1 + p2) ==
      Xor(Xor(start, Sweep(Zeros(|start|), b1, p1)), Sweep(Zeros(|start|), b2, p2))
  {
    forall k | 0 <= k < |start|
      ensures Sweep(start, b1 + b2, p1 + p2)[k] ==
        ((start[k] != Sweep(Zeros(|start|), b1, p1)[k]) != Sweep(Zeros(|start|), b2, p2)[k])
    {
      SweepSplitAt(start, b1, b2, p1, p2, k);
    }
  }

  /** What the combining step uses of the two tables: their keys are exactly
      the subset sums of their halves. */
  ghost predicate MeetTables(part: Vec, b1: seq<Vec>, b2: seq<Vec>, left: map<Vec, nat>, right: map<Vec, nat>) {
    && Widths(b1, |part|) && Widths(b2, |part|) && Widths(b1 + b2, |part|)
    && KeysWidth(left, |part|) && KeysWidth(right, |part|)
    && Covers(left, b1, |part|, Pow2(|b1|)) && Covers(right, b2, |part|, Pow2(|b2|))
    && KeysReached(left, b1, |part|, Pow2(|b1|)) && KeysReached(right, b2, |part|, Pow2(|b2|))
  }

  /** The corrected search's minimum over table entries is the minimum over
      all subsets. */
  lemma MeetLightest(part: Vec, b1: seq<Vec>, b2: seq<Vec>, left: map<Vec, nat>, right: map<Vec, nat>, best: nat)
    requires MeetTables(part, b1, b2, left, right)
    requires BestOf(part, left, right, false, best)
    ensures Lightest(part, b1 + b2, best)
  {
    var lm, rm :| lm in left && rm in right && best == PairCost(part, lm, left[lm], rm, right[rm], false);
    MeetAttained(part, b1, b2, left, right, best, lm, rm);
    MeetBounds(part, b1, b2, left, right, best);
  }

  /** No subset weighs less than the corrected search's value. */
  lemma MeetBounds(part: Vec, b1: seq<Vec>, b2: seq<Vec>, left: map<Vec, nat>, right: map<Vec, nat>, best: nat)
    requires MeetTables(part, b1, b2, left, right)
    requires forall lm, rm :: lm in left && rm in right ==> best <= PairCost(part, lm, left[lm], rm, right[rm], false)
    ensures forall s :: 0 <= s < Pow2(|b1 + b2|) ==> best <= Weight(part, b1 + b2, s)
  {
    forall s | 0 <= s < Pow2(|b1 + b2|)
      ensures best <= Weight(part, b1 + b2, s)
    {
      MeetBound(part, b1, b2, left, right, best, s);
    }
  }

  /** The corrected search's value is the weight of some subset. */
  lemma MeetAttained(part: Vec, b1: seq<Vec>, b2: seq<Vec>, left: map<Vec, nat>, right: map<Vec, nat>, best: nat, lm: Vec, rm: Vec)
    requires MeetTables(part, b1, b2, left, right)
    requires lm in left && rm in right && |lm| == |rm| == |part| && best == PairCost(part, lm, 0, rm, 0, false)
    ensures exists s :: 0 <= s < Pow2(|b1 + b2|) && best == Weight(part, b1 + b2, s)
  {
    var sl := Reached(left, b1, |part|, Pow2(|b1|), lm);
    var sr := Reached(right, b2, |part|, Pow2(|b2|), rm);
    var s := SplitWeight(part, b1, b2, sl, sr);
  }

  /** The subset made of the subsets `sl` of `b1` and `sr` of `b2`, and its
      weight. */
  lemma SplitWeight(part: Vec, b1: seq<Vec>, b2: seq<Vec>, sl: nat, sr: nat) returns (s: nat)
    requires Widths(b1, |part|) && Widths(b2, |part|)
    ensures s < Pow2(|b1 + b2|)
    ensures Weight(part, b1 + b2, s) == Popcount(Xor(Xor(part, Sub(b1, |part|, sl)), Sub(b2, |part|, sr)))
  {
    var p := Bits(sl, |b1|) + Bits(sr, |b2|);
    EncodeBits(p);
    s := Encode(p);
    SweepSplit(part, b1, b2, Bits(sl, |b1|), Bits(sr, |b2|));
  }

  lemma WidthsConcat(b1: seq<Vec>, b2: seq<Vec>, n: nat)
    requires Widths(b1, n) && Widths(b2, n)
    ensures Widths(b1 + b2, n)
  {
    forall i | 0 <= i < |b1 + b2|
      ensures |(b1 + b2)[i]| == n
    {
      if i >= |b1| {
        assert (b1 + b2)[i] == b2[i - |b1|];
      }
    }
  }

  /** The subset giving a key of `t`. */
  lemma Reached(t: map<Vec, nat>, bs: seq<Vec>, n: nat, upto: nat, m: Vec) returns (s: nat)
    requires Widths(bs, n) && KeysReached(t, bs, n, upto) && m in t
    ensures s < upto && Sub(bs, n, s) == m
  {
    s :| 0 <= s < upto && Sub(bs, n, s) == m;
  }

  /** Subset `s` weighs no less than the corrected search's value. */
  lemma MeetBound(part: Vec, b1: seq<Vec>, b2: seq<Vec>, left: map<Vec, nat>, right: map<Vec, nat>, best: nat, s: nat)
    requires MeetTables(part, b1, b2, left, right)
    requires forall lm, rm :: lm in left && rm in right ==> best <= PairCost(part, lm, left[lm], rm, right[rm], false)
    ensures best <= Weight(part, b1 + b2, s)
  {
    var q := Bits(s, |b1 + b2|);
    var q1, q2 := q[..|b1|], q[|b1|..];
    assert q == q1 + q2;
    EncodeBits(q1);
    EncodeBits(q2);
    var lm, rm := Sub(b1, |part|, Encode(q1)), Sub(b2, |part|, Encode(q2));
    SweepSplit(part, b1, b2, q1, q2);
    assert lm in left && rm in right;
    assert best <= PairCost(part, lm, left[lm], rm, right[rm], false);
  }

  // ---------------------------------------------------------------------------
  // Meaning for the machine

  /** `v` is the fewest presses that solve `A x = b`. */
  ghost predicate Fewest(A: seq<Vec>, b: Vec, v: nat) {
    && (exists x :: |x| == Width(A) && Solves(A, b, x) && Popcount(x) == v)
    && (forall x :: |x| == Width(A) && Solves(A, b, x) ==> v <= Popcount(x))
  }

  /** The least weight over the parametrised solutions is the fewest presses
      over all solutions. */
  lemma LightestIsFewest(A: seq<Vec>, b: Vec, xPart: Vec, basis: seq<Vec>, free: seq<nat>, v: nat)
    requires Parametrises(A, b, Width(A), xPart, basis, free) && Lightest(xPart, basis, v)
    ensures Fewest(A, b, v)
  {
    var s :| 0 <= s < Pow2(|basis|) && v == Weight(xPart, basis, s);
    SweepSolves(A, b, xPart, basis, Bits(s, |basis|));
    forall x | |x| == Width(A) && Solves(A, b, x)
      ensures v <= Popcount(x)
    {
      var pick := Pick(x, free);
      EncodeBits(pick);
      assert x == Sweep(xPart, basis, Bits(Encode(pick), |basis|));
      assert v <= Weight(xPart, basis, Encode(pick));
    }
  }
}
