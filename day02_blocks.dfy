/** Decimal numbers made of one digit block written r times, as Day 2 builds
    them with `str(base) * r` (2025/Day2/puzzle3.py and puzzle4.py): the
    string form, the arithmetic form `base * RepUnit(k, r)`, and the sets of
    such numbers inside a range that the enumeration loops collect. */
module DigitBlocks {
  import opened Strings

  /** `s * r` for a string: r copies of `s`. */
  function RepStr(s: string, r: nat): string
  {
    if r == 0 then [] else RepStr(s, r - 1) + s
  }

  lemma {:induction false} RepStrLen(s: string, r: nat)
    ensures |RepStr(s, r)| == |s| * r
  {
    if r > 0 {
      RepStrLen(s, r - 1);
    }
  }

  /** Two or more copies of a non-empty string are longer than one. */
  lemma RepStrLonger(s: string, r: nat)
    requires s != [] && r >= 2
    ensures |RepStr(s, r)| > |s|
  {
    RepStrHead(s, r - 1);
  }

  lemma {:induction false} RepStrHead(s: string, r: nat)
    requires r >= 1
    ensures |s| <= |RepStr(s, r)| && RepStr(s, r)[..|s|] == s
  {
    if r > 1 {
      RepStrHead(s, r - 1);
    }
  }

  /** The number 1 0..0 1 0..0 ... 1: r ones, each k digits apart. */
  function RepUnit(k: nat, r: nat): (u: nat)
    ensures r >= 1 ==> u >= 1
  {
    if r == 0 then 0 else RepUnit(k, r - 1) * Pow10(k) + 1
  }

  lemma Distrib(v: nat, u: nat, p: nat)
    ensures v * u * p + v == v * (u * p + 1)
  {
  }

  /** Writing a digit string r times multiplies its value by the rep-unit. */
  lemma {:induction false} ValueRepStr(s: string, r: nat)
    requires AllDigits(s)
    ensures AllDigits(RepStr(s, r))
    ensures Value(RepStr(s, r)) == Value(s) * RepUnit(|s|, r)
  {
    if r > 0 {
      ValueRepStr(s, r - 1);
      ValueAppend(RepStr(s, r - 1), s);
      Distrib(Value(s), RepUnit(|s|, r - 1), Pow10(|s|));
    }
  }

  /** A k-digit number without a leading zero. */
  predicate IsBlock(b: nat, k: nat) {
    k >= 1 && Pow10(k - 1) <= b < Pow10(k)
  }

  lemma BlockLen(b: nat, k: nat)
    requires IsBlock(b, k)
    ensures NumLen(b) == k
  {
    NumLenUnique(b, k);
  }

  /** `int(str(b) * r)` is `b * RepUnit(k, r)`, and its decimal string is `str(b) * r`. */
  lemma StrRepeat(b: nat, k: nat, r: nat)
    requires IsBlock(b, k) && r >= 1
    ensures Str(b * RepUnit(k, r)) == RepStr(Str(b), r)
    ensures NumLen(b * RepUnit(k, r)) == k * r
  {
    BlockLen(b, k);
    var t := RepStr(Str(b), r);
    ValueRepStr(Str(b), r);
    RepStrHead(Str(b), r);
    assert t[0] == Str(b)[0];
    StrOfValue(t);
    RepStrLen(Str(b), r);
  }

  /** `n` has k*r digits and its string is its first k digits written r times. */
  predicate IsRepeatOf(n: nat, k: nat, r: nat) {
    var s := Str(n);
    1 <= k <= |s| && r >= 1 && s == RepStr(s[..k], r)
  }

  /** The block of a repeated number, read back as a number. */
  function BlockOf(n: nat, k: nat): nat
    requires k <= |Str(n)|
  {
    Value(Str(n)[..k])
  }

  /** Every repeated number with r >= 2 is some k-digit block times the rep-unit. */
  lemma RepeatDecompose(n: nat, k: nat, r: nat)
    requires IsRepeatOf(n, k, r) && r >= 2
    ensures IsBlock(BlockOf(n, k), k)
    ensures n == BlockOf(n, k) * RepUnit(k, r)
  {
    var s := Str(n);
    var p := s[..k];
    RepStrLonger(p, r);
    assert s[0] != '0';
    assert p[0] == s[0];
    ValueRepStr(p, r);
    StrOfValue(p);
    assert Str(Value(p)) == p;
  }

  /** Conversely, a block times the rep-unit is a repeated number whose block is that block. */
  lemma RepeatCompose(b: nat, k: nat, r: nat)
    requires IsBlock(b, k) && r >= 1
    ensures IsRepeatOf(b * RepUnit(k, r), k, r)
    ensures BlockOf(b * RepUnit(k, r), k) == b
  {
    StrRepeat(b, k, r);
    BlockLen(b, k);
    RepStrHead(Str(b), r);
  }

  lemma MulStrict(a: nat, b: nat, u: nat)
    requires a < b && u >= 1
    ensures a * u < b * u
    ensures (a + 1) * u <= b * u
  {
    var d: nat := b - a - 1;
    assert b * u == (a + 1 + d) * u == a * u + u + d * u;
  }

  lemma MulSucc(b: nat, u: nat)
    ensures (b + 1) * u == b * u + u
  {
  }

  /** `int(str(b) * r)` for a k-digit block b (see StrRepeat). */
  function RepVal(b: nat, k: nat, r: nat): nat
  {
    b * RepUnit(k, r)
  }

  /** The values the innermost loop produces inside [lo, hi]: every k-digit
      block written r times. */
  ghost function Blocks(lo: int, hi: int, k: nat, r: nat): set<int>
  {
    set b: nat | k >= 1 && Pow10(k - 1) <= b < Pow10(k) && lo <= RepVal(b, k, r) <= hi :: RepVal(b, k, r)
  }

  /** Those whose block is below `c`: what the loop has produced when it is
      about to try block `c`. */
  ghost function BlocksBelow(lo: int, hi: int, k: nat, r: nat, c: nat): set<int>
  {
    set b: nat | k >= 1 && Pow10(k - 1) <= b < c && b < Pow10(k) && lo <= RepVal(b, k, r) <= hi :: RepVal(b, k, r)
  }

  /** A larger block gives a larger value. */
  lemma RepValMono(a: nat, b: nat, k: nat, r: nat)
    requires a < b && r >= 1
    ensures RepVal(a, k, r) < RepVal(b, k, r)
  {
    MulStrict(a, b, RepUnit(k, r));
  }

  lemma BlocksBelowStart(lo: int, hi: int, k: nat, r: nat)
    requires k >= 1
    ensures BlocksBelow(lo, hi, k, r, Pow10(k - 1)) == {}
  {
  }

  /** Trying block `b` adds exactly its value when that value is in range, and
      the value is new. */
  lemma BlocksBelowStep(lo: int, hi: int, k: nat, r: nat, b: nat)
    requires IsBlock(b, k) && r >= 1
    ensures RepVal(b, k, r) !in BlocksBelow(lo, hi, k, r, b)
    ensures lo <= RepVal(b, k, r) <= hi ==>
      BlocksBelow(lo, hi, k, r, b + 1) == BlocksBelow(lo, hi, k, r, b) + {RepVal(b, k, r)}
    ensures !(lo <= RepVal(b, k, r) <= hi) ==>
      BlocksBelow(lo, hi, k, r, b + 1) == BlocksBelow(lo, hi, k, r, b)
  {
    forall c: nat | c < b
      ensures RepVal(c, k, r) < RepVal(b, k, r)
    {
      RepValMono(c, b, k, r);
    }
  }

  /** Once a value passes `hi`, no later block lands in range. */
  lemma BlocksBelowBreak(lo: int, hi: int, k: nat, r: nat, b: nat)
    requires r >= 1 && RepVal(b, k, r) > hi
    ensures BlocksBelow(lo, hi, k, r, b) == Blocks(lo, hi, k, r)
  {
    forall c: nat | b < c
      ensures RepVal(b, k, r) < RepVal(c, k, r)
    {
      RepValMono(b, c, k, r);
    }
  }

  /** After the last k-digit block everything has been produced. */
  lemma BlocksBelowEnd(lo: int, hi: int, k: nat, r: nat)
    ensures BlocksBelow(lo, hi, k, r, Pow10(k)) == Blocks(lo, hi, k, r)
  {
  }

  /** What the loop produces is repeated numbers of shape (k, r)... */
  lemma BlocksAreRepeats(lo: int, hi: int, k: nat, r: nat, n: int)
    requires r >= 1 && n in Blocks(lo, hi, k, r)
    ensures lo <= n <= hi && 0 <= n && IsRepeatOf(n, k, r)
  {
    var b: nat :| k >= 1 && Pow10(k - 1) <= b < Pow10(k) && lo <= RepVal(b, k, r) <= hi && n == RepVal(b, k, r);
    RepeatCompose(b, k, r);
  }

  /** ...and every repeated number of shape (k, r >= 2) in range is produced. */
  lemma RepeatsAreBlocks(lo: int, hi: int, k: nat, r: nat, n: int)
    requires r >= 2 && lo <= n <= hi && 0 <= n && IsRepeatOf(n, k, r)
    ensures n in Blocks(lo, hi, k, r)
  {
    RepeatDecompose(n, k, r);
    var b := BlockOf(n, k);
    assert n == RepVal(b, k, r);
  }
}
