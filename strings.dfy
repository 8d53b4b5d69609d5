/** The parts of Python's `str` and `int` behaviour the puzzle solvers rely on:
    `strip`, `split`, `index`/`find`, `ljust`, `count`, `isdigit`, `int(s)` and
    `str(n)`. Characters are ASCII-only here: Unicode whitespace and Unicode
    digits are not modelled. */
module Strings {
  import opened Maybe

  /** Python's `str.isspace` on an ASCII character: the blank, tab, line
      feed, vertical tab, form feed and carriage return, and the four
      separators FS, GS, RS and US (0x1C to 0x1F). */
  predicate IsSpace(c: char) {
    || c == ' ' || c == '\t' || c == '\n' || c == '\U{B}' || c == '\U{C}' || c == '\r'
    || c == '\U{1C}' || c == '\U{1D}' || c == '\U{1E}' || c == '\U{1F}'
  }

  /** Python's `str.isdigit` on an ASCII character. */
  predicate IsDigit(c: char) {
    '0' <= c <= '9'
  }

  predicate AllDigits(s: string) {
    forall i :: 0 <= i < |s| ==> IsDigit(s[i])
  }

  predicate AllSpace(s: string) {
    forall i :: 0 <= i < |s| ==> IsSpace(s[i])
  }

  function DigitValue(c: char): (d: nat)
    requires IsDigit(c)
    ensures d < 10
  {
    c as int - '0' as int
  }

  function DigitChar(d: nat): (c: char)
    requires d < 10
    ensures IsDigit(c) && DigitValue(c) == d
  {
    ('0' as int + d) as char
  }

  // ---------------------------------------------------------------------------
  // strip, lstrip, rstrip

  /** The number of leading whitespace characters. */
  function LeadingSpaces(s: string): (n: nat)
    ensures n <= |s| && (n < |s| ==> !IsSpace(s[n]))
    ensures forall i :: 0 <= i < n ==> IsSpace(s[i])
  {
    if s != [] && IsSpace(s[0]) then
      var n := 1 + LeadingSpaces(s[1..]);
      assert forall i :: 1 <= i < |s| ==> s[i] == s[1..][i - 1];
      n
    else 0
  }

  /** The length of `s` without its trailing whitespace. */
  function TrimmedEnd(s: string): (n: nat)
    ensures n <= |s| && (n > 0 ==> !IsSpace(s[n - 1]))
    ensures forall i :: n <= i < |s| ==> IsSpace(s[i])
  {
    if s != [] && IsSpace(s[|s| - 1]) then TrimmedEnd(s[..|s| - 1]) else |s|
  }

  /** `s.strip()`: empty exactly when `s` is all whitespace. */
  function Strip(s: string): (r: string)
    ensures |r| <= |s|
    ensures r == [] <==> AllSpace(s)
    ensures r != [] ==> !IsSpace(r[0]) && !IsSpace(r[|r| - 1])
  {
    var t := s[LeadingSpaces(s)..];
    var e := TrimmedEnd(t);
    assert forall i :: 0 <= i < |t| ==> t[i] == s[LeadingSpaces(s) + i];
    t[..e]
  }

  /** `s.rstrip()`: the same string without its trailing whitespace; it is
      all whitespace exactly when `s` is. */
  function RStrip(s: string): (r: string)
    ensures |r| <= |s| && r == s[..|r|]
    ensures forall i :: |r| <= i < |s| ==> IsSpace(s[i])
    ensures AllSpace(r) <==> AllSpace(s)
  {
    s[..TrimmedEnd(s)]
  }

  lemma StripNoSpace(s: string)
    requires s == [] || (!IsSpace(s[0]) && !IsSpace(s[|s| - 1]))
    ensures Strip(s) == s
  {
  }

  // ---------------------------------------------------------------------------
  // Decimal digits: the value of a digit string and `str(n)`

  function Pow10(k: nat): (p: nat)
    ensures p >= 1
  {
    if k == 0 then 1 else 10 * Pow10(k - 1)
  }

  lemma Pow10Add(a: nat, b: nat)
    ensures Pow10(a + b) == Pow10(a) * Pow10(b)
  {
    if b > 0 {
      Pow10Add(a, b - 1);
    }
  }

  lemma Pow10Mono(a: nat, b: nat)
    requires a <= b
    ensures Pow10(a) <= Pow10(b)
  {
    if a < b {
      Pow10Mono(a, b - 1);
    }
  }

  /** The value of a string of decimal digits read left to right, which is what
      `int(s)` computes for it; leading zeros are allowed. */
  function Value(s: string): (v: nat)
    requires AllDigits(s)
    ensures v < Pow10(|s|)
  {
    if s == [] then 0 else Value(s[..|s| - 1]) * 10 + DigitValue(s[|s| - 1])
  }

  lemma MulAssoc10(x: nat, p: nat)
    ensures x * p * 10 == x * (10 * p)
  {
  }

  lemma {:induction false} ValueAppend(a: string, b: string)
    requires AllDigits(a) && AllDigits(b)
    ensures AllDigits(a + b)
    ensures Value(a + b) == Value(a) * Pow10(|b|) + Value(b)
  {
    if b != [] {
      var b' := b[..|b| - 1];
      var d := DigitValue(b[|b| - 1]);
      assert (a + b)[..|a + b| - 1] == a + b';
      assert (a + b)[|a + b| - 1] == b[|b| - 1];
      ValueAppend(a, b');
      calc {
        Value(a + b);
        Value(a + b') * 10 + d;
        (Value(a) * Pow10(|b'|) + Value(b')) * 10 + d;
        { MulAssoc10(Value(a), Pow10(|b'|)); }
        Value(a) * Pow10(|b|) + (Value(b') * 10 + d);
        Value(a) * Pow10(|b|) + Value(b);
      }
    } else {
      assert a + b == a;
    }
  }

  /** `str(n)` for a natural number: no leading zero except for 0 itself. */
  function Str(n: nat): (r: string)
    ensures 1 <= |r| && AllDigits(r) && Value(r) == n
    ensures r[0] == '0' <==> n == 0
    ensures n < Pow10(|r|)
    ensures n >= 1 ==> Pow10(|r| - 1) <= n
    ensures n < 10 <==> |r| == 1
  {
    if n < 10 then [DigitChar(n)]
    else
      var r := Str(n / 10) + [DigitChar(n % 10)];
      assert r[..|r| - 1] == Str(n / 10);
      r
  }

  /** `len(str(n))`. */
  function NumLen(n: nat): (k: nat)
    ensures k >= 1 && n < Pow10(k)
    ensures n >= 1 ==> Pow10(k - 1) <= n
  {
    |Str(n)|
  }

  /** `len(str(n))` for any integer: a minus sign counts as one character. */
  function IntLen(n: int): (k: nat)
    ensures k >= 1
    ensures n >= 0 ==> k == NumLen(n)
  {
    if n < 0 then NumLen(-n) + 1 else NumLen(n)
  }

  /** Larger numbers never have shorter decimal strings. */
  lemma NumLenMono(a: nat, b: nat)
    requires a <= b
    ensures NumLen(a) <= NumLen(b)
  {
    if NumLen(a) > NumLen(b) {
      Pow10Mono(NumLen(b), NumLen(a) - 1);
    }
  }

  /** The length of `str(n)` is the unique k with 10^(k-1) <= n < 10^k. */
  lemma NumLenUnique(n: nat, k: nat)
    requires k >= 1 && n < Pow10(k) && (n >= 1 || k == 1) && (k >= 2 ==> Pow10(k - 1) <= n)
    ensures NumLen(n) == k
  {
    var l := NumLen(n);
    if l < k {
      Pow10Mono(l, k - 1);
    } else if l > k {
      Pow10Mono(k, l - 1);
    }
  }

  /** A non-empty sequence is its prefix followed by its last element. */
  lemma LastSplit<T>(s: seq<T>)
    requires s != []
    ensures s == s[..|s| - 1] + [s[|s| - 1]]
  {
  }

  /** Appending a digit to `str(v)` for v >= 1 gives `str` of the new value. */
  lemma StrSnoc(p: string, c: char)
    requires AllDigits(p) && IsDigit(c) && Value(p) >= 1 && Str(Value(p)) == p
    ensures AllDigits(p + [c]) && Str(Value(p + [c])) == p + [c]
  {
    var s := p + [c];
    assert s[..|s| - 1] == p;
    var v := Value(s);
    assert v == Value(p) * 10 + DigitValue(c);
    assert v >= 10 && v / 10 == Value(p) && v % 10 == DigitValue(c);
    assert DigitChar(DigitValue(c)) == c;
  }

  /** A digit string without a leading zero is `str` of its value. */
  lemma {:induction false} StrOfValue(s: string)
    requires AllDigits(s) && s != [] && (s[0] != '0' || |s| == 1)
    ensures Str(Value(s)) == s
  {
    if |s| > 1 {
      var p := s[..|s| - 1];
      StrOfValue(p);
      assert Value(p) >= 1 by {
        assert p[0] != '0';
      }
      StrSnoc(p, s[|s| - 1]);
      LastSplit(s);
    }
  }

  // ---------------------------------------------------------------------------
  // int(s)

  /** `int(s)` for an unsigned decimal string, None where Python raises ValueError. */
  function ParseNat(s: string): (r: Option<nat>)
    ensures r.Some? <==> Strip(s) != [] && AllDigits(Strip(s))
  {
    var t := Strip(s);
    if t != [] && AllDigits(t) then Some(Value(t)) else None
  }

  /** `int(s)`: surrounding whitespace, an optional sign, then ASCII digits. */
  function ParseInt(s: string): (r: Option<int>)
    ensures ParseNat(s).Some? ==> r == Some(ParseNat(s).value as int)
  {
    var t := Strip(s);
    if t != [] && (t[0] == '-' || t[0] == '+') then
      var u := t[1..];
      if u != [] && AllDigits(u) then
        var v: int := if t[0] == '-' then -(Value(u) as int) else Value(u);
        Some(v)
      else None
    else if t != [] && AllDigits(t) then Some(Value(t))
    else None
  }

  lemma ParseNatStr(n: nat)
    ensures ParseNat(Str(n)) == Some(n) && ParseInt(Str(n)) == Some(n)
  {
    var s := Str(n);
    assert IsDigit(s[0]) && IsDigit(s[|s| - 1]);
    StripNoSpace(s);
  }

  // ---------------------------------------------------------------------------
  // Searching and splitting

  /** `s.find(c, start)`: the first index at or after `start` holding `c`. */
  function FindFrom(s: string, c: char, start: nat): (r: Option<nat>)
    decreases |s| - start
    ensures r.Some? ==> start <= r.value < |s| && s[r.value] == c
  {
    if start >= |s| then None
    else if s[start] == c then Some(start)
    else FindFrom(s, c, start + 1)
  }

  /** No `c` lies between `start` and what `s.find(c, start)` returns, or
      after `start` at all when it finds nothing. */
  lemma {:induction false} FindFromSpec(s: string, c: char, start: nat)
    ensures FindFrom(s, c, start).Some? ==> forall j :: start <= j < FindFrom(s, c, start).value ==> s[j] != c
    ensures FindFrom(s, c, start).None? ==> forall j :: start <= j < |s| ==> s[j] != c
    decreases |s| - start
  {
    if start < |s| && s[start] != c {
      FindFromSpec(s, c, start + 1);
    }
  }

  /** `s.find(c, start)` is `k` when `s[k] == c` and no `c` comes between. */
  lemma {:induction false} FindFromAt(s: string, c: char, start: nat, k: nat)
    requires start <= k < |s| && s[k] == c && forall j :: start <= j < k ==> s[j] != c
    ensures FindFrom(s, c, start) == Some(k)
    decreases k - start
  {
    if start < k {
      FindFromAt(s, c, start + 1, k);
    }
  }

  /** `s.find(c, start)` finds nothing when no `c` lies at or after `start`. */
  lemma {:induction false} FindFromNone(s: string, c: char, start: nat)
    requires forall j :: start <= j < |s| ==> s[j] != c
    ensures FindFrom(s, c, start) == None
    decreases |s| - start
  {
    if start < |s| {
      FindFromNone(s, c, start + 1);
    }
  }

  function Find(s: string, c: char): (r: Option<nat>)
    ensures r.Some? <==> c in s
    ensures r.Some? ==> r.value < |s| && s[r.value] == c && c !in s[..r.value]
  {
    FindFromSpec(s, c, 0);
    var r := FindFrom(s, c, 0);
    if r.Some? then
      assert forall j :: 0 <= j < r.value ==> s[..r.value][j] == s[j];
      r
    else
      r
  }

  /** Joins pieces with one separator character between them (`sep.join`). */
  function Join(parts: seq<string>, c: char): string
  {
    if parts == [] then [] else if |parts| == 1 then parts[0] else parts[0] + [c] + Join(parts[1..], c)
  }

  /** `s.split(c)` with an explicit one-character separator. */
  function Split(s: string, c: char): (r: seq<string>)
    decreases |s|
    ensures |r| >= 1
    ensures forall i :: 0 <= i < |r| ==> c !in r[i]
    ensures Join(r, c) == s
  {
    match Find(s, c)
    case None => [s]
    case Some(i) =>
      var rest := Split(s[i + 1..], c);
      var r := [s[..i]] + rest;
      assert r[1..] == rest;
      assert s == s[..i] + [c] + s[i + 1..];
      r
  }

  /** Splitting undoes joining pieces that do not contain the separator. */
  lemma {:induction false} SplitJoin(parts: seq<string>, c: char)
    requires |parts| >= 1 && forall i :: 0 <= i < |parts| ==> c !in parts[i]
    ensures Split(Join(parts, c), c) == parts
    decreases |parts|
  {
    var s := Join(parts, c);
    if |parts| > 1 {
      var p0 := parts[0];
      assert s == p0 + [c] + Join(parts[1..], c);
      FirstSeparator(p0, Join(parts[1..], c), c);
      SplitJoin(parts[1..], c);
      assert s[..|p0|] == p0 && s[|p0| + 1..] == Join(parts[1..], c);
    }
  }

  lemma FirstSeparator(a: string, b: string, c: char)
    requires c !in a
    ensures Find(a + [c] + b, c) == Some(|a|)
  {
    var s := a + [c] + b;
    assert s[|a|] == c && s[..|a|] == a;
    assert c in s[..|a| + 1];
  }

  /** `s.split(c, 1)` when `c in s`: the text before and after its first occurrence. */
  function SplitOnce(s: string, c: char): (r: (string, string))
    requires c in s
    ensures c !in r.0 && s == r.0 + [c] + r.1
  {
    var i := Find(s, c).value;
    assert s == s[..i] + [c] + s[i + 1..];
    (s[..i], s[i + 1..])
  }

  /** The length of the leading run of non-whitespace characters. */
  function WordLen(s: string): (k: nat)
    ensures k <= |s| && (k < |s| ==> IsSpace(s[k]))
    ensures forall i :: 0 <= i < k ==> !IsSpace(s[i])
  {
    if s == [] || IsSpace(s[0]) then 0 else 1 + WordLen(s[1..])
  }

  predicate IsWord(w: string) {
    w != [] && forall j :: 0 <= j < |w| ==> !IsSpace(w[j])
  }

  /** `s.split()`: the maximal runs of non-whitespace characters, in order. */
  function Words(s: string): seq<string>
    decreases |s|
  {
    if s == [] then []
    else if IsSpace(s[0]) then Words(s[1..])
    else
      var k := WordLen(s);
      [s[..k]] + Words(s[k..])
  }

  /** The first run of a string that starts with a non-space is a word. */
  lemma FirstWord(t: string)
    requires t != [] && !IsSpace(t[0])
    ensures IsWord(t[..WordLen(t)])
  {
  }

  /** Every piece `split()` returns is a non-empty run without whitespace. */
  lemma {:induction false} WordsAreWords(s: string, i: nat)
    decreases |s|
    requires i < |Words(s)|
    ensures IsWord(Words(s)[i])
  {
    if IsSpace(s[0]) {
      WordsAreWords(s[1..], i);
    } else if i == 0 {
      FirstWord(s);
    } else {
      WordsAreWords(s[WordLen(s)..], i - 1);
    }
  }

  /** `split()` returns no pieces exactly when the string is all whitespace. */
  lemma {:induction false} NoWords(s: string)
    decreases |s|
    ensures Words(s) == [] <==> AllSpace(s)
  {
    if s != [] && IsSpace(s[0]) {
      NoWords(s[1..]);
      assert AllSpace(s) <==> AllSpace(s[1..]) by {
        assert forall j :: 0 < j < |s| ==> s[j] == s[1..][j - 1];
      }
    }
  }

  /** `s.ljust(w)`: pad with spaces on the right up to width `w`. */
  function LJust(s: string, w: nat): (r: string)
    ensures |r| == if |s| >= w then |s| else w
    ensures r[..|s|] == s
    ensures forall i :: |s| <= i < |r| ==> r[i] == ' '
  {
    if |s| >= w then s else s + seq(w - |s|, _ => ' ')
  }

  /** `s.count(c)` for one character. */
  function CountChar(s: string, c: char): (k: nat)
    ensures k <= |s|
    ensures k == 0 <==> c !in s
  {
    if s == [] then 0 else (if s[0] == c then 1 else 0) + CountChar(s[1..], c)
  }

  /** `''.join(ch for ch in s if ch.isdigit())`. */
  function DigitsOf(s: string): (r: string)
    ensures AllDigits(r) && |r| <= |s|
    ensures r == [] <==> forall i :: 0 <= i < |s| ==> !IsDigit(s[i])
  {
    if s == [] then [] else (if IsDigit(s[0]) then [s[0]] else []) + DigitsOf(s[1..])
  }
}
