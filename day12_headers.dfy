/** The line patterns of 2025/Day12/puzzle23.py, written out by hand: a shape
    header "N:" (`^\d+:`), a region header "WxH:" (`^\d+x\d+:`), and the
    fields of a region line (`^(\d+)x(\d+):\s*(.*)$`). Digits are ASCII. */
module Headers {
  import opened Maybe
  import opened Strings

  /** Where the run of digits starting at `i` ends. */
  function DigitsEnd(s: string, i: nat): (e: nat)
    requires i <= |s|
    ensures i <= e <= |s| && (e < |s| ==> !IsDigit(s[e]))
    ensures forall m :: i <= m < e ==> IsDigit(s[m])
    decreases |s| - i
  {
    if i == |s| || !IsDigit(s[i]) then i else DigitsEnd(s, i + 1)
  }

  /** A run of digits from `i` to a non-digit at `e` is the run that starts
      at `i`. */
  lemma {:induction false} DigitsEndAt(s: string, i: nat, e: nat)
    requires i <= e < |s| && !IsDigit(s[e]) && forall m :: i <= m < e ==> IsDigit(s[m])
    ensures DigitsEnd(s, i) == e
    decreases e - i
  {
    if i < e {
      DigitsEndAt(s, i + 1, e);
    }
  }

  /** `s[i..e]` is all digits exactly when each of its characters is. */
  lemma DigitsSlice(s: string, i: nat, e: nat)
    requires i <= e <= |s|
    ensures AllDigits(s[i..e]) <==> forall m :: i <= m < e ==> IsDigit(s[m])
  {
    if AllDigits(s[i..e]) {
      forall m | i <= m < e
        ensures IsDigit(s[m])
      {
        assert s[i..e][m - i] == s[m];
      }
    }
  }

  /** A shape header from `i` on: digits, then ':'. */
  predicate IndexAt(s: string, i: nat)
    requires i <= |s|
  {
    var e := DigitsEnd(s, i);
    i < e < |s| && s[e] == ':'
  }

  /** `re.match(r"^\d+:", s)`. */
  predicate IndexHeader(s: string) {
    IndexAt(s, 0)
  }

  /** `re.match(r"^\d+x\d+:", s)`: digits and 'x', then a shape header. */
  predicate RegionHeader(s: string) {
    var k := DigitsEnd(s, 0);
    0 < k < |s| && s[k] == 'x' && IndexAt(s, k + 1)
  }

  /** A shape header is some non-empty run of digits followed by ':'. */
  lemma IndexHeaderMeans(s: string)
    ensures IndexHeader(s) <==> exists k :: 0 < k < |s| && AllDigits(s[..k]) && s[k] == ':'
  {
    if IndexHeader(s) {
      var k := DigitsEnd(s, 0);
      DigitsSlice(s, 0, k);
      assert s[..k] == s[0..k];
    }
    if k :| 0 < k < |s| && AllDigits(s[..k]) && s[k] == ':' {
      assert s[..k] == s[0..k];
      DigitsSlice(s, 0, k);
      DigitsEndAt(s, 0, k);
    }
  }

  /** Digits `s[..k]`, 'x', digits `s[k + 1..j]` and ':' at `j`. */
  predicate RegionAt(s: string, k: nat, j: nat) {
    0 < k && k + 1 < j < |s| && AllDigits(s[..k]) && s[k] == 'x' && AllDigits(s[k + 1..j]) && s[j] == ':'
  }

  /** A region header is a non-empty run of digits, 'x', a non-empty run of
      digits and ':'. */
  lemma RegionHeaderMeans(s: string)
    ensures RegionHeader(s) <==> exists k, j :: RegionAt(s, k, j)
  {
    if RegionHeader(s) {
      RegionHeaderParts(s);
    }
    if k, j :| RegionAt(s, k, j) {
      RegionSplitAt(s, k, j);
    }
  }

  /** A region header reads as one where its digit runs end. */
  lemma RegionHeaderParts(s: string)
    requires RegionHeader(s)
    ensures var k := DigitsEnd(s, 0); k < |s| && RegionAt(s, k, DigitsEnd(s, k + 1))
  {
    var k := DigitsEnd(s, 0);
    var j := DigitsEnd(s, k + 1);
    DigitsSlice(s, 0, k);
    DigitsSlice(s, k + 1, j);
    assert s[..k] == s[0..k];
  }

  /** Where the digit runs of a line that reads as a region at `k` and `j`
      end. */
  lemma RegionSplitAt(s: string, k: nat, j: nat)
    requires RegionAt(s, k, j)
    ensures DigitsEnd(s, 0) == k && DigitsEnd(s, k + 1) == j && RegionHeader(s)
  {
    assert s[..k] == s[0..k];
    DigitsSlice(s, 0, k);
    DigitsSlice(s, k + 1, j);
    DigitsEndAt(s, 0, k);
    DigitsEndAt(s, k + 1, j);
  }

  /** No line is both: the digits are followed by ':' in one and 'x' in the
      other. */
  lemma HeadersDisjoint(s: string)
    ensures !(IndexHeader(s) && RegionHeader(s))
  {
  }

  /** A region line: its width, height and the present counts after ':'. */
  datatype Region = Region(w: nat, h: nat, counts: seq<int>)

  /** `[int(x) for x in tokens]`: the values, or the error of the first
      token that is not an integer. */
  function Ints(tokens: seq<string>): (r: Result<seq<int>>)
    ensures r.Ok? ==> |r.value| == |tokens| && forall i :: 0 <= i < |tokens| ==> ParseInt(tokens[i]) == Some(r.value[i])
    ensures r.Err? <==> exists i :: 0 <= i < |tokens| && ParseInt(tokens[i]).None?
  {
    if tokens == [] then Ok([])
    else
      var x := ParseInt(tokens[0]);
      if x.None? then Err("invalid literal for int() with base 10")
      else
        var rest := Ints(tokens[1..]);
        if rest.Err? then rest
        else
          assert forall i :: 1 <= i < |tokens| ==> tokens[i] == tokens[1..][i - 1];
          Ok([x.value] + rest.value)
  }

  /** `[int(x) for x in rest.split()] if rest else []`: the counts after
      a region's ':', or the error of the first word that is not an
      integer. */
  function Counts(rest: string): Result<seq<int>> {
    if rest == [] then Ok([]) else Ints(Words(rest))
  }

  /** The counts are the words read as integers, an error exactly when one
      of the words is not an integer. */
  lemma CountsWords(rest: string)
    ensures var ws, r := Words(rest), Counts(rest);
      && (r.Err? <==> exists i :: 0 <= i < |ws| && ParseInt(ws[i]).None?)
      && (r.Ok? ==> |r.value| == |ws| && forall i :: 0 <= i < |ws| ==> ParseInt(ws[i]) == Some(r.value[i]))
  {
    if rest == [] {
      NoWords(rest);
    }
  }

  /** The three groups of `^(\d+)x(\d+):\s*(.*)$` on a region header: the
      width digits, the height digits and the text after ':'. */
  datatype Groups = Groups(w: string, h: string, after: string)

  /** The groups of a region header, split where its digit runs end. */
  function GroupsOf(s: string): (g: Groups)
    requires RegionHeader(s)
    ensures AllDigits(g.w) && AllDigits(g.h)
  {
    RegionHeaderParts(s);
    var k := DigitsEnd(s, 0);
    var j := DigitsEnd(s, k + 1);
    Groups(s[..k], s[k + 1..j], s[j + 1..])
  }

  /** A line that reads as a region at `k` and `j` has its groups there. */
  lemma GroupsAt(s: string, k: nat, j: nat)
    requires RegionAt(s, k, j)
    ensures RegionHeader(s) && GroupsOf(s) == Groups(s[..k], s[k + 1..j], s[j + 1..])
  {
    RegionSplitAt(s, k, j);
  }

  /** The match of `^(\d+)x(\d+):\s*(.*)$` on a region header: the two
      numbers, and the counts read from what follows the ':' once stripped. */
  function RegionOf(s: string): (r: Result<Region>)
    requires RegionHeader(s)
  {
    var g := GroupsOf(s);
    var counts := Counts(Strip(g.after));
    if counts.Err? then Err(counts.msg)
    else Ok(Region(Value(g.w), Value(g.h), counts.value))
  }

  /** The groups of the match: the width is the digits before 'x', the
      height the digits between 'x' and ':', and the counts are the words
      after ':' read as integers; the line is an error exactly when one of
      those words is not an integer. */
  lemma RegionOfAt(s: string, k: nat, j: nat)
    requires RegionAt(s, k, j)
    ensures RegionHeader(s)
    ensures var ws := Words(Strip(s[j + 1..]));
      && (RegionOf(s).Err? <==> exists i :: 0 <= i < |ws| && ParseInt(ws[i]).None?)
      && (RegionOf(s).Ok? ==>
            && RegionOf(s).value.w == Value(s[..k])
            && RegionOf(s).value.h == Value(s[k + 1..j])
            && |RegionOf(s).value.counts| == |ws|
            && forall i :: 0 <= i < |ws| ==> ParseInt(ws[i]) == Some(RegionOf(s).value.counts[i]))
  {
    GroupsAt(s, k, j);
    CountsWords(Strip(s[j + 1..]));
  }
}
