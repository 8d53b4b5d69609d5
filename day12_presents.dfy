/** `main` of 2025/Day12/puzzle23.py: the shapes listed at the top of the
    input, each one's area (its '#' cells), and the number of regions below
    them whose area holds the presents listed for them. */
module Presents {
  import opened Maybe
  import opened Strings
  import opened Sums
  import opened Headers

  type Shapes = seq<seq<string>>

  const ShapeError := "Expected shape index line"

  // ---------------------------------------------------------------------------
  // The shape section

  /** How the shape section reads a line: blank once stripped, a shape header
      ("N:") or a region header ("WxH:") once stripped, and a shape header as
      written, without stripping. */
  datatype Kind = Kind(blank: bool, header: bool, region: bool, rawHeader: bool)

  /** A blank line is no header, and no line is both kinds of header. */
  predicate Sane(k: Kind) {
    (k.blank ==> !k.header && !k.region) && !(k.header && k.region)
  }

  /** The reading of one line; a shape header as written is one once
      stripped. */
  function KindOf(line: string): (k: Kind)
    ensures Sane(k)
    ensures k.rawHeader ==> k.header
  {
    var t := Strip(line);
    HeadersDisjoint(t);
    RawHeaderStripped(line);
    if t == [] then BlankNotHeader(t); Kind(true, IndexHeader(t), RegionHeader(t), IndexHeader(line))
    else Kind(false, IndexHeader(t), RegionHeader(t), IndexHeader(line))
  }

  /** Stripping keeps a shape header at the front of a line. */
  lemma RawHeaderStripped(line: string)
    ensures IndexHeader(line) ==> IndexHeader(Strip(line))
  {
    if IndexHeader(line) {
      assert IsDigit(line[0]);
    }
  }

  lemma BlankNotHeader(t: string)
    requires t == []
    ensures !RegionHeader(t) && !IndexHeader(t)
  {
  }

  function Kinds(lines: seq<string>): (ks: seq<Kind>)
    ensures |ks| == |lines| && forall k :: 0 <= k < |lines| ==> ks[k] == KindOf(lines[k])
  {
    seq(|lines|, k requires 0 <= k < |lines| => KindOf(lines[k]))
  }

  ghost predicate AllSane(ks: seq<Kind>) {
    forall k :: 0 <= k < |ks| ==> Sane(ks[k])
  }

  lemma KindsSane(lines: seq<string>)
    ensures AllSane(Kinds(lines))
  {
  }

  /** A line that ends a shape's rows: blank, a shape header as written, or a
      region header once stripped. */
  predicate EndsRows(k: Kind) {
    k.blank || k.rawHeader || k.region
  }

  /** The first line at or after `j` that ends the rows, or the end. */
  function RowsEnd(ks: seq<Kind>, j: nat): (e: nat)
    requires j <= |ks|
    ensures j <= e <= |ks|
    decreases |ks| - j
  {
    if j == |ks| || EndsRows(ks[j]) then j else RowsEnd(ks, j + 1)
  }

  lemma {:induction false} RowsEndSpec(ks: seq<Kind>, j: nat)
    requires j <= |ks|
    ensures RowsEnd(ks, j) < |ks| ==> EndsRows(ks[RowsEnd(ks, j)])
    ensures forall k :: j <= k < RowsEnd(ks, j) ==> !EndsRows(ks[k])
    decreases |ks| - j
  {
    if j < |ks| && !EndsRows(ks[j]) {
      RowsEndSpec(ks, j + 1);
    }
  }

  /** Where the section goes on after rows that stop at `e`: past the blank
      line that stopped them, if one did. */
  function After(ks: seq<Kind>, e: nat): (n: nat)
    requires e <= |ks|
    ensures e <= n <= |ks|
  {
    if e < |ks| && ks[e].blank then e + 1 else e
  }

  function Prepend(shapes: Shapes, r: Result<(Shapes, nat)>): Result<(Shapes, nat)> {
    if r.Err? then r else Ok((shapes + r.value.0, r.value.1))
  }

  /** The shapes from line `i` on and the line where the regions start: blank
      lines are skipped, a region header ends the section, a shape header
      starts a shape whose rows follow it, and any other line is an error. */
  function ShapeSection(lines: seq<string>, ks: seq<Kind>, i: nat): (r: Result<(Shapes, nat)>)
    requires |ks| == |lines| && i <= |lines|
    ensures r.Ok? ==> i <= r.value.1 <= |lines|
    decreases |lines| - i
  {
    if i == |lines| then Ok(([], i))
    else if ks[i].blank then ShapeSection(lines, ks, i + 1)
    else if ks[i].region then Ok(([], i))
    else if !ks[i].header then Err(ShapeError)
    else
      var e := RowsEnd(ks, i + 1);
      Prepend([lines[i + 1..e]], ShapeSection(lines, ks, After(ks, e)))
  }

  /** The first line at or after `i` that is a region header once stripped. */
  function FirstRegion(ks: seq<Kind>, i: nat): (k: nat)
    requires i <= |ks|
    ensures i <= k <= |ks|
    decreases |ks| - i
  {
    if i == |ks| || ks[i].region then i else FirstRegion(ks, i + 1)
  }

  lemma {:induction false} FirstRegionSkip(ks: seq<Kind>, i: nat, j: nat)
    requires i <= j <= |ks|
    requires forall k :: i <= k < j ==> !ks[k].region
    ensures FirstRegion(ks, i) == FirstRegion(ks, j)
    decreases j - i
  {
    if i < j {
      FirstRegionSkip(ks, i + 1, j);
    }
  }

  /** No region header lies between a shape header at `i` and where the
      section goes on after its rows. */
  lemma ShapeSpan(ks: seq<Kind>, i: nat)
    requires i < |ks| && ks[i].header && AllSane(ks)
    ensures forall k :: i <= k < After(ks, RowsEnd(ks, i + 1)) ==> !ks[k].region
  {
    RowsEndSpec(ks, i + 1);
  }

  /** The shape section ends at the first region header. */
  lemma {:induction false} SectionEnd(lines: seq<string>, ks: seq<Kind>, i: nat)
    requires |ks| == |lines| && i <= |lines| && AllSane(ks) && ShapeSection(lines, ks, i).Ok?
    ensures ShapeSection(lines, ks, i).value.1 == FirstRegion(ks, i)
    decreases |lines| - i
  {
    if i < |lines| {
      if ks[i].blank {
        SectionEnd(lines, ks, i + 1);
      } else if !ks[i].region {
        var n := After(ks, RowsEnd(ks, i + 1));
        SectionEnd(lines, ks, n);
        ShapeSpan(ks, i);
        FirstRegionSkip(ks, i, n);
      }
    }
  }

  /** A line the section stops at for an error: not blank and neither kind
      of header, before the first region header. */
  ghost predicate Stray(ks: seq<Kind>, i: nat, k: nat) {
    i <= k < |ks| && k < FirstRegion(ks, i) && !ks[k].blank && !ks[k].header && !ks[k].region
  }

  /** The section fails only at a stray line. */
  lemma {:induction false} SectionError(lines: seq<string>, ks: seq<Kind>, i: nat) returns (k: nat)
    requires |ks| == |lines| && i <= |lines| && AllSane(ks) && ShapeSection(lines, ks, i).Err?
    ensures Stray(ks, i, k)
    decreases |lines| - i
  {
    if ks[i].blank {
      k := SectionError(lines, ks, i + 1);
      FirstRegionSkip(ks, i, i + 1);
    } else if !ks[i].header {
      k := i;
    } else {
      var n := After(ks, RowsEnd(ks, i + 1));
      k := SectionError(lines, ks, n);
      ShapeSpan(ks, i);
      FirstRegionSkip(ks, i, n);
    }
  }

  /** A stray line after nothing but blank lines is an error. */
  lemma {:induction false} StrayFirst(lines: seq<string>, ks: seq<Kind>, i: nat, k: nat)
    requires |ks| == |lines| && i <= k < |lines| && forall j :: i <= j < k ==> ks[j].blank
    requires !ks[k].blank && !ks[k].header && !ks[k].region
    ensures ShapeSection(lines, ks, i).Err?
    decreases k - i
  {
    if i < k {
      StrayFirst(lines, ks, i + 1, k);
    }
  }

  /** `row` is one of the lines from `i` on whose kind does not end rows. */
  ghost predicate RowLine(lines: seq<string>, ks: seq<Kind>, i: nat, row: string)
    requires |ks| == |lines|
  {
    exists k :: i <= k < |lines| && row == lines[k] && !EndsRows(ks[k])
  }

  lemma RowLineEarlier(lines: seq<string>, ks: seq<Kind>, i: nat, j: nat, row: string)
    requires |ks| == |lines| && i <= j && RowLine(lines, ks, j, row)
    ensures RowLine(lines, ks, i, row)
  {
    var k :| j <= k < |lines| && row == lines[k] && !EndsRows(ks[k]);
  }

  /** Every row of every shape is one of the lines from `i` on whose kind
      does not end rows. */
  lemma {:induction false} RowsFrom(lines: seq<string>, ks: seq<Kind>, i: nat)
    requires |ks| == |lines| && i <= |lines| && ShapeSection(lines, ks, i).Ok?
    ensures var shapes := ShapeSection(lines, ks, i).value.0;
      forall a, b :: 0 <= a < |shapes| && 0 <= b < |shapes[a]| ==> RowLine(lines, ks, i, shapes[a][b])
    decreases |lines| - i
  {
    if i < |lines| {
      if ks[i].blank {
        RowsFrom(lines, ks, i + 1);
        SkipBlank(lines, ks, i);
        var shapes := ShapeSection(lines, ks, i).value.0;
        forall a, b | 0 <= a < |shapes| && 0 <= b < |shapes[a]|
          ensures RowLine(lines, ks, i, shapes[a][b])
        {
          RowLineEarlier(lines, ks, i, i + 1, shapes[a][b]);
        }
      } else if !ks[i].region {
        var e := RowsEnd(ks, i + 1);
        var n := After(ks, e);
        RowsFrom(lines, ks, n);
        RowsEndSpec(ks, i + 1);
        var rest := ShapeSection(lines, ks, n).value.0;
        var shapes := ShapeSection(lines, ks, i).value.0;
        assert shapes == [lines[i + 1..e]] + rest;
        forall a, b | 0 <= a < |shapes| && 0 <= b < |shapes[a]|
          ensures RowLine(lines, ks, i, shapes[a][b])
        {
          if a == 0 {
            var k := i + 1 + b;
            assert shapes[a][b] == lines[k] && !EndsRows(ks[k]);
          } else {
            assert shapes[a] == rest[a - 1];
            RowLineEarlier(lines, ks, i, n, shapes[a][b]);
          }
        }
      }
    }
  }

  /** Every row of every shape is a line that does not end rows: not blank,
      not a shape header as written, not a region header once stripped. */
  lemma RowsClean(lines: seq<string>)
    requires ShapeSection(lines, Kinds(lines), 0).Ok?
    ensures var shapes := ShapeSection(lines, Kinds(lines), 0).value.0;
      forall a, b :: 0 <= a < |shapes| && 0 <= b < |shapes[a]| ==> !EndsRows(KindOf(shapes[a][b]))
  {
    var ks := Kinds(lines);
    RowsFrom(lines, ks, 0);
    var shapes := ShapeSection(lines, ks, 0).value.0;
    forall a, b | 0 <= a < |shapes| && 0 <= b < |shapes[a]|
      ensures !EndsRows(KindOf(shapes[a][b]))
    {
      var k :| 0 <= k < |lines| && shapes[a][b] == lines[k] && !EndsRows(ks[k]);
    }
  }

  /** The rows of one shape: the lines from `i` up to the first that ends
      them, and where the section goes on. */
  method CollectRows(lines: seq<string>, ks: seq<Kind>, i: nat) returns (rows: seq<string>, j: nat)
    requires |ks| == |lines| && i <= |lines|
    ensures rows == lines[i..RowsEnd(ks, i)] && j == After(ks, RowsEnd(ks, i))
  {
    rows := [];
    j := i;
    while j < |lines|
      invariant i <= j <= |lines| && rows == lines[i..j] && RowsEnd(ks, i) == RowsEnd(ks, j)
      decreases |lines| - j
    {
      if ks[j].blank {
        return rows, j + 1;
      }
      if ks[j].rawHeader || ks[j].region {
        return rows, j;
      }
      SliceSnoc(lines, i, j);
      rows := rows + [lines[j]];
      j := j + 1;
    }
  }

  /** The shape section of the input, each line classified once. */
  method ReadShapes(lines: seq<string>) returns (r: Result<(Shapes, nat)>)
    ensures r == ShapeSection(lines, Kinds(lines), 0)
  {
    var ks := Kinds(lines);
    r := ReadSection(lines, ks);
  }

  /** The loop over the shape section, from the top of the input. */
  method ReadSection(lines: seq<string>, ks: seq<Kind>) returns (r: Result<(Shapes, nat)>)
    requires |ks| == |lines|
    ensures r == ShapeSection(lines, ks, 0)
  {
    var shapes: Shapes := [];
    var i := 0;
    PrependNone(ShapeSection(lines, ks, 0));
    while i < |lines|
      invariant i <= |lines| && ShapeSection(lines, ks, 0) == Prepend(shapes, ShapeSection(lines, ks, i))
      decreases |lines| - i
    {
      if ks[i].blank {
        SkipBlank(lines, ks, i);
        i := i + 1;
        continue;
      }
      if ks[i].region {
        assert shapes + [] == shapes;
        return Ok((shapes, i));
      }
      if !ks[i].header {
        return Err(ShapeError);
      }
      var rows;
      rows, i := CollectRows(lines, ks, i + 1);
      PrependPrepend(shapes, [rows], ShapeSection(lines, ks, i));
      shapes := shapes + [rows];
      i := SkipBlanks(lines, ks, i);
    }
    assert shapes + [] == shapes;
    r := Ok((shapes, i));
  }

  /** The blank lines that follow a shape, skipped. */
  method SkipBlanks(lines: seq<string>, ks: seq<Kind>, i: nat) returns (j: nat)
    requires |ks| == |lines| && i <= |lines|
    ensures i <= j <= |lines| && ShapeSection(lines, ks, j) == ShapeSection(lines, ks, i)
    ensures forall k :: i <= k < j ==> ks[k].blank
    ensures j < |lines| ==> !ks[j].blank
  {
    j := i;
    while j < |lines| && ks[j].blank
      invariant i <= j <= |lines| && ShapeSection(lines, ks, j) == ShapeSection(lines, ks, i)
      invariant forall k :: i <= k < j ==> ks[k].blank
      decreases |lines| - j
    {
      SkipBlank(lines, ks, j);
      j := j + 1;
    }
  }

  lemma SkipBlank(lines: seq<string>, ks: seq<Kind>, i: nat)
    requires |ks| == |lines| && i < |lines| && ks[i].blank
    ensures ShapeSection(lines, ks, i) == ShapeSection(lines, ks, i + 1)
  {
  }

  lemma SliceSnoc<A>(xs: seq<A>, i: nat, j: nat)
    requires i <= j < |xs|
    ensures xs[i..j + 1] == xs[i..j] + [xs[j]]
  {
  }

  lemma PrependNone(r: Result<(Shapes, nat)>)
    ensures Prepend([], r) == r
  {
    if r.Ok? {
      assert [] + r.value.0 == r.value.0;
    }
  }

  lemma PrependPrepend(a: Shapes, b: Shapes, r: Result<(Shapes, nat)>)
    ensures Prepend(a, Prepend(b, r)) == Prepend(a + b, r)
  {
    if r.Ok? {
      assert a + (b + r.value.0) == (a + b) + r.value.0;
    }
  }

  // ---------------------------------------------------------------------------
  // Areas

  /** A shape's area: the '#' cells of its rows. */
  function Area(rows: seq<string>): nat {
    if rows == [] then 0 else Area(rows[..|rows| - 1]) + CountChar(rows[|rows| - 1], '#')
  }

  function Concat(rows: seq<string>): string {
    if rows == [] then [] else Concat(rows[..|rows| - 1]) + rows[|rows| - 1]
  }

  lemma {:induction false} CountCharAppend(a: string, b: string, c: char)
    ensures CountChar(a + b, c) == CountChar(a, c) + CountChar(b, c)
  {
    if a != [] {
      assert (a + b)[0] == a[0];
      assert (a + b)[1..] == a[1..] + b;
      CountCharAppend(a[1..], b, c);
    } else {
      assert a + b == b;
    }
  }

  /** The area is the number of '#' in the rows taken together. */
  lemma {:induction false} AreaConcat(rows: seq<string>)
    ensures Area(rows) == CountChar(Concat(rows), '#')
  {
    if rows != [] {
      AreaConcat(rows[..|rows| - 1]);
      CountCharAppend(Concat(rows[..|rows| - 1]), rows[|rows| - 1], '#');
    }
  }

  function Areas(shapes: Shapes): (areas: seq<nat>)
    ensures |areas| == |shapes| && forall k :: 0 <= k < |shapes| ==> areas[k] == Area(shapes[k])
  {
    seq(|shapes|, k requires 0 <= k < |shapes| => Area(shapes[k]))
  }

  /** The loop computing `shape_areas`, adding up each row's '#' count. */
  method ShapeAreas(shapes: Shapes) returns (areas: seq<nat>)
    ensures areas == Areas(shapes)
  {
    areas := [];
    for s := 0 to |shapes|
      invariant areas == Areas(shapes[..s])
    {
      var rows := shapes[s];
      var area := 0;
      for j := 0 to |rows|
        invariant area == Area(rows[..j])
      {
        assert rows[..j + 1][..j] == rows[..j];
        area := area + CountChar(rows[j], '#');
      }
      assert rows[..|rows|] == rows;
      assert shapes[..s + 1][..s] == shapes[..s];
      areas := areas + [area];
    }
    assert shapes[..|shapes|] == shapes;
  }

  // ---------------------------------------------------------------------------
  // Regions

  /** `sum(c * a for c, a in zip(counts, shape_areas))`. */
  function PresentArea(counts: seq<int>, areas: seq<nat>): int {
    var m := if |counts| < |areas| then |counts| else |areas|;
    SeqSum(seq(m, k requires 0 <= k < m => counts[k] * areas[k]))
  }

  /** Counts past the last shape, and shapes past the last count, add
      nothing: the pairing stops at the shorter list. */
  lemma PresentAreaTruncated(counts: seq<int>, areas: seq<nat>, n: nat)
    requires n <= |counts| && n <= |areas| && (n == |counts| || n == |areas|)
    ensures PresentArea(counts, areas) == PresentArea(counts[..n], areas[..n])
  {
    var m := if |counts| < |areas| then |counts| else |areas|;
    assert m == n;
    assert seq(m, k requires 0 <= k < m => counts[k] * areas[k]) == seq(n, k requires 0 <= k < n => counts[..n][k] * areas[..n][k]);
  }

  /** One more pair adds its product. */
  lemma PresentAreaSnoc(counts: seq<int>, areas: seq<nat>, c: int, a: nat)
    requires |counts| == |areas|
    ensures PresentArea(counts + [c], areas + [a]) == PresentArea(counts, areas) + c * a
  {
    var n := |counts|;
    var xs := seq(n, k requires 0 <= k < n => counts[k] * areas[k]);
    var ys := seq(n + 1, k requires 0 <= k < n + 1 => (counts + [c])[k] * (areas + [a])[k]);
    assert ys == xs + [c * a];
    SeqSumSnoc(xs, c * a);
  }

  /** The area check of a region. */
  predicate Fits(r: Region, areas: seq<nat>) {
    PresentArea(r.counts, areas) <= (r.w as int) * (r.h as int)
  }

  /** What a line of the region section holds: nothing when it is blank or
      not a region header, and otherwise the region it reads as, or the error
      reading it. */
  function RegionEntry(line: string): Option<Result<Region>> {
    var t := Strip(line);
    if t == [] || !RegionHeader(t) then None else Some(RegionOf(t))
  }

  function RegionEntries(lines: seq<string>): (es: seq<Option<Result<Region>>>)
    ensures |es| == |lines| && forall k :: 0 <= k < |lines| ==> es[k] == RegionEntry(lines[k])
  {
    seq(|lines|, k requires 0 <= k < |lines| => RegionEntry(lines[k]))
  }

  /** The regions from entry `i` on that pass the area check; a region that
      could not be read is an error. */
  function RegionCount(es: seq<Option<Result<Region>>>, i: nat, areas: seq<nat>): (r: Result<nat>)
    requires i <= |es|
    decreases |es| - i
  {
    if i == |es| then Ok(0)
    else if es[i].None? then RegionCount(es, i + 1, areas)
    else if es[i].value.Err? then Err(es[i].value.msg)
    else Plus(if Fits(es[i].value.value, areas) then 1 else 0, RegionCount(es, i + 1, areas))
  }

  function Plus(n: nat, r: Result<nat>): Result<nat> {
    if r.Err? then r else Ok(n + r.value)
  }

  /** The region headers from entry `i` on. */
  function RegionLines(es: seq<Option<Result<Region>>>, i: nat): nat
    requires i <= |es|
    decreases |es| - i
  {
    if i == |es| then 0 else (if es[i].Some? then 1 else 0) + RegionLines(es, i + 1)
  }

  /** At most one region passes per region header. */
  lemma {:induction false} RegionCountBound(es: seq<Option<Result<Region>>>, i: nat, areas: seq<nat>)
    requires i <= |es| && RegionCount(es, i, areas).Ok?
    ensures RegionCount(es, i, areas).value <= RegionLines(es, i)
    decreases |es| - i
  {
    if i < |es| {
      RegionCountBound(es, i + 1, areas);
    }
  }

  /** The entries are the region headers of the lines: blank lines and other
      lines count as none. */
  lemma EntryIsHeader(line: string)
    ensures RegionEntry(line).Some? <==> RegionHeader(Strip(line))
  {
    if Strip(line) == [] {
      BlankNotHeader(Strip(line));
    }
  }

  /** One entry of the region section: what the count from it is. */
  lemma CountStep(es: seq<Option<Result<Region>>>, j: nat, areas: seq<nat>)
    requires j < |es|
    ensures es[j].None? ==> RegionCount(es, j, areas) == RegionCount(es, j + 1, areas)
    ensures es[j].Some? && es[j].value.Err? ==> RegionCount(es, j, areas) == Err(es[j].value.msg)
    ensures es[j].Some? && es[j].value.Ok? ==>
              RegionCount(es, j, areas) == Plus(if Fits(es[j].value.value, areas) then 1 else 0, RegionCount(es, j + 1, areas))
  {
  }

  lemma PlusPlus(a: nat, b: nat, r: Result<nat>)
    ensures Plus(a, Plus(b, r)) == Plus(a + b, r)
  {
  }

  /** The loop over the region lines from `i`. */
  method CountRegions(lines: seq<string>, i: nat, areas: seq<nat>) returns (r: Result<nat>)
    requires i <= |lines|
    ensures r == RegionCount(RegionEntries(lines), i, areas)
  {
    ghost var es := RegionEntries(lines);
    var valid := 0;
    var j := i;
    while j < |lines|
      invariant i <= j <= |lines| && RegionCount(es, i, areas) == Plus(valid, RegionCount(es, j, areas))
      decreases |lines| - j
    {
      var line := Strip(lines[j]);
      assert es[j] == RegionEntry(lines[j]);
      CountStep(es, j, areas);
      j := j + 1;
      if line == [] || !RegionHeader(line) {
        continue;
      }
      var region := RegionOf(line);
      if region.Err? {
        return Err(region.msg);
      }
      var w, h, counts := region.value.w, region.value.h, region.value.counts;
      var regionArea := (w as int) * (h as int);
      var total := PresentArea(counts, areas);
      var fits := total <= regionArea;
      assert fits == Fits(region.value, areas);
      if fits {
        PlusPlus(valid, 1, RegionCount(es, j, areas));
        valid := valid + 1;
      } else {
        PlusPlus(valid, 0, RegionCount(es, j, areas));
      }
    }
    r := Ok(valid);
  }

  /** The whole of `main` on the input lines. */
  function Solve(lines: seq<string>): Result<nat> {
    var s := ShapeSection(lines, Kinds(lines), 0);
    if s.Err? then Err(s.msg) else RegionCount(RegionEntries(lines), s.value.1, Areas(s.value.0))
  }

  /** `main`: the shapes, their areas, and the regions that pass. */
  method CountValidRegions(lines: seq<string>) returns (r: Result<nat>)
    ensures r == Solve(lines)
  {
    var s := ReadShapes(lines);
    if s.Err? {
      return Err(s.msg);
    }
    var areas := ShapeAreas(s.value.0);
    r := CountRegions(lines, s.value.1, areas);
  }
}
