/** Day 1, part 1 (2025/Day1/puzzle1.py): a dial with positions 0..99 starts at
    50; each line "L<n>" or "R<n>" turns it n clicks left or right, and the
    answer is the number of turns that leave the dial on 0. */
module DialLanding {
  import opened Maybe
  import opened Strings

  const Start: int := 50

  /** One instruction: the direction and the (possibly negative) click count. */
  datatype Rotation = Rotation(left: bool, dist: int)

  /** One input line. Blank lines and lines whose tail is not an integer give
      None; the first character selects left when it is `L` or `l`, and any
      other character selects right. */
  function ParseRotation(raw: string): (r: Option<Rotation>)
    ensures r.None? <==> Strip(raw) == [] || ParseInt(Strip(raw)[1..]).None?
    ensures AllSpace(raw) ==> r.None?
    ensures r.Some? ==> r.value.dist == ParseInt(Strip(raw)[1..]).value
    ensures r.Some? ==> (r.value.left <==> Strip(raw)[0] == 'L' || Strip(raw)[0] == 'l')
  {
    var line := Strip(raw);
    if line == [] then None
    else match ParseInt(line[1..])
      case None => None
      case Some(d) => Some(Rotation(line[0] == 'L' || line[0] == 'l', d))
  }

  /** The instructions of the lines that parse, in input order. */
  function Rotations(lines: seq<string>): (rs: seq<Rotation>)
    ensures |rs| <= |lines|
  {
    if lines == [] then []
    else
      var init := Rotations(lines[..|lines| - 1]);
      match ParseRotation(lines[|lines| - 1])
      case None => init
      case Some(r) => init + [r]
  }

  /** The dial position after one instruction: always on the dial. */
  function Turn(pos: int, r: Rotation): (p: int)
    ensures 0 <= p < 100
  {
    if r.left then (pos - r.dist) % 100 else (pos + r.dist) % 100
  }

  datatype DialState = DialState(pos: int, zeros: nat)

  /** Position and landing count after a sequence of instructions from the start. */
  function Run(rs: seq<Rotation>): (st: DialState)
  {
    if rs == [] then DialState(Start, 0)
    else
      var prev := Run(rs[..|rs| - 1]);
      var p := Turn(prev.pos, rs[|rs| - 1]);
      DialState(p, prev.zeros + if p == 0 then 1 else 0)
  }

  /** The position stays on the dial and the count never exceeds the number of
      instructions carried out. */
  lemma {:induction false} RunBounds(rs: seq<Rotation>)
    ensures 0 <= Run(rs).pos < 100
    ensures Run(rs).zeros <= |rs|
  {
    if rs != [] {
      RunBounds(rs[..|rs| - 1]);
    }
  }

  /** An instruction adds one to the count exactly when it leaves the dial on 0. */
  lemma RunStep(rs: seq<Rotation>, r: Rotation)
    ensures Run(rs + [r]).pos == Turn(Run(rs).pos, r)
    ensures Run(rs + [r]).zeros == Run(rs).zeros + (if Turn(Run(rs).pos, r) == 0 then 1 else 0)
  {
    assert (rs + [r])[..|rs + [r]| - 1] == rs;
  }

  /** A line that does not parse has no effect on the instructions. */
  lemma SkippedLine(lines: seq<string>, raw: string)
    requires ParseRotation(raw).None?
    ensures Rotations(lines + [raw]) == Rotations(lines)
  {
    assert (lines + [raw])[..|lines + [raw]| - 1] == lines;
  }

  /** Line i is skipped when it does not parse... */
  lemma RotationsSkip(lines: seq<string>, i: nat)
    requires i < |lines| && ParseRotation(lines[i]).None?
    ensures Rotations(lines[..i + 1]) == Rotations(lines[..i])
  {
    var l := lines[..i + 1];
    assert l[..i] == lines[..i] && l[i] == lines[i];
    assert Rotations(l) == Rotations(l[..i]);
  }

  /** ...and otherwise its instruction is appended. */
  lemma RotationsTake(lines: seq<string>, i: nat)
    requires i < |lines| && ParseRotation(lines[i]).Some?
    ensures Rotations(lines[..i + 1]) == Rotations(lines[..i]) + [ParseRotation(lines[i]).value]
  {
    var l := lines[..i + 1];
    assert l[..i] == lines[..i] && l[i] == lines[i];
    assert Rotations(l) == Rotations(l[..i]) + [ParseRotation(l[i]).value];
  }

  /** `count_zeros`: the number of instructions that leave the dial on 0. */
  method CountZeros(lines: seq<string>) returns (zeros: nat)
    ensures zeros == Run(Rotations(lines)).zeros
    ensures zeros <= |lines|
  {
    var pos := Start;
    zeros := 0;
    for i := 0 to |lines|
      invariant DialState(pos, zeros) == Run(Rotations(lines[..i]))
    {
      // strip, skip blank lines and lines whose tail is not an integer
      var parsed := ParseRotation(lines[i]);
      if parsed.None? {
        RotationsSkip(lines, i);
        continue;
      }
      RotationsTake(lines, i);
      RunStep(Rotations(lines[..i]), parsed.value);
      pos := Turn(pos, parsed.value);
      if pos == 0 {
        zeros := zeros + 1;
      }
    }
    assert lines[..|lines|] == lines;
    RunBounds(Rotations(lines));
  }

  /** "R50" then "L50" reaches 0 once and comes back to 50. */
  lemma ExampleR50L50()
    ensures Run([Rotation(false, 50), Rotation(true, 50)]) == DialState(50, 1)
  {
    assert [Rotation(false, 50), Rotation(true, 50)][..1] == [Rotation(false, 50)];
  }
}

/** Day 1, part 2 (2025/Day1/puzzle2.py): the same dial and input, but every
    click that passes over or lands on 0 is counted, using a closed form per
    instruction instead of simulating each click. */
module DialClicks {
  import opened Maybe
  import opened Strings
  import opened DialLanding

  /** Reference count: the number of clicks t in 1..d after which the dial,
      moved t clicks from `pos`, shows 0. */
  function HitsBrute(pos: int, left: bool, d: int): nat
    decreases d
  {
    if d <= 0 then 0
    else HitsBrute(pos, left, d - 1) + if (if left then pos - d else pos + d) % 100 == 0 then 1 else 0
  }

  /** The closed form: the first hit is k_first clicks away (100 when the dial
      already shows 0), then one more every 100 clicks. */
  function ClosedHits(pos: int, r: Rotation): nat
  {
    var k0 := if r.left then pos % 100 else (-pos) % 100;
    var kFirst := if k0 != 0 then k0 else 100;
    if kFirst <= r.dist then 1 + (r.dist - kFirst) / 100 else 0
  }

  /** The dial shows 0 after t clicks exactly when t is congruent to the
      distance of the first hit modulo 100. */
  lemma HitCongruence(pos: int, left: bool, t: int)
    ensures var k0 := if left then pos % 100 else (-pos) % 100;
      var kFirst := if k0 != 0 then k0 else 100;
      ((if left then pos - t else pos + t) % 100 == 0) <==> (t - kFirst) % 100 == 0
  {
    var k0 := if left then pos % 100 else (-pos) % 100;
    var kFirst := if k0 != 0 then k0 else 100;
    var q := if left then pos / 100 else (-pos) / 100;
    var m := if k0 != 0 then 100 * q else 100 * q - 100;
    if left {
      assert pos == 100 * q + k0;
      assert t - kFirst == -(pos - t) + m;
      ModShift(-(pos - t), -(if k0 != 0 then q else q - 1));
    } else {
      assert -pos == 100 * q + k0;
      assert t - kFirst == (pos + t) + m;
      ModShift(pos + t, -(if k0 != 0 then q else q - 1));
    }
  }

  lemma ModShift(x: int, q: int)
    ensures (x - 100 * q) % 100 == 0 <==> x % 100 == 0
    ensures (-x) % 100 == 0 <==> x % 100 == 0
  {
  }

  lemma DivStep(x: int)
    requires x >= 1
    ensures x / 100 - (x - 1) / 100 == if x % 100 == 0 then 1 else 0
  {
  }

  /** The closed form counts exactly the clicks that land on 0. */
  lemma {:induction false} ClosedHitsCorrect(pos: int, r: Rotation)
    ensures ClosedHits(pos, r) == HitsBrute(pos, r.left, r.dist)
    decreases if r.dist < 0 then 0 else r.dist
  {
    var d := r.dist;
    if d > 0 {
      var r' := Rotation(r.left, d - 1);
      ClosedHitsCorrect(pos, r');
      ClosedHitsStep(pos, r);
    }
  }

  /** One more click adds one to the closed form exactly when it lands on 0. */
  lemma ClosedHitsStep(pos: int, r: Rotation)
    requires r.dist > 0
    ensures ClosedHits(pos, r) == ClosedHits(pos, Rotation(r.left, r.dist - 1))
      + if (if r.left then pos - r.dist else pos + r.dist) % 100 == 0 then 1 else 0
  {
    var k0 := if r.left then pos % 100 else (-pos) % 100;
    var kFirst := if k0 != 0 then k0 else 100;
    var d := r.dist;
    HitCongruence(pos, r.left, d);
    if d > kFirst {
      DivStep(d - kFirst);
    } else if d < kFirst {
      assert 0 < kFirst - d < 100;
      assert (d - kFirst) % 100 != 0;
    }
  }

  /** Starting on 0, the first hit is a full turn (100 clicks) away. */
  lemma FirstHitFromZero(r: Rotation)
    ensures ClosedHits(0, r) == if r.dist >= 100 then 1 + (r.dist - 100) / 100 else 0
  {
  }

  /** Total hits over a sequence of instructions, by the reference count. */
  function AllHits(rs: seq<Rotation>): nat
  {
    if rs == [] then 0
    else AllHits(rs[..|rs| - 1]) + HitsBrute(Run(rs[..|rs| - 1]).pos, rs[|rs| - 1].left, rs[|rs| - 1].dist)
  }

  lemma AllHitsStep(rs: seq<Rotation>, r: Rotation)
    ensures AllHits(rs + [r]) == AllHits(rs) + HitsBrute(Run(rs).pos, r.left, r.dist)
    ensures Run(rs + [r]).pos == Turn(Run(rs).pos, r)
  {
    assert (rs + [r])[..|rs|] == rs;
  }

  /** `count_zeros_all_clicks`: every click that shows 0, counted over all
      instructions; the position follows the same turns as part 1. */
  method CountZerosAllClicks(lines: seq<string>) returns (zeros: nat)
    ensures zeros == AllHits(Rotations(lines))
  {
    var pos := Start;
    zeros := 0;
    for i := 0 to |lines|
      invariant pos == Run(Rotations(lines[..i])).pos
      invariant zeros == AllHits(Rotations(lines[..i]))
    {
      var parsed := ParseRotation(lines[i]);
      if parsed.None? {
        RotationsSkip(lines, i);
        continue;
      }
      RotationsTake(lines, i);
      AllHitsStep(Rotations(lines[..i]), parsed.value);
      ClosedHitsCorrect(pos, parsed.value);
      zeros := zeros + ClosedHits(pos, parsed.value);
      pos := Turn(pos, parsed.value);
    }
    assert lines[..|lines|] == lines;
  }
}
