/** `solve_file` of 2025/Day10/puzzle19.py: the fewest button presses that
    light every machine's diagram, summed over the machines of the input. */
module Factory {
  import opened Maybe
  import opened Strings
  import opened Sums
  import opened Gf2
  import opened Elimination
  import opened FewestPresses
  import opened Machines

  /** What a line of the input adds to the total when it is a machine: no
      presses for a blank line, a machine without lights or one whose
      diagram no presses can light, and otherwise the fewest presses that
      light it. A line that is not a machine adds nothing: it stops the run. */
  ghost predicate LinePresses(line: string, v: nat) {
    var mc := MachineOf(line);
    && mc.Ok?
    && if mc.value.m == 0 || !Solvable(mc.value.A, mc.value.b) then v == 0
       else Fewest(mc.value.A, mc.value.b, v)
  }

  /** `ys` pairs each element of `xs` with one `P` relates it to. */
  ghost predicate Pointwise<A, B>(P: (A, B) -> bool, xs: seq<A>, ys: seq<B>) {
    |ys| == |xs| && forall i :: 0 <= i < |xs| ==> P(xs[i], ys[i])
  }

  lemma PointwiseSnoc<A, B>(P: (A, B) -> bool, xs: seq<A>, ys: seq<B>, x: A, y: B)
    requires Pointwise(P, xs, ys) && P(x, y)
    ensures Pointwise(P, xs + [x], ys + [y])
  {
  }

  /** `vs` holds what each of the lines adds. */
  ghost predicate Tally(lines: seq<string>, vs: seq<nat>) {
    Pointwise(LinePresses, lines, vs)
  }

  /** The fewest presses of a machine are one number. */
  lemma FewestUnique(A: seq<Vec>, b: Vec, v: nat, w: nat)
    requires Fewest(A, b, v) && Fewest(A, b, w)
    ensures v == w
  {
    var x :| |x| == Width(A) && Solves(A, b, x) && Popcount(x) == v;
    var y :| |y| == Width(A) && Solves(A, b, y) && Popcount(y) == w;
    assert w <= Popcount(x) && v <= Popcount(y);
  }

  /** Each line adds one number, so the total is determined by the input. */
  lemma TallyUnique(lines: seq<string>, vs: seq<nat>, ws: seq<nat>)
    requires Tally(lines, vs) && Tally(lines, ws)
    ensures vs == ws
  {
    forall i | 0 <= i < |lines|
      ensures vs[i] == ws[i]
    {
      var mc := MachineOf(lines[i]).value;
      if mc.m != 0 && Solvable(mc.A, mc.b) {
        FewestUnique(mc.A, mc.b, vs[i], ws[i]);
      }
    }
  }

  /** The body of the loop over the lines: the presses one line adds, or
      the error parsing it raises. */
  method LineTotal(line: string) returns (r: Result<nat>)
    ensures r.Err? <==> MachineOf(line).Err?
    ensures r.Err? ==> r.msg == MachineOf(line).msg
    ensures r.Ok? ==> LinePresses(line, r.value)
  {
    if Strip(line) == [] {
      return Ok(0);
    }
    var mc := ParseLine(line);
    if mc.Err? {
      return Err(mc.msg);
    }
    var m, A, b := mc.value.m, mc.value.A, mc.value.b;
    if m == 0 {
      return Ok(0);
    }
    var ok, xPart, basis, free := GaussianElimBits(A, b);
    if !ok {
      return Ok(0);
    }
    var presses := MinWeightSolution(xPart, basis);
    LightestIsFewest(A, b, xPart, basis, free, presses);
    r := Ok(presses);
  }

  /** `solve_file` over the lines of the input: the first line that is not
      a machine makes the run an error, and otherwise the total is what the
      lines add. */
  method SolveLines(lines: seq<string>) returns (r: Result<nat>)
    ensures r.Err? <==> exists i :: 0 <= i < |lines| && MachineOf(lines[i]).Err?
    ensures r.Err? ==> exists i: nat :: FirstError(lines, i) && r.msg == MachineOf(lines[i]).msg
    ensures r.Ok? ==> exists vs: seq<nat> :: Tally(lines, vs) && r.value == SeqSum(vs)
  {
    var total: nat := 0;
    ghost var vs: seq<nat> := [];
    for i := 0 to |lines|
      invariant Tally(lines[..i], vs) && total == SeqSum(vs)
    {
      var presses := LineTotal(lines[i]);
      if presses.Err? {
        TallyError(lines, vs, i);
        return Err(presses.msg);
      }
      TallyStep(lines, vs, i, presses.value);
      total := total + presses.value;
      vs := vs + [presses.value];
    }
    assert lines[..|lines|] == lines;
    TallyOk(lines, vs);
    r := Ok(total);
  }

  /** Line `i` is the first that is not a machine. */
  ghost predicate FirstError(lines: seq<string>, i: nat) {
    i < |lines| && MachineOf(lines[i]).Err? && forall k :: 0 <= k < i ==> MachineOf(lines[k]).Ok?
  }

  /** One more line tallied. */
  lemma TallyStep(lines: seq<string>, vs: seq<nat>, i: nat, v: nat)
    requires i < |lines| && Tally(lines[..i], vs) && LinePresses(lines[i], v)
    ensures Tally(lines[..i + 1], vs + [v])
    ensures SeqSum(vs + [v]) == SeqSum(vs) + v
  {
    assert (vs + [v])[..|vs|] == vs;
    TakeSnoc(lines, i);
    PointwiseSnoc(LinePresses, lines[..i], vs, lines[i], v);
  }

  lemma TakeSnoc<A>(xs: seq<A>, i: nat)
    requires i < |xs|
    ensures xs[..i + 1] == xs[..i] + [xs[i]]
  {
  }

  /** The lines before `i` are machines, so an error at `i` is the first. */
  lemma TallyError(lines: seq<string>, vs: seq<nat>, i: nat)
    requires i < |lines| && Tally(lines[..i], vs) && MachineOf(lines[i]).Err?
    ensures FirstError(lines, i)
  {
    assert forall k :: 0 <= k < i ==> lines[..i][k] == lines[k];
  }

  /** When every line is tallied, no line is an error. */
  lemma TallyOk(lines: seq<string>, vs: seq<nat>)
    requires Tally(lines, vs)
    ensures !exists i :: 0 <= i < |lines| && MachineOf(lines[i]).Err?
  {
  }
}
