/** `parse_line` of 2025/Day10/puzzle19.py: one machine per line, an
    indicator diagram in `[...]` followed by button wirings in `(...)`, read
    into the system `A x = b` over GF(2) whose solutions are the press
    patterns that light the diagram. */
module Machines {
  import opened Maybe
  import opened Strings
  import opened Gf2
  import opened Elimination

  /** `(m, A, b)`: `m` lights, the `m`-by-`n` incidence matrix `A` of the `n`
      buttons (row `i`, column `j` set when button `j` toggles light `i`) and
      the target pattern `b`. */
  datatype Machine = Machine(m: nat, A: seq<Vec>, b: Vec)

  // ---------------------------------------------------------------------------
  // What a line means

  /** `[1 if ch == '#' else 0 for ch in diagram]`. */
  function Lights(diagram: string): (b: Vec)
    ensures |b| == |diagram| && forall i :: 0 <= i < |b| ==> b[i] == (diagram[i] == '#')
  {
    seq(|diagram|, i requires 0 <= i < |diagram| => diagram[i] == '#')
  }

  /** The matrix the source builds: light `i` of `m` is in column `j` when
      button `j` lists `i`; literals outside `0..m-1` are dropped. */
  function Incidence(m: nat, buttons: seq<seq<int>>): (A: seq<Vec>)
    ensures |A| == m && Widths(A, |buttons|)
  {
    seq(m, i => seq(|buttons|, j requires 0 <= j < |buttons| => i in buttons[j]))
  }

  /** The literals of the non-empty comma-separated pieces; a piece that is
      not an integer is an error (`int(x)` raising ValueError). */
  function Literals(parts: seq<string>): (r: Result<seq<int>>)
    ensures r.Ok? ==> |r.value| <= |parts|
  {
    if parts == [] then Ok([])
    else if Strip(parts[0]) == [] then Literals(parts[1..])
    else match ParseInt(parts[0])
      case None => Err("invalid literal")
      case Some(v) =>
        match Literals(parts[1..])
        case Err(e) => Err(e)
        case Ok(vs) => Ok([v] + vs)
  }

  /** The literals of one button, given the text between its parentheses. */
  function ButtonLits(inside: string): (r: Result<seq<int>>)
  {
    var t := Strip(inside);
    if t == [] then Ok([]) else Literals(Split(t, ','))
  }

  /** The text between each `(` and the first `)` after it, scanning `rest`
      from index `idx`: the scan ends at the first `(` with no `)` after it,
      or when no `(` is left. */
  function Insides(rest: string, idx: nat): (ins: seq<string>)
    decreases |rest| - idx
  {
    var q0 := FindFrom(rest, '(', idx);
    if q0.None? then []
    else
      var q1 := FindFrom(rest, ')', q0.value);
      if q1.None? then []
      else [rest[q0.value + 1..q1.value]] + Insides(rest, q1.value + 1)
  }

  /** The buttons `read` makes of the texts found by the scan, in order; the
      first text it rejects makes the line an error. A line is read with
      `read == ButtonLits`; the scan below holds for any reader. */
  function AllLits(read: string -> Result<seq<int>>, insides: seq<string>): (r: Result<seq<seq<int>>>)
    ensures r.Ok? ==> |r.value| == |insides|
  {
    if insides == [] then Ok([])
    else
      match read(insides[0])
      case Err(e) => Err(e)
      case Ok(btn) =>
        match AllLits(read, insides[1..])
        case Err(e) => Err(e)
        case Ok(more) => Ok([btn] + more)
  }

  /** Parsing the texts one more at a time. */
  lemma {:induction false} AllLitsSnoc(read: string -> Result<seq<int>>, done: seq<string>, inside: string)
    requires AllLits(read, done).Ok?
    ensures AllLits(read, done + [inside]) ==
      if read(inside).Err? then Err(read(inside).msg)
      else Ok(AllLits(read, done).value + [read(inside).value])
    decreases |done|
  {
    if done == [] {
      assert done + [inside] == [inside];
      AllLitsOne(read, inside);
    } else {
      assert (done + [inside])[0] == done[0] && (done + [inside])[1..] == done[1..] + [inside];
      AllLitsSnoc(read, done[1..], inside);
      var b0 := read(done[0]).value;
      assert AllLits(read, done).value == [b0] + AllLits(read, done[1..]).value;
      if read(inside).Ok? {
        var more := AllLits(read, done[1..]).value;
        assert [b0] + (more + [read(inside).value]) == ([b0] + more) + [read(inside).value];
      }
    }
  }

  lemma AllLitsOne(read: string -> Result<seq<int>>, inside: string)
    ensures AllLits(read, [inside]) ==
      if read(inside).Err? then Err(read(inside).msg) else Ok([] + [read(inside).value])
  {
    assert [inside][1..] == [];
    if read(inside).Ok? {
      assert [read(inside).value] + [] == [] + [read(inside).value];
    }
  }

  /** An error stays an error whatever follows. */
  lemma {:induction false} AllLitsErr(read: string -> Result<seq<int>>, done: seq<string>, more: seq<string>)
    requires AllLits(read, done).Err?
    ensures AllLits(read, done + more) == AllLits(read, done)
    decreases |done|
  {
    assert (done + more)[1..] == done[1..] + more;
    if read(done[0]).Ok? {
      AllLitsErr(read, done[1..], more);
    }
  }

  /** The machine of diagram `d` and the scanned buttons. */
  function Assemble(d: string, buttons: Result<seq<seq<int>>>): Result<Machine> {
    match buttons
    case Err(e) => Err(e)
    case Ok(bs) => Ok(Machine(|d|, Incidence(|d|, bs), Lights(d)))
  }

  /** The machine a line describes: blank lines give `(0, [], [])`; a line
      without `[` or without a `]` after it is an error. */
  function MachineOf(line: string): (r: Result<Machine>)
    ensures AllSpace(line) ==> r == Ok(Machine(0, [], []))
    ensures !AllSpace(line) && '[' !in Strip(line) ==> r == Err("no diagram")
    ensures r.Ok? ==> r.value.m == |r.value.A| == |r.value.b| && Widths(r.value.A, Width(r.value.A))
  {
    MachineOfText(Strip(line))
  }

  /** The machine of a stripped line. */
  function MachineOfText(t: string): (r: Result<Machine>)
    ensures t == [] ==> r == Ok(Machine(0, [], []))
    ensures t != [] && '[' !in t ==> r == Err("no diagram")
    ensures r.Ok? ==> r.value.m == |r.value.A| == |r.value.b| && Widths(r.value.A, Width(r.value.A))
  {
    if t == [] then Ok(Machine(0, [], []))
    else match Find(t, '[')
      case None => Err("no diagram")
      case Some(i0) =>
        match FindFrom(t, ']', i0)
        case None => Err("no diagram")
        case Some(i1) => MachineAt(t, i0, i1)
  }

  /** The machine whose diagram lies between `i0` and `i1`, with the buttons
      after `i1`. */
  function MachineAt(t: string, i0: nat, i1: nat): Result<Machine>
    requires i0 < i1 < |t|
  {
    Assemble(t[i0 + 1..i1], AllLits(ButtonLits, Insides(t[i1 + 1..], 0)))
  }

  // ---------------------------------------------------------------------------
  // parse_line

  /** The `while True` loop over the button tuples after the diagram, each
      tuple's text read by `read`. */
  method ScanButtons(read: string -> Result<seq<int>>, rest: string) returns (r: Result<seq<seq<int>>>)
    ensures r == AllLits(read, Insides(rest, 0))
  {
    var buttons: seq<seq<int>> := [];
    ghost var done: seq<string> := [];
    var idx: nat := 0;
    while true
      invariant idx <= |rest|
      invariant Insides(rest, 0) == done + Insides(rest, idx)
      invariant AllLits(read, done) == Ok(buttons)
      decreases |rest| - idx
    {
      var p0 := FindFrom(rest, '(', idx);
      if p0.None? {
        InsidesEnd(rest, idx);
        break;
      }
      var p1 := FindFrom(rest, ')', p0.value);
      if p1.None? {
        InsidesEnd(rest, idx);
        break;
      }
      var inside := rest[p0.value + 1..p1.value];
      ghost var done' := ScanStep(rest, idx, done, p0.value, p1.value);
      var more := AppendButton(read, done, buttons, inside);
      if more.Err? {
        AllLitsErr(read, done', Insides(rest, p1.value + 1));
        return more;
      }
      buttons := more.value;
      done := done';
      idx := p1.value + 1;
    }
    assert done + [] == done;
    r := Ok(buttons);
  }

  /** One turn of the scan loop moves the text it finds from the part still
      to scan to the part done. */
  lemma ScanStep(rest: string, idx: nat, done: seq<string>, p0: nat, p1: nat) returns (done': seq<string>)
    requires FindFrom(rest, '(', idx) == Some(p0) && FindFrom(rest, ')', p0) == Some(p1)
    requires Insides(rest, 0) == done + Insides(rest, idx)
    ensures p0 < p1 < |rest| && done' == done + [rest[p0 + 1..p1]]
    ensures Insides(rest, 0) == done' + Insides(rest, p1 + 1)
  {
    done' := done + [rest[p0 + 1..p1]];
    InsidesNext(rest, idx, p0, p1, p1 + 1);
    Regroup(done, rest[p0 + 1..p1], Insides(rest, p1 + 1));
  }

  lemma Regroup(done: seq<string>, inside: string, more: seq<string>)
    ensures done + ([inside] + more) == (done + [inside]) + more
  {
  }

  /** The body of the scan loop: read one button's text and append its
      literals, or fail with the reader's error. */
  method AppendButton(read: string -> Result<seq<int>>, ghost done: seq<string>, buttons: seq<seq<int>>, inside: string)
    returns (r: Result<seq<seq<int>>>)
    requires AllLits(read, done) == Ok(buttons)
    ensures r == AllLits(read, done + [inside])
  {
    AllLitsSnoc(read, done, inside);
    var btn := read(inside);
    if btn.Err? {
      return Err(btn.msg);
    }
    r := Ok(buttons + [btn.value]);
  }

  /** The scan ends when no `(` is left, or none is closed. */
  lemma InsidesEnd(rest: string, idx: nat)
    requires FindFrom(rest, '(', idx).None? || FindFrom(rest, ')', FindFrom(rest, '(', idx).value).None?
    ensures Insides(rest, idx) == []
  {
  }

  /** One step of the scan: the `(` at `p0` closed by the `)` at `p1`. */
  lemma InsidesNext(rest: string, idx: nat, p0: nat, p1: nat, next: nat)
    requires FindFrom(rest, '(', idx) == Some(p0) && FindFrom(rest, ')', p0) == Some(p1) && next == p1 + 1
    ensures p0 < p1 < |rest|
    ensures Insides(rest, idx) == [rest[p0 + 1..p1]] + Insides(rest, next)
  {
  }

  /** The loops that set `A[lit][j] = 1` for each in-range literal. */
  method BuildMatrix(m: nat, buttons: seq<seq<int>>) returns (A: seq<Vec>)
    ensures A == Incidence(m, buttons)
  {
    var n := |buttons|;
    A := seq(m, _ => Zeros(n));
    for j := 0 to n
      invariant |A| == m && forall i :: 0 <= i < m ==> |A[i]| == n
      invariant forall i, k :: 0 <= i < m && 0 <= k < n ==> A[i][k] == (k < j && i in buttons[k])
    {
      var btn := buttons[j];
      for t := 0 to |btn|
        invariant |A| == m && forall i :: 0 <= i < m ==> |A[i]| == n
        invariant forall i, k :: 0 <= i < m && 0 <= k < n ==>
          A[i][k] == ((k < j && i in buttons[k]) || (k == j && i in btn[..t]))
      {
        assert btn[..t + 1] == btn[..t] + [btn[t]];
        var lit := btn[t];
        if 0 <= lit < m {
          A := A[lit := A[lit][j := true]];
        }
      }
      assert btn[..|btn|] == btn;
    }
    assert forall i :: 0 <= i < m ==> A[i] == Incidence(m, buttons)[i];
  }

  /** `parse_line`: the line is stripped first. */
  method ParseLine(line: string) returns (r: Result<Machine>)
    ensures r == MachineOf(line)
  {
    var t := Strip(line);
    r := ParseText(t);
  }

  /** `parse_line` after the strip: the blank case, the diagram between the
      first '[' and the next ']', and the buttons after it. */
  method ParseText(t: string) returns (r: Result<Machine>)
    ensures r == MachineOfText(t)
  {
    if t == [] {
      return Ok(Machine(0, [], []));
    }
    var i0 := Find(t, '[');
    if i0.None? {
      return Err("no diagram");
    }
    var i1 := FindFrom(t, ']', i0.value);
    if i1.None? {
      return Err("no diagram");
    }
    r := ParseAt(t, i0.value, i1.value);
  }

  /** The diagram between `i0` and `i1` and the buttons after `i1`. */
  method ParseAt(t: string, i0: nat, i1: nat) returns (r: Result<Machine>)
    requires i0 < i1 < |t|
    ensures r == MachineAt(t, i0, i1)
  {
    var diagram := t[i0 + 1..i1];
    var buttons := ScanButtons(ButtonLits, t[i1 + 1..]);
    r := BuildMachine(diagram, buttons);
  }

  /** The end of `parse_line`: the lights of the diagram and the matrix of
      the buttons, or the error met while reading the buttons. */
  method BuildMachine(diagram: string, buttons: Result<seq<seq<int>>>) returns (r: Result<Machine>)
    ensures r == Assemble(diagram, buttons)
    ensures r.Ok? ==> r.value.m == |diagram| && r.value.b == Lights(diagram)
  {
    if buttons.Err? {
      return Err(buttons.msg);
    }
    var m := |diagram|;
    var b := Lights(diagram);
    var A := BuildMatrix(m, buttons.value);
    r := Ok(Machine(m, A, b));
  }

  // ---------------------------------------------------------------------------
  // Writing a machine out and reading it back

  /** `#` for a lit light and `.` for an unlit one. */
  function Diagram(lights: Vec): (d: string)
    ensures |d| == |lights| && forall i :: 0 <= i < |d| ==> d[i] == (if lights[i] then '#' else '.')
  {
    seq(|lights|, i requires 0 <= i < |lights| => if lights[i] then '#' else '.')
  }

  function Numbers(ns: seq<nat>): (ss: seq<string>)
    ensures |ss| == |ns| && forall i :: 0 <= i < |ns| ==> ss[i] == Str(ns[i])
  {
    seq(|ns|, i requires 0 <= i < |ns| => Str(ns[i]))
  }

  /** ` (a,b,c)` for each button. */
  function ButtonsText(buttons: seq<seq<nat>>): string {
    if buttons == [] then [] else " (" + Join(Numbers(buttons[0]), ',') + ")" + ButtonsText(buttons[1..])
  }

  /** A machine's line: its diagram, its buttons and a tail such as the
      joltage requirements in `{...}`. */
  function Render(lights: Vec, buttons: seq<seq<nat>>, tail: string): string {
    "[" + Diagram(lights) + "]" + ButtonsText(buttons) + tail
  }

  /** A line written by `Render` reads back as the machine it describes. */
  lemma ParseRender(lights: Vec, buttons: seq<seq<nat>>, tail: string)
    requires tail != [] && !IsSpace(tail[|tail| - 1]) && '(' !in tail
    ensures MachineOf(Render(lights, buttons, tail)) == Ok(Machine(|lights|, Incidence(|lights|, buttons), lights))
  {
    var d := Diagram(lights);
    var rest := ButtonsText(buttons) + tail;
    var line := "[" + d + "]" + rest;
    assert Render(lights, buttons, tail) == line;
    assert line[0] == '[' && line[|line| - 1] == tail[|tail| - 1];
    StripNoSpace(line);
    InsidesRender(buttons, tail);
    forall i | 0 <= i < |buttons|
      ensures ButtonLits(Texts(buttons)[i]) == Ok(buttons[i])
    {
      NumbersRead(buttons[i]);
    }
    AllLitsEach(ButtonLits, Texts(buttons), buttons);
    ReadLine(d, rest);
    assert Lights(d) == lights;
  }

  /** A stripped line `[d]rest` is the diagram `d` with the buttons of
      `rest`. */
  lemma ReadLine(d: string, rest: string)
    requires ']' !in d && Strip("[" + d + "]" + rest) == "[" + d + "]" + rest
    ensures MachineOf("[" + d + "]" + rest) == Assemble(d, AllLits(ButtonLits, Insides(rest, 0)))
  {
    DiagramAt(d, rest);
  }

  /** In `[d]rest` the diagram is found at the front. */
  lemma DiagramAt(d: string, rest: string)
    requires ']' !in d
    ensures var line := "[" + d + "]" + rest;
      Find(line, '[') == Some(0) && FindFrom(line, ']', 0) == Some(|d| + 1) &&
      line[1..|d| + 1] == d && line[|d| + 2..] == rest
  {
    var line := "[" + d + "]" + rest;
    FindFromAt(line, '[', 0, 0);
    assert forall i :: 0 < i < |d| + 1 ==> line[i] == d[i - 1];
    FindFromAt(line, ']', 0, |d| + 1);
    assert line[1..|d| + 1] == d;
    assert line[|d| + 2..] == rest;
  }

  /** `s.find(c, start)` past a prefix `p` is the search in what follows. */
  lemma FindFromShift(p: string, s: string, c: char, j: nat)
    ensures FindFrom(p + s, c, |p| + j).Some? <==> FindFrom(s, c, j).Some?
    ensures FindFrom(s, c, j).Some? ==> FindFrom(p + s, c, |p| + j).value == |p| + FindFrom(s, c, j).value
  {
    var r := FindFrom(s, c, j);
    FindFromSpec(s, c, j);
    if r.Some? {
      assert forall i :: |p| + j <= i < |p| + r.value ==> (p + s)[i] == s[i - |p|];
      FindFromAt(p + s, c, |p| + j, |p| + r.value);
    } else {
      assert forall i :: |p| + j <= i < |p + s| ==> (p + s)[i] == s[i - |p|];
      FindFromNone(p + s, c, |p| + j);
    }
  }

  /** The scan past a prefix `p` is the scan of what follows. */
  lemma {:induction false} InsidesShift(p: string, s: string, j: nat)
    ensures Insides(p + s, |p| + j) == Insides(s, j)
    decreases |s| - j
  {
    var q0 := FindFrom(s, '(', j);
    if q0.Some? && FindFrom(s, ')', q0.value).Some? {
      var p1 := FindFrom(s, ')', q0.value).value;
      InsidesShift(p, s, p1 + 1);
      ShiftStep(p, s, j, q0.value, p1);
    } else {
      ShiftEnd(p, s, j);
    }
  }

  /** Where the scan of `s` from `j` ends, so does the scan past `p`. */
  lemma ShiftEnd(p: string, s: string, j: nat)
    requires FindFrom(s, '(', j).None? || FindFrom(s, ')', FindFrom(s, '(', j).value).None?
    ensures Insides(p + s, |p| + j) == [] && Insides(s, j) == []
  {
    FindFromShift(p, s, '(', j);
    if FindFrom(s, '(', j).Some? {
      FindFromShift(p, s, ')', FindFrom(s, '(', j).value);
    }
    InsidesEnd(p + s, |p| + j);
    InsidesEnd(s, j);
  }

  /** Where the scan of `s` from `j` finds a button, so does the scan past
      `p`, and both go on after it. */
  lemma ShiftStep(p: string, s: string, j: nat, p0: nat, p1: nat)
    requires FindFrom(s, '(', j) == Some(p0) && FindFrom(s, ')', p0) == Some(p1)
    requires Insides(p + s, |p| + (p1 + 1)) == Insides(s, p1 + 1)
    ensures Insides(p + s, |p| + j) == Insides(s, j)
  {
    FindFromShift(p, s, '(', j);
    FindFromShift(p, s, ')', p0);
    InsidesNext(p + s, |p| + j, |p| + p0, |p| + p1, |p| + (p1 + 1));
    InsidesNext(s, j, p0, p1, p1 + 1);
    assert (p + s)[|p| + p0 + 1..|p| + p1] == s[p0 + 1..p1];
  }

  /** Text starting with one parenthesised button: that button's text, then
      the texts of what follows it. */
  lemma FirstButton(J: string, R: string)
    requires ')' !in J
    ensures Insides(" (" + J + ")" + R, 0) == [J] + Insides(R, 0)
  {
    var s := " (" + J + ")" + R;
    assert s[0] == ' ' && s[1] == '(';
    FindFromAt(s, '(', 0, 1);
    assert forall i :: 1 < i < |J| + 2 ==> s[i] == J[i - 2];
    FindFromAt(s, ')', 1, |J| + 2);
    InsidesNext(s, 0, 1, |J| + 2, |" (" + J + ")"| + 0);
    assert s[2..|J| + 2] == J;
    InsidesShift(" (" + J + ")", R, 0);
  }

  /** The literal texts of the buttons, as `ButtonsText` writes them. */
  function Texts(buttons: seq<seq<nat>>): (ts: seq<string>)
    ensures |ts| == |buttons| && forall i :: 0 <= i < |buttons| ==> ts[i] == Join(Numbers(buttons[i]), ',')
  {
    seq(|buttons|, i requires 0 <= i < |buttons| => Join(Numbers(buttons[i]), ','))
  }

  /** The scan of text written by `ButtonsText` finds each button's text in
      order, and the tail, which holds no `(`, adds none. */
  lemma {:induction false} InsidesRender(buttons: seq<seq<nat>>, tail: string)
    requires '(' !in tail
    ensures Insides(ButtonsText(buttons) + tail, 0) == Texts(buttons)
    decreases |buttons|
  {
    if buttons == [] {
      NoButtons(tail);
    } else {
      RenderFirst(buttons, tail);
      InsidesRender(buttons[1..], tail);
      TextsCons(buttons);
    }
  }

  /** A tail without `(` holds no button. */
  lemma NoButtons(tail: string)
    requires '(' !in tail
    ensures Insides(ButtonsText([]) + tail, 0) == []
  {
    assert ButtonsText([]) + tail == tail;
    assert forall i :: 0 <= i < |tail| ==> tail[i] != '(';
    FindFromNone(tail, '(', 0);
  }

  lemma TextsCons(buttons: seq<seq<nat>>)
    requires buttons != []
    ensures Texts(buttons) == [Join(Numbers(buttons[0]), ',')] + Texts(buttons[1..])
  {
  }

  /** The scan reads the first button written, then goes on with the rest. */
  lemma RenderFirst(buttons: seq<seq<nat>>, tail: string)
    requires buttons != []
    ensures Insides(ButtonsText(buttons) + tail, 0) ==
      [Join(Numbers(buttons[0]), ',')] + Insides(ButtonsText(buttons[1..]) + tail, 0)
  {
    var J := Join(Numbers(buttons[0]), ',');
    var R := ButtonsText(buttons[1..]) + tail;
    assert ButtonsText(buttons) + tail == " (" + J + ")" + R;
    NoParen(buttons[0]);
    FirstButton(J, R);
  }

  /** A button's literal text holds no `)`. */
  lemma NoParen(ns: seq<nat>)
    ensures ')' !in Join(Numbers(ns), ',')
  {
    var J := Join(Numbers(ns), ',');
    NumbersChars(ns);
    assert forall i :: 0 <= i < |J| ==> J[i] != ')';
  }

  /** Texts that each read back as one button read back as all of them. */
  lemma {:induction false} AllLitsEach(read: string -> Result<seq<int>>, texts: seq<string>, buttons: seq<seq<int>>)
    requires |texts| == |buttons| && forall i :: 0 <= i < |texts| ==> read(texts[i]) == Ok(buttons[i])
    ensures AllLits(read, texts) == Ok(buttons)
    decreases |texts|
  {
    if texts != [] {
      AllLitsEach(read, texts[1..], buttons[1..]);
      assert [buttons[0]] + buttons[1..] == buttons;
    }
  }

  /** The text of a button's literals holds only digits and commas. */
  lemma {:induction false} NumbersChars(ns: seq<nat>)
    ensures forall i :: 0 <= i < |Join(Numbers(ns), ',')| ==>
      IsDigit(Join(Numbers(ns), ',')[i]) || Join(Numbers(ns), ',')[i] == ','
    decreases |ns|
  {
    if |ns| > 1 {
      NumbersChars(ns[1..]);
      assert Numbers(ns)[1..] == Numbers(ns[1..]);
    } else if |ns| == 1 {
      assert Join(Numbers(ns), ',') == Str(ns[0]);
    }
  }

  /** The literals written by `Join(Numbers(ns), ',')` read back as `ns`. */
  lemma NumbersRead(ns: seq<nat>)
    ensures ButtonLits(Join(Numbers(ns), ',')) == Ok(ns)
  {
    var J := Join(Numbers(ns), ',');
    if ns == [] {
      assert J == [];
    } else {
      NumbersChars(ns);
      assert J != [] by {
        JoinNonEmpty(Numbers(ns));
      }
      StripNoSpace(J);
      forall i | 0 <= i < |ns|
        ensures ',' !in Numbers(ns)[i]
      {
        assert AllDigits(Str(ns[i]));
      }
      SplitJoin(Numbers(ns), ',');
      LiteralsOfNumbers(ns);
    }
  }

  lemma JoinNonEmpty(parts: seq<string>)
    requires parts != [] && parts[0] != []
    ensures Join(parts, ',') != []
  {
  }

  /** Every decimal piece is kept and read back as its number. */
  lemma {:induction false} LiteralsOfNumbers(ns: seq<nat>)
    ensures Literals(Numbers(ns)) == Ok(ns)
    decreases |ns|
  {
    if ns != [] {
      var ps := Numbers(ns);
      ReadNumber(ns[0]);
      assert ps[0] == Str(ns[0]);
      assert ps[1..] == Numbers(ns[1..]);
      LiteralsOfNumbers(ns[1..]);
      var rest: seq<int> := ns[1..];
      assert Literals(ps) == Ok([ns[0] as int] + rest);
      assert [ns[0] as int] + rest == ns;
    }
  }

  /** The decimal text of `n` is a piece that is kept and reads back as `n`. */
  lemma ReadNumber(n: nat)
    ensures Strip(Str(n)) != [] && ParseInt(Str(n)) == Some(n as int)
  {
    var s := Str(n);
    assert IsDigit(s[0]) && IsDigit(s[|s| - 1]);
    StripNoSpace(s);
    ParseNatStr(n);
  }
}
