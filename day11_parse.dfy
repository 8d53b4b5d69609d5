/** `parse` of 2025/Day11/puzzle21.py (2025/Day11/puzzle22.py has the same
    function): the device graph read from "src: dst dst ..." lines. */
module DeviceGraph {
  import opened Maybe
  import opened Strings
  import opened Seqs
  import opened DevicePaths

  /** What one line adds: its source and the tokens after the first ':'
      (stripping the right-hand side before `split()` changes nothing), or
      nothing for a blank line or one without ':'. */
  function LineEdges(line: string): (r: Option<(string, seq<string>)>)
    ensures r.None? <==> Strip(line) == [] || ':' !in Strip(line)
  {
    var t := Strip(line);
    if t == [] || ':' !in t then None
    else
      var (left, right) := SplitOnce(t, ':');
      Some((Strip(left), Words(right)))
  }

  /** The source and tokens of each line that has them, in input order. */
  function Entries(lines: seq<string>): seq<(string, seq<string>)> {
    FilterMap(lines, LineEdges)
  }

  /** The dictionary built from entries: each entry's tokens appended to its
      source's list; a source named again keeps what it had. */
  function Build(es: seq<(string, seq<string>)>): Graph {
    if es == [] then map[]
    else
      var g := Build(es[..|es| - 1]);
      var e := es[|es| - 1];
      g[e.0 := Get(g, e.0) + e.1]
  }

  /** `parse`. */
  function GraphOf(lines: seq<string>): Graph {
    Build(Entries(lines))
  }

  /** The loop of `parse`, adding one line at a time to the dictionary. */
  method ParseGraph(lines: seq<string>) returns (g: Graph)
    ensures g == GraphOf(lines)
  {
    g := map[];
    for i := 0 to |lines|
      invariant g == Build(Entries(lines[..i]))
    {
      EntriesStep(lines, i);
      var t := Strip(lines[i]);
      if t == [] || ':' !in t {
        continue;
      }
      var (left, right) := SplitOnce(t, ':');
      var src := Strip(left);
      var toks := Words(right);
      BuildSnoc(Entries(lines[..i]), (src, toks));
      g := g[src := Get(g, src) + toks];
    }
    assert lines[..|lines|] == lines;
  }

  /** One more line read: its entry, if it has one, follows the others. */
  lemma EntriesStep(lines: seq<string>, i: nat)
    requires i < |lines|
    ensures LineEdges(lines[i]).None? ==> Entries(lines[..i + 1]) == Entries(lines[..i])
    ensures LineEdges(lines[i]).Some? ==> Entries(lines[..i + 1]) == Entries(lines[..i]) + [LineEdges(lines[i]).value]
  {
    assert lines[..i + 1] == lines[..i] + [lines[i]];
    FilterMapSnoc(lines[..i], lines[i], LineEdges);
  }

  lemma BuildSnoc(es: seq<(string, seq<string>)>, e: (string, seq<string>))
    ensures Build(es + [e]) == Build(es)[e.0 := Get(Build(es), e.0) + e.1]
  {
    assert (es + [e])[..|es|] == es;
  }

  /** The tokens of an entry whose source is `u`. */
  function From(u: string): ((string, seq<string>)) -> Option<seq<string>> {
    (e: (string, seq<string>)) => if e.0 == u then Some(e.1) else None
  }

  function Flatten(xss: seq<seq<string>>): seq<string> {
    if xss == [] then [] else Flatten(xss[..|xss| - 1]) + xss[|xss| - 1]
  }

  /** A device's outputs are the tokens of every entry naming it as source,
      concatenated in input order: nothing is dropped, reordered or merged,
      so a repeated output stays repeated. */
  lemma {:induction false} GraphOutputs(es: seq<(string, seq<string>)>, u: string)
    ensures Get(Build(es), u) == Flatten(FilterMap(es, From(u)))
  {
    if es != [] {
      var init := es[..|es| - 1];
      GraphOutputs(init, u);
      assert init + [es[|es| - 1]] == es;
      FilterMapSnoc(init, es[|es| - 1], From(u));
      var xss := FilterMap(init, From(u));
      var e := es[|es| - 1];
      BuildSnoc(init, e);
      if e.0 == u {
        assert From(u)(e) == Some(e.1);
        assert (xss + [e.1])[..|xss|] == xss;
        assert Flatten(xss + [e.1]) == Flatten(xss) + e.1;
      } else {
        assert From(u)(e) == None;
        assert FilterMap(es, From(u)) == xss + [];
        assert Get(Build(es), u) == Get(Build(init), u);
        assert xss + [] == xss;
      }
    }
  }

  /** A device has an entry exactly when some line with ':' names it as
      source, even with nothing after the ':'. */
  lemma {:induction false} GraphSources(es: seq<(string, seq<string>)>, u: string)
    ensures u in Build(es) <==> exists i :: 0 <= i < |es| && es[i].0 == u
  {
    if es != [] {
      var init := es[..|es| - 1];
      GraphSources(init, u);
      assert forall i :: 0 <= i < |init| ==> init[i] == es[i];
    }
  }
}
