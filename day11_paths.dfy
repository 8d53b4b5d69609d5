/** `count_paths` of 2025/Day11/puzzle21.py: the number of paths from one
    device to another, counted by a depth-first search that stores each
    finished device's count. */
module DevicePaths {
  /** Each device's outputs, in the order the input lists them. */
  type Graph = map<string, seq<string>>

  /** `graph.get(u, [])`. */
  function Get(g: Graph, u: string): seq<string> {
    if u in g then g[u] else []
  }

  /** Every device that is a source or an output. */
  function Nodes(g: Graph): (r: set<string>)
    ensures forall u :: u in g ==> u in r && forall v :: v in g[u] ==> v in r
  {
    g.Keys + set u, v | u in g && v in g[u] :: v
  }

  /** `rank` grows strictly against every edge, so the graph has no cycle. */
  ghost predicate Ranked(g: Graph, rank: map<string, nat>) {
    forall u :: u in g ==> u in rank && forall v :: v in g[u] ==> v in rank && rank[v] < rank[u]
  }

  /** The number of paths from `u` that end the first time they reach `goal`,
      one per choice of output at each step, so an output listed twice is
      two paths. */
  ghost function PathCount(g: Graph, goal: string, rank: map<string, nat>, u: string): nat
    requires Ranked(g, rank)
    decreases if u in g then rank[u] else 0, 1
  {
    if u == goal then 1
    else if u !in g then 0
    else PathsVia(g, goal, rank, u, g[u])
  }

  /** The paths from `u` through the outputs `vs` of `u`. */
  ghost function PathsVia(g: Graph, goal: string, rank: map<string, nat>, u: string, vs: seq<string>): nat
    requires Ranked(g, rank) && u in g && forall v :: v in vs ==> v in g[u]
    decreases rank[u], 0, |vs|
  {
    if vs == [] then 0
    else PathsVia(g, goal, rank, u, vs[..|vs| - 1]) + PathCount(g, goal, rank, vs[|vs| - 1])
  }

  lemma ViaStep(g: Graph, goal: string, rank: map<string, nat>, u: string, i: nat)
    requires Ranked(g, rank) && u in g && i < |g[u]|
    ensures PathsVia(g, goal, rank, u, g[u][..i + 1]) == PathsVia(g, goal, rank, u, g[u][..i]) + PathCount(g, goal, rank, g[u][i])
  {
    assert g[u][..i + 1][..i] == g[u][..i];
  }

  /** Every ranking of the graph gives the same counts. */
  lemma {:induction false} PathCountAnyRank(g: Graph, goal: string, r1: map<string, nat>, r2: map<string, nat>, u: string)
    requires Ranked(g, r1) && Ranked(g, r2)
    ensures PathCount(g, goal, r1, u) == PathCount(g, goal, r2, u)
    decreases if u in g then r1[u] else 0, 1
  {
    if u != goal && u in g {
      PathsViaAnyRank(g, goal, r1, r2, u, g[u]);
    }
  }

  lemma {:induction false} PathsViaAnyRank(g: Graph, goal: string, r1: map<string, nat>, r2: map<string, nat>, u: string, vs: seq<string>)
    requires Ranked(g, r1) && Ranked(g, r2) && u in g && forall v :: v in vs ==> v in g[u]
    ensures PathsVia(g, goal, r1, u, vs) == PathsVia(g, goal, r2, u, vs)
    decreases r1[u], 0, |vs|
  {
    if vs != [] {
      PathsViaAnyRank(g, goal, r1, r2, u, vs[..|vs| - 1]);
      PathCountAnyRank(g, goal, r1, r2, vs[|vs| - 1]);
    }
  }

  /** A device with no outputs that is not the goal leads to no path. */
  lemma DeadEnd(g: Graph, goal: string, rank: map<string, nat>, u: string)
    requires Ranked(g, rank) && u != goal && Get(g, u) == []
    ensures PathCount(g, goal, rank, u) == 0
  {
  }

  /** Every device on the search path ranks above `u`, so none of them is
      reached again from `u`. */
  ghost predicate Above(g: Graph, rank: map<string, nat>, vis: set<string>, u: string) {
    u in g ==> u in rank && forall w :: w in vis ==> w in rank && rank[u] < rank[w]
  }

  /** The search path with `u` added still ranks above an output of `u`. */
  lemma AboveStep(g: Graph, rank: map<string, nat>, vis: set<string>, u: string, v: string)
    requires Ranked(g, rank) && Above(g, rank, vis, u) && u in g && v in g[u]
    ensures Above(g, rank, vis + {u}, v)
  {
  }

  /** The devices not on the search path, a bound on how much deeper it goes. */
  ghost function Unvisited(nodes: set<string>, vis: set<string>): nat {
    |nodes - vis|
  }

  lemma Deeper(nodes: set<string>, vis: set<string>, u: string)
    requires u in nodes && u !in vis
    ensures Unvisited(nodes, vis + {u}) < Unvisited(nodes, vis)
  {
    assert nodes - vis == (nodes - (vis + {u})) + {u};
  }

  /** Taking `u` off the search path gives back the path as it was. */
  lemma Unmark(vis: set<string>, u: string)
    requires u !in vis
    ensures (vis + {u}) - {u} == vis
  {
  }

  /** The state of `count_paths`: the dictionary of finished counts and the
      devices on the current search path. */
  class PathCounter {
    const graph: Graph
    const goal: string
    /** The devices the search can reach, for its termination. */
    ghost const nodes: set<string>
    var memo: map<string, nat>
    var visiting: set<string>

    ghost predicate Valid() {
      nodes == Nodes(graph)
    }

    /** The stored counts are the path counts. */
    ghost predicate Correct(rank: map<string, nat>, m: map<string, nat>) {
      Ranked(graph, rank) && forall w :: w in m ==> m[w] == PathCount(graph, goal, rank, w)
    }


    /** `m1` keeps every count of `m0`, and what it adds is off the search
        path `vis`. */
    ghost predicate Grows(m0: map<string, nat>, m1: map<string, nat>, vis: set<string>) {
      && (forall w :: w in m0 ==> w in m1 && m1[w] == m0[w])
      && (forall w :: w in m1 && w !in m0 ==> w !in vis)
    }

    constructor (graph: Graph, goal: string)
      ensures Valid() && this.graph == graph && this.goal == goal
      ensures memo == map[] && visiting == {}
    {
      this.graph := graph;
      this.goal := goal;
      nodes := Nodes(graph);
      memo := map[];
      visiting := {};
    }

    /** `dfs(u)`: 1 at the goal, the stored count of a finished device, 0 for
        a device already on the search path, and otherwise the sum over the
        outputs, stored for `u`. The search path is as it was on return and no
        stored count changes; on a graph without cycles the result is the
        number of paths to the goal. */
    method Dfs(u: string, ghost rank: map<string, nat>) returns (total: nat)
      requires Valid()
      modifies this
      ensures visiting == old(visiting)
      ensures Grows(old(memo), memo, old(visiting))
      ensures u == goal ==> total == 1 && memo == old(memo)
      ensures u != goal && u in old(memo) ==> total == old(memo)[u]
      ensures u != goal && u !in old(memo) && u in old(visiting) ==> total == 0
      ensures u != goal && u !in old(memo) && u !in old(visiting) ==> u in memo && memo[u] == total
      ensures u != goal && u !in old(memo) && Get(graph, u) == [] ==> total == 0
      ensures Correct(rank, old(memo)) && Above(graph, rank, old(visiting), u) ==>
                total == PathCount(graph, goal, rank, u) && Correct(rank, memo)
      decreases Unvisited(nodes, visiting), 1
    {
      if u == goal {
        return 1;
      }
      if u in memo {
        return memo[u];
      }
      if u in visiting {
        return 0;
      }
      total := Visit(u, rank);
    }

    /** The rest of `dfs(u)` for a device neither finished nor on the search
        path: `u` joins the path while its outputs are searched and leaves it
        after, and the sum is stored for `u`. */
    method Visit(u: string, ghost rank: map<string, nat>) returns (total: nat)
      requires Valid() && u != goal && u !in memo && u !in visiting
      modifies this
      ensures visiting == old(visiting)
      ensures Grows(old(memo), memo, old(visiting))
      ensures u in memo && memo[u] == total
      ensures Get(graph, u) == [] ==> total == 0
      ensures Correct(rank, old(memo)) && Above(graph, rank, old(visiting), u) ==>
                total == PathCount(graph, goal, rank, u) && Correct(rank, memo)
      decreases Unvisited(nodes, visiting), 0
    {
      ghost var sound := Correct(rank, old(memo)) && Above(graph, rank, old(visiting), u);
      visiting := visiting + {u};
      if u in graph {
        Deeper(nodes, old(visiting), u);
        total := SumOutputs(u, rank, old(visiting), sound);
      } else {
        total := 0;
      }
      Unmark(old(visiting), u);
      Store(rank, old(memo), memo, old(visiting), u, total, sound);
      visiting := visiting - {u};
      memo := memo[u := total];
    }

    /** The loop of `dfs(u)` over the outputs of `u`, with `u` on the search
        path: the sum of their counts. */
    method SumOutputs(u: string, ghost rank: map<string, nat>, ghost vis: set<string>, ghost sound: bool) returns (total: nat)
      requires Valid() && u != goal && u in graph && u !in vis && visiting == vis + {u} && u !in memo
      requires sound ==> Correct(rank, memo) && Above(graph, rank, vis, u)
      modifies this
      ensures visiting == old(visiting)
      ensures Grows(old(memo), memo, visiting)
      ensures graph[u] == [] ==> total == 0
      ensures sound ==> Correct(rank, memo) && total == PathCount(graph, goal, rank, u)
      decreases Unvisited(nodes, visiting), 2
    {
      var outs := Get(graph, u);
      total := 0;
      for i := 0 to |outs|
        invariant visiting == old(visiting)
        invariant Grows(old(memo), memo, visiting)
        invariant outs == [] ==> total == 0
        invariant sound ==> Correct(rank, memo) && total == PathsVia(graph, goal, rank, u, outs[..i])
      {
        if sound {
          AboveStep(graph, rank, vis, u, outs[i]);
          ViaStep(graph, goal, rank, u, i);
        }
        var c := Dfs(outs[i], rank);
        total := total + c;
      }
      assert outs[..|outs|] == outs;
    }


    /** Storing the count of `u`, a device off the path `vis`, keeps the
        stored counts growing and, when it is the path count, correct. */
    lemma Store(rank: map<string, nat>, m0: map<string, nat>, m1: map<string, nat>, vis: set<string>, u: string, t: nat, sound: bool)
      requires Grows(m0, m1, vis + {u}) && u !in m0 && u !in vis
      requires sound ==> Correct(rank, m1) && t == PathCount(graph, goal, rank, u)
      ensures Grows(m0, m1[u := t], vis)
      ensures sound ==> Correct(rank, m1[u := t])
    {
    }

  }

  /** `count_paths`: a search from `start` with nothing stored and an empty
      search path; on a graph without cycles, the number of paths to `goal`. */
  method CountPaths(graph: Graph, start: string, goal: string, ghost rank: map<string, nat>) returns (n: nat)
    ensures start == goal ==> n == 1
    ensures start != goal && Get(graph, start) == [] ==> n == 0
    ensures Ranked(graph, rank) ==> n == PathCount(graph, goal, rank, start)
  {
    var counter := new PathCounter(graph, goal);
    n := counter.Dfs(start, rank);
  }
}
