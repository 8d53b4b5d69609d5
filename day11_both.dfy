/** `count_paths_with_both` of 2025/Day11/puzzle22.py: the number of paths
    from one device to another that pass through two given devices, counted
    by a depth-first search that stores each finished count under the device
    and which of the two the path has passed. */
module DevicePathsBoth {
  import opened DevicePaths

  /** A device and whether the path to it has passed `a` and `b`. */
  type Key = (string, bool, bool)

  /** The number of paths from `u` that end the first time they reach
      `goal`, one per choice of output at each step, that pass through `a` and
      `b`; `sa` and `sb` say whether the path up to `u` already has. */
  ghost function BothCount(g: Graph, goal: string, a: string, b: string, rank: map<string, nat>, u: string, sa: bool, sb: bool): nat
    requires Ranked(g, rank)
    decreases if u in g then rank[u] else 0, 1
  {
    if u == goal then (if sa && sb then 1 else 0)
    else if u !in g then 0
    else BothVia(g, goal, a, b, rank, u, sa, sb, g[u])
  }

  /** The paths from `u` through the outputs `vs` of `u`. */
  ghost function BothVia(g: Graph, goal: string, a: string, b: string, rank: map<string, nat>, u: string, sa: bool, sb: bool, vs: seq<string>): nat
    requires Ranked(g, rank) && u in g && forall v :: v in vs ==> v in g[u]
    decreases rank[u], 0, |vs|
  {
    if vs == [] then 0
    else
      var v := vs[|vs| - 1];
      BothVia(g, goal, a, b, rank, u, sa, sb, vs[..|vs| - 1]) + BothCount(g, goal, a, b, rank, v, sa || v == a, sb || v == b)
  }

  /** One more output of `u` counted. */
  lemma BothViaStep(g: Graph, goal: string, a: string, b: string, rank: map<string, nat>, u: string, sa: bool, sb: bool, i: nat, v: string, sa': bool, sb': bool, total: nat, c: nat)
    requires Ranked(g, rank) && u in g && i < |g[u]| && v == g[u][i] && sa' == (sa || v == a) && sb' == (sb || v == b)
    requires total == BothVia(g, goal, a, b, rank, u, sa, sb, g[u][..i]) && c == BothCount(g, goal, a, b, rank, v, sa', sb')
    ensures total + c == BothVia(g, goal, a, b, rank, u, sa, sb, g[u][..i + 1])
  {
    assert g[u][..i + 1][..i] == g[u][..i];
  }

  /** Once the path has passed both devices, every path on to the goal
      counts: the count is the plain path count. */
  lemma {:induction false} BothSeen(g: Graph, goal: string, a: string, b: string, rank: map<string, nat>, u: string)
    requires Ranked(g, rank)
    ensures BothCount(g, goal, a, b, rank, u, true, true) == PathCount(g, goal, rank, u)
    decreases if u in g then rank[u] else 0, 1
  {
    if u != goal && u in g {
      BothSeenVia(g, goal, a, b, rank, u, g[u]);
    }
  }

  lemma {:induction false} BothSeenVia(g: Graph, goal: string, a: string, b: string, rank: map<string, nat>, u: string, vs: seq<string>)
    requires Ranked(g, rank) && u in g && forall v :: v in vs ==> v in g[u]
    ensures BothVia(g, goal, a, b, rank, u, true, true, vs) == PathsVia(g, goal, rank, u, vs)
    decreases rank[u], 0, |vs|
  {
    if vs != [] {
      BothSeenVia(g, goal, a, b, rank, u, vs[..|vs| - 1]);
      BothSeen(g, goal, a, b, rank, vs[|vs| - 1]);
    }
  }

  /** The paths through both devices are some of the paths. */
  lemma {:induction false} BothAtMost(g: Graph, goal: string, a: string, b: string, rank: map<string, nat>, u: string, sa: bool, sb: bool)
    requires Ranked(g, rank)
    ensures BothCount(g, goal, a, b, rank, u, sa, sb) <= PathCount(g, goal, rank, u)
    decreases if u in g then rank[u] else 0, 1
  {
    if u != goal && u in g {
      BothAtMostVia(g, goal, a, b, rank, u, sa, sb, g[u]);
    }
  }

  lemma {:induction false} BothAtMostVia(g: Graph, goal: string, a: string, b: string, rank: map<string, nat>, u: string, sa: bool, sb: bool, vs: seq<string>)
    requires Ranked(g, rank) && u in g && forall v :: v in vs ==> v in g[u]
    ensures BothVia(g, goal, a, b, rank, u, sa, sb, vs) <= PathsVia(g, goal, rank, u, vs)
    decreases rank[u], 0, |vs|
  {
    if vs != [] {
      var v := vs[|vs| - 1];
      BothAtMostVia(g, goal, a, b, rank, u, sa, sb, vs[..|vs| - 1]);
      BothAtMost(g, goal, a, b, rank, v, sa || v == a, sb || v == b);
    }
  }

  /** The state of `count_paths_with_both`: the dictionary of finished counts,
      keyed by device and flags, and the devices on the current search path. */
  class BothCounter {
    const graph: Graph
    const goal: string
    const a: string
    const b: string
    /** The devices the search can reach, for its termination. */
    ghost const nodes: set<string>
    var memo: map<Key, nat>
    var visiting: set<string>

    ghost predicate Valid() {
      nodes == Nodes(graph)
    }

    /** The stored counts are the path counts through both devices. */
    ghost predicate Correct(rank: map<string, nat>, m: map<Key, nat>) {
      Ranked(graph, rank) && forall k :: k in m ==> m[k] == BothCount(graph, goal, a, b, rank, k.0, k.1, k.2)
    }

    /** `m1` keeps every count of `m0`, and what it adds is for devices off
        the search path `vis`. */
    ghost predicate Grows(m0: map<Key, nat>, m1: map<Key, nat>, vis: set<string>) {
      && (forall k :: k in m0 ==> k in m1 && m1[k] == m0[k])
      && (forall k :: k in m1 && k !in m0 ==> k.0 !in vis)
    }

    constructor (graph: Graph, goal: string, a: string, b: string)
      ensures Valid() && this.graph == graph && this.goal == goal && this.a == a && this.b == b
      ensures memo == map[] && visiting == {}
    {
      this.graph := graph;
      this.goal := goal;
      this.a := a;
      this.b := b;
      nodes := Nodes(graph);
      memo := map[];
      visiting := {};
    }

    /** `dfs(u, saw_a, saw_b)`: the stored count for the key, else at the goal
        1 when both devices were passed and 0 otherwise, else 0 for a device
        already on the search path, and otherwise the sum over the outputs,
        stored under the key. The search path is as it was on return and no
        stored count changes; on a graph without cycles the result is the
        number of paths to the goal through both devices. */
    method Dfs(u: string, sa: bool, sb: bool, ghost rank: map<string, nat>) returns (total: nat)
      requires Valid()
      modifies this
      ensures visiting == old(visiting)
      ensures Grows(old(memo), memo, old(visiting))
      ensures (u, sa, sb) in old(memo) ==> total == old(memo)[(u, sa, sb)]
      ensures (u, sa, sb) !in old(memo) && u == goal ==> total == (if sa && sb then 1 else 0)
      ensures (u, sa, sb) !in old(memo) && u != goal && u in old(visiting) ==> total == 0
      ensures (u, sa, sb) !in old(memo) && u != goal && u !in old(visiting) ==> (u, sa, sb) in memo && memo[(u, sa, sb)] == total
      ensures Correct(rank, old(memo)) && Above(graph, rank, old(visiting), u) ==>
                total == BothCount(graph, goal, a, b, rank, u, sa, sb) && Correct(rank, memo)
      decreases Unvisited(nodes, visiting), 1
    {
      var key := (u, sa, sb);
      if key in memo {
        return memo[key];
      }
      if u == goal {
        return if sa && sb then 1 else 0;
      }
      if u in visiting {
        return 0;
      }
      total := Visit(u, sa, sb, rank);
    }

    /** The rest of `dfs(u, saw_a, saw_b)` for a key not stored and a device
        not on the search path: `u` joins the path while its outputs are
        searched and leaves it after, and the sum is stored under the key. */
    method Visit(u: string, sa: bool, sb: bool, ghost rank: map<string, nat>) returns (total: nat)
      requires Valid() && u != goal && (u, sa, sb) !in memo && u !in visiting
      modifies this
      ensures visiting == old(visiting)
      ensures Grows(old(memo), memo, old(visiting))
      ensures (u, sa, sb) in memo && memo[(u, sa, sb)] == total
      ensures Correct(rank, old(memo)) && Above(graph, rank, old(visiting), u) ==>
                total == BothCount(graph, goal, a, b, rank, u, sa, sb) && Correct(rank, memo)
      decreases Unvisited(nodes, visiting), 0
    {
      ghost var sound := Correct(rank, old(memo)) && Above(graph, rank, old(visiting), u);
      visiting := visiting + {u};
      if u in graph {
        Deeper(nodes, old(visiting), u);
        total := SumOutputs(u, sa, sb, rank, old(visiting), sound);
      } else {
        total := 0;
      }
      Unmark(old(visiting), u);
      Store(rank, old(memo), memo, old(visiting), (u, sa, sb), total, sound);
      visiting := visiting - {u};
      memo := memo[(u, sa, sb) := total];
    }

    /** The loop of `dfs(u, saw_a, saw_b)` over the outputs of `u`, with `u`
        on the search path: each output is searched with the flags turned on
        when it is `a` or `b`, and the counts are summed. */
    method SumOutputs(u: string, sa: bool, sb: bool, ghost rank: map<string, nat>, ghost vis: set<string>, ghost sound: bool) returns (total: nat)
      requires Valid() && u != goal && u in graph && u !in vis && visiting == vis + {u}
      requires sound ==> Correct(rank, memo) && Above(graph, rank, vis, u)
      modifies this
      ensures visiting == old(visiting)
      ensures Grows(old(memo), memo, visiting)
      ensures sound ==> Correct(rank, memo) && total == BothCount(graph, goal, a, b, rank, u, sa, sb)
      decreases Unvisited(nodes, visiting), 3
    {
      var outs := Get(graph, u);
      total := 0;
      for i := 0 to |outs|
        invariant visiting == old(visiting)
        invariant Grows(old(memo), memo, visiting)
        invariant sound ==> Correct(rank, memo) && total == BothVia(graph, goal, a, b, rank, u, sa, sb, outs[..i])
      {
        ghost var before := memo;
        total := AddOutput(u, sa, sb, i, total, rank, vis, sound);
        GrowsTrans(old(memo), before, memo, visiting);
      }
      assert outs[..|outs|] == outs;
    }

    /** One turn of that loop: output `i` of `u` searched with the flags
        turned on when it is `a` or `b`, and its count added. */
    method AddOutput(u: string, sa: bool, sb: bool, i: nat, total: nat, ghost rank: map<string, nat>, ghost vis: set<string>, ghost sound: bool) returns (r: nat)
      requires Valid() && u in graph && i < |graph[u]| && u !in vis && visiting == vis + {u}
      requires sound ==> Correct(rank, memo) && Above(graph, rank, vis, u) && total == BothVia(graph, goal, a, b, rank, u, sa, sb, graph[u][..i])
      modifies this
      ensures visiting == old(visiting)
      ensures Grows(old(memo), memo, visiting)
      ensures sound ==> Correct(rank, memo) && r == BothVia(graph, goal, a, b, rank, u, sa, sb, graph[u][..i + 1])
      decreases Unvisited(nodes, visiting), 2
    {
      var v := graph[u][i];
      var sa', sb' := sa || v == a, sb || v == b;
      if sound {
        AboveStep(graph, rank, vis, u, v);
      }
      var c := Dfs(v, sa', sb', rank);
      if sound {
        BothViaStep(graph, goal, a, b, rank, u, sa, sb, i, v, sa', sb', total, c);
      }
      r := total + c;
    }

    lemma GrowsTrans(m0: map<Key, nat>, m1: map<Key, nat>, m2: map<Key, nat>, vis: set<string>)
      requires Grows(m0, m1, vis) && Grows(m1, m2, vis)
      ensures Grows(m0, m2, vis)
    {
    }

    /** Storing the count under a key whose device is off the path `vis`
        keeps the stored counts growing and, when it is the count through
        both devices, correct. */
    lemma Store(rank: map<string, nat>, m0: map<Key, nat>, m1: map<Key, nat>, vis: set<string>, k: Key, t: nat, sound: bool)
      requires Grows(m0, m1, vis + {k.0}) && k !in m0 && k.0 !in vis
      requires sound ==> Correct(rank, m1) && t == BothCount(graph, goal, a, b, rank, k.0, k.1, k.2)
      ensures Grows(m0, m1[k := t], vis)
      ensures sound ==> Correct(rank, m1[k := t])
    {
    }
  }

  /** `count_paths_with_both`: a search from `start`, with the flags saying
      whether `start` is itself `a` or `b`, nothing stored and an empty search
      path; on a graph without cycles, the number of paths to `goal` through
      both devices. */
  method CountPathsWithBoth(graph: Graph, start: string, goal: string, a: string, b: string, ghost rank: map<string, nat>) returns (n: nat)
    ensures start == goal ==> n == (if start == a && start == b then 1 else 0)
    ensures Ranked(graph, rank) ==> n == BothCount(graph, goal, a, b, rank, start, start == a, start == b)
  {
    var counter := new BothCounter(graph, goal, a, b);
    n := counter.Dfs(start, start == a, start == b, rank);
  }
}
