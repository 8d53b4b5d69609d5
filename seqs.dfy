/** Python's filtering comprehensions, `[g(x) for x in xs if p(x)]`, as one
    function from an element to an optional result. */
module Seqs {
  import opened Maybe

  /** The results of `f` that are present, in the order of `xs`. */
  function FilterMap<A, B>(xs: seq<A>, f: A -> Option<B>): (ys: seq<B>)
    ensures |ys| <= |xs|
  {
    if xs == [] then []
    else FilterMap(xs[..|xs| - 1], f) + match f(xs[|xs| - 1]) case Some(y) => [y] case None => []
  }

  lemma FilterMapSnoc<A, B>(xs: seq<A>, x: A, f: A -> Option<B>)
    ensures FilterMap(xs + [x], f) == FilterMap(xs, f) + match f(x) case Some(y) => [y] case None => []
  {
    assert (xs + [x])[..|xs|] == xs;
  }

  /** The indices of the elements that give a result, in increasing order. */
  function Positions<A, B>(xs: seq<A>, f: A -> Option<B>): (idx: seq<nat>)
    ensures forall k :: 0 <= k < |idx| ==> idx[k] < |xs|
  {
    if xs == [] then []
    else Positions(xs[..|xs| - 1], f) + if f(xs[|xs| - 1]).Some? then [|xs| - 1] else []
  }

  lemma {:induction false} PositionsLength<A, B>(xs: seq<A>, f: A -> Option<B>)
    ensures |Positions(xs, f)| == |FilterMap(xs, f)|
  {
    if xs != [] {
      PositionsLength(xs[..|xs| - 1], f);
    }
  }

  lemma {:induction false} PositionsMatch<A, B>(xs: seq<A>, f: A -> Option<B>, k: nat)
    requires k < |Positions(xs, f)|
    ensures |Positions(xs, f)| == |FilterMap(xs, f)|
    ensures f(xs[Positions(xs, f)[k]]) == Some(FilterMap(xs, f)[k])
  {
    PositionsLength(xs, f);
    var init := xs[..|xs| - 1];
    PositionsLength(init, f);
    if k < |Positions(init, f)| {
      PositionsMatch(init, f, k);
      assert Positions(xs, f)[k] == Positions(init, f)[k];
      assert FilterMap(xs, f)[k] == FilterMap(init, f)[k];
    }
  }

  lemma {:induction false} PositionsIncreasing<A, B>(xs: seq<A>, f: A -> Option<B>)
    ensures forall k, l :: 0 <= k < l < |Positions(xs, f)| ==> Positions(xs, f)[k] < Positions(xs, f)[l]
  {
    if xs != [] {
      PositionsIncreasing(xs[..|xs| - 1], f);
    }
  }

  lemma {:induction false} PositionsComplete<A, B>(xs: seq<A>, f: A -> Option<B>, j: nat)
    requires j < |xs| && f(xs[j]).Some?
    ensures j in Positions(xs, f)
  {
    var init := xs[..|xs| - 1];
    if j < |xs| - 1 {
      assert init[j] == xs[j];
      PositionsComplete(init, f, j);
    }
  }

  /** Every result comes from one element, in order, and every element with
      a result gives one. */
  lemma FilterMapWitness<A, B>(xs: seq<A>, f: A -> Option<B>) returns (idx: seq<nat>)
    ensures |idx| == |FilterMap(xs, f)|
    ensures forall k :: 0 <= k < |idx| ==> idx[k] < |xs| && f(xs[idx[k]]) == Some(FilterMap(xs, f)[k])
    ensures forall k, l :: 0 <= k < l < |idx| ==> idx[k] < idx[l]
    ensures forall j :: 0 <= j < |xs| && f(xs[j]).Some? ==> j in idx
  {
    idx := Positions(xs, f);
    PositionsLength(xs, f);
    forall k | 0 <= k < |idx|
      ensures f(xs[idx[k]]) == Some(FilterMap(xs, f)[k])
    {
      PositionsMatch(xs, f, k);
    }
    PositionsIncreasing(xs, f);
    forall j | 0 <= j < |xs| && f(xs[j]).Some?
      ensures j in idx
    {
      PositionsComplete(xs, f, j);
    }
  }
}
