/** Sums over Python sets and lists: `sum(found)` on a set of integers, and the
    plain `sum` and `reduce(operator.mul, xs, 1)` of a list. */
module Sums {

  lemma HasElement(s: set<int>)
    requires s != {}
    ensures exists x :: x in s
  {
    if forall x :: x !in s {
      assert false;
    }
  }

  ghost function Pick(s: set<int>): (x: int)
    requires s != {}
    ensures x in s
  {
    HasElement(s);
    var x :| x in s; x
  }

  /** The sum of the elements of a finite set of integers. */
  ghost function SetSum(s: set<int>): int
  {
    if s == {} then 0 else Pick(s) + SetSum(s - {Pick(s)})
  }

  /** The sum does not depend on which element is taken out first. */
  lemma {:induction false} SetSumRemove(s: set<int>, y: int)
    requires y in s
    ensures SetSum(s) == y + SetSum(s - {y})
    decreases |s|
  {
    var x := Pick(s);
    if y != x {
      calc {
        SetSum(s);
        x + SetSum(s - {x});
        { SetSumRemove(s - {x}, y); }
        x + y + SetSum(s - {x} - {y});
        { assert s - {x} - {y} == s - {y} - {x}; }
        y + x + SetSum(s - {y} - {x});
        { SetSumRemove(s - {y}, x); }
        y + SetSum(s - {y});
      }
    }
  }

  lemma SetSumInsert(s: set<int>, x: int)
    requires x !in s
    ensures SetSum(s + {x}) == SetSum(s) + x
  {
    SetSumRemove(s + {x}, x);
    assert s + {x} - {x} == s;
  }

  /** `sum(s)` for a set: takes the elements out one at a time. */
  method SumOfSet(s: set<int>) returns (total: int)
    ensures total == SetSum(s)
  {
    var rest := s;
    total := 0;
    while rest != {}
      invariant total + SetSum(rest) == SetSum(s)
      decreases |rest|
    {
      var x :| x in rest;
      SetSumRemove(rest, x);
      total := total + x;
      rest := rest - {x};
    }
  }

  /** `sum(xs)`, adding from the left. */
  function SeqSum(xs: seq<int>): int {
    if xs == [] then 0 else SeqSum(xs[..|xs| - 1]) + xs[|xs| - 1]
  }

  /** `reduce(operator.mul, xs, 1)`, multiplying from the left. */
  function SeqProduct(xs: seq<int>): int {
    if xs == [] then 1 else SeqProduct(xs[..|xs| - 1]) * xs[|xs| - 1]
  }

  lemma SeqSumSnoc(xs: seq<int>, x: int)
    ensures SeqSum(xs + [x]) == SeqSum(xs) + x
  {
    assert (xs + [x])[..|xs|] == xs;
  }

  lemma SeqProductSnoc(xs: seq<int>, x: int)
    ensures SeqProduct(xs + [x]) == SeqProduct(xs) * x
  {
    assert (xs + [x])[..|xs|] == xs;
  }

  /** Replacing one entry changes the sum by the difference. */
  lemma {:induction false} SeqSumUpdate(xs: seq<int>, i: nat, x: int)
    requires i < |xs|
    ensures SeqSum(xs[i := x]) == SeqSum(xs) - xs[i] + x
  {
    var m := |xs| - 1;
    assert xs[i := x][..m] == if i == m then xs[..m] else xs[..m][i := x];
    if i < m {
      SeqSumUpdate(xs[..m], i, x);
    }
  }

  /** `sum(1 for v in xs if v > 0)`: the number of positive entries. */
  function Positives(xs: seq<nat>): nat
  {
    if xs == [] then 0 else Positives(xs[..|xs| - 1]) + if xs[|xs| - 1] > 0 then 1 else 0
  }

  /** There are no more positive entries than entries, nor than their sum. */
  lemma {:induction false} PositivesBounds(xs: seq<nat>)
    ensures Positives(xs) <= |xs|
    ensures Positives(xs) <= SeqSum(xs)
  {
    if xs != [] {
      PositivesBounds(xs[..|xs| - 1]);
    }
  }
}
