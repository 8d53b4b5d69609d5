/** Python's `list.sort()` and `sorted(...)`, specified by their outcome: the
    list ends sorted by the given order and holds the same elements. The
    algorithm is an insertion sort, not Timsort; only the outcome is modelled. */
module Sorting {

  /** The order a sort key induces: total and transitive. */
  ghost predicate TotalPreorder<T(!new)>(le: (T, T) -> bool) {
    && (forall x, y :: le(x, y) || le(y, x))
    && (forall x, y, z :: le(x, y) && le(y, z) ==> le(x, z))
  }

  predicate Sorted<T>(s: seq<T>, le: (T, T) -> bool) {
    forall i, j :: 0 <= i < j < |s| ==> le(s[i], s[j])
  }

  /** During insertion of `s[j]`, the prefix `s[..i+1]` is sorted apart from position `j`. */
  ghost predicate SortedExcept<T>(s: seq<T>, j: nat, i: nat, le: (T, T) -> bool)
    requires i < |s|
  {
    forall p, q :: 0 <= p < q <= i && p != j && q != j ==> le(s[p], s[q])
  }

  /** The element being inserted is no greater than everything to its right. */
  ghost predicate BelowRight<T>(s: seq<T>, j: nat, i: nat, le: (T, T) -> bool)
    requires j <= i < |s|
  {
    forall q :: j < q <= i ==> le(s[j], s[q])
  }

  lemma SwapStep<T(!new)>(s: seq<T>, j: nat, i: nat, le: (T, T) -> bool)
    requires TotalPreorder(le)
    requires 0 < j <= i < |s|
    requires SortedExcept(s, j, i, le) && BelowRight(s, j, i, le)
    requires !le(s[j - 1], s[j])
    ensures var t := s[j - 1 := s[j]][j := s[j - 1]];
      SortedExcept(t, j - 1, i, le) && BelowRight(t, j - 1, i, le)
  {
    var t := s[j - 1 := s[j]][j := s[j - 1]];
    assert le(s[j], s[j - 1]);
    forall p, q | 0 <= p < q <= i && p != j - 1 && q != j - 1
      ensures le(t[p], t[q])
    {
      if q == j {
        assert t[q] == s[j - 1] && t[p] == s[p];
      }
    }
  }

  lemma InsertDone<T(!new)>(s: seq<T>, j: nat, i: nat, le: (T, T) -> bool)
    requires TotalPreorder(le)
    requires j <= i < |s|
    requires SortedExcept(s, j, i, le) && BelowRight(s, j, i, le)
    requires j > 0 ==> le(s[j - 1], s[j])
    ensures Sorted(s[..i + 1], le)
  {
    forall p, q | 0 <= p < q <= i
      ensures le(s[p], s[q])
    {
      if q == j && p < j - 1 {
        assert le(s[p], s[j - 1]);
      }
    }
  }

  /** Moves `a[i]` left past every larger element, so that `a[..i + 1]`
      becomes sorted; the rest of the array is untouched. */
  method Insert<T(!new)>(a: array<T>, i: nat, le: (T, T) -> bool)
    requires TotalPreorder(le)
    requires i < a.Length && Sorted(a[..i], le)
    modifies a
    ensures Sorted(a[..i + 1], le)
    ensures multiset(a[..]) == old(multiset(a[..]))
    ensures a[i + 1..] == old(a[i + 1..])
  {
    var j := i;
    assert SortedExcept(a[..], j, i, le) by {
      assert forall p :: 0 <= p < i ==> a[..i][p] == a[p];
    }
    while j > 0 && !le(a[j - 1], a[j])
      invariant 0 <= j <= i
      invariant SortedExcept(a[..], j, i, le) && BelowRight(a[..], j, i, le)
      invariant multiset(a[..]) == old(multiset(a[..]))
      invariant a[i + 1..] == old(a[i + 1..])
    {
      SwapStep(a[..], j, i, le);
      a[j - 1], a[j] := a[j], a[j - 1];
      j := j - 1;
    }
    InsertDone(a[..], j, i, le);
    assert a[..i + 1] == a[..][..i + 1];
  }

  /** Sorts `a` in place: afterwards it is sorted and a permutation of what it held. */
  method Sort<T(!new)>(a: array<T>, le: (T, T) -> bool)
    requires TotalPreorder(le)
    modifies a
    ensures Sorted(a[..], le)
    ensures multiset(a[..]) == old(multiset(a[..]))
  {
    if a.Length == 0 {
      return;
    }
    var i := 1;
    while i < a.Length
      invariant 1 <= i <= a.Length
      invariant Sorted(a[..i], le)
      invariant multiset(a[..]) == old(multiset(a[..]))
    {
      Insert(a, i, le);
      i := i + 1;
    }
    assert a[..] == a[..a.Length];
  }

  /** Only equal elements tie. */
  ghost predicate Antisymmetric<T(!new)>(le: (T, T) -> bool) {
    forall x, y :: le(x, y) && le(y, x) ==> x == y
  }

  /** When only equal elements tie, the outcome of a sort does not depend on
      the algorithm: two sorted arrangements of the same elements are equal. */
  lemma {:induction false} SortedUnique<T(!new)>(s: seq<T>, t: seq<T>, le: (T, T) -> bool)
    requires Antisymmetric(le) && Sorted(s, le) && Sorted(t, le) && multiset(s) == multiset(t)
    ensures s == t
    decreases |s|
  {
    assert |s| == |multiset(s)| == |multiset(t)| == |t|;
    if s != [] {
      SameTails(s, t, le);
      SortedUnique(s[1..], t[1..], le);
      assert s == [s[0]] + s[1..];
      assert t == [t[0]] + t[1..];
    }
  }

  /** Two sorted arrangements of the same elements start alike, and what
      follows is again two sorted arrangements of the same elements. */
  lemma SameTails<T(!new)>(s: seq<T>, t: seq<T>, le: (T, T) -> bool)
    requires Antisymmetric(le) && Sorted(s, le) && Sorted(t, le) && multiset(s) == multiset(t)
    requires s != [] && t != []
    ensures s[0] == t[0] && Sorted(s[1..], le) && Sorted(t[1..], le) && multiset(s[1..]) == multiset(t[1..])
  {
    SameHead(s, t, le);
    SortedTail(s, le);
    SortedTail(t, le);
    TailMultiset(s);
    TailMultiset(t);
  }

  /** Two sorted arrangements of the same elements start alike. */
  lemma SameHead<T(!new)>(s: seq<T>, t: seq<T>, le: (T, T) -> bool)
    requires Antisymmetric(le) && Sorted(s, le) && Sorted(t, le) && multiset(s) == multiset(t)
    requires s != [] && t != []
    ensures s[0] == t[0]
  {
    assert s[0] in multiset(t) && t[0] in multiset(s);
    HeadIsLeast(t, s[0], le);
    HeadIsLeast(s, t[0], le);
  }

  lemma TailMultiset<T>(s: seq<T>)
    requires s != []
    ensures multiset(s[1..]) == multiset(s) - multiset{s[0]}
  {
    assert s == [s[0]] + s[1..];
  }

  /** The head of a sorted sequence is its least element, or that element itself. */
  lemma HeadIsLeast<T>(s: seq<T>, x: T, le: (T, T) -> bool)
    requires Sorted(s, le) && x in s
    ensures s[0] == x || le(s[0], x)
  {
    var i :| 0 <= i < |s| && s[i] == x;
    assert i == 0 || le(s[0], s[i]);
  }

  lemma SortedTail<T>(s: seq<T>, le: (T, T) -> bool)
    requires Sorted(s, le) && s != []
    ensures Sorted(s[1..], le)
  {
    forall i, j | 0 <= i < j < |s| - 1
      ensures le(s[1..][i], s[1..][j])
    {
      assert le(s[i + 1], s[j + 1]);
    }
  }
}
