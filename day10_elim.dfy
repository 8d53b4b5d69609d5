/** Gauss-Jordan elimination over GF(2): `gaussian_elim_bits` of
    2025/Day10/puzzle19.py. A row of the system is the vector of its
    coefficients (the source's row bitmask), `rhs` the parities. */
module Elimination {
  import opened Gf2

  /** `len(A[0]) if m > 0 else 0`. */
  function Width(A: seq<Vec>): nat {
    if |A| > 0 then |A[0]| else 0
  }

  /** `rows[i], rows[j] = rows[j], rows[i]`. */
  function Swap<T>(s: seq<T>, i: nat, j: nat): (t: seq<T>)
    requires i < |s| && j < |s|
    ensures |t| == |s| && t[i] == s[j] && t[j] == s[i]
    ensures forall k :: 0 <= k < |s| && k != i && k != j ==> t[k] == s[k]
  {
    s[i := s[j]][j := s[i]]
  }

  /** The system after the columns before `col` are eliminated: `piv[p]` is
      the pivot column of row `p` and `where[k]` the pivot row of column `k`
      (or -1); a pivot column has its single 1 in its pivot row, and the rows
      below the pivots are 0 in every eliminated column. */
  ghost predicate Echelon(rows: seq<Vec>, n: nat, where: seq<int>, piv: seq<nat>, col: nat) {
    && Widths(rows, n) && |where| == n && col <= n && |piv| <= |rows|
    && (forall k :: 0 <= k < n ==> -1 <= where[k] < |piv|)
    && (forall k :: col <= k < n ==> where[k] == -1)
    && (forall p :: 0 <= p < |piv| ==> piv[p] < col && where[piv[p]] == p)
    && (forall k :: 0 <= k < n && where[k] != -1 ==> piv[where[k]] == k)
    && (forall k, r :: 0 <= k < col && where[k] != -1 && 0 <= r < |rows| ==> rows[r][k] == (r == where[k]))
    && (forall k, r :: 0 <= k < col && |piv| <= r < |rows| ==> !rows[r][k])
  }

  lemma SameRefl(M: seq<Vec>, rhs: Vec, n: nat)
    ensures SameSolutions(M, rhs, M, rhs, n)
  {
  }

  lemma SameTrans(M1: seq<Vec>, r1: Vec, M2: seq<Vec>, r2: Vec, M3: seq<Vec>, r3: Vec, n: nat)
    requires SameSolutions(M1, r1, M2, r2, n) && SameSolutions(M2, r2, M3, r3, n)
    ensures SameSolutions(M1, r1, M3, r3, n)
  {
    forall x | |x| == n
      ensures Solves(M1, r1, x) <==> Solves(M3, r3, x)
    {
      assert Solves(M1, r1, x) <==> Solves(M2, r2, x);
      assert Solves(M2, r2, x) <==> Solves(M3, r3, x);
    }
  }

  /** Exchanging two equations keeps the solutions. */
  lemma SwapSame(rows: seq<Vec>, rhs: Vec, i: nat, j: nat, n: nat)
    requires |rhs| == |rows| && i < |rows| && j < |rows|
    ensures SameSolutions(Swap(rows, i, j), Swap(rhs, i, j), rows, rhs, n)
  {
    var S, Sr := Swap(rows, i, j), Swap(rhs, i, j);
    forall x | |x| == n
      ensures Solves(S, Sr, x) <==> Solves(rows, rhs, x)
    {
      if Solves(S, Sr, x) {
        forall r | 0 <= r < |rows|
          ensures |rows[r]| == |x| && Dot(rows[r], x) == rhs[r]
        {
          var t := if r == i then j else if r == j then i else r;
          assert S[t] == rows[r] && Sr[t] == rhs[r];
        }
      }
      if Solves(rows, rhs, x) {
        forall r | 0 <= r < |rows|
          ensures |S[r]| == |x| && Dot(S[r], x) == Sr[r]
        {
          var t := if r == i then j else if r == j then i else r;
          assert S[r] == rows[t] && Sr[r] == rhs[t];
        }
      }
    }
  }

  /** Adding equation `p` to another equation `r` keeps the solutions. */
  lemma AddRowSame(rows: seq<Vec>, rhs: Vec, r: nat, p: nat, n: nat)
    requires |rhs| == |rows| && r < |rows| && p < |rows| && r != p && Widths(rows, n)
    ensures SameSolutions(rows[r := Xor(rows[r], rows[p])], rhs[r := rhs[r] != rhs[p]], rows, rhs, n)
  {
    var E, Er := rows[r := Xor(rows[r], rows[p])], rhs[r := rhs[r] != rhs[p]];
    forall x | |x| == n
      ensures Solves(E, Er, x) <==> Solves(rows, rhs, x)
    {
      XorDot(rows[r], rows[p], x);
      if Solves(E, Er, x) {
        assert Dot(E[p], x) == Er[p];
        assert Dot(E[r], x) == Er[r];
        forall q | 0 <= q < |rows|
          ensures |rows[q]| == |x| && Dot(rows[q], x) == rhs[q]
        {
          if q != r {
            assert E[q] == rows[q];
          }
        }
      }
      if Solves(rows, rhs, x) {
        assert Dot(rows[p], x) == rhs[p];
        assert Dot(rows[r], x) == rhs[r];
      }
    }
  }

  /** The first row at or after `row` with a 1 in column `col`, or -1. */
  method FindPivot(rows: seq<Vec>, row: nat, col: nat) returns (sel: int)
    requires forall r :: row <= r < |rows| ==> col < |rows[r]|
    ensures sel == -1 ==> forall r :: row <= r < |rows| ==> !rows[r][col]
    ensures sel != -1 ==> row <= sel < |rows| && rows[sel][col]
    ensures sel != -1 ==> forall r :: row <= r < sel ==> !rows[r][col]
  {
    var r := row;
    while r < |rows|
      invariant row <= r
      invariant forall r' :: row <= r' < r && r' < |rows| ==> !rows[r'][col]
    {
      if rows[r][col] {
        return r;
      }
      r := r + 1;
    }
    return -1;
  }

  /** The rows once those before `upto`, other than `p`, with a 1 in column
      `col` have had row `p` added. */
  function Cleared(rows: seq<Vec>, p: nat, col: nat, upto: nat): (E: seq<Vec>)
    requires p < |rows| && forall r :: 0 <= r < |rows| ==> |rows[r]| == |rows[p]| && col < |rows[r]|
    ensures |E| == |rows|
    ensures forall r :: 0 <= r < |rows| ==>
      E[r] == if r < upto && r != p && rows[r][col] then Xor(rows[r], rows[p]) else rows[r]
  {
    seq(|rows|, r requires 0 <= r < |rows| =>
      if r < upto && r != p && rows[r][col] then Xor(rows[r], rows[p]) else rows[r])
  }

  /** The right-hand sides matching `Cleared`. */
  function ClearedRhs(rows: seq<Vec>, rhs: Vec, p: nat, col: nat, upto: nat): (Er: Vec)
    requires |rhs| == |rows| && p < |rows| && forall r :: 0 <= r < |rows| ==> col < |rows[r]|
    ensures |Er| == |rhs|
    ensures forall r :: 0 <= r < |rows| ==>
      Er[r] == if r < upto && r != p && rows[r][col] then rhs[r] != rhs[p] else rhs[r]
  {
    seq(|rows|, r requires 0 <= r < |rows| =>
      if r < upto && r != p && rows[r][col] then rhs[r] != rhs[p] else rhs[r])
  }

  /** Clearing row `r` extends `Cleared` by one row. */
  lemma ClearedNext(rows: seq<Vec>, rhs: Vec, p: nat, col: nat, r: nat)
    requires |rhs| == |rows| && p < |rows| && r < |rows|
    requires forall r :: 0 <= r < |rows| ==> |rows[r]| == |rows[p]| && col < |rows[r]|
    ensures var E, Er := Cleared(rows, p, col, r), ClearedRhs(rows, rhs, p, col, r);
      if r != p && rows[r][col] then
        Cleared(rows, p, col, r + 1) == E[r := Xor(E[r], E[p])] &&
        ClearedRhs(rows, rhs, p, col, r + 1) == Er[r := Er[r] != Er[p]]
      else
        Cleared(rows, p, col, r + 1) == E && ClearedRhs(rows, rhs, p, col, r + 1) == Er
  {
    var E, Er := Cleared(rows, p, col, r), ClearedRhs(rows, rhs, p, col, r);
    var E', Er' := Cleared(rows, p, col, r + 1), ClearedRhs(rows, rhs, p, col, r + 1);
    if r != p && rows[r][col] {
      assert E' == E[r := Xor(E[r], E[p])];
      assert Er' == Er[r := Er[r] != Er[p]];
    } else {
      assert E' == E;
      assert Er' == Er;
    }
  }

  /** Add pivot row `p` to every other row with a 1 in column `col`; the
      solutions stay the same. */
  method EliminateColumn(rows: seq<Vec>, rhs: Vec, p: nat, col: nat, ghost n: nat) returns (E: seq<Vec>, Er: Vec)
    requires |rhs| == |rows| && p < |rows| && Widths(rows, n) && col < n
    ensures E == Cleared(rows, p, col, |rows|) && Er == ClearedRhs(rows, rhs, p, col, |rows|)
    ensures SameSolutions(E, Er, rows, rhs, n)
  {
    E, Er := rows, rhs;
    assert E == Cleared(rows, p, col, 0) && Er == ClearedRhs(rows, rhs, p, col, 0);
    for r := 0 to |rows|
      invariant E == Cleared(rows, p, col, r) && Er == ClearedRhs(rows, rhs, p, col, r)
    {
      ClearedNext(rows, rhs, p, col, r);
      assert E[r] == rows[r];
      if r != p && E[r][col] {
        E := E[r := Xor(E[r], E[p])];
        Er := Er[r := Er[r] != Er[p]];
      }
    }
    ClearedSame(rows, rhs, p, col, |rows|, n);
  }

  /** Clearing any prefix of the rows keeps the solutions. */
  lemma {:induction false} ClearedSame(rows: seq<Vec>, rhs: Vec, p: nat, col: nat, upto: nat, n: nat)
    requires |rhs| == |rows| && p < |rows| && upto <= |rows| && Widths(rows, n) && col < n
    ensures SameSolutions(Cleared(rows, p, col, upto), ClearedRhs(rows, rhs, p, col, upto), rows, rhs, n)
    decreases upto
  {
    if upto == 0 {
      assert Cleared(rows, p, col, 0) == rows && ClearedRhs(rows, rhs, p, col, 0) == rhs;
      SameRefl(rows, rhs, n);
    } else {
      ClearedSame(rows, rhs, p, col, upto - 1, n);
      ClearStep(rows, rhs, p, col, upto - 1, n);
    }
  }

  /** Clearing one more row keeps the solutions. */
  lemma ClearStep(rows: seq<Vec>, rhs: Vec, p: nat, col: nat, r: nat, n: nat)
    requires |rhs| == |rows| && p < |rows| && r < |rows| && Widths(rows, n) && col < n
    requires SameSolutions(Cleared(rows, p, col, r), ClearedRhs(rows, rhs, p, col, r), rows, rhs, n)
    ensures SameSolutions(Cleared(rows, p, col, r + 1), ClearedRhs(rows, rhs, p, col, r + 1), rows, rhs, n)
  {
    var E, Er := Cleared(rows, p, col, r), ClearedRhs(rows, rhs, p, col, r);
    ClearedNext(rows, rhs, p, col, r);
    if r != p && rows[r][col] {
      AddRowSame(E, Er, r, p, n);
      SameTrans(E[r := Xor(E[r], E[p])], Er[r := Er[r] != Er[p]], E, Er, rows, rhs, n);
    }
  }

  /** A column without a pivot below `|piv|` leaves the echelon form intact. */
  lemma NoPivot(rows: seq<Vec>, n: nat, where: seq<int>, piv: seq<nat>, col: nat)
    requires Echelon(rows, n, where, piv, col) && col < n
    requires forall r :: |piv| <= r < |rows| ==> !rows[r][col]
    ensures Echelon(rows, n, where, piv, col + 1)
  {
  }

  /** Swapping in the pivot row and eliminating its column extends the
      echelon form by one column and one pivot. */
  lemma ColumnStep(rows: seq<Vec>, n: nat, where: seq<int>, piv: seq<nat>, col: nat, sel: nat, E: seq<Vec>)
    requires Echelon(rows, n, where, piv, col) && col < n
    requires |piv| <= sel < |rows| && rows[sel][col]
    requires E == Cleared(Swap(rows, |piv|, sel), |piv|, col, |rows|)
    ensures Echelon(E, n, where[col := |piv|], piv + [col], col + 1)
  {
    var p := |piv|;
    var S := Swap(rows, p, sel);
    assert S[p] == rows[sel];
    forall r, k | 0 <= r < |E| && 0 <= k < col
      ensures E[r][k] == S[r][k]
    {
      assert !S[p][k];
    }
    forall r, k | 0 <= r < |E| && 0 <= k < col
      ensures if r < p then S[r][k] == rows[r][k] else !S[r][k] && !rows[r][k]
    {
    }
    forall r | 0 <= r < |E|
      ensures E[r][col] == (r == p)
    {
    }
  }

  /** The column loop of `gaussian_elim_bits`: `rank` pivots are found and
      the system is in reduced echelon form with the same solutions. */
  method Reduce(A: seq<Vec>, b: Vec, n: nat) returns (rows: seq<Vec>, rhs: Vec, where: seq<int>, rank: nat, ghost piv: seq<nat>)
    requires Widths(A, n) && |b| == |A|
    ensures |rows| == |A| && |rhs| == |A| && rank == |piv|
    ensures Echelon(rows, n, where, piv, n)
    ensures SameSolutions(rows, rhs, A, b, n)
  {
    rows, rhs := A, b;
    where := seq(n, _ => -1);
    piv := [];
    rank := 0;
    SameRefl(A, b, n);
    for col := 0 to n
      invariant |rows| == |A| && |rhs| == |A| && rank == |piv|
      invariant Echelon(rows, n, where, piv, col)
      invariant SameSolutions(rows, rhs, A, b, n)
    {
      var sel := FindPivot(rows, rank, col);
      if sel == -1 {
        NoPivot(rows, n, where, piv, col);
        continue;
      }
      rows, rhs := PivotColumn(rows, rhs, n, where, piv, col, rank, sel, A, b);
      where := where[col := rank];
      piv := piv + [col];
      rank := rank + 1;
    }
  }

  /** One pivoting step: swap pivot row `sel` up to row `rank` and clear
      column `col` in every other row. */
  method PivotColumn(rows: seq<Vec>, rhs: Vec, ghost n: nat, ghost where: seq<int>, ghost piv: seq<nat>,
                     col: nat, rank: nat, sel: nat, ghost A: seq<Vec>, ghost b: Vec)
      returns (rows': seq<Vec>, rhs': Vec)
    requires Echelon(rows, n, where, piv, col) && col < n && |rhs| == |rows| && rank == |piv|
    requires rank <= sel < |rows| && rows[sel][col]
    requires SameSolutions(rows, rhs, A, b, n)
    ensures |rows'| == |rows| && |rhs'| == |rhs|
    ensures Echelon(rows', n, where[col := rank], piv + [col], col + 1)
    ensures SameSolutions(rows', rhs', A, b, n)
  {
    SwapSame(rows, rhs, rank, sel, n);
    var S, Sr := Swap(rows, rank, sel), Swap(rhs, rank, sel);
    rows', rhs' := EliminateColumn(S, Sr, rank, col, n);
    SameTrans(rows', rhs', S, Sr, rows, rhs, n);
    SameTrans(rows', rhs', rows, rhs, A, b, n);
    ColumnStep(rows, n, where, piv, col, sel, rows');
  }

  /** The consistency loop: no all-zero equation below the pivots asks for 1. */
  method Consistent(rows: seq<Vec>, rhs: Vec, rank: nat) returns (ok: bool)
    requires |rhs| == |rows|
    ensures ok <==> forall r :: rank <= r < |rows| ==> !(IsZero(rows[r]) && rhs[r])
  {
    var r := rank;
    while r < |rows|
      invariant rank <= r
      invariant forall r' :: rank <= r' < r && r' < |rows| ==> !(IsZero(rows[r']) && rhs[r'])
    {
      if IsZero(rows[r]) && rhs[r] {
        return false;
      }
      r := r + 1;
    }
    return true;
  }

  /** The particular solution with every free variable 0. */
  method Particular(rhs: Vec, where: seq<int>) returns (xPart: Vec)
    requires forall k :: 0 <= k < |where| ==> -1 <= where[k] < |rhs|
    ensures |xPart| == |where|
    ensures forall k :: 0 <= k < |where| ==> xPart[k] == (where[k] != -1 && rhs[where[k]])
  {
    xPart := Zeros(|where|);
    for j := 0 to |where|
      invariant |xPart| == |where|
      invariant forall k :: 0 <= k < |where| ==> xPart[k] == (k < j && where[k] != -1 && rhs[where[k]])
    {
      if where[j] != -1 {
        xPart := xPart[j := rhs[where[j]]];
      }
    }
  }

  /** The null-space vector of free column `j`: 1 at `j` and, at each pivot
      column, the pivot row's bit in column `j`. */
  method FreeVector(rows: seq<Vec>, where: seq<int>, j: nat) returns (v: Vec)
    requires j < |where|
    requires forall k :: 0 <= k < |where| ==> -1 <= where[k] < |rows| && (where[k] != -1 ==> j < |rows[where[k]]|)
    ensures |v| == |where|
    ensures forall k :: 0 <= k < |where| ==> v[k] == (k == j || (where[k] != -1 && rows[where[k]][j]))
  {
    v := Zeros(|where|)[j := true];
    for k := 0 to |where|
      invariant |v| == |where|
      invariant forall k' :: 0 <= k' < |where| ==> v[k'] == (k' == j || (k' < k && where[k'] != -1 && rows[where[k']][j]))
    {
      if where[k] != -1 {
        var r := where[k];
        if rows[r][j] {
          v := v[k := true];
        }
      }
    }
  }

  /** `free` lists, in increasing order, exactly the columns without a pivot. */
  ghost predicate FreeColumns(where: seq<int>, free: seq<nat>) {
    && (forall i :: 0 <= i < |free| ==> free[i] < |where| && where[free[i]] == -1)
    && (forall i, i' :: 0 <= i < i' < |free| ==> free[i] < free[i'])
    && (forall k :: 0 <= k < |where| && where[k] == -1 ==> k in free)
  }

  /** The basis loop: one null-space vector per free column. */
  method NullBasis(rows: seq<Vec>, where: seq<int>) returns (basis: seq<Vec>, ghost free: seq<nat>)
    requires forall k :: 0 <= k < |where| ==> -1 <= where[k] < |rows|
    requires Widths(rows, |where|)
    ensures |basis| == |free| && FreeColumns(where, free) && Widths(basis, |where|)
    ensures forall i, k :: 0 <= i < |basis| && 0 <= k < |where| ==>
      basis[i][k] == (k == free[i] || (where[k] != -1 && rows[where[k]][free[i]]))
  {
    basis, free := [], [];
    for j: nat := 0 to |where|
      invariant FreeBelow(where, free, j) && BasisFor(rows, where, free, basis)
    {
      basis, free := AddFree(rows, where, basis, free, j);
    }
    BasisForMeans(rows, where, free, basis);
  }

  /** One turn of the basis loop: a free column `j` adds its vector. */
  method AddFree(rows: seq<Vec>, where: seq<int>, basis: seq<Vec>, ghost free: seq<nat>, j: nat)
    returns (basis': seq<Vec>, ghost free': seq<nat>)
    requires forall k :: 0 <= k < |where| ==> -1 <= where[k] < |rows|
    requires Widths(rows, |where|) && j < |where|
    requires FreeBelow(where, free, j) && BasisFor(rows, where, free, basis)
    ensures FreeBelow(where, free', j + 1) && BasisFor(rows, where, free', basis')
  {
    FreeBelowStep(where, free, j);
    basis', free' := basis, free;
    if where[j] == -1 {
      var v := FreeVector(rows, where, j);
      BasisForSnoc(rows, where, free, basis, j, v);
      basis', free' := basis + [v], free + [j];
    }
  }

  /** `free` lists, in increasing order, exactly the columns below `j`
      without a pivot. */
  ghost predicate FreeBelow(where: seq<int>, free: seq<nat>, j: nat) {
    && (forall i :: 0 <= i < |free| ==> free[i] < j && free[i] < |where| && where[free[i]] == -1)
    && (forall i, i' :: 0 <= i < i' < |free| ==> free[i] < free[i'])
    && (forall k :: 0 <= k < j && k < |where| && where[k] == -1 ==> k in free)
  }

  lemma FreeBelowStep(where: seq<int>, free: seq<nat>, j: nat)
    requires j < |where| && FreeBelow(where, free, j)
    ensures FreeBelow(where, if where[j] == -1 then free + [j] else free, j + 1)
  {
  }

  /** `v` is the null-space vector of free column `j`. */
  ghost predicate IsFreeVector(rows: seq<Vec>, where: seq<int>, j: nat, v: Vec)
    requires forall k :: 0 <= k < |where| ==> -1 <= where[k] < |rows|
    requires Widths(rows, |where|) && j < |where|
  {
    |v| == |where| && forall k :: 0 <= k < |where| ==> v[k] == (k == j || (where[k] != -1 && rows[where[k]][j]))
  }

  /** `basis` holds the null-space vector of each column of `free`. */
  ghost predicate BasisFor(rows: seq<Vec>, where: seq<int>, free: seq<nat>, basis: seq<Vec>)
    requires forall k :: 0 <= k < |where| ==> -1 <= where[k] < |rows|
    requires Widths(rows, |where|)
  {
    |basis| == |free| && forall i :: 0 <= i < |basis| ==> free[i] < |where| && IsFreeVector(rows, where, free[i], basis[i])
  }

  lemma BasisForSnoc(rows: seq<Vec>, where: seq<int>, free: seq<nat>, basis: seq<Vec>, j: nat, v: Vec)
    requires forall k :: 0 <= k < |where| ==> -1 <= where[k] < |rows|
    requires Widths(rows, |where|) && j < |where|
    requires BasisFor(rows, where, free, basis) && IsFreeVector(rows, where, j, v)
    ensures BasisFor(rows, where, free + [j], basis + [v])
  {
  }

  lemma BasisForMeans(rows: seq<Vec>, where: seq<int>, free: seq<nat>, basis: seq<Vec>)
    requires forall k :: 0 <= k < |where| ==> -1 <= where[k] < |rows|
    requires Widths(rows, |where|)
    requires FreeBelow(where, free, |where|) && BasisFor(rows, where, free, basis)
    ensures |basis| == |free| && FreeColumns(where, free) && Widths(basis, |where|)
    ensures forall i, k :: 0 <= i < |basis| && 0 <= k < |where| ==>
      basis[i][k] == (k == free[i] || (where[k] != -1 && rows[where[k]][free[i]]))
  {
    forall i, k | 0 <= i < |basis| && 0 <= k < |where|
      ensures basis[i][k] == (k == free[i] || (where[k] != -1 && rows[where[k]][free[i]]))
    {
      assert IsFreeVector(rows, where, free[i], basis[i]);
    }
  }

  /** The particular solution solves a consistent reduced system. */
  lemma ParticularSolves(rows: seq<Vec>, rhs: Vec, n: nat, where: seq<int>, piv: seq<nat>, xPart: Vec)
    requires Echelon(rows, n, where, piv, n) && |rhs| == |rows|
    requires forall r :: |piv| <= r < |rows| ==> !rhs[r]
    requires |xPart| == n && forall k :: 0 <= k < n ==> xPart[k] == (where[k] != -1 && rhs[where[k]])
    ensures Solves(rows, rhs, xPart)
  {
    forall r | 0 <= r < |rows|
      ensures Dot(rows[r], xPart) == rhs[r]
    {
      if r < |piv| {
        DotSupport(rows[r], xPart, piv[r]);
      } else {
        DotNone(rows[r], xPart);
      }
    }
  }

  /** Each basis vector is in the kernel of the reduced system. */
  lemma BasisKernel(rows: seq<Vec>, n: nat, where: seq<int>, piv: seq<nat>, j: nat, v: Vec)
    requires Echelon(rows, n, where, piv, n) && j < n && where[j] == -1
    requires |v| == n && forall k :: 0 <= k < n ==> v[k] == (k == j || (where[k] != -1 && rows[where[k]][j]))
    ensures Kernel(rows, v)
  {
    forall r | 0 <= r < |rows|
      ensures !Dot(rows[r], v)
    {
      if r < |piv| {
        DotPair(rows[r], v, piv[r], j);
      } else {
        DotNone(rows[r], v);
      }
    }
  }

  /** Every solution of the reduced system is the particular solution plus
      the basis vectors of the free columns it sets. */
  lemma Spanning(rows: seq<Vec>, rhs: Vec, n: nat, where: seq<int>, piv: seq<nat>,
                 xPart: Vec, basis: seq<Vec>, free: seq<nat>, x: Vec)
    requires Echelon(rows, n, where, piv, n) && FreeColumns(where, free)
    requires |xPart| == n && Solves(rows, rhs, xPart) && |basis| == |free| && Widths(basis, n)
    requires forall i :: 0 <= i < |basis| ==> Kernel(rows, basis[i])
    requires forall i :: 0 <= i < |free| ==> !xPart[free[i]]
    requires forall i, i' :: 0 <= i < |basis| && 0 <= i' < |free| ==> basis[i][free[i']] == (i == i')
    requires |x| == n && Solves(rows, rhs, x)
    ensures x == Sweep(xPart, basis, Pick(x, free))
  {
    var pick := Pick(x, free);
    var y := Sweep(xPart, basis, pick);
    SweepSolves(rows, rhs, xPart, basis, pick);
    SolutionsDiffer(rows, rhs, x, y);
    var z := Xor(x, y);
    forall i' | 0 <= i' < |free|
      ensures !z[free[i']]
    {
      SweepAt(xPart, basis, pick, free[i']);
      DotSupport(pick, Column(basis, free[i']), i');
    }
    forall k | 0 <= k < n
      ensures x[k] == y[k]
    {
      if where[k] == -1 {
        var i' :| 0 <= i' < |free| && free[i'] == k;
      } else {
        var p := where[k];
        forall j | 0 <= j < n && j != k
          ensures !(rows[p][j] && z[j])
        {
          if where[j] == -1 {
            var i' :| 0 <= i' < |free| && free[i'] == j;
          }
        }
        DotSupport(rows[p], z, k);
      }
    }
  }

  /** The free variables' values in `x`. */
  function Pick(x: Vec, free: seq<nat>): (pick: seq<bool>)
    requires forall i :: 0 <= i < |free| ==> free[i] < |x|
    ensures |pick| == |free| && forall i :: 0 <= i < |free| ==> pick[i] == x[free[i]]
  {
    seq(|free|, i requires 0 <= i < |free| => x[free[i]])
  }

  /** `A x = b` has a solution. */
  ghost predicate Solvable(A: seq<Vec>, b: Vec) {
    exists x :: |x| == Width(A) && Solves(A, b, x)
  }

  /** `xPart` and `basis` describe all solutions of `A x = b` in `n`
      unknowns: `xPart` is one, each basis vector solves `A x = 0` and is 1 at
      its own free column and 0 at the others (where `xPart` is 0), and every
      solution is `xPart` plus the basis vectors of the free columns it sets. */
  ghost predicate Parametrises(A: seq<Vec>, b: Vec, n: nat, xPart: Vec, basis: seq<Vec>, free: seq<nat>) {
    && |xPart| == n && Widths(basis, n) && |free| == |basis|
    && Solves(A, b, xPart)
    && (forall i :: 0 <= i < |basis| ==> Kernel(A, basis[i]))
    && (forall i :: 0 <= i < |free| ==> free[i] < n && !xPart[free[i]])
    && (forall i, i' :: 0 <= i < i' < |free| ==> free[i] < free[i'])
    && (forall i, i' :: 0 <= i < |basis| && 0 <= i' < |free| ==> basis[i][free[i']] == (i == i'))
    && (forall x :: |x| == n && Solves(A, b, x) ==> x == Sweep(xPart, basis, Pick(x, free)))
  }

  /** `gaussian_elim_bits`: `ok` exactly when the system is solvable, and
      then `xPart` and `basis` parametrise its solutions. */
  method GaussianElimBits(A: seq<Vec>, b: Vec) returns (ok: bool, xPart: Vec, basis: seq<Vec>, ghost free: seq<nat>)
    requires |b| == |A| && Widths(A, Width(A))
    ensures ok <==> Solvable(A, b)
    ensures !ok ==> xPart == [] && basis == []
    ensures ok ==> Parametrises(A, b, Width(A), xPart, basis, free)
  {
    var n := Width(A);
    var rows, rhs, where, rank, piv := Reduce(A, b, n);
    ok := Consistent(rows, rhs, rank);
    if !ok {
      NoSolution(A, b, rows, rhs, n, where, piv);
      return false, [], [], [];
    }
    xPart := Particular(rhs, where);
    basis, free := NullBasis(rows, where);
    Solved(A, b, rows, rhs, n, where, piv, xPart, basis, free);
  }

  /** A zero equation asking for 1 leaves no solution. */
  lemma NoSolution(A: seq<Vec>, b: Vec, rows: seq<Vec>, rhs: Vec, n: nat, where: seq<int>, piv: seq<nat>)
    requires n == Width(A) && Echelon(rows, n, where, piv, n) && |rhs| == |rows|
    requires SameSolutions(rows, rhs, A, b, n)
    requires !forall r :: |piv| <= r < |rows| ==> !(IsZero(rows[r]) && rhs[r])
    ensures !Solvable(A, b)
  {
    var r :| |piv| <= r < |rows| && IsZero(rows[r]) && rhs[r];
    forall x | |x| == n && Solves(A, b, x)
      ensures false
    {
      assert Solves(rows, rhs, x);
      DotNone(rows[r], x);
    }
  }

  /** The outputs of a consistent elimination parametrise the solutions. */
  lemma Solved(A: seq<Vec>, b: Vec, rows: seq<Vec>, rhs: Vec, n: nat, where: seq<int>, piv: seq<nat>,
               xPart: Vec, basis: seq<Vec>, free: seq<nat>)
    requires n == Width(A) && Echelon(rows, n, where, piv, n) && |rhs| == |rows|
    requires SameSolutions(rows, rhs, A, b, n)
    requires forall r :: |piv| <= r < |rows| ==> !(IsZero(rows[r]) && rhs[r])
    requires |xPart| == n && forall k :: 0 <= k < n ==> xPart[k] == (where[k] != -1 && rhs[where[k]])
    requires |basis| == |free| && FreeColumns(where, free) && Widths(basis, n)
    requires forall i, k :: 0 <= i < |basis| && 0 <= k < n ==>
      basis[i][k] == (k == free[i] || (where[k] != -1 && rows[where[k]][free[i]]))
    ensures Solvable(A, b)
    ensures Parametrises(A, b, n, xPart, basis, free)
  {
    forall r | |piv| <= r < |rows|
      ensures !rhs[r]
    {
      assert IsZero(rows[r]);
    }
    ParticularSolves(rows, rhs, n, where, piv, xPart);
    forall i | 0 <= i < |basis|
      ensures Kernel(rows, basis[i])
    {
      BasisKernel(rows, n, where, piv, free[i], basis[i]);
    }
    KernelTransfer(A, b, rows, rhs, n, xPart, basis);
    BasisUnits(n, where, xPart, basis, free);
    SpanningAll(A, b, rows, rhs, n, where, piv, xPart, basis, free);
  }

  /** Each basis vector is 1 at its own free column and 0 at the others, and
      the particular solution is 0 at all of them. */
  lemma BasisUnits(n: nat, where: seq<int>, xPart: Vec, basis: seq<Vec>, free: seq<nat>)
    requires |where| == n && |basis| == |free| && FreeColumns(where, free) && Widths(basis, n)
    requires |xPart| == n && forall k :: 0 <= k < n ==> !xPart[k] || where[k] != -1
    requires forall i, k :: 0 <= i < |basis| && 0 <= k < n && where[k] == -1 ==> basis[i][k] == (k == free[i])
    ensures forall i :: 0 <= i < |free| ==> !xPart[free[i]]
    ensures forall i, i' :: 0 <= i < |basis| && 0 <= i' < |free| ==> basis[i][free[i']] == (i == i')
  {
    forall i, i' | 0 <= i < |basis| && 0 <= i' < |free|
      ensures basis[i][free[i']] == (i == i')
    {
      assert free[i'] == free[i] ==> i == i' by {
        if i < i' {
          assert free[i] < free[i'];
        } else if i' < i {
          assert free[i'] < free[i];
        }
      }
    }
  }

  /** The spanning property carried over from the reduced system. */
  lemma SpanningAll(A: seq<Vec>, b: Vec, rows: seq<Vec>, rhs: Vec, n: nat, where: seq<int>, piv: seq<nat>,
                    xPart: Vec, basis: seq<Vec>, free: seq<nat>)
    requires Echelon(rows, n, where, piv, n) && FreeColumns(where, free)
    requires SameSolutions(rows, rhs, A, b, n)
    requires |xPart| == n && Solves(rows, rhs, xPart) && |basis| == |free| && Widths(basis, n)
    requires forall i :: 0 <= i < |basis| ==> Kernel(rows, basis[i])
    requires forall i :: 0 <= i < |free| ==> !xPart[free[i]]
    requires forall i, i' :: 0 <= i < |basis| && 0 <= i' < |free| ==> basis[i][free[i']] == (i == i')
    ensures forall x :: |x| == n && Solves(A, b, x) ==> x == Sweep(xPart, basis, Pick(x, free))
  {
    forall x | |x| == n && Solves(A, b, x)
      ensures x == Sweep(xPart, basis, Pick(x, free))
    {
      assert Solves(rows, rhs, x);
      Spanning(rows, rhs, n, where, piv, xPart, basis, free, x);
    }
  }

  /** Kernel vectors of a system are kernel vectors of any system with the
      same (nonempty) set of solutions. */
  lemma KernelTransfer(A: seq<Vec>, b: Vec, rows: seq<Vec>, rhs: Vec, n: nat, xPart: Vec, basis: seq<Vec>)
    requires SameSolutions(rows, rhs, A, b, n) && |xPart| == n && Solves(rows, rhs, xPart)
    requires Widths(basis, n) && forall i :: 0 <= i < |basis| ==> Kernel(rows, basis[i])
    ensures Solves(A, b, xPart)
    ensures forall i :: 0 <= i < |basis| ==> Kernel(A, basis[i])
  {
    assert Solves(A, b, xPart);
    forall i | 0 <= i < |basis|
      ensures Kernel(A, basis[i])
    {
      SolutionPlusKernel(rows, rhs, xPart, basis[i]);
      var y := Xor(xPart, basis[i]);
      assert Solves(A, b, y);
      SolutionsDiffer(A, b, xPart, y);
      assert Xor(xPart, y) == basis[i];
    }
  }
}
