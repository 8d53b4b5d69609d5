/** Vectors over GF(2) for 2025/Day10/puzzle19.py. The source packs a vector
    into the bits of a Python int (`mask |= 1 << j`, `(mask >> j) & 1`, `^`,
    `bit_count()`); here a vector is the sequence of those bits, element `j`
    being bit `j` of the mask. */
module Gf2 {

  type Vec = seq<bool>

  function Zeros(n: nat): (z: Vec)
    ensures |z| == n && forall j :: 0 <= j < n ==> !z[j]
  {
    seq(n, _ => false)
  }

  predicate IsZero(u: Vec) {
    forall j :: 0 <= j < |u| ==> !u[j]
  }

  /** `u ^ v`. */
  function Xor(u: Vec, v: Vec): (w: Vec)
    requires |u| == |v|
    ensures |w| == |u| && forall j :: 0 <= j < |u| ==> w[j] == (u[j] != v[j])
  {
    seq(|u|, j requires 0 <= j < |u| => u[j] != v[j])
  }

  /** The dot product over GF(2): the parity of the positions set in both. */
  function Dot(u: Vec, x: Vec): bool
    requires |u| == |x|
  {
    if u == [] then false else Dot(u[..|u| - 1], x[..|u| - 1]) != (u[|u| - 1] && x[|u| - 1])
  }

  /** `mask.bit_count()`. */
  function Popcount(u: Vec): (k: nat)
    ensures k <= |u|
  {
    if u == [] then 0 else Popcount(u[..|u| - 1]) + (if u[|u| - 1] then 1 else 0)
  }

  /** A vector with no set position has no presses. */
  lemma {:induction false} PopcountZeros(u: Vec)
    requires IsZero(u)
    ensures Popcount(u) == 0
    decreases |u|
  {
    if u != [] {
      PopcountZeros(u[..|u| - 1]);
    }
  }

  /** A vector with a set position has at least one. */
  lemma {:induction false} PopcountPositive(u: Vec, k: nat)
    requires k < |u| && u[k]
    ensures Popcount(u) >= 1
    decreases |u|
  {
    if k < |u| - 1 {
      PopcountPositive(u[..|u| - 1], k);
    }
  }

  /** A vector with two set positions has at least two. */
  lemma {:induction false} PopcountPair(u: Vec, k1: nat, k2: nat)
    requires k1 < k2 < |u| && u[k1] && u[k2]
    ensures Popcount(u) >= 2
    decreases |u|
  {
    var last := |u| - 1;
    if k2 < last {
      PopcountPair(u[..last], k1, k2);
    } else {
      PopcountPositive(u[..last], k1);
    }
  }

  /** Only a vector with no set position has no presses. */
  lemma PopcountZero(u: Vec)
    requires Popcount(u) == 0
    ensures IsZero(u)
  {
    forall k | 0 <= k < |u|
      ensures !u[k]
    {
      if u[k] {
        PopcountPositive(u, k);
      }
    }
  }

  /** A vector set at `k` alone has one press. */
  lemma {:induction false} PopcountUnit(u: Vec, k: nat)
    requires k < |u| && forall j :: 0 <= j < |u| ==> u[j] == (j == k)
    ensures Popcount(u) == 1
    decreases |u|
  {
    var last := |u| - 1;
    if k < last {
      PopcountUnit(u[..last], k);
    } else {
      PopcountZeros(u[..last]);
    }
  }

  /** The dot product is linear in its second argument. */
  lemma {:induction false} DotXor(u: Vec, x: Vec, y: Vec)
    requires |u| == |x| == |y|
    ensures Dot(u, Xor(x, y)) == (Dot(u, x) != Dot(u, y))
    decreases |u|
  {
    if u != [] {
      var k := |u| - 1;
      DotXor(u[..k], x[..k], y[..k]);
      assert Xor(x, y)[..k] == Xor(x[..k], y[..k]);
    }
  }

  /** ... and in its first. */
  lemma {:induction false} XorDot(u: Vec, v: Vec, x: Vec)
    requires |u| == |v| == |x|
    ensures Dot(Xor(u, v), x) == (Dot(u, x) != Dot(v, x))
    decreases |u|
  {
    if u != [] {
      var k := |u| - 1;
      XorDot(u[..k], v[..k], x[..k]);
      assert Xor(u, v)[..k] == Xor(u[..k], v[..k]);
    }
  }

  /** When `u` and `x` share no set position but possibly `k`, their dot
      product is that position's product. */
  lemma {:induction false} DotSupport(u: Vec, x: Vec, k: nat)
    requires |u| == |x| && k < |u|
    requires forall j :: 0 <= j < |u| && j != k ==> !(u[j] && x[j])
    ensures Dot(u, x) == (u[k] && x[k])
    decreases |u|
  {
    var last := |u| - 1;
    if k < last {
      DotSupport(u[..last], x[..last], k);
    } else {
      DotNone(u[..last], x[..last]);
    }
  }

  /** With no shared set position the dot product is 0. */
  lemma {:induction false} DotNone(u: Vec, x: Vec)
    requires |u| == |x|
    requires forall j :: 0 <= j < |u| ==> !(u[j] && x[j])
    ensures !Dot(u, x)
    decreases |u|
  {
    if u != [] {
      DotNone(u[..|u| - 1], x[..|u| - 1]);
    }
  }

  /** With shared set positions among `k1` and `k2` only, the dot product is
      the sum of the two products. */
  lemma {:induction false} DotPair(u: Vec, x: Vec, k1: nat, k2: nat)
    requires |u| == |x| && k1 < |u| && k2 < |u| && k1 != k2
    requires forall j :: 0 <= j < |u| && j != k1 && j != k2 ==> !(u[j] && x[j])
    ensures Dot(u, x) == ((u[k1] && x[k1]) != (u[k2] && x[k2]))
    decreases |u|
  {
    var last := |u| - 1;
    if k1 < last && k2 < last {
      DotPair(u[..last], x[..last], k1, k2);
    } else if k1 == last {
      DotSupport(u[..last], x[..last], k2);
    } else {
      DotSupport(u[..last], x[..last], k1);
    }
  }

  // ---------------------------------------------------------------------------
  // Linear systems

  /** `x` solves the system with rows `M` and right-hand side `rhs`. */
  ghost predicate Solves(M: seq<Vec>, rhs: Vec, x: Vec) {
    |rhs| == |M| && forall i :: 0 <= i < |M| ==> |M[i]| == |x| && Dot(M[i], x) == rhs[i]
  }

  /** `x` is in the kernel of `M`. */
  ghost predicate Kernel(M: seq<Vec>, x: Vec) {
    forall i :: 0 <= i < |M| ==> |M[i]| == |x| && !Dot(M[i], x)
  }

  /** Two systems in `n` unknowns have the same solutions. */
  ghost predicate SameSolutions(M: seq<Vec>, rhs: Vec, N: seq<Vec>, rhs': Vec, n: nat) {
    forall x :: |x| == n ==> (Solves(M, rhs, x) <==> Solves(N, rhs', x))
  }

  /** The difference of two solutions is in the kernel. */
  lemma SolutionsDiffer(M: seq<Vec>, rhs: Vec, x: Vec, y: Vec)
    requires Solves(M, rhs, x) && Solves(M, rhs, y) && |x| == |y|
    ensures Kernel(M, Xor(x, y))
  {
    forall i | 0 <= i < |M|
      ensures |M[i]| == |Xor(x, y)| && !Dot(M[i], Xor(x, y))
    {
      DotXor(M[i], x, y);
    }
  }

  /** A solution plus a kernel vector is a solution. */
  lemma SolutionPlusKernel(M: seq<Vec>, rhs: Vec, x: Vec, v: Vec)
    requires Solves(M, rhs, x) && Kernel(M, v) && |x| == |v|
    ensures Solves(M, rhs, Xor(x, v))
  {
    forall i | 0 <= i < |M|
      ensures |M[i]| == |Xor(x, v)| && Dot(M[i], Xor(x, v)) == rhs[i]
    {
      DotXor(M[i], x, v);
    }
  }

  // ---------------------------------------------------------------------------
  // Subset sums of vectors and subsets as the bits of an integer

  ghost predicate Widths(basis: seq<Vec>, n: nat) {
    forall i :: 0 <= i < |basis| ==> |basis[i]| == n
  }

  /** `start` with every `basis[i]` whose `pick[i]` is set XORed in, in order. */
  function Sweep(start: Vec, basis: seq<Vec>, pick: seq<bool>): (w: Vec)
    requires |pick| == |basis| && forall i :: 0 <= i < |basis| ==> |basis[i]| == |start|
    ensures |w| == |start|
  {
    if basis == [] then start
    else
      var k := |basis| - 1;
      var w := Sweep(start, basis[..k], pick[..k]);
      if pick[k] then Xor(w, basis[k]) else w
  }

  /** Column `k` of the picked vectors, as a vector indexed by `basis`. */
  function Column(basis: seq<Vec>, k: nat): (c: Vec)
    requires forall i :: 0 <= i < |basis| ==> k < |basis[i]|
    ensures |c| == |basis| && forall i :: 0 <= i < |basis| ==> c[i] == basis[i][k]
  {
    seq(|basis|, i requires 0 <= i < |basis| => basis[i][k])
  }

  /** Position `k` of a sweep: the start's bit plus the picked vectors' bits. */
  lemma {:induction false} SweepAt(start: Vec, basis: seq<Vec>, pick: seq<bool>, k: nat)
    requires |pick| == |basis| && forall i :: 0 <= i < |basis| ==> |basis[i]| == |start|
    requires k < |start|
    ensures Sweep(start, basis, pick)[k] == (start[k] != Dot(pick, Column(basis, k)))
    decreases |basis|
  {
    if basis != [] {
      var last := |basis| - 1;
      SweepAt(start, basis[..last], pick[..last], k);
      assert Column(basis, k)[..last] == Column(basis[..last], k);
    }
  }

  /** Sweeping kernel vectors into a solution gives a solution. */
  lemma {:induction false} SweepSolves(M: seq<Vec>, rhs: Vec, start: Vec, basis: seq<Vec>, pick: seq<bool>)
    requires |pick| == |basis| && forall i :: 0 <= i < |basis| ==> |basis[i]| == |start|
    requires Solves(M, rhs, start) && forall i :: 0 <= i < |basis| ==> Kernel(M, basis[i])
    ensures Solves(M, rhs, Sweep(start, basis, pick))
    decreases |basis|
  {
    if basis != [] {
      var last := |basis| - 1;
      SweepSolves(M, rhs, start, basis[..last], pick[..last]);
      if pick[last] {
        SolutionPlusKernel(M, rhs, Sweep(start, basis[..last], pick[..last]), basis[last]);
      }
    }
  }

  function Pow2(k: nat): (p: nat)
    ensures p >= 1
  {
    if k == 0 then 1 else 2 * Pow2(k - 1)
  }

  /** `(s >> i) & 1 == 1`. */
  function Bit(s: nat, i: nat): bool {
    if i == 0 then s % 2 == 1 else Bit(s / 2, i - 1)
  }

  /** The low `f` bits of `s`. */
  function Bits(s: nat, f: nat): (pick: seq<bool>)
    ensures |pick| == f && forall i :: 0 <= i < f ==> pick[i] == Bit(s, i)
  {
    seq(f, i requires 0 <= i => Bit(s, i))
  }

  /** The number whose low bits are `pick`. */
  function Encode(pick: seq<bool>): (s: nat)
    ensures s < Pow2(|pick|)
  {
    if pick == [] then 0 else (if pick[0] then 1 else 0) + 2 * Encode(pick[1..])
  }

  /** Every subset of `f` vectors is the bits of some `s < 2^f`. */
  lemma {:induction false} EncodeBits(pick: seq<bool>)
    ensures Bits(Encode(pick), |pick|) == pick
    decreases |pick|
  {
    if pick != [] {
      EncodeBits(pick[1..]);
      var s := Encode(pick);
      assert s / 2 == Encode(pick[1..]) && (s % 2 == 1 <==> pick[0]);
      forall i | 0 <= i < |pick|
        ensures Bit(s, i) == pick[i]
      {
        if i > 0 {
          assert Bit(s, i) == Bit(s / 2, i - 1);
          assert Bits(Encode(pick[1..]), |pick| - 1)[i - 1] == pick[1..][i - 1];
        }
      }
    }
  }
}
