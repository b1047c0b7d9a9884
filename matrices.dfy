/**
 * Dense real matrices as values.  A matrix is the sequence of its rows;
 * in the likelihood passes rows are states and columns are sites.
 */
module Matrices {
  type Vec = seq<real>
  type Mat = seq<seq<real>>

  /** m has r rows, each of c entries. */
  predicate IsMat(m: Mat, r: nat, c: nat) {
    |m| == r && forall i :: 0 <= i < r ==> |m[i]| == c
  }

  /** The r-by-c matrix whose entries are all x (numpy's ones and zeros). */
  function Const(r: nat, c: nat, x: real): (m: Mat)
    ensures IsMat(m, r, c)
    ensures forall i, j :: 0 <= i < r && 0 <= j < c ==> m[i][j] == x
  {
    seq(r, _ => seq(c, _ => x))
  }

  /** The n-by-n identity matrix. */
  function Identity(n: nat): (m: Mat)
    ensures IsMat(m, n, n)
    ensures forall i, j :: 0 <= i < n && 0 <= j < n ==> m[i][j] == if i == j then 1.0 else 0.0
  {
    seq(n, i => seq(n, j => if i == j then 1.0 else 0.0))
  }

  /** Entrywise product, numpy's a * b on equal shapes. */
  function Hadamard(a: Mat, b: Mat, r: nat, c: nat): (m: Mat)
    requires IsMat(a, r, c) && IsMat(b, r, c)
    ensures IsMat(m, r, c)
    ensures forall i, j :: 0 <= i < r && 0 <= j < c ==> m[i][j] == a[i][j] * b[i][j]
  {
    seq(r, i requires 0 <= i < r => seq(c, j requires 0 <= j < c => a[i][j] * b[i][j]))
  }

  /** Every entry of row i scaled by v[i], numpy's m * v[:, np.newaxis]. */
  function ScaleRows(m: Mat, v: Vec, r: nat, c: nat): (p: Mat)
    requires IsMat(m, r, c) && |v| == r
    ensures IsMat(p, r, c)
    ensures forall i, j :: 0 <= i < r && 0 <= j < c ==> p[i][j] == m[i][j] * v[i]
  {
    seq(r, i requires 0 <= i < r => seq(c, j requires 0 <= j < c => m[i][j] * v[i]))
  }

  /** Every entry of column j scaled by w[j], numpy's m * w for a 1-d w. */
  function ScaleCols(m: Mat, w: Vec, r: nat, c: nat): (p: Mat)
    requires IsMat(m, r, c) && |w| == c
    ensures IsMat(p, r, c)
    ensures forall i, j :: 0 <= i < r && 0 <= j < c ==> p[i][j] == m[i][j] * w[j]
  {
    seq(r, i requires 0 <= i < r => seq(c, j requires 0 <= j < c => m[i][j] * w[j]))
  }

  /** Every entry divided by x. */
  function DivideAll(m: Mat, x: real, r: nat, c: nat): (p: Mat)
    requires IsMat(m, r, c) && x != 0.0
    ensures IsMat(p, r, c)
    ensures forall i, j :: 0 <= i < r && 0 <= j < c ==> p[i][j] == m[i][j] / x
  {
    seq(r, i requires 0 <= i < r => seq(c, j requires 0 <= j < c => m[i][j] / x))
  }

  /** Column j as a vector. */
  function Column(m: Mat, j: nat, r: nat, c: nat): (v: Vec)
    requires IsMat(m, r, c) && j < c
    ensures |v| == r && forall i :: 0 <= i < r ==> v[i] == m[i][j]
  {
    seq(r, i requires 0 <= i < r => m[i][j])
  }

  /** The matrix with column j replaced by v and every other column kept. */
  function SetColumn(m: Mat, j: nat, v: Vec, r: nat, c: nat): (p: Mat)
    requires IsMat(m, r, c) && j < c && |v| == r
    ensures IsMat(p, r, c)
    ensures forall i, l :: 0 <= i < r && 0 <= l < c ==> p[i][l] == if l == j then v[i] else m[i][l]
  {
    seq(r, i requires 0 <= i < r => seq(c, l requires 0 <= l < c => if l == j then v[i] else m[i][l]))
  }

  function Transpose(m: Mat, r: nat, c: nat): (p: Mat)
    requires IsMat(m, r, c)
    ensures IsMat(p, c, r)
    ensures forall i, j :: 0 <= i < c && 0 <= j < r ==> p[i][j] == m[j][i]
  {
    seq(c, i requires 0 <= i < c => seq(r, j requires 0 <= j < r => m[j][i]))
  }

  /** The outer product d v^T. */
  function Outer(d: Vec, v: Vec): (m: Mat)
    ensures IsMat(m, |d|, |v|)
    ensures forall i, j :: 0 <= i < |d| && 0 <= j < |v| ==> m[i][j] == d[i] * v[j]
  {
    seq(|d|, i requires 0 <= i < |d| => seq(|v|, j requires 0 <= j < |v| => d[i] * v[j]))
  }

  function Sum(s: Vec): real
  {
    if |s| == 0 then 0.0 else s[0] + Sum(s[1..])
  }

  /** The inner product of two vectors of equal length. */
  function Dot(u: Vec, v: Vec): real
    requires |u| == |v|
  {
    if |u| == 0 then 0.0 else u[0] * v[0] + Dot(u[1..], v[1..])
  }

  /** The matrix product a b of an r-by-k and a k-by-c matrix. */
  function MatMul(a: Mat, b: Mat, r: nat, k: nat, c: nat): (m: Mat)
    requires IsMat(a, r, k) && IsMat(b, k, c)
    ensures IsMat(m, r, c)
    ensures forall i, j :: 0 <= i < r && 0 <= j < c ==> m[i][j] == Dot(a[i], Column(b, j, k, c))
  {
    seq(r, i requires 0 <= i < r => seq(c, j requires 0 <= j < c => Dot(a[i], Column(b, j, k, c))))
  }

  /** The sum of every column, numpy's m.sum(axis=0). */
  function ColSums(m: Mat, r: nat, c: nat): (v: Vec)
    requires IsMat(m, r, c)
    ensures |v| == c && forall j :: 0 <= j < c ==> v[j] == Sum(Column(m, j, r, c))
  {
    seq(c, j requires 0 <= j < c => Sum(Column(m, j, r, c)))
  }

  /** The sum of all entries, numpy's m.sum(). */
  function Total(m: Mat): real
  {
    if |m| == 0 then 0.0 else Sum(m[0]) + Total(m[1..])
  }

  /** Two matrices of one shape with equal entries are equal. */
  lemma MatExt(a: Mat, b: Mat, r: nat, c: nat)
    requires IsMat(a, r, c) && IsMat(b, r, c)
    requires forall i, j :: 0 <= i < r && 0 <= j < c ==> a[i][j] == b[i][j]
    ensures a == b
  {
    forall i | 0 <= i < r
      ensures a[i] == b[i]
    {
      assert forall j :: 0 <= j < c ==> a[i][j] == b[i][j];
    }
  }

  /** The all-ones matrix is the unit of the entrywise product. */
  lemma OnesHadamard(m: Mat, r: nat, c: nat)
    requires IsMat(m, r, c)
    ensures Hadamard(Const(r, c, 1.0), m, r, c) == m
  {
    MatExt(Hadamard(Const(r, c, 1.0), m, r, c), m, r, c);
  }

  lemma {:induction false} SumScaled(s: Vec, x: real, p: Vec)
    requires |p| == |s| && forall i :: 0 <= i < |s| ==> p[i] == s[i] * x
    ensures Sum(p) == Sum(s) * x
  {
    if |s| > 0 {
      SumScaled(s[1..], x, p[1..]);
    }
  }

  lemma {:induction false} SumOfZeros(s: Vec)
    requires forall i :: 0 <= i < |s| ==> s[i] == 0.0
    ensures Sum(s) == 0.0
  {
    if |s| > 0 {
      SumOfZeros(s[1..]);
    }
  }

  lemma {:induction false} TotalScaled(m: Mat, x: real, p: Mat, r: nat, c: nat)
    requires IsMat(m, r, c) && IsMat(p, r, c)
    requires forall i, j :: 0 <= i < r && 0 <= j < c ==> p[i][j] == m[i][j] * x
    ensures Total(p) == Total(m) * x
  {
    if r > 0 {
      SumScaled(m[0], x, p[0]);
      TotalScaled(m[1..], x, p[1..], r - 1, c);
    }
  }

  lemma {:induction false} TotalOfZeros(m: Mat, r: nat, c: nat)
    requires IsMat(m, r, c)
    requires forall i, j :: 0 <= i < r && 0 <= j < c ==> m[i][j] == 0.0
    ensures Total(m) == 0.0
  {
    if r > 0 {
      SumOfZeros(m[0]);
      TotalOfZeros(m[1..], r - 1, c);
    }
  }

  /** The inner product as the sum of the entrywise products. */
  lemma {:induction false} DotAsSum(u: Vec, v: Vec, w: Vec)
    requires |u| == |v| == |w| && forall i :: 0 <= i < |w| ==> w[i] == v[i] * u[i]
    ensures Sum(w) == Dot(u, v)
  {
    if |w| > 0 {
      DotAsSum(u[1..], v[1..], w[1..]);
    }
  }
}
