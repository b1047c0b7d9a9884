/**
 * The block 1-norm estimator of Higham and Tisseur (Algorithm 2.4 of "A Block
 * Algorithm for Matrix 1-Norm Estimation, with an Application to 1-Norm
 * Pseudospectra", SIAM J. Matrix Anal. Appl. 21(4), 2000) on a real square
 * matrix, whose adjoint is its transpose.  The random +-1 columns are
 * nondeterministic choices.
 */
module OneNormEst {
  import opened Wrappers
  import opened Matrices

  function Abs(x: real): real {
    if x < 0.0 then -x else x
  }

  /** The sum of the absolute values of the entries: the 1-norm of v. */
  function AbsSum(v: Vec): (s: real)
    ensures s >= 0.0
  {
    if |v| == 0 then 0.0 else Abs(v[0]) + AbsSum(v[1..])
  }

  /** Every entry is 1 or -1. */
  predicate IsSign(v: Vec, n: nat) {
    |v| == n && forall i :: 0 <= i < n ==> v[i] == 1.0 || v[i] == -1.0
  }

  /** Every entry is 1, 0 or -1 (a sign vector, or the zero column S starts from). */
  predicate IsTernary(v: Vec, n: nat) {
    |v| == n && forall i :: 0 <= i < n ==> v[i] == 1.0 || v[i] == 0.0 || v[i] == -1.0
  }

  predicate IsSignMat(m: Mat, n: nat, t: nat) {
    IsMat(m, n, t) && forall i, j :: 0 <= i < n && 0 <= j < t ==> m[i][j] == 1.0 || m[i][j] == -1.0
  }

  predicate IsTernaryMat(m: Mat, n: nat, t: nat) {
    IsMat(m, n, t) && forall i, j :: 0 <= i < n && 0 <= j < t ==> m[i][j] == 1.0 || m[i][j] == 0.0 || m[i][j] == -1.0
  }

  lemma SignColumn(m: Mat, n: nat, t: nat, j: nat)
    requires IsSignMat(m, n, t) && j < t
    ensures IsSign(Column(m, j, n, t), n) && IsTernary(Column(m, j, n, t), n)
  {
  }

  lemma TernaryColumn(m: Mat, n: nat, t: nat, j: nat)
    requires IsTernaryMat(m, n, t) && j < t
    ensures IsTernary(Column(m, j, n, t), n)
  {
  }

  // ---------------------------------------------------------------------
  // sign_round_up, elementary_vector
  // ---------------------------------------------------------------------

  /** sign_round_up on one entry: unlike np.sign it sends 0 to 1, so every result is +-1. */
  function SignRoundUp(x: real): (r: real)
    ensures r == 1.0 || r == -1.0
    ensures x >= 0.0 <==> r == 1.0
    ensures r * x == Abs(x)
  {
    if x >= 0.0 then 1.0 else -1.0
  }

  /** sign_round_up of a matrix: a sign matrix whose entrywise product with Y is |Y|. */
  function SignRoundUpMat(y: Mat, n: nat, t: nat): (s: Mat)
    requires IsMat(y, n, t)
    ensures IsSignMat(s, n, t)
    ensures forall i, j :: 0 <= i < n && 0 <= j < t ==> s[i][j] * y[i][j] == Abs(y[i][j])
  {
    seq(n, i requires 0 <= i < n => seq(t, j requires 0 <= j < t => SignRoundUp(y[i][j])))
  }

  /** elementary_vector(n, i): the i-th unit vector of length n. */
  function ElementaryVector(n: nat, i: nat): (v: Vec)
    requires i < n
    ensures |v| == n && v[i] == 1.0 && forall j :: 0 <= j < n && j != i ==> v[j] == 0.0
  {
    seq(n, j requires 0 <= j < n => if j == i then 1.0 else 0.0)
  }

  /** The unit vector picks one entry out of any vector and has 1-norm 1. */
  lemma {:induction false} ElementaryPicks(u: Vec, n: nat, i: nat)
    requires i < n && |u| == n
    ensures Dot(u, ElementaryVector(n, i)) == u[i]
    ensures AbsSum(ElementaryVector(n, i)) == 1.0
  {
    UnitDot(u, ElementaryVector(n, i), i);
    UnitAbsSum(ElementaryVector(n, i), i);
  }

  lemma {:induction false} UnitDot(u: Vec, e: Vec, i: nat)
    requires |u| == |e| && i < |e| && e[i] == 1.0 && forall j :: 0 <= j < |e| && j != i ==> e[j] == 0.0
    ensures Dot(u, e) == u[i]
  {
    if i > 0 {
      var k := i - 1;
      UnitDot(u[1..], e[1..], k);
    } else {
      DotZero(u[1..], e[1..]);
    }
  }

  lemma {:induction false} DotZero(u: Vec, e: Vec)
    requires |u| == |e| && forall j :: 0 <= j < |e| ==> e[j] == 0.0
    ensures Dot(u, e) == 0.0
  {
    if |e| > 0 {
      DotZero(u[1..], e[1..]);
    }
  }

  lemma {:induction false} UnitAbsSum(e: Vec, i: nat)
    requires i < |e| && e[i] == 1.0 && forall j :: 0 <= j < |e| && j != i ==> e[j] == 0.0
    ensures AbsSum(e) == 1.0
  {
    if i > 0 {
      var k := i - 1;
      UnitAbsSum(e[1..], k);
    } else {
      AbsSumZero(e[1..]);
    }
  }

  lemma {:induction false} AbsSumZero(e: Vec)
    requires forall j :: 0 <= j < |e| ==> e[j] == 0.0
    ensures AbsSum(e) == 0.0
  {
    if |e| > 0 {
      AbsSumZero(e[1..]);
    }
  }

  // ---------------------------------------------------------------------
  // Parallel columns
  // ---------------------------------------------------------------------

  /** The test of vectors_are_parallel on conformant vectors: their inner product is their length. */
  predicate IsParallel(v: Vec, w: Vec)
    requires |v| == |w|
  {
    Dot(v, w) == |v| as real
  }

  /** vectors_are_parallel: an error (ValueError) unless the vectors have one shape. */
  function VectorsAreParallel(v: Vec, w: Vec): (r: Option<bool>)
    ensures r.None? <==> |v| != |w|
    ensures r.Some? ==> (r.value <==> IsParallel(v, w))
  {
    if |v| != |w| then None else Some(IsParallel(v, w))
  }

  /**
   * For a sign vector v and a vector w of entries 1, 0 and -1 the inner
   * product is at most the length, with equality exactly when w == v.
   */
  lemma {:induction false} SignDotBound(v: Vec, w: Vec)
    requires IsSign(v, |v|) && IsTernary(w, |v|)
    ensures Dot(v, w) <= |v| as real
    ensures Dot(v, w) == |v| as real <==> v == w
  {
    if |v| > 0 {
      SignDotBound(v[1..], w[1..]);
      assert v[0] * w[0] <= 1.0;
      assert v[0] * w[0] == 1.0 <==> v[0] == w[0];
      if v[1..] == w[1..] && v[0] == w[0] {
        assert v == [v[0]] + v[1..];
        assert w == [w[0]] + w[1..];
      }
    }
  }

  /**
   * Only "equal" is implemented: a sign vector is parallel to a vector of
   * entries 1, 0, -1 exactly when they are equal, and never to its negation.
   */
  lemma ParallelIffEqual(v: Vec, w: Vec)
    requires IsSign(v, |v|) && IsTernary(w, |v|)
    ensures IsParallel(v, w) <==> v == w
    ensures |v| > 0 ==> !IsParallel(v, seq(|v|, i requires 0 <= i < |v| => -v[i]))
  {
    SignDotBound(v, w);
    if |v| > 0 {
      var neg := seq(|v|, i requires 0 <= i < |v| => -v[i]);
      SignDotBound(v, neg);
      assert neg[0] != v[0];
    }
  }

  /** Some column l < upto of Y is parallel to v (the any(...) of the source). */
  function AnyParallel(v: Vec, y: Mat, n: nat, m: nat, upto: nat): (r: bool)
    requires IsMat(y, n, m) && |v| == n && upto <= m
    ensures r <==> exists l :: 0 <= l < upto && IsParallel(v, Column(y, l, n, m))
  {
    if upto == 0 then false
    else
      var l := upto - 1;
      AnyParallel(v, y, n, m, l) || IsParallel(v, Column(y, l, n, m))
  }

  /** The first upto columns of X each have a parallel column in Y. */
  function EveryColParallelUpTo(x: Mat, y: Mat, n: nat, tx: nat, ty: nat, upto: nat): (r: bool)
    requires IsMat(x, n, tx) && IsMat(y, n, ty) && upto <= tx
    ensures r <==> forall j :: 0 <= j < upto ==> AnyParallel(Column(x, j, n, tx), y, n, ty, ty)
  {
    if upto == 0 then true
    else
      var j := upto - 1;
      EveryColParallelUpTo(x, y, n, tx, ty, j) && AnyParallel(Column(x, j, n, tx), y, n, ty, ty)
  }

  /** every_col_of_X_is_parallel_to_a_col_of_Y. */
  function EveryColParallel(x: Mat, y: Mat, n: nat, tx: nat, ty: nat): (r: bool)
    requires IsMat(x, n, tx) && IsMat(y, n, ty)
    ensures r <==> forall j :: 0 <= j < tx ==> exists l :: 0 <= l < ty && IsParallel(Column(x, j, n, tx), Column(y, l, n, ty))
  {
    EveryColParallelUpTo(x, y, n, tx, ty, tx)
  }

  /** column_needs_resampling(i, X, Y): column i is parallel to an earlier column of X or to a column of Y. */
  function ColumnNeedsResampling(i: nat, x: Mat, y: Option<Mat>, n: nat, t: nat): (r: bool)
    requires IsMat(x, n, t) && i < t && (y.Some? ==> IsMat(y.value, n, t))
    ensures r <==> (exists j :: 0 <= j < i && IsParallel(Column(x, i, n, t), Column(x, j, n, t))) ||
                   (y.Some? && exists l :: 0 <= l < t && IsParallel(Column(x, i, n, t), Column(y.value, l, n, t)))
  {
    AnyParallel(Column(x, i, n, t), x, n, t, i) || (y.Some? && AnyParallel(Column(x, i, n, t), y.value, n, t, t))
  }

  /**
   * For sign X and Y of entries 1, 0, -1: the test holds exactly when every
   * column of X equals some column of Y.
   */
  lemma EveryColParallelMeansEqual(x: Mat, y: Mat, n: nat, tx: nat, ty: nat)
    requires IsSignMat(x, n, tx) && IsTernaryMat(y, n, ty)
    ensures EveryColParallel(x, y, n, tx, ty) <==>
      forall j :: 0 <= j < tx ==> exists l :: 0 <= l < ty && Column(x, j, n, tx) == Column(y, l, n, ty)
  {
    forall j, l | 0 <= j < tx && 0 <= l < ty
      ensures IsParallel(Column(x, j, n, tx), Column(y, l, n, ty)) <==> Column(x, j, n, tx) == Column(y, l, n, ty)
    {
      SignColumn(x, n, tx, j);
      TernaryColumn(y, n, ty, l);
      ParallelIffEqual(Column(x, j, n, tx), Column(y, l, n, ty));
    }
  }

  /**
   * For sign X and Y of entries 1, 0, -1: column i needs resampling exactly
   * when it repeats an earlier column of X or a column of Y.
   */
  lemma NeedsResamplingMeansRepeat(i: nat, x: Mat, y: Option<Mat>, n: nat, t: nat)
    requires IsSignMat(x, n, t) && i < t && (y.Some? ==> IsTernaryMat(y.value, n, t))
    ensures ColumnNeedsResampling(i, x, y, n, t) <==>
      (exists j :: 0 <= j < i && Column(x, i, n, t) == Column(x, j, n, t)) ||
      (y.Some? && exists l :: 0 <= l < t && Column(x, i, n, t) == Column(y.value, l, n, t))
  {
    SignColumn(x, n, t, i);
    forall j | 0 <= j < i
      ensures IsParallel(Column(x, i, n, t), Column(x, j, n, t)) <==> Column(x, i, n, t) == Column(x, j, n, t)
    {
      SignColumn(x, n, t, j);
      ParallelIffEqual(Column(x, i, n, t), Column(x, j, n, t));
    }
    if y.Some? {
      forall l | 0 <= l < t
        ensures IsParallel(Column(x, i, n, t), Column(y.value, l, n, t)) <==> Column(x, i, n, t) == Column(y.value, l, n, t)
      {
        TernaryColumn(y.value, n, t, l);
        ParallelIffEqual(Column(x, i, n, t), Column(y.value, l, n, t));
      }
    }
  }

  // ---------------------------------------------------------------------
  // A free sign vector always exists
  // ---------------------------------------------------------------------

  function Pow2(n: nat): (p: nat)
    ensures p >= 1
  {
    if n == 0 then 1 else 2 * Pow2(n - 1)
  }

  lemma {:induction false} Pow2Bound(n: nat)
    requires n >= 1
    ensures 2 * n <= Pow2(n)
  {
    if n > 1 {
      var m := n - 1;
      Pow2Bound(m);
    }
  }

  /** The first n-1 entries of the members of fs whose last entry is s. */
  function Prefixes(fs: seq<Vec>, n: nat, s: real): (ps: seq<Vec>)
    requires n > 0 && forall k :: 0 <= k < |fs| ==> |fs[k]| == n
    ensures |ps| <= |fs| && forall k :: 0 <= k < |ps| ==> |ps[k]| == n - 1
  {
    if |fs| == 0 then []
    else
      var rest := Prefixes(fs[1..], n, s);
      if fs[0][n - 1] == s then [fs[0][..n - 1]] + rest else rest
  }

  lemma {:induction false} PrefixesSplit(fs: seq<Vec>, n: nat)
    requires n > 0 && forall k :: 0 <= k < |fs| ==> |fs[k]| == n
    ensures |Prefixes(fs, n, 1.0)| + |Prefixes(fs, n, -1.0)| <= |fs|
  {
    if |fs| > 0 {
      PrefixesSplit(fs[1..], n);
    }
  }

  lemma {:induction false} PrefixesHold(fs: seq<Vec>, n: nat, s: real, f: Vec)
    requires n > 0 && forall k :: 0 <= k < |fs| ==> |fs[k]| == n
    requires f in fs && f[n - 1] == s
    ensures f[..n - 1] in Prefixes(fs, n, s)
  {
    if fs[0] != f {
      assert f in fs[1..];
      PrefixesHold(fs[1..], n, s, f);
    }
  }

  /** Fewer than 2^n vectors of length n always leave a sign vector out. */
  lemma {:induction false} FreeSignVector(fs: seq<Vec>, n: nat) returns (v: Vec)
    requires forall k :: 0 <= k < |fs| ==> |fs[k]| == n
    requires |fs| < Pow2(n)
    ensures IsSign(v, n) && v !in fs
    decreases n
  {
    if n == 0 {
      v := [];
    } else {
      var m := n - 1;
      PrefixesSplit(fs, n);
      var s: real := if |Prefixes(fs, n, 1.0)| < Pow2(m) then 1.0 else -1.0;
      var ps := Prefixes(fs, n, s);
      var u := FreeSignVector(ps, m);
      v := u + [s];
      assert v[..m] == u;
      if v in fs {
        PrefixesHold(fs, n, s, v);
      }
    }
  }

  // ---------------------------------------------------------------------
  // Ordering the candidate indices
  // ---------------------------------------------------------------------

  predicate Below(s: seq<nat>, n: nat) {
    forall k :: 0 <= k < |s| ==> s[k] < n
  }

  /**
   * Index a comes before index b in sorted(zip(h, range(n)), reverse=True):
   * the pair (h[a], a) is the larger one.
   */
  predicate Before(h: Vec, a: nat, b: nat)
    requires a < |h| && b < |h|
  {
    h[a] > h[b] || (h[a] == h[b] && a > b)
  }

  predicate SortedDesc(h: Vec, s: seq<nat>)
    requires Below(s, |h|)
  {
    forall p, q :: 0 <= p < q < |s| ==> Before(h, s[p], s[q])
  }

  /** x inserted into a descending list at its place. */
  function Insert(h: Vec, s: seq<nat>, x: nat): (r: seq<nat>)
    requires x < |h| && Below(s, |h|) && SortedDesc(h, s) && x !in s
    ensures |r| == |s| + 1 && Below(r, |h|) && SortedDesc(h, r)
    ensures forall y :: y in r <==> y in s || y == x
  {
    if |s| == 0 then [x]
    else if Before(h, x, s[0]) then
      assert forall q :: 0 <= q < |s| ==> Before(h, x, s[q]);
      [x] + s
    else
      assert Before(h, s[0], x);
      var rest := Insert(h, s[1..], x);
      assert forall y :: y in rest ==> Before(h, s[0], y);
      [s[0]] + rest
  }

  /**
   * zip(*sorted(zip(h, range(n)), reverse=True))[1]: the indices 0 .. m-1 in
   * descending order of (h[i], i).
   */
  function SortIndices(h: Vec, m: nat): (s: seq<nat>)
    requires m <= |h|
    ensures |s| == m && Below(s, |h|) && SortedDesc(h, s)
    ensures forall y: nat :: y in s <==> y < m
  {
    if m == 0 then []
    else
      var k := m - 1;
      Insert(h, SortIndices(h, k), k)
  }

  /** [i for i in ind if (i in hist) == inHist]. */
  function Select(ind: seq<nat>, hist: set<nat>, inHist: bool): (r: seq<nat>)
    ensures forall y: nat :: y in r <==> y in ind && (y in hist <==> inHist)
  {
    if |ind| == 0 then []
    else (if (ind[0] in hist) == inHist then [ind[0]] else []) + Select(ind[1..], hist, inHist)
  }

  /** Filtering keeps the order h induces. */
  lemma {:induction false} SelectSorted(h: Vec, ind: seq<nat>, hist: set<nat>, inHist: bool)
    requires Below(ind, |h|) && SortedDesc(h, ind)
    ensures Below(Select(ind, hist, inHist), |h|) && SortedDesc(h, Select(ind, hist, inHist))
  {
    if |ind| > 0 {
      var tail := ind[1..];
      assert Below(tail, |h|) && SortedDesc(h, tail);
      SelectSorted(h, tail, hist, inHist);
      var rest := Select(tail, hist, inHist);
      forall y | y in rest
        ensures Before(h, ind[0], y)
      {
        var q :| 0 <= q < |tail| && tail[q] == y;
        assert ind[q + 1] == y;
      }
    }
  }

  /** The two filters split ind: nothing gained or lost. */
  lemma {:induction false} SelectSplit(ind: seq<nat>, hist: set<nat>)
    ensures multiset(Select(ind, hist, false)) + multiset(Select(ind, hist, true)) == multiset(ind)
  {
    if |ind| > 0 {
      var tail := ind[1..];
      SelectSplit(tail, hist);
      assert ind == [ind[0]] + tail;
    }
  }

  /**
   * The reordering of step (5): unvisited indices first and visited ones
   * last, nothing gained or lost.
   */
  function Reorder(ind: seq<nat>, hist: set<nat>): (r: seq<nat>)
    ensures multiset(r) == multiset(ind)
    ensures forall p, q :: 0 <= p < q < |r| && r[q] !in hist ==> r[p] !in hist
  {
    SelectSplit(ind, hist);
    var u, v := Select(ind, hist, false), Select(ind, hist, true);
    assert forall k :: |u| <= k < |u| + |v| ==> (u + v)[k] == v[k - |u|];
    u + v
  }

  /**
   * Reordering keeps the order h induces within each part: the first k
   * entries are the unvisited ones and the rest the visited ones, each part
   * sorted as ind is.
   */
  lemma ReorderSorted(h: Vec, ind: seq<nat>, hist: set<nat>) returns (k: nat)
    requires Below(ind, |h|) && SortedDesc(h, ind)
    ensures var r := Reorder(ind, hist);
      k <= |r| && Below(r, |h|) &&
      (forall p :: 0 <= p < k ==> r[p] !in hist) && (forall p :: k <= p < |r| ==> r[p] in hist) &&
      SortedDesc(h, r[..k]) && SortedDesc(h, r[k..])
  {
    var u, v := Select(ind, hist, false), Select(ind, hist, true);
    SelectSorted(h, ind, hist, false);
    SelectSorted(h, ind, hist, true);
    var r := Reorder(ind, hist);
    assert r == u + v;
    k := |u|;
    assert r[..k] == u && r[k..] == v;
    forall p | 0 <= p < k
      ensures r[p] !in hist
    {
      assert r[p] in u;
    }
    forall p | k <= p < |r|
      ensures r[p] in hist
    {
      assert r[p] in v;
    }
  }

  /** Two lists with the same multiset have the same length and members. */
  lemma SameMembers(r: seq<nat>, s: seq<nat>)
    requires multiset(r) == multiset(s)
    ensures |r| == |s| && forall y :: y in r <==> y in s
  {
    assert |r| == |multiset(r)|;
    forall y
      ensures y in r <==> y in s
    {
      assert y in r <==> y in multiset(r);
      assert y in s <==> y in multiset(s);
    }
  }

  // ---------------------------------------------------------------------
  // Estimates
  // ---------------------------------------------------------------------

  /** np.max of a non-empty vector. */
  function MaxOf(s: Vec): (m: real)
    requires |s| > 0
    ensures (forall i :: 0 <= i < |s| ==> s[i] <= m) && exists i :: 0 <= i < |s| && s[i] == m
  {
    if |s| == 1 then s[0]
    else
      var rest := MaxOf(s[1..]);
      assert forall i :: 1 <= i < |s| ==> s[i] == s[1..][i - 1];
      if s[0] >= rest then s[0] else rest
  }

  /** np.argmax: the first index holding the maximum. */
  function ArgMax(s: Vec): (j: nat)
    requires |s| > 0
    ensures j < |s| && s[j] == MaxOf(s) && forall i :: 0 <= i < j ==> s[i] < s[j]
  {
    if s[0] == MaxOf(s) then 0
    else
      assert |s| > 1;
      assert MaxOf(s[1..]) == MaxOf(s) by {
        assert forall i :: 1 <= i < |s| ==> s[i] == s[1..][i - 1];
      }
      1 + ArgMax(s[1..])
  }

  /** np.sum(np.abs(Y), axis=0): the 1-norm of every column. */
  function ColAbsSums(y: Mat, n: nat, t: nat): (m: Vec)
    requires IsMat(y, n, t)
    ensures |m| == t && forall j :: 0 <= j < t ==> m[j] == AbsSum(Column(y, j, n, t))
  {
    seq(t, j requires 0 <= j < t => AbsSum(Column(y, j, n, t)))
  }

  /** np.max(np.abs(Z), axis=1): the largest magnitude in every row. */
  function RowMaxAbs(z: Mat, n: nat, t: nat): (h: Vec)
    requires IsMat(z, n, t) && t > 0
    ensures |h| == n && forall i :: 0 <= i < n ==> h[i] == RowMax(z, i, n, t)
  {
    seq(n, i requires 0 <= i < n => RowMax(z, i, n, t))
  }

  /** The largest magnitude in row i. */
  function RowMax(z: Mat, i: nat, n: nat, t: nat): (m: real)
    requires IsMat(z, n, t) && i < n && t > 0
    ensures (forall j :: 0 <= j < t ==> Abs(z[i][j]) <= m) && exists j :: 0 <= j < t && m == Abs(z[i][j])
  {
    var row := seq(t, j requires 0 <= j < t => Abs(z[i][j]));
    var m := MaxOf(row);
    var j0 :| 0 <= j0 < t && row[j0] == m;
    assert m == Abs(z[i][j0]);
    assert forall j :: 0 <= j < t ==> row[j] == Abs(z[i][j]) && row[j] <= m;
    m
  }

  /** A x for a vector x. */
  function MatVec(a: Mat, x: Vec, n: nat): (y: Vec)
    requires IsMat(a, n, n) && |x| == n
    ensures |y| == n && forall i :: 0 <= i < n ==> y[i] == Dot(a[i], x)
  {
    seq(n, i requires 0 <= i < n => Dot(a[i], x))
  }

  /** The first starting column: the vector of ones divided by n. */
  function StartColumn(n: nat): (x: Vec)
    requires n > 0
    ensures |x| == n
  {
    seq(n, _ => 1.0 / n as real)
  }

  /** Column l of X is the unit vector at ind[l]. */
  predicate UnitColumnsOf(x: Mat, ind: seq<nat>, n: nat, t: nat) {
    IsMat(x, n, t) && |ind| >= t && Below(ind, n) &&
    forall i, l :: 0 <= i < n && 0 <= l < t ==> x[i][l] == if i == ind[l] then 1.0 else 0.0
  }

  /** With unit columns, column j of A X is column ind[j] of A. */
  lemma UnitColumnProduct(a: Mat, x: Mat, ind: seq<nat>, n: nat, t: nat, j: nat)
    requires IsMat(a, n, n) && UnitColumnsOf(x, ind, n, t) && j < t
    ensures Column(MatMul(a, x, n, n, t), j, n, t) == Column(a, ind[j], n, n)
  {
    var e := ElementaryVector(n, ind[j]);
    assert Column(x, j, n, t) == e;
    forall i | 0 <= i < n
      ensures MatMul(a, x, n, n, t)[i][j] == a[i][ind[j]]
    {
      ElementaryPicks(a[i], n, ind[j]);
    }
  }

  /** Column j of A X is A times column j of X. */
  lemma ProductColumn(a: Mat, x: Mat, n: nat, t: nat, j: nat)
    requires IsMat(a, n, n) && IsMat(x, n, t) && j < t
    ensures Column(MatMul(a, x, n, n, t), j, n, t) == MatVec(a, Column(x, j, n, t), n)
  {
  }

  /** for j in range(t): X[:, j] = elementary_vector(n, ind[j]). */
  method SetUnitColumns(x: Mat, ind: seq<nat>, n: nat, t: nat) returns (x2: Mat)
    requires IsMat(x, n, t) && |ind| >= t && Below(ind, n)
    ensures UnitColumnsOf(x2, ind, n, t)
  {
    x2 := x;
    for j := 0 to t
      invariant IsMat(x2, n, t)
      invariant forall i, l :: 0 <= i < n && 0 <= l < j ==> x2[i][l] == if i == ind[l] then 1.0 else 0.0
    {
      x2 := SetColumn(x2, j, ElementaryVector(n, ind[j]), n, t);
    }
  }

  // ---------------------------------------------------------------------
  // Resampling and the starting matrix
  // ---------------------------------------------------------------------

  /** Whether column j needs resampling depends on columns 0 .. j only. */
  lemma NeedsResamplingPrefix(j: nat, x: Mat, x2: Mat, y: Option<Mat>, n: nat, t: nat)
    requires IsMat(x, n, t) && IsMat(x2, n, t) && j < t && (y.Some? ==> IsMat(y.value, n, t))
    requires forall l :: 0 <= l <= j ==> Column(x, l, n, t) == Column(x2, l, n, t)
    ensures ColumnNeedsResampling(j, x, y, n, t) == ColumnNeedsResampling(j, x2, y, n, t)
  {
  }

  /** The columns to avoid when column i is redrawn: earlier columns of x, then those of y. */
  function Forbidden(i: nat, x: Mat, y: Option<Mat>, n: nat, t: nat): (fs: seq<Vec>)
    requires IsMat(x, n, t) && i <= t && (y.Some? ==> IsMat(y.value, n, t))
    ensures |fs| <= i + t && forall k :: 0 <= k < |fs| ==> |fs[k]| == n
  {
    seq(i, j requires 0 <= j < i => Column(x, j, n, t)) +
    (if y.Some? then seq(t, l requires 0 <= l < t => Column(y.value, l, n, t)) else [])
  }

  /** A column avoiding the forbidden list does not need resampling. */
  lemma FreshColumnSettles(i: nat, x: Mat, y: Option<Mat>, col: Vec, n: nat, t: nat)
    requires IsSignMat(x, n, t) && i < t && (y.Some? ==> IsTernaryMat(y.value, n, t))
    requires IsSign(col, n) && col !in Forbidden(i, x, y, n, t)
    ensures IsSignMat(SetColumn(x, i, col, n, t), n, t)
    ensures !ColumnNeedsResampling(i, SetColumn(x, i, col, n, t), y, n, t)
    ensures forall l :: 0 <= l < t && l != i ==> Column(SetColumn(x, i, col, n, t), l, n, t) == Column(x, l, n, t)
  {
    var x2 := SetColumn(x, i, col, n, t);
    var fs := Forbidden(i, x, y, n, t);
    assert Column(x2, i, n, t) == col;
    forall l | 0 <= l < t && l != i
      ensures Column(x2, l, n, t) == Column(x, l, n, t)
    {
    }
    forall j | 0 <= j < i
      ensures Column(x2, j, n, t) != col
    {
      assert fs[j] == Column(x, j, n, t);
    }
    if y.Some? {
      forall l | 0 <= l < t
        ensures Column(y.value, l, n, t) != col
      {
        assert fs[i + l] == Column(y.value, l, n, t);
      }
    }
    NeedsResamplingMeansRepeat(i, x2, y, n, t);
  }

  /**
   * Column i of s survives in s2: it is one of the columns 0 .. i of s2,
   * or it repeats a column of y.
   */
  predicate Represented(i: nat, s: Mat, s2: Mat, y: Option<Mat>, n: nat, t: nat)
    requires IsMat(s, n, t) && IsMat(s2, n, t) && i < t && (y.Some? ==> IsMat(y.value, n, t))
  {
    (exists j :: 0 <= j <= i && Column(s2, j, n, t) == Column(s, i, n, t)) ||
    (y.Some? && exists l :: 0 <= l < t && Column(s, i, n, t) == Column(y.value, l, n, t))
  }

  /**
   * for i in range(t): while column_needs_resampling(i, S, Y): resample_column(i, S).
   * The random redraws are an oracle: a column that needs resampling is
   * replaced by some sign vector that does not; the loop of redraws is not
   * modelled. Afterwards no column needs resampling, and every column of
   * the input is still present or repeated a column of Y.
   */
  method ResampleParallelColumns(s: Mat, y: Option<Mat>, n: nat, t: nat) returns (s2: Mat)
    requires IsSignMat(s, n, t) && t < n && (y.Some? ==> IsTernaryMat(y.value, n, t))
    ensures IsSignMat(s2, n, t)
    ensures forall i :: 0 <= i < t ==> !ColumnNeedsResampling(i, s2, y, n, t)
    ensures forall i :: 0 <= i < t ==> Represented(i, s, s2, y, n, t)
    ensures y.None? && t > 0 ==> Column(s2, 0, n, t) == Column(s, 0, n, t)
  {
    Pow2Bound(n);
    s2 := s;
    for i := 0 to t
      invariant IsSignMat(s2, n, t)
      invariant forall j :: 0 <= j < i ==> !ColumnNeedsResampling(j, s2, y, n, t)
      invariant forall j :: 0 <= j < i ==> Represented(j, s, s2, y, n, t)
      invariant forall l :: i <= l < t ==> Column(s2, l, n, t) == Column(s, l, n, t)
      invariant y.None? && t > 0 ==> Column(s2, 0, n, t) == Column(s, 0, n, t)
    {
      assert y.None? && i == 0 ==> !ColumnNeedsResampling(i, s2, y, n, t);
      if ColumnNeedsResampling(i, s2, y, n, t) {
        NeedsResamplingMeansRepeat(i, s2, y, n, t);
        var fs := Forbidden(i, s2, y, n, t);
        ghost var free := FreeSignVector(fs, n);
        var col :| IsSign(col, n) && col !in fs;
        FreshColumnSettles(i, s2, y, col, n, t);
        var s3 := SetColumn(s2, i, col, n, t);
        forall j | 0 <= j < i
          ensures !ColumnNeedsResampling(j, s3, y, n, t)
        {
          NeedsResamplingPrefix(j, s2, s3, y, n, t);
        }
        RepresentedKept(i, s, s2, s3, y, n, t);
        s2 := s3;
      } else {
        assert Represented(i, s, s2, y, n, t);
      }
    }
  }

  /** Replacing column i keeps the earlier witnesses, and a repeat of column i is a witness for it. */
  lemma RepresentedKept(i: nat, s: Mat, s2: Mat, s3: Mat, y: Option<Mat>, n: nat, t: nat)
    requires IsMat(s, n, t) && IsMat(s2, n, t) && IsMat(s3, n, t) && i < t && (y.Some? ==> IsMat(y.value, n, t))
    requires forall l :: 0 <= l < t && l != i ==> Column(s3, l, n, t) == Column(s2, l, n, t)
    requires forall j :: 0 <= j < i ==> Represented(j, s, s2, y, n, t)
    requires Column(s2, i, n, t) == Column(s, i, n, t)
    requires (exists j :: 0 <= j < i && Column(s2, i, n, t) == Column(s2, j, n, t)) ||
             (y.Some? && exists l :: 0 <= l < t && Column(s2, i, n, t) == Column(y.value, l, n, t))
    ensures forall j :: 0 <= j <= i ==> Represented(j, s, s3, y, n, t)
  {
    forall j | 0 <= j < i
      ensures Represented(j, s, s3, y, n, t)
    {
      assert Represented(j, s, s2, y, n, t);
      if !(y.Some? && exists l :: 0 <= l < t && Column(s, j, n, t) == Column(y.value, l, n, t)) {
        var m :| 0 <= m <= j && Column(s2, m, n, t) == Column(s, j, n, t);
        assert Column(s3, m, n, t) == Column(s, j, n, t);
      }
    }
    if !(y.Some? && exists l :: 0 <= l < t && Column(s, i, n, t) == Column(y.value, l, n, t)) {
      var m :| 0 <= m < i && Column(s2, i, n, t) == Column(s2, m, n, t);
      assert Column(s3, m, n, t) == Column(s, i, n, t);
    }
  }

  /** Every entry has magnitude c: the 1-norm is |v| c. */
  lemma {:induction false} AbsSumConst(v: Vec, c: real)
    requires forall i :: 0 <= i < |v| ==> Abs(v[i]) == c
    ensures AbsSum(v) == |v| as real * c
  {
    if |v| > 0 {
      AbsSumConst(v[1..], c);
    }
  }

  /** Dividing by n keeps distinct columns distinct. */
  lemma ScaledColumnsDistinct(s: Mat, x: Mat, n: nat, t: nat, j: nat, l: nat)
    requires IsMat(s, n, t) && n > 0 && x == DivideAll(s, n as real, n, t) && j < t && l < t
    requires Column(s, j, n, t) != Column(s, l, n, t)
    ensures Column(x, j, n, t) != Column(x, l, n, t)
  {
    var cj, cl := Column(s, j, n, t), Column(s, l, n, t);
    assert exists i :: 0 <= i < n && cj[i] != cl[i];
    var i :| 0 <= i < n && cj[i] != cl[i];
    DivDistinct(s[i][j], s[i][l], n as real);
    assert Column(x, j, n, t)[i] != Column(x, l, n, t)[i];
  }

  lemma DivDistinct(a: real, b: real, d: real)
    requires d != 0.0 && a != b
    ensures a / d != b / d
  {
    assert a / d - b / d == (a - b) / d;
  }

  /** An entry of magnitude 1 divided by n has magnitude 1/n. */
  lemma SignOverN(x: real, n: nat)
    requires n > 0 && (x == 1.0 || x == -1.0)
    ensures Abs(x / n as real) == 1.0 / n as real
    ensures (x / n as real) * n as real == x
  {
  }

  /**
   * What the starting matrix promises: the first column is ones/n, every
   * entry is 1/n or -1/n, every column has unit 1-norm and no two columns
   * are equal.
   */
  predicate StartShape(x: Mat, n: nat, t: nat)
    requires n > 0 && t > 0
  {
    IsMat(x, n, t) &&
    Column(x, 0, n, t) == StartColumn(n) &&
    (forall i, j :: 0 <= i < n && 0 <= j < t ==> x[i][j] * n as real == 1.0 || x[i][j] * n as real == -1.0) &&
    (forall j :: 0 <= j < t ==> AbsSum(Column(x, j, n, t)) == 1.0) &&
    forall j, l :: 0 <= l < j < t ==> Column(x, j, n, t) != Column(x, l, n, t)
  }

  lemma ScaledEntries(s: Mat, x: Mat, n: nat, t: nat)
    requires IsSignMat(s, n, t) && n > 0 && x == DivideAll(s, n as real, n, t)
    ensures forall i, j :: 0 <= i < n && 0 <= j < t ==> x[i][j] * n as real == 1.0 || x[i][j] * n as real == -1.0
    ensures forall i, j :: 0 <= i < n && 0 <= j < t ==> Abs(x[i][j]) == 1.0 / n as real
  {
    forall i, j | 0 <= i < n && 0 <= j < t
      ensures x[i][j] * n as real == 1.0 || x[i][j] * n as real == -1.0
      ensures Abs(x[i][j]) == 1.0 / n as real
    {
      SignOverN(s[i][j], n);
    }
  }

  /** n entries of magnitude 1/n: unit 1-norm. */
  lemma UnitColumnNorm(c: Vec, n: nat)
    requires |c| == n > 0 && forall i :: 0 <= i < n ==> Abs(c[i]) == 1.0 / n as real
    ensures AbsSum(c) == 1.0
  {
    AbsSumConst(c, 1.0 / n as real);
    assert |c| as real == n as real;
    assert n as real * (1.0 / n as real) == 1.0;
  }

  /** The sign matrix divided by n has the properties the starting matrix promises. */
  lemma ScaledStart(s: Mat, x: Mat, n: nat, t: nat)
    requires IsSignMat(s, n, t) && n > 0 && t > 0 && x == DivideAll(s, n as real, n, t)
    requires Column(s, 0, n, t) == seq(n, _ => 1.0)
    requires forall j, l :: 0 <= l < j < t ==> Column(s, j, n, t) != Column(s, l, n, t)
    ensures StartShape(x, n, t)
  {
    ScaledEntries(s, x, n, t);
    forall j | 0 <= j < t
      ensures AbsSum(Column(x, j, n, t)) == 1.0
    {
      UnitColumnNorm(Column(x, j, n, t), n);
    }
    forall j, l | 0 <= l < j < t
      ensures Column(x, j, n, t) != Column(x, l, n, t)
    {
      ScaledColumnsDistinct(s, x, n, t, j, l);
    }
    assert Column(x, 0, n, t) == StartColumn(n);
  }

  /**
   * The starting matrix: first column all ones, the others random sign
   * columns re-drawn until no two are parallel, all divided by n so that
   * every column has unit 1-norm.
   */
  method StartingMatrix(n: nat, t: nat) returns (x: Mat)
    requires 1 <= t < n
    ensures StartShape(x, n, t)
  {
    var s := Const(n, t, 1.0);
    assert Column(s, 0, n, t) == seq(n, _ => 1.0);
    if t > 1 {
      for i := 1 to t
        invariant IsSignMat(s, n, t) && Column(s, 0, n, t) == seq(n, _ => 1.0)
      {
        assert IsSign(seq(n, _ => 1.0), n);
        var col: Vec :| IsSign(col, n);
        assert IsSign(col, n);
        s := SetColumn(s, i, col, n, t);
        assert Column(s, 0, n, t) == seq(n, _ => 1.0);
      }
      s := ResampleParallelColumns(s, None, n, t);
    }
    forall j, l | 0 <= l < j < t
      ensures Column(s, j, n, t) != Column(s, l, n, t)
    {
      NeedsResamplingMeansRepeat(j, s, None, n, t);
    }
    x := DivideAll(s, n as real, n, t);
    ScaledStart(s, x, n, t);
  }

  // ---------------------------------------------------------------------
  // Why the second iteration never lowers the estimate
  // ---------------------------------------------------------------------

  /** c u, entry by entry. */
  function Scale(c: real, u: Vec): (w: Vec)
    ensures |w| == |u| && forall i :: 0 <= i < |u| ==> w[i] == c * u[i]
  {
    seq(|u|, i requires 0 <= i < |u| => c * u[i])
  }

  /** u + v, entry by entry. */
  function AddVec(u: Vec, v: Vec): (w: Vec)
    requires |u| == |v|
    ensures |w| == |u| && forall i :: 0 <= i < |u| ==> w[i] == u[i] + v[i]
  {
    seq(|u|, i requires 0 <= i < |u| => u[i] + v[i])
  }

  lemma {:induction false} DotAdd(u: Vec, v: Vec, x: Vec)
    requires |u| == |v| == |x|
    ensures Dot(AddVec(u, v), x) == Dot(u, x) + Dot(v, x)
  {
    if |u| > 0 {
      DotAdd(u[1..], v[1..], x[1..]);
      assert AddVec(u, v)[1..] == AddVec(u[1..], v[1..]);
    }
  }

  lemma {:induction false} DotScale(c: real, u: Vec, x: Vec)
    requires |u| == |x|
    ensures Dot(Scale(c, u), x) == c * Dot(u, x)
  {
    if |u| > 0 {
      DotScale(c, u[1..], x[1..]);
      var w, w1 := Scale(c, u), Scale(c, u[1..]);
      assert forall i :: 0 <= i < |w1| ==> w[1..][i] == c * u[i + 1] == w1[i];
      assert w[1..] == w1;
      assert w[0] * x[0] == c * (u[0] * x[0]);
      Distribute(c, u[0] * x[0], Dot(u[1..], x[1..]), Dot(u, x));
    } else {
      ZeroTimes(c);
    }
  }

  lemma ZeroTimes(c: real)
    ensures c * 0.0 == 0.0
  {
  }

  lemma {:induction false} DotZeroLeft(e: Vec, x: Vec)
    requires |e| == |x| && forall i :: 0 <= i < |e| ==> e[i] == 0.0
    ensures Dot(e, x) == 0.0
  {
    if |e| > 0 {
      DotZeroLeft(e[1..], x[1..]);
    }
  }

  /** The rows of a combined with weights s: s^T a as a vector of length n. */
  function Combo(a: Mat, s: Vec, n: nat): (z: Vec)
    requires |a| == |s| && forall i :: 0 <= i < |a| ==> |a[i]| == n
    ensures |z| == n
  {
    if |a| == 0 then seq(n, _ => 0.0)
    else AddVec(Scale(s[0], a[0]), Combo(a[1..], s[1..], n))
  }

  /** Entry j of s^T a is the inner product of column j of a with s. */
  lemma {:induction false} ComboEntry(a: Mat, s: Vec, n: nat, j: nat)
    requires |a| == |s| && (forall i :: 0 <= i < |a| ==> |a[i]| == n) && j < n
    ensures Combo(a, s, n)[j] == Dot(seq(|a|, i requires 0 <= i < |a| => a[i][j]), s)
  {
    var col := seq(|a|, i requires 0 <= i < |a| => a[i][j]);
    if |a| > 0 {
      ComboEntry(a[1..], s[1..], n, j);
      assert col[1..] == seq(|a| - 1, i requires 0 <= i < |a| - 1 => a[1..][i][j]);
    }
  }

  /** s . (a x) == (s^T a) . x. */
  lemma {:induction false} DotSwap(a: Mat, s: Vec, x: Vec, y: Vec, n: nat)
    requires |a| == |s| == |y| && |x| == n && forall i :: 0 <= i < |a| ==> |a[i]| == n
    requires forall i :: 0 <= i < |a| ==> y[i] == Dot(a[i], x)
    ensures Dot(s, y) == Dot(Combo(a, s, n), x)
  {
    if |a| == 0 {
      DotZeroLeft(Combo(a, s, n), x);
    } else {
      var a1, s1, y1 := a[1..], s[1..], y[1..];
      var rest := Combo(a1, s1, n);
      DotSwap(a1, s1, x, y1, n);
      var scaled := Scale(s[0], a[0]);
      DotAdd(scaled, rest, x);
      DotScale(s[0], a[0], x);
      assert Dot(s, y) == s[0] * y[0] + Dot(s1, y1);
    }
  }

  /** m |x_0| + m |x_1| + ..., summed term by term. */
  function ScaledAbsSum(x: Vec, m: real): real
  {
    if |x| == 0 then 0.0 else m * Abs(x[0]) + ScaledAbsSum(x[1..], m)
  }

  lemma {:induction false} ScaledAbsSumIs(x: Vec, m: real)
    ensures ScaledAbsSum(x, m) == m * AbsSum(x)
  {
    if |x| > 0 {
      ScaledAbsSumIs(x[1..], m);
      Distribute(m, Abs(x[0]), AbsSum(x[1..]), AbsSum(x));
    }
  }

  lemma Distribute(m: real, head: real, tail: real, total: real)
    requires total == head + tail
    ensures m * total == m * head + m * tail
  {
  }

  lemma {:induction false} DotBoundTerms(z: Vec, x: Vec, m: real)
    requires |z| == |x| && forall i :: 0 <= i < |z| ==> Abs(z[i]) <= m
    ensures Dot(z, x) <= ScaledAbsSum(x, m)
  {
    if |z| > 0 {
      DotBoundTerms(z[1..], x[1..], m);
      MulBound(z[0], x[0], m);
    }
  }

  /** If every |z_i| <= m then z . x <= m ||x||_1. */
  lemma DotBound(z: Vec, x: Vec, m: real)
    requires |z| == |x| && forall i :: 0 <= i < |z| ==> Abs(z[i]) <= m
    ensures Dot(z, x) <= m * AbsSum(x)
  {
    DotBoundTerms(z, x, m);
    ScaledAbsSumIs(x, m);
  }

  lemma MulBound(a: real, b: real, m: real)
    requires Abs(a) <= m
    ensures a * b <= m * Abs(b)
  {
    if b >= 0.0 {
      assert a * b <= Abs(a) * b;
    } else {
      assert a * b <= Abs(a) * -b;
    }
  }

  /** |u . s| <= ||u||_1 for a sign vector s. */
  lemma {:induction false} AbsDotSign(u: Vec, s: Vec)
    requires IsSign(s, |u|)
    ensures Abs(Dot(u, s)) <= AbsSum(u)
  {
    if |u| > 0 {
      AbsDotSign(u[1..], s[1..]);
    }
  }

  /** s . y == ||y||_1 when s holds the signs of y. */
  lemma {:induction false} DotSignSelf(s: Vec, y: Vec)
    requires |s| == |y| && forall i :: 0 <= i < |y| ==> s[i] * y[i] == Abs(y[i])
    ensures Dot(s, y) == AbsSum(y)
  {
    if |s| > 0 {
      DotSignSelf(s[1..], y[1..]);
    }
  }

  /**
   * Step (3) bounds the first estimate: if some column of S is the sign
   * of column c of Y = A X and column c of X has unit 1-norm, then
   * ||Y_c||_1 is at most the largest entry of h.
   */
  lemma FirstEstimateBelowH(a: Mat, x: Mat, s: Mat, n: nat, t: nat, c: nat, cp: nat)
    requires IsMat(a, n, n) && IsMat(x, n, t) && IsMat(s, n, t) && n > 0 && c < t && cp < t
    requires AbsSum(Column(x, c, n, t)) == 1.0
    requires Column(s, cp, n, t) == Column(SignRoundUpMat(MatMul(a, x, n, n, t), n, t), c, n, t)
    ensures AbsSum(Column(MatMul(a, x, n, n, t), c, n, t)) <= MaxOf(RowMaxAbs(MatMul(Transpose(a, n, n), s, n, n, t), n, t))
  {
    var y := MatMul(a, x, n, n, t);
    var yc := Column(y, c, n, t);
    var sc := Column(s, cp, n, t);
    var xc := Column(x, c, n, t);
    var at := Transpose(a, n, n);
    var z := MatMul(at, s, n, n, t);
    var h := RowMaxAbs(z, n, t);
    DotSignSelf(sc, yc);
    DotSwap(a, sc, xc, yc, n);
    ComboBelowH(a, s, n, t, cp);
    DotBound(Combo(a, sc, n), xc, MaxOf(h));
  }

  /** Every entry of s^T a for a column s of S is bounded by the largest entry of h. */
  lemma ComboBelowH(a: Mat, s: Mat, n: nat, t: nat, cp: nat)
    requires IsMat(a, n, n) && IsMat(s, n, t) && n > 0 && cp < t
    ensures forall j :: 0 <= j < n ==>
      Abs(Combo(a, Column(s, cp, n, t), n)[j]) <= MaxOf(RowMaxAbs(MatMul(Transpose(a, n, n), s, n, n, t), n, t))
  {
    var sc := Column(s, cp, n, t);
    var at := Transpose(a, n, n);
    var z := MatMul(at, s, n, n, t);
    var h := RowMaxAbs(z, n, t);
    var combo := Combo(a, sc, n);
    forall j | 0 <= j < n
      ensures Abs(combo[j]) <= MaxOf(h)
    {
      ComboEntry(a, sc, n, j);
      assert seq(n, i requires 0 <= i < n => a[i][j]) == at[j];
      assert combo[j] == z[j][cp];
      assert h[j] == RowMax(z, j, n, t);
    }
  }

  /** Every entry of h is at most the 1-norm of the matching column of A. */
  lemma HBelowColumnNorm(a: Mat, s: Mat, n: nat, t: nat, i: nat)
    requires IsMat(a, n, n) && IsSignMat(s, n, t) && t > 0 && i < n
    ensures RowMaxAbs(MatMul(Transpose(a, n, n), s, n, n, t), n, t)[i] <= AbsSum(Column(a, i, n, n))
  {
    var at := Transpose(a, n, n);
    var z := MatMul(at, s, n, n, t);
    var h := RowMaxAbs(z, n, t);
    assert h[i] == RowMax(z, i, n, t);
    var c :| 0 <= c < t && h[i] == Abs(z[i][c]);
    assert at[i] == Column(a, i, n, n);
    SignColumn(s, n, t, c);
    AbsDotSign(at[i], Column(s, c, n, t));
  }

  /** The first index of the sorted order holds the largest entry of h. */
  lemma SortedFirstIsMax(h: Vec, n: nat)
    requires |h| == n > 0
    ensures h[SortIndices(h, n)[0]] == MaxOf(h)
  {
    var ind := SortIndices(h, n);
    var i :| 0 <= i < n && h[i] == MaxOf(h);
    assert i in ind;
    var q :| 0 <= q < n && ind[q] == i;
    if q > 0 {
      assert Before(h, ind[0], ind[q]);
    }
  }

  /** With no visited index, the reordering changes nothing. */
  lemma {:induction false} SelectNoHistory(ind: seq<nat>)
    ensures Select(ind, {}, false) == ind && Select(ind, {}, true) == []
  {
    if |ind| > 0 {
      SelectNoHistory(ind[1..]);
      assert ind == [ind[0]] + ind[1..];
    }
  }

  /**
   * The bound behind the first two iterations: if S holds the sign of
   * column c of Y = A X, the column of A that the sorted h puts first has a
   * 1-norm at least ||Y_c||_1.
   */
  lemma FirstRoundBound(a: Mat, x: Mat, s: Mat, n: nat, t: nat, c: nat, cp: nat)
    requires IsMat(a, n, n) && n > 0 && t > 0 && StartShape(x, n, t) && IsSignMat(s, n, t) && c < t && cp < t
    requires Column(s, cp, n, t) == Column(SignRoundUpMat(MatMul(a, x, n, n, t), n, t), c, n, t)
    ensures var h := RowMaxAbs(MatMul(Transpose(a, n, n), s, n, n, t), n, t);
      AbsSum(Column(MatMul(a, x, n, n, t), c, n, t)) <= AbsSum(Column(a, SortIndices(h, n)[0], n, n))
  {
    var h := RowMaxAbs(MatMul(Transpose(a, n, n), s, n, n, t), n, t);
    FirstEstimateBelowH(a, x, s, n, t, c, cp);
    SortedFirstIsMax(h, n);
    HBelowColumnNorm(a, s, n, t, SortIndices(h, n)[0]);
  }

  /** A sign column never repeats a column of the zero matrix. */
  lemma RepresentedAgainstZero(i: nat, s: Mat, s2: Mat, n: nat, t: nat) returns (j: nat)
    requires IsSignMat(s, n, t) && IsMat(s2, n, t) && n > 0 && i < t
    requires Represented(i, s, s2, Some(Const(n, t, 0.0)), n, t)
    ensures j <= i && Column(s2, j, n, t) == Column(s, i, n, t)
  {
    var z := Const(n, t, 0.0);
    forall l | 0 <= l < t
      ensures Column(s, i, n, t) != Column(z, l, n, t)
    {
      assert Column(s, i, n, t)[0] != Column(z, l, n, t)[0];
    }
    j :| 0 <= j <= i && Column(s2, j, n, t) == Column(s, i, n, t);
  }

  /**
   * The first iteration in full: whatever columns the resampling against
   * the zero S keeps, the column of A that X picks first at k = 2 has a
   * 1-norm at least the 1-norm of the best column of Y = A X at k = 1.
   */
  lemma FirstIteration(a: Mat, x: Mat, signs: Mat, s: Mat, n: nat, t: nat, c: nat, ind: seq<nat>)
    requires IsMat(a, n, n) && 0 < t < n && StartShape(x, n, t) && c < t
    requires signs == SignRoundUpMat(MatMul(a, x, n, n, t), n, t) && IsSignMat(s, n, t)
    requires t == 1 ==> s == signs
    requires t > 1 ==> forall i :: 0 <= i < t ==> Represented(i, signs, s, Some(Const(n, t, 0.0)), n, t)
    requires ind == NextOrder(Transpose(a, n, n), s, {}, n, t)
    ensures |ind| == n && AbsSum(Column(MatMul(a, x, n, n, t), c, n, t)) <= AbsSum(Column(a, ind[0], n, n))
  {
    var sorted := SortIndices(RowMaxAbs(MatMul(Transpose(a, n, n), s, n, n, t), n, t), n);
    SelectNoHistory(sorted);
    assert ind == sorted;
    if t > 1 {
      var cp := RepresentedAgainstZero(c, signs, s, n, t);
      FirstRoundBound(a, x, s, n, t, c, cp);
    } else {
      FirstRoundBound(a, x, s, n, t, c, c);
    }
  }

  // ---------------------------------------------------------------------
  // The block iteration (Algorithm 2.4 of Higham and Tisseur)
  // ---------------------------------------------------------------------

  /** The first estimate is at least the 1-norm of A times ones/n. */
  lemma FirstEstimate(a: Mat, x: Mat, n: nat, t: nat)
    requires IsMat(a, n, n) && n > 0 && t > 0 && IsMat(x, n, t) && Column(x, 0, n, t) == StartColumn(n)
    ensures MaxOf(ColAbsSums(MatMul(a, x, n, n, t), n, t)) >= AbsSum(MatVec(a, StartColumn(n), n))
  {
    var y := MatMul(a, x, n, n, t);
    ProductColumn(a, x, n, t, 0);
    assert ColAbsSums(y, n, t)[0] == AbsSum(MatVec(a, StartColumn(n), n));
  }

  /** At the first iteration S_old is zero, so test (2) cannot stop the loop. */
  lemma NotParallelToZero(s: Mat, n: nat, t: nat)
    requires IsSignMat(s, n, t) && n > 0 && t > 0
    ensures IsTernaryMat(Const(n, t, 0.0), n, t)
    ensures !EveryColParallel(s, Const(n, t, 0.0), n, t, t)
  {
    var z := Const(n, t, 0.0);
    EveryColParallelMeansEqual(s, z, n, t, t);
    forall l | 0 <= l < t
      ensures Column(s, 0, n, t) != Column(z, l, n, t)
    {
      assert Column(s, 0, n, t)[0] != Column(z, l, n, t)[0];
    }
  }

  /** What the iteration returns: the estimate, v, w = A v, and the number of products. */
  datatype CoreResult = CoreResult(est: real, v: Vec, w: Vec, nmults: nat)

  /** w is column indBest of A and its 1-norm is e. */
  ghost predicate Certified(a: Mat, n: nat, indBest: nat, w: Vec, e: real)
    requires IsMat(a, n, n)
  {
    indBest < n && w == Column(a, indBest, n, n) && AbsSum(w) == e
  }

  /**
   * The state carried into iteration k >= 2: X holds the unit vectors of
   * ind, estOld is at least the first bound; at k = 2 it is at most the
   * 1-norm of the first column X picks from A, and from k = 3 on w is the
   * column ind_best of A whose 1-norm is estOld.
   */
  ghost predicate Carried(a: Mat, n: nat, t: nat, k: int, x: Mat, ind: seq<nat>, estOld: real,
                          indBest: nat, w: Vec, s: Mat)
    requires IsMat(a, n, n) && n > 0
  {
    IsMat(x, n, t) && IsTernaryMat(s, n, t) &&
    (k >= 2 ==> IsSignMat(s, n, t) && |ind| == n && UnitColumnsOf(x, ind, n, t) &&
                estOld >= AbsSum(MatVec(a, StartColumn(n), n))) &&
    (k == 2 ==> estOld <= AbsSum(Column(a, ind[0], n, n))) &&
    (k >= 3 ==> Certified(a, n, indBest, w, estOld))
  }

  /** What holds when the iteration stops. */
  ghost predicate Done(a: Mat, n: nat, itmax: int, est: real, indBest: nat, w: Vec, nmults: nat)
    requires IsMat(a, n, n) && n > 0
  {
    indBest < n && w == Column(a, indBest, n, n) && AbsSum(w) == est &&
    est >= AbsSum(MatVec(a, StartColumn(n), n)) && 3 <= nmults <= 2 * itmax + 1
  }

  /** The reordered list is still a permutation of 0 .. n-1. */
  lemma ReorderBelow(h: Vec, hist: set<nat>, n: nat)
    requires |h| == n
    ensures |Reorder(SortIndices(h, n), hist)| == n && Below(Reorder(SortIndices(h, n), hist), n)
  {
    var sorted := SortIndices(h, n);
    var r := Reorder(sorted, hist);
    SameMembers(r, sorted);
    assert forall k :: 0 <= k < |r| ==> r[k] in r;
  }

  /** A sign matrix is in particular ternary. */
  lemma SignIsTernary(s: Mat, n: nat, t: nat)
    requires IsSignMat(s, n, t)
    ensures IsTernaryMat(s, n, t)
  {
  }

  /**
   * The start of one iteration: Y = A X, the estimate is the largest
   * column 1-norm of Y and bestJ the first column attaining it. In the
   * first iteration it is at least the first bound; from the second on,
   * column bestJ of Y is column ind[bestJ] of A and the estimate is at
   * least the 1-norm of column ind[0] of A.
   */
  method EstimateStep(a: Mat, x: Mat, ind: seq<nat>, k: int, n: nat, t: nat) returns (y: Mat, est: real, bestJ: nat)
    requires IsMat(a, n, n) && IsMat(x, n, t) && 0 < t < n && k >= 1
    requires k == 1 ==> StartShape(x, n, t)
    requires k >= 2 ==> UnitColumnsOf(x, ind, n, t)
    ensures y == MatMul(a, x, n, n, t) && IsMat(y, n, t)
    ensures est == MaxOf(ColAbsSums(y, n, t)) && bestJ == ArgMax(ColAbsSums(y, n, t))
    ensures bestJ < t && est == AbsSum(Column(y, bestJ, n, t))
    ensures k == 1 ==> est >= AbsSum(MatVec(a, StartColumn(n), n))
    ensures k >= 2 ==> Certified(a, n, ind[bestJ], Column(y, bestJ, n, t), est)
    ensures k >= 2 ==> est >= AbsSum(Column(a, ind[0], n, n))
  {
    y := MatMul(a, x, n, n, t);
    var mags := ColAbsSums(y, n, t);
    est := MaxOf(mags);
    bestJ := ArgMax(mags);
    if k == 1 {
      FirstEstimate(a, x, n, t);
    } else {
      UnitColumnProduct(a, x, ind, n, t, 0);
      assert mags[0] == AbsSum(Column(a, ind[0], n, n));
      UnitColumnProduct(a, x, ind, n, t, bestJ);
    }
  }

  /** The indices by decreasing row maximum of |A^T S|, when t > 1 those not in hist first. */
  function NextOrder(at: Mat, s: Mat, hist: set<nat>, n: nat, t: nat): seq<nat>
    requires IsMat(at, n, n) && IsMat(s, n, t) && t > 0
  {
    var sorted := SortIndices(RowMaxAbs(MatMul(at, s, n, n, t), n, t), n);
    if t > 1 then Reorder(sorted, hist) else sorted
  }

  /** The stopping tests (4) and (5) on h, the row maxima of |A^T S|. */
  predicate StopsAt(at: Mat, s: Mat, hist: set<nat>, indBest: nat, k: int, n: nat, t: nat)
    requires IsMat(at, n, n) && IsMat(s, n, t) && t > 0 && (k >= 2 ==> indBest < n)
  {
    var h := RowMaxAbs(MatMul(at, s, n, n, t), n, t);
    var sorted := SortIndices(h, n);
    (k >= 2 && MaxOf(h) == h[indBest]) || (t > 1 && t <= n && (set j | 0 <= j < t :: sorted[j]) <= hist)
  }

  /**
   * Steps (3) to (5) of one iteration: Z = A^T S, h the row maxima of |Z|,
   * and the indices by decreasing h, those not yet used first. stop is
   * set when the best index already has the largest h (from the second
   * iteration on), or when t > 1 and the t best indices were all used.
   */
  method NextIndices(at: Mat, s: Mat, indHist: set<nat>, indBest: nat, k: int, n: nat, t: nat)
    returns (stop: bool, ind: seq<nat>)
    requires IsMat(at, n, n) && IsMat(s, n, t) && 0 < t < n && (k >= 2 ==> indBest < n)
    ensures stop <==> StopsAt(at, s, indHist, indBest, k, n, t)
    ensures stop ==> k >= 2 || indHist != {}
    ensures !stop ==> ind == NextOrder(at, s, indHist, n, t)
    ensures |ind| == n && Below(ind, n)
  {
    // (3)
    var z := MatMul(at, s, n, n, t);
    var h := RowMaxAbs(z, n, t);
    var sorted := SortIndices(h, n);
    ReorderBelow(h, indHist, n);
    ind := sorted;
    // (4)
    if k >= 2 && MaxOf(h) == h[indBest] {
      return true, ind;
    }
    if t > 1 {
      // (5)
      if (set j | 0 <= j < t :: sorted[j]) <= indHist {
        assert sorted[0] in indHist;
        return true, ind;
      }
      ind := Reorder(sorted, indHist);
    }
    stop := false;
  }

  /**
   * _onenormest_core: the block iteration for 1 <= t < n and itmax >= 2,
   * None for the inputs it rejects. The returned w is column j of A and v
   * the unit vector e_j, the estimate is exactly the 1-norm of w (so
   * ||A v||_1 == est ||v||_1) and at least the 1-norm of A (ones/n), and
   * between 3 and 2 itmax + 1 products are formed.
   */
  method OneNormEstCore(a: Mat, n: nat, t: int, itmax: int) returns (r: Option<CoreResult>)
    requires IsMat(a, n, n)
    ensures r.None? <==> itmax < 2 || t < 1 || t >= n
    ensures r.Some? ==> exists j :: 0 <= j < n && r.value.v == ElementaryVector(n, j) && r.value.w == Column(a, j, n, n)
    ensures r.Some? ==> AbsSum(r.value.w) == r.value.est
    ensures r.Some? ==> r.value.est >= AbsSum(MatVec(a, StartColumn(n), n))
    ensures r.Some? ==> 3 <= r.value.nmults <= 2 * itmax + 1
  {
    if itmax < 2 || t < 1 || t >= n {
      return None;
    }
    var tt: nat := t;
    var at := Transpose(a, n, n);
    var nmults: nat := 0;
    var x := StartingMatrix(n, tt);
    var indHist: set<nat> := {};
    var estOld := 0.0;
    var s := Const(n, tt, 0.0);
    NotParallelToZero(Const(n, tt, 1.0), n, tt);
    var k := 1;
    var ind: seq<nat> := [];
    var indBest: nat := 0;
    var w: Vec := [];
    var est := 0.0;
    while true
      invariant Carried(a, n, tt, k, x, ind, estOld, indBest, w, s)
      invariant k == 1 ==> StartShape(x, n, tt) && indHist == {} && s == Const(n, tt, 0.0)
      invariant 1 <= k <= itmax + 1 && nmults == 2 * (k - 1)
      decreases itmax + 1 - k
    {
      var y, bestJ;
      y, est, bestJ := EstimateStep(a, x, ind, k, n, tt);
      nmults := nmults + 1;
      if est > estOld || k == 2 {
        if k >= 2 {
          indBest := ind[bestJ];
        }
        w := Column(y, bestJ, n, tt);
      }
      // (1)
      if k >= 2 && est <= estOld {
        est := estOld;
        assert Done(a, n, itmax, est, indBest, w, nmults);
        break;
      }
      estOld := est;
      assert k >= 2 ==> Certified(a, n, indBest, w, estOld);
      assert estOld >= AbsSum(MatVec(a, StartColumn(n), n));
      var sOld := s;
      if k > itmax {
        assert Done(a, n, itmax, est, indBest, w, nmults);
        break;
      }
      var signs := SignRoundUpMat(y, n, tt);
      s := signs;
      // (2)
      if k == 1 {
        NotParallelToZero(s, n, tt);
      }
      if EveryColParallel(s, sOld, n, tt, tt) {
        assert Done(a, n, itmax, est, indBest, w, nmults);
        break;
      }
      if tt > 1 {
        s := ResampleParallelColumns(s, Some(sOld), n, tt);
      }
      var stop;
      stop, ind := NextIndices(at, s, indHist, indBest, k, n, tt);
      nmults := nmults + 1;
      if stop {
        assert Done(a, n, itmax, est, indBest, w, nmults);
        break;
      }
      if k == 1 {
        FirstIteration(a, x, signs, s, n, tt, bestJ, ind);
      }
      x := SetUnitColumns(x, ind, n, tt);
      indHist := indHist + set j | 0 <= j < tt :: ind[j];
      SignIsTernary(s, n, tt);
      k := k + 1;
    }
    var v := ElementaryVector(n, indBest);
    r := Some(CoreResult(est, v, w, nmults));
  }

  // ---------------------------------------------------------------------
  // onenormest
  // ---------------------------------------------------------------------

  /** A I == A. */
  lemma MatMulIdentity(a: Mat, n: nat)
    requires IsMat(a, n, n)
    ensures MatMul(a, Identity(n), n, n, n) == a
  {
    var p := MatMul(a, Identity(n), n, n, n);
    forall i, j | 0 <= i < n && 0 <= j < n
      ensures p[i][j] == a[i][j]
    {
      assert Column(Identity(n), j, n, n) == ElementaryVector(n, j);
      ElementaryPicks(a[i], n, j);
    }
    MatExt(p, a, n, n);
  }

  /** The estimate and its certificates: v, and w = A v. */
  datatype Estimate = Estimate(est: real, v: Vec, w: Vec)

  /**
   * onenormest for a rows x cols matrix: None for a non-square matrix and
   * for the inputs the iteration rejects. When t >= n the 1-norm is
   * computed exactly as the largest column 1-norm (None when n = 0, where
   * the maximum of no columns does not exist); otherwise the block
   * iteration gives a lower estimate. Both report the column j of A that
   * w is and the unit vector v = e_j, and the estimate is the 1-norm of w,
   * so est is always attained: ||A v||_1 == est ||v||_1, and never above
   * the 1-norm of A, the largest column 1-norm, which the exact path returns.
   */
  method OneNormEstimate(a: Mat, rows: nat, cols: nat, t: int, itmax: int) returns (r: Option<Estimate>)
    requires IsMat(a, rows, cols)
    ensures rows != cols ==> r.None?
    ensures rows == cols && t >= cols ==> (r.Some? <==> cols > 0)
    ensures rows == cols && t < cols ==> (r.Some? <==> t >= 1 && itmax >= 2)
    ensures r.Some? ==> exists j :: 0 <= j < cols && r.value.v == ElementaryVector(cols, j) && r.value.w == Column(a, j, rows, cols)
    ensures r.Some? ==> AbsSum(r.value.w) == r.value.est
    ensures r.Some? ==> cols > 0 && r.value.est <= MaxOf(ColAbsSums(a, rows, cols))
    ensures r.Some? && t >= cols ==> r.value.est == MaxOf(ColAbsSums(a, rows, cols))
    ensures r.Some? && t >= cols ==> var j := ArgMax(ColAbsSums(a, rows, cols));
      r.value.v == ElementaryVector(cols, j) && r.value.w == Column(a, j, rows, cols) &&
      forall i :: 0 <= i < j ==> ColAbsSums(a, rows, cols)[i] < r.value.est
    ensures r.Some? && t < cols ==> r.value.est >= AbsSum(MatVec(a, StartColumn(cols), cols))
  {
    if rows != cols {
      return None;
    }
    var n := cols;
    if t >= n {
      if n == 0 {
        return None;
      }
      var explicit := MatMul(a, Identity(n), n, n, n);
      MatMulIdentity(a, n);
      var colAbsSums := ColAbsSums(explicit, n, n);
      var j := ArgMax(colAbsSums);
      var v := ElementaryVector(n, j);
      var w := Column(explicit, j, n, n);
      r := Some(Estimate(colAbsSums[j], v, w));
    } else {
      var core := OneNormEstCore(a, n, t, itmax);
      if core.None? {
        return None;
      }
      r := Some(Estimate(core.value.est, core.value.v, core.value.w));
    }
  }
}
