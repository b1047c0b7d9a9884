/**
 * The joint state space: a shape such as [4, 4] whose states are numbered by
 * the row-major flattening of their multi-indices (numpy's C order).
 */
module StateSpace {

  /** Every axis has at least one value. */
  predicate ValidShape(shape: seq<nat>) {
    forall a :: 0 <= a < |shape| ==> shape[a] > 0
  }

  lemma ValidShapeInit(shape: seq<nat>)
    requires ValidShape(shape) && |shape| > 0
    ensures ValidShape(shape[..|shape| - 1])
  {
    var init := shape[..|shape| - 1];
    assert forall a :: 0 <= a < |init| ==> init[a] == shape[a];
  }

  /** np.prod(state_space_shape): the number of joint states. */
  function NStates(shape: seq<nat>): nat
  {
    if |shape| == 0 then 1 else NStates(shape[..|shape| - 1]) * shape[|shape| - 1]
  }

  lemma {:induction false} NStatesPositive(shape: seq<nat>)
    requires ValidShape(shape)
    ensures NStates(shape) > 0
  {
    if |shape| > 0 {
      ValidShapeInit(shape);
      NStatesPositive(shape[..|shape| - 1]);
    }
  }

  /** idx names one state of the space: one in-range coordinate per axis. */
  predicate InBounds(idx: seq<int>, shape: seq<nat>) {
    |idx| == |shape| && forall a :: 0 <= a < |shape| ==> 0 <= idx[a] < shape[a]
  }

  /** np.ravel_multi_index for one in-bounds multi-index: the last axis varies fastest. */
  function Ravel(idx: seq<int>, shape: seq<nat>): nat
    requires InBounds(idx, shape)
  {
    if |shape| == 0 then 0
    else Ravel(idx[..|idx| - 1], shape[..|shape| - 1]) * shape[|shape| - 1] + idx[|idx| - 1]
  }

  /** np.unravel_index: the multi-index of state s, the inverse of Ravel. */
  function Unravel(s: nat, shape: seq<nat>): (idx: seq<nat>)
    requires ValidShape(shape)
    ensures |idx| == |shape|
    decreases |shape|
  {
    if |shape| == 0 then []
    else
      var k: nat := shape[|shape| - 1];
      ValidShapeInit(shape);
      var q: nat := s / k;
      var r: nat := s % k;
      Unravel(q, shape[..|shape| - 1]) + [r]
  }

  lemma {:induction false} MulAtLeast(e: int, k: int)
    requires e >= 1 && k > 0
    ensures e * k >= k
    decreases e
  {
    if e > 1 {
      MulAtLeast(e - 1, k);
      assert e * k == (e - 1) * k + k;
    }
  }

  /** Euclidean division recovers quotient and remainder. */
  lemma DivMod(q: int, r: int, k: int)
    requires 0 <= r < k
    ensures (q * k + r) / k == q && (q * k + r) % k == r
  {
    var x := q * k + r;
    var d, m := x / k, x % k;
    assert x == d * k + m && 0 <= m < k;
    assert (d - q) * k == r - m;
    if d > q {
      MulAtLeast(d - q, k);
    } else if d < q {
      MulAtLeast(q - d, k);
    }
  }

  /** The quotient of a state by the last axis is a state of the leading axes. */
  lemma QuotientBound(s: nat, k: nat, below: nat)
    requires k > 0 && s < below * k
    ensures s / k < below
  {
    var d, m := s / k, s % k;
    assert s == d * k + m;
    if d > below {
      MulAtLeast(d - below, k);
    }
  }

  lemma {:induction false} RavelBound(idx: seq<int>, shape: seq<nat>)
    requires InBounds(idx, shape)
    ensures Ravel(idx, shape) < NStates(shape)
  {
    if |shape| > 0 {
      var n := |shape| - 1;
      var init, shapeInit := idx[..n], shape[..n];
      assert InBounds(init, shapeInit);
      RavelBound(init, shapeInit);
      var q, k := Ravel(init, shapeInit), shape[n];
      assert Ravel(idx, shape) == q * k + idx[n];
      RowBound(q, idx[n], k, NStates(shapeInit));
      assert NStates(shape) == NStates(shapeInit) * k;
    }
  }

  /** q k + j < N k when q < N and j < k. */
  lemma RowBound(q: nat, j: int, k: nat, m: nat)
    requires q < m && 0 <= j < k
    ensures q * k + j < m * k
  {
    assert (q + 1) * k <= m * k;
  }

  /** Every coordinate of Unravel(s) is in range, for s a state. */
  lemma {:induction false} UnravelInBounds(s: nat, shape: seq<nat>)
    requires ValidShape(shape) && s < NStates(shape)
    ensures InBounds(Unravel(s, shape), shape)
    decreases |shape|
  {
    if |shape| > 0 {
      var n := |shape| - 1;
      var k := shape[n];
      ValidShapeInit(shape);
      QuotientBound(s, k, NStates(shape[..n]));
      UnravelInBounds(s / k, shape[..n]);
      assert Unravel(s, shape)[..n] == Unravel(s / k, shape[..n]);
    }
  }

  /** The flattening is onto: flattening the multi-index of a state gives the state back. */
  lemma {:induction false} RavelUnravel(s: nat, shape: seq<nat>)
    requires ValidShape(shape) && s < NStates(shape)
    ensures InBounds(Unravel(s, shape), shape)
    ensures Ravel(Unravel(s, shape), shape) == s
    decreases |shape|
  {
    UnravelInBounds(s, shape);
    if |shape| > 0 {
      var n := |shape| - 1;
      var k := shape[n];
      var idx := Unravel(s, shape);
      assert idx[..n] == Unravel(s / k, shape[..n]);
      QuotientBound(s, k, NStates(shape[..n]));
      RavelUnravel(s / k, shape[..n]);
    }
  }

  /** The flattening is one-to-one: unflattening the index of a multi-index gives it back. */
  lemma {:induction false} UnravelRavel(idx: seq<int>, shape: seq<nat>)
    requires ValidShape(shape) && InBounds(idx, shape)
    ensures Unravel(Ravel(idx, shape), shape) == idx
  {
    if |shape| > 0 {
      var n := |shape| - 1;
      var k := shape[n];
      var q := Ravel(idx[..n], shape[..n]);
      ValidShapeInit(shape);
      DivMod(q, idx[n], k);
      UnravelRavel(idx[..n], shape[..n]);
      assert idx == idx[..n] + [idx[n]];
    }
  }

  /** Corollary: distinct in-bounds multi-indices have distinct flat indices. */
  lemma RavelInjective(a: seq<int>, b: seq<int>, shape: seq<nat>)
    requires ValidShape(shape) && InBounds(a, shape) && InBounds(b, shape)
    requires Ravel(a, shape) == Ravel(b, shape)
    ensures a == b
  {
    UnravelRavel(a, shape);
    UnravelRavel(b, shape);
  }
}
