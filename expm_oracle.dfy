/**
 * The matrix-exponential evaluators of the expm_helpers module (not
 * modelled here), as uninterpreted function values.  Only their shapes are relied upon.
 */
module ExpmOracle {
  import opened Matrices

  /**
   * One process's evaluator: mul(rate, B) stands for expm(rate * A) B and
   * tmul(rate, B) for expm(rate * A^T) B, for the process's rate matrix A.
   */
  datatype Expm = Expm(mul: (real, Mat) -> Mat, tmul: (real, Mat) -> Mat)

  /**
   * One process's Frechet evaluator: expmAndFrechet(rate) stands for the pair
   * (P, K) of the transition matrix and the Frechet-derivative matrix.
   */
  datatype ExpmFrechet = ExpmFrechet(expmAndFrechet: real -> (Mat, Mat))

  /** Both actions map an n-row block to an n-row block of the same width. */
  ghost predicate Conformant(f: Expm, n: nat) {
    (forall rate, b, c :: IsMat(b, n, c) ==> IsMat(f.mul(rate, b), n, c)) &&
    (forall rate, b, c :: IsMat(b, n, c) ==> IsMat(f.tmul(rate, b), n, c))
  }

  /** The shape guarantee of a conformant evaluator, for one argument. */
  lemma MulShape(f: Expm, n: nat, rate: real, b: Mat, c: nat)
    requires Conformant(f, n) && IsMat(b, n, c)
    ensures IsMat(f.mul(rate, b), n, c) && IsMat(f.tmul(rate, b), n, c)
  {
  }

  ghost predicate AllConformant(fs: seq<Expm>, n: nat) {
    forall i :: 0 <= i < |fs| ==> Conformant(fs[i], n)
  }

  /** Both matrices of the pair are n-by-n. */
  ghost predicate FrechetConformant(g: ExpmFrechet, n: nat) {
    forall rate :: IsMat(g.expmAndFrechet(rate).0, n, n) && IsMat(g.expmAndFrechet(rate).1, n, n)
  }

  /** The shape guarantee of a conformant Frechet evaluator, for one rate. */
  lemma FrechetShape(g: ExpmFrechet, n: nat, rate: real)
    requires FrechetConformant(g, n)
    ensures IsMat(g.expmAndFrechet(rate).0, n, n) && IsMat(g.expmAndFrechet(rate).1, n, n)
  {
  }

  ghost predicate AllFrechetConformant(gs: seq<ExpmFrechet>, n: nat) {
    forall i :: 0 <= i < |gs| ==> FrechetConformant(gs[i], n)
  }
}
