/**
 * Posterior quantities computed from the subtree arrays: the marginal state
 * distribution at every node, the per-site expected weighted counts of
 * labelled transitions on every edge, and the prior vector, feasibility check
 * and output assembly that process_json_in wraps around them.
 */
module Expect {
  import opened Wrappers
  import opened Matrices
  import opened StateSpace
  import opened Trees
  import opened Scenes
  import opened ExpmOracle
  import opened Sequences
  import opened CommonLikelihood

  // ---------------------------------------------------------------------
  // pseudo_reciprocal
  // ---------------------------------------------------------------------

  /** The entrywise map 0 -> 0, x -> 1/x. */
  function PseudoReciprocal(x: real): (r: real)
    ensures x == 0.0 ==> r == 0.0
    ensures x != 0.0 ==> r * x == 1.0
  {
    if x == 0.0 then 0.0 else 1.0 / x
  }

  /** Applying the map twice gives the entry back, zero or not. */
  lemma PseudoReciprocalInvolution(x: real)
    ensures PseudoReciprocal(PseudoReciprocal(x)) == x
  {
    if x != 0.0 {
      var r := PseudoReciprocal(x);
      var q := PseudoReciprocal(r);
      assert r * x == 1.0;
      assert r != 0.0;
      assert q * r == 1.0;
      calc {
        q;
        q * (r * x);
        (q * r) * x;
        x;
      }
    }
  }

  /** pseudo_reciprocal of a 1-d array. */
  function PseudoReciprocalVec(v: Vec): (r: Vec)
    ensures |r| == |v|
    ensures forall i :: 0 <= i < |v| ==> (v[i] == 0.0 ==> r[i] == 0.0) && (v[i] != 0.0 ==> r[i] * v[i] == 1.0)
  {
    seq(|v|, i requires 0 <= i < |v| => PseudoReciprocal(v[i]))
  }

  /** pseudo_reciprocal of a 2-d array. */
  function PseudoReciprocalMat(m: Mat, r: nat, c: nat): (p: Mat)
    requires IsMat(m, r, c)
    ensures IsMat(p, r, c)
    ensures forall i, j :: 0 <= i < r && 0 <= j < c ==>
      (m[i][j] == 0.0 ==> p[i][j] == 0.0) && (m[i][j] != 0.0 ==> p[i][j] * m[i][j] == 1.0)
  {
    seq(r, i requires 0 <= i < r => seq(c, j requires 0 <= j < c => PseudoReciprocal(m[i][j])))
  }

  /** Every column scaled by the pseudo-reciprocal of its sum. */
  function NormalizeColumns(m: Mat, r: nat, c: nat): (p: Mat)
    requires IsMat(m, r, c)
    ensures IsMat(p, r, c)
  {
    ScaleCols(m, PseudoReciprocalVec(ColSums(m, r, c)), r, c)
  }

  /** Column j of the normalised matrix is column j of m times the pseudo-reciprocal of its sum. */
  lemma NormalizedColumnScale(m: Mat, r: nat, c: nat, j: nat)
    requires IsMat(m, r, c) && j < c
    ensures forall i :: 0 <= i < r ==>
      NormalizeColumns(m, r, c)[i][j] == m[i][j] * PseudoReciprocal(Sum(Column(m, j, r, c)))
  {
    var v := ColSums(m, r, c);
    assert PseudoReciprocalVec(v)[j] == PseudoReciprocal(v[j]);
  }

  /**
   * A column with nonzero sum s becomes that column divided by s, a vector
   * summing to 1; a column summing to zero becomes all zeros.
   */
  lemma NormalizedColumn(m: Mat, r: nat, c: nat, j: nat)
    requires IsMat(m, r, c) && j < c
    ensures Sum(Column(m, j, r, c)) != 0.0 ==>
      Sum(Column(NormalizeColumns(m, r, c), j, r, c)) == 1.0 &&
      forall i :: 0 <= i < r ==> NormalizeColumns(m, r, c)[i][j] * Sum(Column(m, j, r, c)) == m[i][j]
    ensures Sum(Column(m, j, r, c)) == 0.0 ==> forall i :: 0 <= i < r ==> NormalizeColumns(m, r, c)[i][j] == 0.0
  {
    NormalizedColumnScale(m, r, c, j);
    if Sum(Column(m, j, r, c)) != 0.0 {
      NormalizedColumnSum(m, r, c, j);
      NormalizedColumnEntries(m, r, c, j);
    }
  }

  /** A column with nonzero sum sums to 1 once normalised. */
  lemma NormalizedColumnSum(m: Mat, r: nat, c: nat, j: nat)
    requires IsMat(m, r, c) && j < c && Sum(Column(m, j, r, c)) != 0.0
    ensures Sum(Column(NormalizeColumns(m, r, c), j, r, c)) == 1.0
  {
    var col := Column(m, j, r, c);
    var x := PseudoReciprocal(Sum(col));
    NormalizedColumnScale(m, r, c, j);
    SumScaled(col, x, Column(NormalizeColumns(m, r, c), j, r, c));
    assert Sum(col) * x == 1.0;
  }

  /** Each normalised entry times the column sum gives the original entry back. */
  lemma NormalizedColumnEntries(m: Mat, r: nat, c: nat, j: nat)
    requires IsMat(m, r, c) && j < c && Sum(Column(m, j, r, c)) != 0.0
    ensures forall i :: 0 <= i < r ==> NormalizeColumns(m, r, c)[i][j] * Sum(Column(m, j, r, c)) == m[i][j]
  {
    forall i | 0 <= i < r
      ensures NormalizeColumns(m, r, c)[i][j] * Sum(Column(m, j, r, c)) == m[i][j]
    {
      NormalizedEntry(m, r, c, j, i);
    }
  }

  lemma NormalizedEntry(m: Mat, r: nat, c: nat, j: nat, i: nat)
    requires IsMat(m, r, c) && j < c && i < r && Sum(Column(m, j, r, c)) != 0.0
    ensures NormalizeColumns(m, r, c)[i][j] * Sum(Column(m, j, r, c)) == m[i][j]
  {
    var s := Sum(Column(m, j, r, c));
    var x := PseudoReciprocal(s);
    NormalizedColumnScale(m, r, c, j);
    assert NormalizeColumns(m, r, c)[i][j] == m[i][j] * x;
    Cancel(m[i][j], x, s);
  }

  /** Multiplying by x and then by s is the identity when x * s is 1. */
  lemma Cancel(a: real, x: real, s: real)
    requires x * s == 1.0
    ensures (a * x) * s == a
  {
    calc {
      (a * x) * s;
      a * (x * s);
    }
  }

  // ---------------------------------------------------------------------
  // get_node_to_marginal_distn
  // ---------------------------------------------------------------------

  /** The inputs of the marginal pass: subtree arrays for every node and a prior over the states. */
  ghost predicate MargInputs(sc: Scene, f: seq<Expm>, sub: map<nat, Mat>, distn: Vec) {
    PassInputs(sc, f) && PartialsShaped(sc, sub) && |distn| == sc.NStates()
  }

  /** expm_mul(rate, I): the transition matrix of the edge above c. */
  function EdgeTransition(sc: Scene, f: seq<Expm>, c: nat): (p: Mat)
    requires PassInputs(sc, f) && c < sc.NNodes() && c != sc.tree.root
    ensures IsMat(p, sc.NStates(), sc.NStates())
  {
    var rate := sc.edgeRate[sc.UpEdge(c)];
    MulShape(EdgeExpm(sc, f, c), sc.NStates(), rate, Identity(sc.NStates()), sc.NStates());
    EdgeExpm(sc, f, c).mul(rate, Identity(sc.NStates()))
  }

  /** head.T.dot(P).T: every site's head distribution carried across the edge. */
  function Propagate(head: Mat, p: Mat, n: nat, s: nat): (m: Mat)
    requires IsMat(head, n, s) && IsMat(p, n, n)
    ensures IsMat(m, n, s)
  {
    Transpose(MatMul(Transpose(head, n, s), p, s, n, n), s, n)
  }

  /** Entry (j, site) of the propagated array is the sum over i of head[i][site] * P[i][j]. */
  lemma PropagateEntry(head: Mat, p: Mat, n: nat, s: nat, j: nat, site: nat)
    requires IsMat(head, n, s) && IsMat(p, n, n) && j < n && site < s
    ensures Propagate(head, p, n, s)[j][site] == Dot(Column(head, site, n, s), Column(p, j, n, n))
  {
    assert Transpose(head, n, s)[site] == Column(head, site, n, s);
  }

  /**
   * The marginal array of n before normalisation: at the root the subtree
   * array weighted by the prior, elsewhere the parent's marginal carried
   * across the edge times the subtree array of n.
   */
  function Unnormalized(sc: Scene, f: seq<Expm>, sub: map<nat, Mat>, distn: Vec, n: nat): (m: Mat)
    requires MargInputs(sc, f, sub, distn) && n < sc.NNodes()
    ensures IsMat(m, sc.NStates(), sc.NSites())
    decreases sc.NNodes() - Pos(sc.order, n), 0
  {
    if n == sc.tree.root then ScaleRows(sub[n], distn, sc.NStates(), sc.NSites())
    else
      ChildBeforeParent(sc.tree, sc.order, n);
      var head := Marginal(sc, f, sub, distn, sc.tree.parent[n]);
      Hadamard(Propagate(head, EdgeTransition(sc, f, n), sc.NStates(), sc.NSites()), sub[n],
               sc.NStates(), sc.NSites())
  }

  /** The marginal distribution array of n: its unnormalised array with every site column normalised. */
  function Marginal(sc: Scene, f: seq<Expm>, sub: map<nat, Mat>, distn: Vec, n: nat): (m: Mat)
    requires MargInputs(sc, f, sub, distn) && n < sc.NNodes()
    ensures IsMat(m, sc.NStates(), sc.NSites())
    decreases sc.NNodes() - Pos(sc.order, n), 1
  {
    NormalizeColumns(Unnormalized(sc, f, sub, distn, n), sc.NStates(), sc.NSites())
  }

  /**
   * At every node and site the marginal is a distribution over the states
   * summing to 1, or all zeros when the site carries no mass there.
   */
  lemma MarginalIsDistribution(sc: Scene, f: seq<Expm>, sub: map<nat, Mat>, distn: Vec, n: nat, site: nat)
    requires MargInputs(sc, f, sub, distn) && n < sc.NNodes() && site < sc.NSites()
    ensures var u := Unnormalized(sc, f, sub, distn, n);
      var m := Marginal(sc, f, sub, distn, n);
      (Sum(Column(u, site, sc.NStates(), sc.NSites())) != 0.0 ==> Sum(Column(m, site, sc.NStates(), sc.NSites())) == 1.0) &&
      (Sum(Column(u, site, sc.NStates(), sc.NSites())) == 0.0 ==> forall s :: 0 <= s < sc.NStates() ==> m[s][site] == 0.0)
  {
    NormalizedColumn(Unnormalized(sc, f, sub, distn, n), sc.NStates(), sc.NSites(), site);
  }

  /** likelihoods = distn.dot(arr): the prior-weighted likelihood of every site. */
  function SiteLikelihoods(distn: Vec, arr: Mat, n: nat, s: nat): (l: Vec)
    requires |distn| == n && IsMat(arr, n, s)
    ensures |l| == s
  {
    seq(s, site requires 0 <= site < s => Dot(distn, Column(arr, site, n, s)))
  }

  /**
   * The root's marginal is the posterior given the data: the mass of a site
   * before normalisation is that site's likelihood, and each state's marginal
   * times the likelihood is its prior times its subtree likelihood.
   */
  lemma RootMarginalIsPosterior(sc: Scene, f: seq<Expm>, sub: map<nat, Mat>, distn: Vec, site: nat)
    requires MargInputs(sc, f, sub, distn) && site < sc.NSites()
    ensures var l := SiteLikelihoods(distn, sub[sc.tree.root], sc.NStates(), sc.NSites())[site];
      var u := Unnormalized(sc, f, sub, distn, sc.tree.root);
      var m := Marginal(sc, f, sub, distn, sc.tree.root);
      Sum(Column(u, site, sc.NStates(), sc.NSites())) == l &&
      (l != 0.0 ==> forall s :: 0 <= s < sc.NStates() ==> m[s][site] * l == distn[s] * sub[sc.tree.root][s][site])
  {
    var root := sc.tree.root;
    assert Unnormalized(sc, f, sub, distn, root) == ScaleRows(sub[root], distn, sc.NStates(), sc.NSites());
    ScaledPosterior(distn, sub[root], sc.NStates(), sc.NSites(), site);
  }

  /** The same on matrices: scaling the rows by the prior gives columns whose sums are the site likelihoods. */
  lemma ScaledPosterior(distn: Vec, b: Mat, r: nat, c: nat, site: nat)
    requires |distn| == r && IsMat(b, r, c) && site < c
    ensures var l := SiteLikelihoods(distn, b, r, c)[site];
      var u := ScaleRows(b, distn, r, c);
      var m := NormalizeColumns(u, r, c);
      Sum(Column(u, site, r, c)) == l &&
      (l != 0.0 ==> forall s :: 0 <= s < r ==> m[s][site] * l == distn[s] * b[s][site])
  {
    var u := ScaleRows(b, distn, r, c);
    var l := SiteLikelihoods(distn, b, r, c)[site];
    ScaledColumnSum(distn, b, r, c, site);
    if l != 0.0 {
      var m := NormalizeColumns(u, r, c);
      NormalizedColumn(u, r, c, site);
      forall s | 0 <= s < r
        ensures m[s][site] * l == distn[s] * b[s][site]
      {
        assert m[s][site] * l == u[s][site];
      }
    }
  }

  lemma ScaledColumnSum(distn: Vec, b: Mat, r: nat, c: nat, site: nat)
    requires |distn| == r && IsMat(b, r, c) && site < c
    ensures Sum(Column(ScaleRows(b, distn, r, c), site, r, c)) == SiteLikelihoods(distn, b, r, c)[site]
  {
    DotAsSum(distn, Column(b, site, r, c), Column(ScaleRows(b, distn, r, c), site, r, c));
  }

  /** Every entry of the table is the marginal of its node. */
  ghost predicate MargValues(sc: Scene, f: seq<Expm>, sub: map<nat, Mat>, distn: Vec, table: map<nat, Mat>)
    requires MargInputs(sc, f, sub, distn)
  {
    forall m: nat :: m in table ==> m < sc.NNodes() && table[m] == Marginal(sc, f, sub, distn, m)
  }

  /** One node of the marginal pass, once every later node of the traversal is done. */
  method MarginalNode(f: seq<Expm>, sub: map<nat, Mat>, distn: Vec, sc: Scene, childToEdge: map<nat, Edge>,
                      done: map<nat, Mat>, i: nat) returns (next: Mat)
    requires MargInputs(sc, f, sub, distn) && i < sc.NNodes() && childToEdge == ChildToEdge(sc.edges)
    requires PreKeys(sc, done, i + 1) && MargValues(sc, f, sub, distn, done)
    ensures next == Marginal(sc, f, sub, distn, sc.order[i])
  {
    var nstates, nsites := sc.NStates(), sc.NSites();
    var node := sc.order[i];
    var unnorm: Mat;
    if node == sc.tree.root {
      unnorm := ScaleRows(sub[sc.tree.root], distn, nstates, nsites);
    } else {
      ChildToEdgeUp(sc, |f|, node);
      ChildBeforeParent(sc.tree, sc.order, node);
      PosOf(sc.tree, sc.order, i);
      var edge := childToEdge[node];
      var headNode, tailNode := edge.0, edge.1;
      var edgeProcess := sc.edgeProcess[edge];
      var edgeRate := sc.edgeRate[edge];
      var headMarginal := done[headNode];
      var subtreeArray := sub[tailNode];
      MulShape(f[edgeProcess], nstates, edgeRate, Identity(nstates), nstates);
      var p := f[edgeProcess].mul(edgeRate, Identity(nstates));
      unnorm := Propagate(headMarginal, p, nstates, nsites);
      unnorm := Hadamard(unnorm, subtreeArray, nstates, nsites);
    }
    next := NormalizeColumns(unnorm, nstates, nsites);
  }

  /**
   * get_node_to_marginal_distn: visit the nodes in reverse postorder, so
   * every parent before its children, and record each node's marginal.
   */
  method GetNodeToMarginalDistn(f: seq<Expm>, sub: map<nat, Mat>, distn: Vec, sc: Scene)
    returns (r: map<nat, Mat>)
    requires MargInputs(sc, f, sub, distn)
    ensures forall m: nat :: m in r <==> m < sc.NNodes()
    ensures forall m: nat :: m in r ==> r[m] == Marginal(sc, f, sub, distn, m)
  {
    var childToEdge := ChildToEdge(sc.edges);
    r := map[];
    var i := sc.NNodes();
    while i > 0
      invariant 0 <= i <= sc.NNodes()
      invariant PreKeys(sc, r, i) && MargValues(sc, f, sub, distn, r)
    {
      var j := i - 1;
      var node := sc.order[j];
      var next := MarginalNode(f, sub, distn, sc, childToEdge, r, j);
      PreKeysInsert(sc, r, j, next);
      r := r[node := next];
      i := j;
    }
  }

  // ---------------------------------------------------------------------
  // get_edge_to_site_expectations
  // ---------------------------------------------------------------------

  /**
   * J for one site: outer(d, v) * P, the joint distribution of the states at
   * the two ends of the edge, divided by its total, or all zeros when the
   * total is 0.
   */
  function SiteJoint(d: Vec, v: Vec, p: Mat, n: nat): (j: Mat)
    requires |d| == n && |v| == n && IsMat(p, n, n)
    ensures IsMat(j, n, n)
  {
    var raw := Hadamard(Outer(d, v), p, n, n);
    var total := Total(raw);
    if total != 0.0 then DivideAll(raw, total, n, n) else Const(n, n, 0.0)
  }

  /** J sums to 1 when outer(d, v) * P has nonzero total, and is all zeros otherwise. */
  lemma SiteJointIsDistribution(d: Vec, v: Vec, p: Mat, n: nat)
    requires |d| == n && |v| == n && IsMat(p, n, n)
    ensures Total(Hadamard(Outer(d, v), p, n, n)) != 0.0 ==> Total(SiteJoint(d, v, p, n)) == 1.0
    ensures Total(Hadamard(Outer(d, v), p, n, n)) == 0.0 ==>
      forall a, b :: 0 <= a < n && 0 <= b < n ==> SiteJoint(d, v, p, n)[a][b] == 0.0
  {
    var raw := Hadamard(Outer(d, v), p, n, n);
    var total := Total(raw);
    if total != 0.0 {
      assert SiteJoint(d, v, p, n) == DivideAll(raw, total, n, n);
      DividedTotal(raw, total, n);
    } else {
      assert SiteJoint(d, v, p, n) == Const(n, n, 0.0);
    }
  }

  /** Dividing every entry by the nonzero total leaves a total of 1. */
  lemma DividedTotal(raw: Mat, total: real, n: nat)
    requires IsMat(raw, n, n) && total == Total(raw) && total != 0.0
    ensures Total(DivideAll(raw, total, n, n)) == 1.0
  {
    var j := DivideAll(raw, total, n, n);
    forall a, b | 0 <= a < n && 0 <= b < n
      ensures j[a][b] == raw[a][b] * (1.0 / total)
    {
      DivAsMul(raw[a][b], total);
    }
    TotalScaled(raw, 1.0 / total, j, n, n);
    DivAsMul(total, total);
    assert Total(j) == total / total == 1.0;
  }

  lemma DivAsMul(x: real, t: real)
    requires t != 0.0
    ensures x / t == x * (1.0 / t)
  {
  }

  /** (J * (K * pseudo_reciprocal(P))).sum(): the expectation reported for one site. */
  function SiteExpectation(d: Vec, v: Vec, p: Mat, k: Mat, n: nat): real
    requires |d| == n && |v| == n && IsMat(p, n, n) && IsMat(k, n, n)
  {
    Total(Hadamard(SiteJoint(d, v, p, n), Hadamard(k, PseudoReciprocalMat(p, n, n), n, n), n, n))
  }

  /** A site whose joint has total 0 (for instance one ruled out by the data) reports expectation 0. */
  lemma NullSiteExpectation(d: Vec, v: Vec, p: Mat, k: Mat, n: nat)
    requires |d| == n && |v| == n && IsMat(p, n, n) && IsMat(k, n, n)
    requires Total(Hadamard(Outer(d, v), p, n, n)) == 0.0
    ensures SiteExpectation(d, v, p, k, n) == 0.0
  {
    SiteJointIsDistribution(d, v, p, n);
    var kMod := Hadamard(k, PseudoReciprocalMat(p, n, n), n, n);
    TotalOfZeros(Hadamard(SiteJoint(d, v, p, n), kMod, n, n), n, n);
  }

  /**
   * When P has no zero entry and K is P scaled entrywise by W (W[a][b] the
   * expected weighted count given the end states a and b), dividing K by P
   * recovers W and the site expectation is the J-weighted sum of W.
   */
  lemma SiteExpectationAveragesCounts(d: Vec, v: Vec, p: Mat, w: Mat, n: nat)
    requires |d| == n && |v| == n && IsMat(p, n, n) && IsMat(w, n, n)
    requires forall a, b :: 0 <= a < n && 0 <= b < n ==> p[a][b] != 0.0
    ensures SiteExpectation(d, v, p, Hadamard(p, w, n, n), n) == Total(Hadamard(SiteJoint(d, v, p, n), w, n, n))
  {
    var pr := PseudoReciprocalMat(p, n, n);
    var kMod := Hadamard(Hadamard(p, w, n, n), pr, n, n);
    forall a, b | 0 <= a < n && 0 <= b < n
      ensures kMod[a][b] == w[a][b]
    {
      assert pr[a][b] * p[a][b] == 1.0;
      calc {
        kMod[a][b];
        (p[a][b] * w[a][b]) * pr[a][b];
        w[a][b] * (pr[a][b] * p[a][b]);
        w[a][b];
      }
    }
    MatExt(kMod, w, n, n);
  }

  /** The inputs of the expectation pass: Frechet evaluators, and marginal and subtree arrays for every node. */
  ghost predicate ExpectInputs(sc: Scene, g: seq<ExpmFrechet>, marg: map<nat, Mat>, sub: map<nat, Mat>) {
    Valid(sc, |g|) && AllFrechetConformant(g, sc.NStates()) && PartialsShaped(sc, marg) && PartialsShaped(sc, sub)
  }

  /** get_expm_and_frechet(rate) of the edge above c: the pair (P, K). */
  function EdgeFrechet(sc: Scene, g: seq<ExpmFrechet>, c: nat): (pk: (Mat, Mat))
    requires Valid(sc, |g|) && AllFrechetConformant(g, sc.NStates()) && c < sc.NNodes() && c != sc.tree.root
    ensures IsMat(pk.0, sc.NStates(), sc.NStates()) && IsMat(pk.1, sc.NStates(), sc.NStates())
  {
    var e := sc.UpEdge(c);
    FrechetShape(g[sc.edgeProcess[e]], sc.NStates(), sc.edgeRate[e]);
    g[sc.edgeProcess[e]].expmAndFrechet(sc.edgeRate[e])
  }

  /**
   * The per-site expectations on the edge above c, from the marginal at its
   * head, the subtree array at its tail, and the edge's (P, K).
   */
  function EdgeExpectations(sc: Scene, g: seq<ExpmFrechet>, marg: map<nat, Mat>, sub: map<nat, Mat>, c: nat): (e: Vec)
    requires ExpectInputs(sc, g, marg, sub) && c < sc.NNodes() && c != sc.tree.root
    ensures |e| == sc.NSites()
  {
    var pk := EdgeFrechet(sc, g, c);
    var head := marg[sc.tree.parent[c]];
    var tail := sub[c];
    seq(sc.NSites(), site requires 0 <= site < sc.NSites() =>
      SiteExpectation(Column(head, site, sc.NStates(), sc.NSites()), Column(tail, site, sc.NStates(), sc.NSites()),
                      pk.0, pk.1, sc.NStates()))
  }

  /** The expectations of every site on the edge above one node. */
  method EdgeSiteExpectations(g: seq<ExpmFrechet>, marg: map<nat, Mat>, sub: map<nat, Mat>, sc: Scene,
                              childToEdge: map<nat, Edge>, node: nat) returns (es: Vec)
    requires ExpectInputs(sc, g, marg, sub) && node < sc.NNodes() && node != sc.tree.root
    requires childToEdge == ChildToEdge(sc.edges)
    ensures es == EdgeExpectations(sc, g, marg, sub, node)
  {
    var nstates, nsites := sc.NStates(), sc.NSites();
    ChildToEdgeUp(sc, |g|, node);
    var edge := childToEdge[node];
    var edgeProcess := sc.edgeProcess[edge];
    var edgeRate := sc.edgeRate[edge];
    var headNode, tailNode := edge.0, edge.1;
    var headMarginal := marg[headNode];
    var subtreeArray := sub[tailNode];
    var pk := EdgeFrechet(sc, g, node);
    var p, k := pk.0, pk.1;
    var pRecip := PseudoReciprocalMat(p, nstates, nstates);
    es := SiteExpectations(headMarginal, subtreeArray, p, k, pRecip, nstates, nsites);
    assert es == EdgeExpectations(sc, g, marg, sub, node);
  }

  /** The loop over the sites of one edge: entry s is the expectation of site s. */
  method SiteExpectations(headMarginal: Mat, subtreeArray: Mat, p: Mat, k: Mat, pRecip: Mat, nstates: nat, nsites: nat)
    returns (es: Vec)
    requires IsMat(headMarginal, nstates, nsites) && IsMat(subtreeArray, nstates, nsites)
    requires IsMat(p, nstates, nstates) && IsMat(k, nstates, nstates)
    requires pRecip == PseudoReciprocalMat(p, nstates, nstates)
    ensures |es| == nsites
    ensures forall s :: 0 <= s < nsites ==>
      es[s] == SiteExpectation(Column(headMarginal, s, nstates, nsites), Column(subtreeArray, s, nstates, nsites),
                               p, k, nstates)
  {
    var a := new real[nsites];
    for site := 0 to nsites
      invariant forall s :: 0 <= s < site ==>
        a[s] == SiteExpectation(Column(headMarginal, s, nstates, nsites), Column(subtreeArray, s, nstates, nsites),
                                p, k, nstates)
    {
      var d := Column(headMarginal, site, nstates, nsites);
      var v := Column(subtreeArray, site, nstates, nsites);
      var j := Hadamard(Outer(d, v), p, nstates, nstates);
      var jTotal := Total(j);
      if jTotal != 0.0 {
        j := DivideAll(j, jTotal, nstates, nstates);
      } else {
        j := Const(nstates, nstates, 0.0);
      }
      var kMod := Hadamard(k, pRecip, nstates, nstates);
      a[site] := Total(Hadamard(j, kMod, nstates, nstates));
    }
    es := a[..];
  }

  /** The table holds an entry for the up-edge of exactly the non-root nodes at positions i and later. */
  ghost predicate EdgeKeys(sc: Scene, table: map<Edge, Vec>, i: nat)
    requires WellFormed(sc.tree) && IsPostorder(sc.tree, sc.order)
  {
    forall e: Edge :: e in table <==>
      e.1 < sc.NNodes() && e.1 != sc.tree.root && Pos(sc.order, e.1) >= i && e == sc.UpEdge(e.1)
  }

  /** Every up-edge entry of the table holds the expectations of its edge. */
  ghost predicate EdgeValues(sc: Scene, g: seq<ExpmFrechet>, marg: map<nat, Mat>, sub: map<nat, Mat>,
                             table: map<Edge, Vec>)
    requires ExpectInputs(sc, g, marg, sub)
  {
    forall e: Edge :: e in table ==>
      e.1 < sc.NNodes() && e.1 != sc.tree.root && table[e] == EdgeExpectations(sc, g, marg, sub, e.1)
  }

  /** Before the first visit no up-edge is recorded: the root is last in postorder. */
  lemma EdgeKeysEmpty(sc: Scene)
    requires WellFormed(sc.tree) && IsPostorder(sc.tree, sc.order) && sc.NNodes() > 0
    ensures EdgeKeys(sc, map[], sc.NNodes() - 1)
  {
  }

  /** After the last visit every up-edge is recorded. */
  lemma EdgeKeysAll(sc: Scene, table: map<Edge, Vec>)
    requires WellFormed(sc.tree) && IsPostorder(sc.tree, sc.order)
    requires EdgeKeys(sc, table, 0)
    ensures forall e: Edge :: e in table <==> e.1 < sc.NNodes() && e.1 != sc.tree.root && e == sc.UpEdge(e.1)
  {
  }

  lemma EdgeValuesInsert(sc: Scene, g: seq<ExpmFrechet>, marg: map<nat, Mat>, sub: map<nat, Mat>,
                         table: map<Edge, Vec>, node: nat, es: Vec)
    requires ExpectInputs(sc, g, marg, sub) && node < sc.NNodes() && node != sc.tree.root
    requires EdgeValues(sc, g, marg, sub, table) && es == EdgeExpectations(sc, g, marg, sub, node)
    ensures EdgeValues(sc, g, marg, sub, table[sc.UpEdge(node) := es])
  {
  }

  lemma EdgeKeysInsert(sc: Scene, table: map<Edge, Vec>, i: nat, es: Vec)
    requires WellFormed(sc.tree) && IsPostorder(sc.tree, sc.order) && i < sc.NNodes()
    requires EdgeKeys(sc, table, i + 1) && sc.order[i] != sc.tree.root
    ensures EdgeKeys(sc, table[sc.UpEdge(sc.order[i]) := es], i)
  {
    var node := sc.order[i];
    PosOf(sc.tree, sc.order, i);
    forall e: Edge
      ensures e in table[sc.UpEdge(node) := es] <==>
        e.1 < sc.NNodes() && e.1 != sc.tree.root && Pos(sc.order, e.1) >= i && e == sc.UpEdge(e.1)
    {
      if e.1 != node && e.1 < sc.NNodes() {
        assert Pos(sc.order, e.1) != i;
      }
    }
  }

  /**
   * get_edge_to_site_expectations: visit every node but the root in reverse
   * postorder and record the expectations of its up-edge.
   */
  method GetEdgeToSiteExpectations(g: seq<ExpmFrechet>, marg: map<nat, Mat>, sub: map<nat, Mat>, sc: Scene)
    returns (r: map<Edge, Vec>)
    requires ExpectInputs(sc, g, marg, sub)
    ensures forall e: Edge :: e in r <==> e.1 < sc.NNodes() && e.1 != sc.tree.root && e == sc.UpEdge(e.1)
    ensures forall e: Edge :: e in r ==> r[e] == EdgeExpectations(sc, g, marg, sub, e.1)
  {
    var childToEdge := ChildToEdge(sc.edges);
    r := map[];
    var i := sc.NNodes() - 1;
    EdgeKeysEmpty(sc);
    while i > 0
      invariant 0 <= i <= sc.NNodes() - 1
      invariant EdgeKeys(sc, r, i) && EdgeValues(sc, g, marg, sub, r)
    {
      var j := i - 1;
      var node := sc.order[j];
      assert node != sc.tree.root;
      var es := EdgeSiteExpectations(g, marg, sub, sc, childToEdge, node);
      EdgeKeysInsert(sc, r, j, es);
      EdgeValuesInsert(sc, g, marg, sub, r, node, es);
      r := r[sc.UpEdge(node) := es];
      i := j;
    }
    EdgeKeysAll(sc, r);
  }

  // ---------------------------------------------------------------------
  // process_json_in: prior vector, feasibility and output
  // ---------------------------------------------------------------------

  /** Every index of ind addresses an entry of a. */
  predicate IndicesBelow(ind: seq<nat>, n: nat) {
    forall k :: 0 <= k < |ind| ==> ind[k] < n
  }

  /**
   * np.put(a, ind, v): in order, entry ind[k] receives v[k mod |v|], so a
   * repeated index keeps its last value; nothing is written when v is empty.
   */
  function Put(a: Vec, ind: seq<nat>, v: Vec): (r: Vec)
    requires IndicesBelow(ind, |a|)
    ensures |r| == |a|
  {
    if |ind| == 0 || |v| == 0 then a
    else
      var n := |ind| - 1;
      Put(a, ind[..n], v)[ind[n] := v[n % |v|]]
  }

  /**
   * An entry no index names keeps its value; an entry named by ind[k] and by
   * no later index gets v[k mod |v|].
   */
  lemma {:induction false} PutMeaning(a: Vec, ind: seq<nat>, v: Vec, s: nat)
    requires IndicesBelow(ind, |a|) && s < |a|
    ensures (|v| == 0 || forall k :: 0 <= k < |ind| ==> ind[k] != s) ==> Put(a, ind, v)[s] == a[s]
    ensures forall k :: 0 <= k < |ind| && ind[k] == s && |v| > 0 && (forall l :: k < l < |ind| ==> ind[l] != s) ==>
      Put(a, ind, v)[s] == v[k % |v|]
  {
    if |ind| > 0 && |v| > 0 {
      var n := |ind| - 1;
      var init := ind[..n];
      var before := Put(a, init, v);
      assert forall k :: 0 <= k < n ==> init[k] == ind[k];
      assert Put(a, ind, v) == before[ind[n] := v[n % |v|]];
      PutMeaning(a, init, v, s);
      forall k | 0 <= k < |ind| && ind[k] == s && (forall l :: k < l < |ind| ==> ind[l] != s)
        ensures Put(a, ind, v)[s] == v[k % |v|]
      {
        if k < n {
          assert ind[n] != s;
          assert Put(a, ind, v)[s] == before[s];
        }
      }
    }
  }

  /** ravel_multi_index of every feasible state. */
  function FlatIndices(states: seq<seq<int>>, shape: seq<nat>): (ind: seq<nat>)
    requires forall k :: 0 <= k < |states| ==> InBounds(states[k], shape)
    ensures |ind| == |states| && IndicesBelow(ind, NStates(shape))
    ensures forall k :: 0 <= k < |states| ==> ind[k] == Ravel(states[k], shape)
  {
    if |states| == 0 then []
    else
      var n := |states| - 1;
      RavelBound(states[n], shape);
      FlatIndices(states[..n], shape) + [Ravel(states[n], shape)]
  }

  /** The prior vector: zeros, with the listed probabilities put at the listed states. */
  function PriorSpec(shape: seq<nat>, states: seq<seq<int>>, probs: Vec): (d: Vec)
    requires forall k :: 0 <= k < |states| ==> InBounds(states[k], shape)
    ensures |d| == NStates(shape)
  {
    Put(seq(NStates(shape), _ => 0.0), FlatIndices(states, shape), probs)
  }

  /**
   * With distinct states and one probability per state, the prior vector
   * holds each state's probability at its flat index and 0 everywhere else.
   */
  lemma PriorVectorMeaning(shape: seq<nat>, states: seq<seq<int>>, probs: Vec, s: nat)
    requires ValidShape(shape) && forall k :: 0 <= k < |states| ==> InBounds(states[k], shape)
    requires forall k, l :: 0 <= k < l < |states| ==> states[k] != states[l]
    requires |probs| == |states| && s < NStates(shape)
    ensures forall k :: 0 <= k < |states| && s == Ravel(states[k], shape) ==> PriorSpec(shape, states, probs)[s] == probs[k]
    ensures (forall k :: 0 <= k < |states| ==> s != Ravel(states[k], shape)) ==> PriorSpec(shape, states, probs)[s] == 0.0
  {
    var zeros := seq(NStates(shape), _ => 0.0);
    var ind := FlatIndices(states, shape);
    var d := PriorSpec(shape, states, probs);
    assert d == Put(zeros, ind, probs);
    PutMeaning(zeros, ind, probs, s);
    forall k | 0 <= k < |states| && s == Ravel(states[k], shape)
      ensures d[s] == probs[k]
    {
      forall l | k < l < |ind|
        ensures ind[l] != s
      {
        DistinctFlatIndices(states, shape, k, l);
      }
      ModSmall(k, |probs|);
    }
  }

  lemma ModSmall(k: nat, n: nat)
    requires k < n
    ensures k % n == k
  {
  }

  /** Distinct in-bounds states have distinct flat indices. */
  lemma DistinctFlatIndices(states: seq<seq<int>>, shape: seq<nat>, k: nat, l: nat)
    requires ValidShape(shape) && forall k :: 0 <= k < |states| ==> InBounds(states[k], shape)
    requires k < l < |states| && states[k] != states[l]
    ensures Ravel(states[k], shape) != Ravel(states[l], shape)
  {
    if Ravel(states[k], shape) == Ravel(states[l], shape) {
      RavelInjective(states[k], states[l], shape);
    }
  }

  /**
   * The prior vector of process_json_in: an error (ValueError in
   * ravel_multi_index) when a feasible state is not a state of the space.
   */
  method PriorVector(shape: seq<nat>, states: seq<seq<int>>, probs: Vec) returns (r: Option<Vec>)
    ensures r.Some? <==> forall k :: 0 <= k < |states| ==> InBounds(states[k], shape)
    ensures r.Some? ==> r.value == PriorSpec(shape, states, probs)
  {
    for k := 0 to |states|
      invariant forall l :: 0 <= l < k ==> InBounds(states[l], shape)
    {
      if !InBounds(states[k], shape) {
        return None;
      }
    }
    var feas := FlatIndices(states, shape);
    var nstates := NStates(shape);
    var distn := new real[nstates](_ => 0.0);
    assert distn[..] == seq(nstates, _ => 0.0);
    if |probs| > 0 {
      for k := 0 to |feas|
        invariant distn[..] == Put(seq(nstates, _ => 0.0), feas[..k], probs)
      {
        assert feas[..k + 1][..k] == feas[..k];
        distn[feas[k]] := probs[k % |probs|];
      }
      assert feas[..|feas|] == feas;
    }
    r := Some(distn[..]);
  }

  /** The fields of the output that depend on the data. */
  datatype Output = Output(feasibility: bool, expectations: Option<seq<seq<real>>>)

  /** The per-site expectation series of every listed edge, in edge-list order. */
  function EdgeRows(edges: seq<Edge>, table: map<Edge, Vec>): (rows: seq<Vec>)
    requires forall i :: 0 <= i < |edges| ==> edges[i] in table
    ensures |rows| == |edges| && forall i :: 0 <= i < |edges| ==> rows[i] == table[edges[i]]
  {
    seq(|edges|, i requires 0 <= i < |edges| => table[edges[i]])
  }

  /**
   * The tail of process_json_in: the data are feasible when every site's log
   * likelihood is finite; only then are the expectations reported, one row
   * per site holding one entry per edge (zip of the per-edge series).
   */
  method AssembleOutput(edges: seq<Edge>, table: map<Edge, Vec>, likelihoods: Vec,
                        log: real -> real, isFinite: real -> bool) returns (o: Output)
    requires forall i :: 0 <= i < |edges| ==> edges[i] in table
    ensures o.feasibility <==> forall site :: 0 <= site < |likelihoods| ==> isFinite(log(likelihoods[site]))
    ensures o.feasibility ==> o.expectations == Some(Zip(EdgeRows(edges, table)))
    ensures !o.feasibility ==> o.expectations == None
  {
    var feasible := forall site | 0 <= site < |likelihoods| :: isFinite(log(likelihoods[site]));
    if feasible {
      var rows: seq<Vec> := [];
      for i := 0 to |edges|
        invariant |rows| == i && forall l :: 0 <= l < i ==> rows[l] == table[edges[l]]
      {
        rows := rows + [table[edges[i]]];
      }
      assert rows == EdgeRows(edges, table);
      o := Output(true, Some(Zip(rows)));
    } else {
      o := Output(false, None);
    }
  }

  /**
   * When every edge has a series of nsites values the reported expectations
   * have one row per site, and entry i of a site's row belongs to edges[i].
   */
  lemma ExpectationsLayout(edges: seq<Edge>, table: map<Edge, Vec>, nsites: nat)
    requires |edges| > 0 && forall i :: 0 <= i < |edges| ==> edges[i] in table && |table[edges[i]]| == nsites
    ensures var out := Zip(EdgeRows(edges, table));
      |out| == nsites &&
      forall site, i :: 0 <= site < nsites && 0 <= i < |edges| ==> |out[site]| == |edges| && out[site][i] == table[edges[i]][site]
  {
    var rows := EdgeRows(edges, table);
    var i :| 0 <= i < |rows| && MinLen(rows) == |rows[i]|;
  }

  // ---------------------------------------------------------------------
  // process_json_in, end to end
  // ---------------------------------------------------------------------

  /** The subtree array of every node, as stored when every array is kept. */
  ghost function SubtreeTable(sc: Scene, f: seq<Expm>): (t: map<nat, Mat>)
    requires PassInputs(sc, f)
    ensures PartialsShaped(sc, t)
  {
    map m: nat | m < sc.NNodes() :: Subtree(sc, f, m)
  }

  /** The marginal array of every node. */
  ghost function MarginalTable(sc: Scene, f: seq<Expm>, sub: map<nat, Mat>, distn: Vec): (t: map<nat, Mat>)
    requires MargInputs(sc, f, sub, distn)
    ensures PartialsShaped(sc, t)
  {
    map m: nat | m < sc.NNodes() :: Marginal(sc, f, sub, distn, m)
  }

  /** The expectation series of every listed edge, in edge-list order. */
  ghost function ExpectationRows(sc: Scene, g: seq<ExpmFrechet>, marg: map<nat, Mat>, sub: map<nat, Mat>)
    : (rows: seq<Vec>)
    requires ExpectInputs(sc, g, marg, sub)
    ensures |rows| == |sc.edges|
  {
    seq(|sc.edges|, i requires 0 <= i < |sc.edges| => EdgeExpectations(sc, g, marg, sub, sc.edges[i].1))
  }

  lemma SubtreeTableIs(sc: Scene, f: seq<Expm>, t: map<nat, Mat>)
    requires PassInputs(sc, f)
    requires forall m: nat :: m in t <==> m < sc.NNodes()
    requires forall m: nat :: m in t ==> m < sc.NNodes() && t[m] == Subtree(sc, f, m)
    ensures t == SubtreeTable(sc, f)
  {
  }

  lemma MarginalTableIs(sc: Scene, f: seq<Expm>, sub: map<nat, Mat>, distn: Vec, t: map<nat, Mat>)
    requires MargInputs(sc, f, sub, distn)
    requires forall m: nat :: m in t <==> m < sc.NNodes()
    requires forall m: nat :: m in t ==> t[m] == Marginal(sc, f, sub, distn, m)
    ensures t == MarginalTable(sc, f, sub, distn)
  {
  }

  lemma ExpectationRowsAre(sc: Scene, g: seq<ExpmFrechet>, marg: map<nat, Mat>, sub: map<nat, Mat>, t: map<Edge, Vec>)
    requires ExpectInputs(sc, g, marg, sub)
    requires forall e: Edge :: e in t <==> e.1 < sc.NNodes() && e.1 != sc.tree.root && e == sc.UpEdge(e.1)
    requires forall e: Edge :: e in t ==> t[e] == EdgeExpectations(sc, g, marg, sub, e.1)
    ensures forall i :: 0 <= i < |sc.edges| ==> sc.edges[i] in t
    ensures EdgeRows(sc.edges, t) == ExpectationRows(sc, g, marg, sub)
  {
  }

  /**
   * The data-dependent output of process_json_in for in-bounds prior states:
   * feasibility of every site's likelihood under the prior, and when feasible
   * the per-site, per-edge expectations.
   */
  ghost function ExpectedOutput(sc: Scene, f: seq<Expm>, g: seq<ExpmFrechet>, states: seq<seq<int>>, probs: Vec,
                                log: real -> real, isFinite: real -> bool): (o: Output)
    requires PassInputs(sc, f) && |g| == |f| && AllFrechetConformant(g, sc.NStates())
    requires forall k :: 0 <= k < |states| ==> InBounds(states[k], sc.shape)
    ensures var l := SiteLikelihoods(PriorSpec(sc.shape, states, probs), Subtree(sc, f, sc.tree.root), sc.NStates(), sc.NSites());
      o.feasibility <==> forall site :: 0 <= site < sc.NSites() ==> isFinite(log(l[site]))
  {
    var distn := PriorSpec(sc.shape, states, probs);
    var sub := SubtreeTable(sc, f);
    var l := SiteLikelihoods(distn, sub[sc.tree.root], sc.NStates(), sc.NSites());
    var feasible := forall site :: 0 <= site < sc.NSites() ==> isFinite(log(l[site]));
    var rows := ExpectationRows(sc, g, MarginalTable(sc, f, sub, distn), sub);
    Output(feasible, if feasible then Some(Zip(rows)) else None)
  }

  /**
   * process_json_in after unpacking: the prior vector, the subtree arrays
   * (all stored), the site likelihoods at the root, the marginals, the edge
   * expectations and the output.  None stands for the errors raised on an
   * out-of-range prior state or observation.
   */
  method ProcessJsonIn(sc: Scene, f: seq<Expm>, g: seq<ExpmFrechet>, states: seq<seq<int>>, probs: Vec,
                       log: real -> real, isFinite: real -> bool) returns (r: Option<Output>)
    requires PassInputs(sc, f) && |g| == |f| && AllFrechetConformant(g, sc.NStates())
    ensures r.Some? <==> (forall k :: 0 <= k < |states| ==> InBounds(states[k], sc.shape)) && ObsValid(sc)
    ensures r.Some? ==> r.value == ExpectedOutput(sc, f, g, states, probs, log, isFinite)
  {
    var distn := PriorVector(sc.shape, states, probs);
    if distn.None? {
      return None;
    }
    var stored := GetSubtreeLikelihoods(f, true, sc);
    if stored.None? {
      return None;
    }
    var sub := stored.value;
    SubtreeTableIs(sc, f, sub);
    var likelihoods := SiteLikelihoods(distn.value, sub[sc.tree.root], sc.NStates(), sc.NSites());
    var marg := GetNodeToMarginalDistn(f, sub, distn.value, sc);
    MarginalTableIs(sc, f, sub, distn.value, marg);
    var table := GetEdgeToSiteExpectations(g, marg, sub, sc);
    ExpectationRowsAre(sc, g, marg, sub, table);
    var o := AssembleOutput(sc.edges, table, likelihoods, log, isFinite);
    OutputIs(sc, f, g, states, probs, log, isFinite, sub, marg, table, likelihoods, o);
    r := Some(o);
  }

  /** The assembled output, from the tables the passes return, is the expected output. */
  lemma OutputIs(sc: Scene, f: seq<Expm>, g: seq<ExpmFrechet>, states: seq<seq<int>>, probs: Vec,
                 log: real -> real, isFinite: real -> bool, sub: map<nat, Mat>, marg: map<nat, Mat>,
                 table: map<Edge, Vec>, likelihoods: Vec, o: Output)
    requires PassInputs(sc, f) && |g| == |f| && AllFrechetConformant(g, sc.NStates())
    requires forall k :: 0 <= k < |states| ==> InBounds(states[k], sc.shape)
    requires sub == SubtreeTable(sc, f)
    requires likelihoods == SiteLikelihoods(PriorSpec(sc.shape, states, probs), sub[sc.tree.root], sc.NStates(), sc.NSites())
    requires marg == MarginalTable(sc, f, sub, PriorSpec(sc.shape, states, probs))
    requires forall i :: 0 <= i < |sc.edges| ==> sc.edges[i] in table
    requires EdgeRows(sc.edges, table) == ExpectationRows(sc, g, marg, sub)
    requires o.feasibility <==> forall site :: 0 <= site < |likelihoods| ==> isFinite(log(likelihoods[site]))
    requires o.feasibility ==> o.expectations == Some(Zip(EdgeRows(sc.edges, table)))
    requires !o.feasibility ==> o.expectations == None
    ensures o == ExpectedOutput(sc, f, g, states, probs, log, isFinite)
  {
  }
}
