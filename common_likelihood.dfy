/**
 * The observation indicator and the three tree passes that are shared by the
 * likelihood and the expectation code: the postorder subtree pass, the
 * postorder conditional pass and the preorder partials pass.
 */
module CommonLikelihood {
  import opened Wrappers
  import opened Matrices
  import opened StateSpace
  import opened Trees
  import opened Scenes
  import opened ExpmOracle

  // ---------------------------------------------------------------------
  // Observation indicators
  // ---------------------------------------------------------------------

  /**
   * The row that np.take selects from the (k+1)-by-k indicator table for an
   * observed value v: negative values count from the end, so -1 selects the
   * all-ones row k.  None where np.take raises IndexError.
   */
  function TableRow(k: nat, v: int): Option<nat>
  {
    if -(k + 1) <= v < 0 then Some(v + k + 1)
    else if 0 <= v <= k then Some(v)
    else None
  }

  /** Entry (r, x) of the indicator table: ones on the diagonal and in the last row. */
  function TableEntry(k: nat, r: nat, x: nat): real
  {
    if r == k || r == x then 1.0 else 0.0
  }

  /** Observed value v (of a variable with k values) is compatible with value x. */
  predicate Supports(k: nat, v: int, x: nat) {
    TableRow(k, v).Some? && (TableRow(k, v).value == k || TableRow(k, v).value == x)
  }

  /** The coordinate of state s on axis a. */
  function Coord(sc: Scene, s: nat, a: nat): nat
    requires ObservationsWellShaped(sc) && a < |sc.shape|
  {
    Unravel(s, sc.shape)[a]
  }

  /** Every site's value of observable idx can be looked up. */
  predicate ObservableValid(sc: Scene, idx: nat)
    requires ObservationsWellShaped(sc) && idx < |sc.obsNodes|
  {
    forall site :: 0 <= site < |sc.obs| ==> TableRow(sc.shape[sc.obsAxes[idx]], sc.obs[site][idx]).Some?
  }

  /** Every observable of node can be looked up. */
  predicate NodeObsValid(sc: Scene, node: nat)
    requires ObservationsWellShaped(sc)
  {
    forall idx :: 0 <= idx < |sc.obsNodes| && sc.obsNodes[idx] == node ==> ObservableValid(sc, idx)
  }

  /** Every observable of every node of the tree can be looked up. */
  predicate ObsValid(sc: Scene)
    requires ObservationsWellShaped(sc)
  {
    forall node :: 0 <= node < sc.NNodes() ==> NodeObsValid(sc, node)
  }

  /** State s at this site agrees with every observation made at node. */
  predicate Supported(sc: Scene, node: nat, s: nat, site: nat)
    requires ObservationsWellShaped(sc) && site < |sc.obs|
  {
    forall idx :: 0 <= idx < |sc.obsNodes| && sc.obsNodes[idx] == node ==>
      Supports(sc.shape[sc.obsAxes[idx]], sc.obs[site][idx], Coord(sc, s, sc.obsAxes[idx]))
  }

  /** The indicator array of node: shape (nstates, nsites), 1 where the state agrees with the data. */
  function Indicator(sc: Scene, node: nat): (m: Mat)
    requires ObservationsWellShaped(sc)
    ensures IsMat(m, sc.NStates(), sc.NSites())
  {
    seq(sc.NStates(), s requires 0 <= s < sc.NStates() => seq(sc.NSites(), site requires 0 <= site < sc.NSites() =>
      if Supported(sc, node, s, site) then 1.0 else 0.0))
  }

  /** np.flatnonzero(observable_nodes == node): the observables of node, in increasing order. */
  function LocalObservables(nodes: seq<nat>, node: nat): (ids: seq<nat>)
    ensures forall j :: 0 <= j < |ids| ==> ids[j] < |nodes| && nodes[ids[j]] == node
    ensures forall idx :: 0 <= idx < |nodes| && nodes[idx] == node ==> idx in ids
    ensures forall i, j :: 0 <= i < j < |ids| ==> ids[i] < ids[j]
  {
    if |nodes| == 0 then []
    else
      var n := |nodes| - 1;
      assert forall idx :: 0 <= idx < n ==> nodes[..n][idx] == nodes[idx];
      LocalObservables(nodes[..n], node) + (if nodes[n] == node then [n] else [])
  }

  /** The mask that observable idx multiplies into the indicator array. */
  function Mask(sc: Scene, idx: nat): (m: Mat)
    requires ObservationsWellShaped(sc) && idx < |sc.obsNodes| && ObservableValid(sc, idx)
    ensures IsMat(m, sc.NStates(), sc.NSites())
    ensures forall s, site :: 0 <= s < sc.NStates() && 0 <= site < sc.NSites() ==>
      m[s][site] == if Supports(sc.shape[sc.obsAxes[idx]], sc.obs[site][idx], Coord(sc, s, sc.obsAxes[idx])) then 1.0 else 0.0
  {
    var k := sc.shape[sc.obsAxes[idx]];
    seq(sc.NStates(), s requires 0 <= s < sc.NStates() => seq(sc.NSites(), site requires 0 <= site < sc.NSites() =>
      TableEntry(k, TableRow(k, sc.obs[site][idx]).value, Coord(sc, s, sc.obsAxes[idx]))))
  }

  /** The product of the masks of the observables ids, taken in order. */
  function MaskProduct(sc: Scene, ids: seq<nat>, s: nat, site: nat): real
    requires ObservationsWellShaped(sc) && site < sc.NSites()
    requires forall j :: 0 <= j < |ids| ==> ids[j] < |sc.obsNodes|
  {
    if |ids| == 0 then 1.0
    else
      var idx := ids[|ids| - 1];
      MaskProduct(sc, ids[..|ids| - 1], s, site) *
        (if Supports(sc.shape[sc.obsAxes[idx]], sc.obs[site][idx], Coord(sc, s, sc.obsAxes[idx])) then 1.0 else 0.0)
  }

  /** Every observable in ids is compatible with state s at this site. */
  predicate AllSupport(sc: Scene, ids: seq<nat>, s: nat, site: nat)
    requires ObservationsWellShaped(sc) && site < sc.NSites()
    requires forall j :: 0 <= j < |ids| ==> ids[j] < |sc.obsNodes|
  {
    forall j :: 0 <= j < |ids| ==>
      Supports(sc.shape[sc.obsAxes[ids[j]]], sc.obs[site][ids[j]], Coord(sc, s, sc.obsAxes[ids[j]]))
  }

  /** A product of 0/1 masks is 1 exactly where every factor is 1, and 0 elsewhere. */
  lemma {:induction false} MaskProductMeaning(sc: Scene, ids: seq<nat>, s: nat, site: nat)
    requires ObservationsWellShaped(sc) && site < sc.NSites()
    requires forall j :: 0 <= j < |ids| ==> ids[j] < |sc.obsNodes|
    ensures MaskProduct(sc, ids, s, site) == if AllSupport(sc, ids, s, site) then 1.0 else 0.0
  {
    if |ids| > 0 {
      var n := |ids| - 1;
      assert forall j :: 0 <= j < n ==> ids[..n][j] == ids[j];
      MaskProductMeaning(sc, ids[..n], s, site);
    }
  }

  /** Entry (s, site) of the indicator array. */
  lemma IndicatorAt(sc: Scene, node: nat, s: nat, site: nat)
    requires ObservationsWellShaped(sc) && s < sc.NStates() && site < sc.NSites()
    ensures Indicator(sc, node)[s][site] == if Supported(sc, node, s, site) then 1.0 else 0.0
  {
  }

  /** The local observables of node all support state s exactly when the node's observations do. */
  lemma LocalSupport(sc: Scene, node: nat, s: nat, site: nat)
    requires ObservationsWellShaped(sc) && site < sc.NSites()
    ensures AllSupport(sc, LocalObservables(sc.obsNodes, node), s, site) <==> Supported(sc, node, s, site)
  {
    var local := LocalObservables(sc.obsNodes, node);
    if AllSupport(sc, local, s, site) {
      forall idx | 0 <= idx < |sc.obsNodes| && sc.obsNodes[idx] == node
        ensures Supports(sc.shape[sc.obsAxes[idx]], sc.obs[site][idx], Coord(sc, s, sc.obsAxes[idx]))
      {
        var j :| 0 <= j < |local| && local[j] == idx;
      }
    }
  }

  /** Entry (s, site) of the product of the local masks is the indicator entry. */
  lemma MaskProductIsIndicator(sc: Scene, node: nat, s: nat, site: nat)
    requires ObservationsWellShaped(sc) && s < sc.NStates() && site < sc.NSites()
    ensures MaskProduct(sc, LocalObservables(sc.obsNodes, node), s, site) == Indicator(sc, node)[s][site]
  {
    MaskProductMeaning(sc, LocalObservables(sc.obsNodes, node), s, site);
    LocalSupport(sc, node, s, site);
    IndicatorAt(sc, node, s, site);
  }

  /** Once every local mask is multiplied in, the array is the indicator. */
  lemma IndicatorFromMasks(sc: Scene, node: nat, obs: Mat)
    requires ObservationsWellShaped(sc)
    requires IsMat(obs, sc.NStates(), sc.NSites())
    requires forall s, site :: 0 <= s < sc.NStates() && 0 <= site < sc.NSites() ==>
      obs[s][site] == MaskProduct(sc, LocalObservables(sc.obsNodes, node), s, site)
    ensures obs == Indicator(sc, node)
  {
    forall s, site | 0 <= s < sc.NStates() && 0 <= site < sc.NSites()
      ensures obs[s][site] == Indicator(sc, node)[s][site]
    {
      MaskProductIsIndicator(sc, node, s, site);
    }
    MatExt(obs, Indicator(sc, node), sc.NStates(), sc.NSites());
  }

  /**
   * create_indicator_array: start from ones and multiply in the mask of every
   * observable of node.  None when an observed value is out of np.take's range.
   */
  method CreateIndicatorArray(sc: Scene, node: nat) returns (r: Option<Mat>)
    requires ObservationsWellShaped(sc)
    ensures r.Some? <==> NodeObsValid(sc, node)
    ensures r.Some? ==> r.value == Indicator(sc, node)
  {
    var nstates, nsites := sc.NStates(), sc.NSites();
    var local := LocalObservables(sc.obsNodes, node);
    var obs := Const(nstates, nsites, 1.0);
    var k := 0;
    while k < |local|
      invariant 0 <= k <= |local|
      invariant MasksSoFar(sc, local, k, obs)
    {
      var idx := local[k];
      if !ObservableValid(sc, idx) {
        InvalidObservable(sc, node, k);
        return None;
      }
      MaskStep(sc, local, k, obs);
      obs := Hadamard(obs, Mask(sc, idx), nstates, nsites);
      k := k + 1;
    }
    AllMasks(sc, node, obs);
    r := Some(obs);
  }

  /** One local observable that cannot be looked up makes the node's observations invalid. */
  lemma InvalidObservable(sc: Scene, node: nat, k: nat)
    requires ObservationsWellShaped(sc)
    requires var local := LocalObservables(sc.obsNodes, node); k < |local| && !ObservableValid(sc, local[k])
    ensures !NodeObsValid(sc, node)
  {
  }

  /** With every local observable valid and every mask multiplied in, the array is the indicator. */
  lemma AllMasks(sc: Scene, node: nat, obs: Mat)
    requires ObservationsWellShaped(sc)
    requires var local := LocalObservables(sc.obsNodes, node); MasksSoFar(sc, local, |local|, obs)
    ensures NodeObsValid(sc, node) && obs == Indicator(sc, node)
  {
    var local := LocalObservables(sc.obsNodes, node);
    assert local[..|local|] == local;
    IndicatorFromMasks(sc, node, obs);
  }

  /**
   * The first k observables of ids can be looked up, and obs holds the
   * product of their masks, entry by entry.
   */
  ghost predicate MasksSoFar(sc: Scene, ids: seq<nat>, k: nat, obs: Mat)
    requires ObservationsWellShaped(sc) && k <= |ids|
    requires forall j :: 0 <= j < |ids| ==> ids[j] < |sc.obsNodes|
  {
    IsMat(obs, sc.NStates(), sc.NSites()) &&
    (forall j :: 0 <= j < k ==> ObservableValid(sc, ids[j])) &&
    forall s, site :: 0 <= s < sc.NStates() && 0 <= site < sc.NSites() ==>
      obs[s][site] == MaskProduct(sc, ids[..k], s, site)
  }

  /** Multiplying in the mask of one more observable extends the product by it. */
  lemma MaskStep(sc: Scene, ids: seq<nat>, k: nat, obs: Mat)
    requires ObservationsWellShaped(sc) && k < |ids|
    requires forall j :: 0 <= j < |ids| ==> ids[j] < |sc.obsNodes|
    requires ObservableValid(sc, ids[k]) && MasksSoFar(sc, ids, k, obs)
    ensures MasksSoFar(sc, ids, k + 1, Hadamard(obs, Mask(sc, ids[k]), sc.NStates(), sc.NSites()))
  {
    assert ids[..k + 1][..k] == ids[..k];
  }

  /**
   * For values in the documented encoding (-1 for missing, else a value of
   * the variable), an indicator entry is 1 exactly when every observation at
   * the node is missing or equals the state's coordinate on its axis, and 0
   * otherwise.
   */
  lemma IndicatorEntry(sc: Scene, node: nat, s: nat, site: nat)
    requires ObservationsWellShaped(sc) && s < sc.NStates() && site < sc.NSites()
    requires forall idx :: 0 <= idx < |sc.obsNodes| && sc.obsNodes[idx] == node ==>
      -1 <= sc.obs[site][idx] < sc.shape[sc.obsAxes[idx]]
    ensures Indicator(sc, node)[s][site] ==
      if forall idx :: 0 <= idx < |sc.obsNodes| && sc.obsNodes[idx] == node ==>
        sc.obs[site][idx] == -1 || sc.obs[site][idx] == Unravel(s, sc.shape)[sc.obsAxes[idx]]
      then 1.0 else 0.0
  {
  }

  // ---------------------------------------------------------------------
  // Postorder subtree pass (get_subtree_likelihoods)
  // ---------------------------------------------------------------------

  /** The requirements shared by every pass: a valid scene and conformant evaluators. */
  ghost predicate PassInputs(sc: Scene, f: seq<Expm>) {
    Valid(sc, |f|) && AllConformant(f, sc.NStates())
  }

  /** The evaluator of the process on the edge above c. */
  function EdgeExpm(sc: Scene, f: seq<Expm>, c: nat): Expm
    requires Valid(sc, |f|) && c < sc.NNodes() && c != sc.tree.root
  {
    f[sc.edgeProcess[sc.UpEdge(c)]]
  }

  /**
   * The subtree array of node n after its first k child edges: its indicator
   * times expm_mul(rate, subtree array of c) for each of those children c.
   */
  function SubtreeAcc(sc: Scene, f: seq<Expm>, n: nat, k: nat): (m: Mat)
    requires PassInputs(sc, f) && n < sc.NNodes() && k <= |sc.tree.children[n]|
    ensures IsMat(m, sc.NStates(), sc.NSites())
    decreases Pos(sc.order, n), k
  {
    if k == 0 then Indicator(sc, n)
    else
      var c := sc.tree.children[n][k - 1];
      ChildFacts(sc.tree, sc.order, n, k - 1);
      var sub := SubtreeAcc(sc, f, c, |sc.tree.children[c]|);
      var ev := EdgeExpm(sc, f, c);
      MulShape(ev, sc.NStates(), sc.edgeRate[sc.UpEdge(c)], sub, sc.NSites());
      Hadamard(SubtreeAcc(sc, f, n, k - 1), ev.mul(sc.edgeRate[sc.UpEdge(c)], sub), sc.NStates(), sc.NSites())
  }

  /** One more child edge multiplied into the accumulator of n. */
  lemma SubtreeAccStep(sc: Scene, f: seq<Expm>, n: nat, k: nat)
    requires PassInputs(sc, f) && n < sc.NNodes() && k < |sc.tree.children[n]|
    ensures sc.tree.children[n][k] < sc.NNodes() && sc.tree.children[n][k] != sc.tree.root
    ensures sc.UpEdge(sc.tree.children[n][k]) == (n, sc.tree.children[n][k])
    ensures IsMat(EdgeExpm(sc, f, sc.tree.children[n][k]).mul(sc.edgeRate[(n, sc.tree.children[n][k])], Subtree(sc, f, sc.tree.children[n][k])),
                  sc.NStates(), sc.NSites())
    ensures SubtreeAcc(sc, f, n, k + 1) ==
      Hadamard(SubtreeAcc(sc, f, n, k),
               EdgeExpm(sc, f, sc.tree.children[n][k]).mul(sc.edgeRate[(n, sc.tree.children[n][k])], Subtree(sc, f, sc.tree.children[n][k])),
               sc.NStates(), sc.NSites())
  {
    var c := sc.tree.children[n][k];
    ChildFacts(sc.tree, sc.order, n, k);
    MulShape(EdgeExpm(sc, f, c), sc.NStates(), sc.edgeRate[(n, c)], Subtree(sc, f, c), sc.NSites());
  }

  /** The subtree likelihood array of n: every child edge multiplied in. */
  function Subtree(sc: Scene, f: seq<Expm>, n: nat): (m: Mat)
    requires PassInputs(sc, f) && n < sc.NNodes()
    ensures IsMat(m, sc.NStates(), sc.NSites())
  {
    SubtreeAcc(sc, f, n, |sc.tree.children[n]|)
  }

  /**
   * Which arrays the subtree pass holds after visiting the first i nodes:
   * every visited node when everything is stored, otherwise only the visited
   * nodes whose parent has not been visited yet.
   */
  predicate Held(sc: Scene, storeAll: bool, m: nat, i: nat)
    requires WellFormed(sc.tree) && IsPostorder(sc.tree, sc.order)
  {
    m < sc.NNodes() && Pos(sc.order, m) < i &&
    (storeAll || m == sc.tree.root || Pos(sc.order, sc.tree.parent[m]) >= i)
  }

  /** As Held, while node order[i] has consumed its first k children. */
  predicate HeldDuring(sc: Scene, storeAll: bool, m: nat, i: nat, k: nat)
    requires WellFormed(sc.tree) && IsPostorder(sc.tree, sc.order) && i < sc.NNodes()
    requires k <= |sc.tree.children[sc.order[i]]|
  {
    var node := sc.order[i];
    m < sc.NNodes() && Pos(sc.order, m) < i &&
    (storeAll || m == sc.tree.root || Pos(sc.order, sc.tree.parent[m]) > i ||
     (sc.tree.parent[m] == node && m !in sc.tree.children[node][..k]))
  }

  lemma HeldStartsNode(sc: Scene, storeAll: bool, i: nat, m: nat)
    requires WellFormed(sc.tree) && IsPostorder(sc.tree, sc.order) && i < sc.NNodes()
    ensures Held(sc, storeAll, m, i) <==> HeldDuring(sc, storeAll, m, i, 0)
  {
    if m < sc.NNodes() && m != sc.tree.root {
      ChildBeforeParent(sc.tree, sc.order, m);
      PosOf(sc.tree, sc.order, i);
    }
  }

  lemma HeldEndsNode(sc: Scene, storeAll: bool, i: nat, m: nat)
    requires WellFormed(sc.tree) && IsPostorder(sc.tree, sc.order) && i < sc.NNodes()
    ensures HeldDuring(sc, storeAll, m, i, |sc.tree.children[sc.order[i]]|) || m == sc.order[i]
        <==> Held(sc, storeAll, m, i + 1)
  {
    var node := sc.order[i];
    PosOf(sc.tree, sc.order, i);
    if m < sc.NNodes() {
      if m != sc.tree.root {
        HeldEndsChild(sc, storeAll, i, m);
      }
      if m == node {
        if node != sc.tree.root {
          ChildBeforeParent(sc.tree, sc.order, node);
        }
      } else {
        assert Pos(sc.order, m) != i;
      }
    }
  }

  /** HeldEndsNode for a node m that has a parent. */
  lemma HeldEndsChild(sc: Scene, storeAll: bool, i: nat, m: nat)
    requires WellFormed(sc.tree) && IsPostorder(sc.tree, sc.order) && i < sc.NNodes()
    requires m < sc.NNodes() && m != sc.tree.root
    ensures HeldDuring(sc, storeAll, m, i, |sc.tree.children[sc.order[i]]|) <==>
      m < sc.NNodes() && Pos(sc.order, m) < i &&
      (storeAll || Pos(sc.order, sc.tree.parent[m]) > i)
  {
    var node := sc.order[i];
    var ch := sc.tree.children[node];
    PosOf(sc.tree, sc.order, i);
    assert ch[..|ch|] == ch;
    ChildBeforeParent(sc.tree, sc.order, m);
    if sc.tree.parent[m] == node {
      assert m in ch;
    }
  }

  /** The k-th child of order[i] is held at that point, and consuming it drops exactly it (unless everything is stored). */
  lemma HeldConsumeChild(sc: Scene, storeAll: bool, i: nat, k: nat, m: nat)
    requires WellFormed(sc.tree) && IsPostorder(sc.tree, sc.order) && i < sc.NNodes()
    requires k < |sc.tree.children[sc.order[i]]|
    ensures HeldDuring(sc, storeAll, sc.tree.children[sc.order[i]][k], i, k)
    ensures HeldDuring(sc, storeAll, m, i, k + 1) <==>
      HeldDuring(sc, storeAll, m, i, k) && (storeAll || m != sc.tree.children[sc.order[i]][k])
  {
    var node := sc.order[i];
    var ch := sc.tree.children[node];
    PosOf(sc.tree, sc.order, i);
    ChildFacts(sc.tree, sc.order, node, k);
    assert ch[..k + 1] == ch[..k] + [ch[k]];
    assert ch[k] !in ch[..k];
    if m < sc.NNodes() && m != sc.tree.root {
      ChildBeforeParent(sc.tree, sc.order, m);
    }
  }

  /** The keys of a pass table after visiting the first i nodes. */
  ghost predicate KeysHeld(sc: Scene, storeAll: bool, table: map<nat, Mat>, i: nat)
    requires WellFormed(sc.tree) && IsPostorder(sc.tree, sc.order)
  {
    forall m: nat :: m in table <==> Held(sc, storeAll, m, i)
  }

  /** The keys of a pass table while order[i] has consumed its first k children. */
  ghost predicate KeysDuring(sc: Scene, storeAll: bool, table: map<nat, Mat>, i: nat, k: nat)
    requires WellFormed(sc.tree) && IsPostorder(sc.tree, sc.order) && i < sc.NNodes()
    requires k <= |sc.tree.children[sc.order[i]]|
  {
    forall m: nat :: m in table <==> HeldDuring(sc, storeAll, m, i, k)
  }

  /** The k-th child is in the table; removing it (unless storeAll) gives the keys for k+1. */
  lemma ConsumeStep(sc: Scene, storeAll: bool, table: map<nat, Mat>, i: nat, k: nat)
    requires WellFormed(sc.tree) && IsPostorder(sc.tree, sc.order) && i < sc.NNodes()
    requires k < |sc.tree.children[sc.order[i]]|
    requires KeysDuring(sc, storeAll, table, i, k)
    ensures sc.tree.children[sc.order[i]][k] in table
    ensures KeysDuring(sc, storeAll, if storeAll then table else table - {sc.tree.children[sc.order[i]][k]}, i, k + 1)
  {
    var child := sc.tree.children[sc.order[i]][k];
    HeldConsumeChild(sc, storeAll, i, k, child);
    var next := if storeAll then table else table - {child};
    forall m: nat
      ensures m in next <==> HeldDuring(sc, storeAll, m, i, k + 1)
    {
      ConsumeKey(sc, storeAll, table, i, k, m);
    }
    KeysDuringIntro(sc, storeAll, next, i, k + 1);
  }

  lemma KeysDuringIntro(sc: Scene, storeAll: bool, table: map<nat, Mat>, i: nat, k: nat)
    requires WellFormed(sc.tree) && IsPostorder(sc.tree, sc.order) && i < sc.NNodes()
    requires k <= |sc.tree.children[sc.order[i]]|
    requires forall m: nat :: m in table <==> HeldDuring(sc, storeAll, m, i, k)
    ensures KeysDuring(sc, storeAll, table, i, k)
  {
  }

  /** ConsumeStep for one key m. */
  lemma ConsumeKey(sc: Scene, storeAll: bool, table: map<nat, Mat>, i: nat, k: nat, m: nat)
    requires WellFormed(sc.tree) && IsPostorder(sc.tree, sc.order) && i < sc.NNodes()
    requires k < |sc.tree.children[sc.order[i]]|
    requires KeysDuring(sc, storeAll, table, i, k)
    ensures var child := sc.tree.children[sc.order[i]][k];
      m in (if storeAll then table else table - {child}) <==> HeldDuring(sc, storeAll, m, i, k + 1)
  {
    HeldConsumeChild(sc, storeAll, i, k, m);
    var held := HeldDuring(sc, storeAll, m, i, k);
    assert m in table <==> held;
  }


  lemma StartNode(sc: Scene, storeAll: bool, table: map<nat, Mat>, i: nat)
    requires WellFormed(sc.tree) && IsPostorder(sc.tree, sc.order) && i < sc.NNodes()
    requires KeysHeld(sc, storeAll, table, i)
    ensures KeysDuring(sc, storeAll, table, i, 0)
  {
    forall m { HeldStartsNode(sc, storeAll, i, m); }
  }

  lemma EndNode(sc: Scene, storeAll: bool, table: map<nat, Mat>, i: nat, arr: Mat)
    requires WellFormed(sc.tree) && IsPostorder(sc.tree, sc.order) && i < sc.NNodes()
    requires KeysDuring(sc, storeAll, table, i, |sc.tree.children[sc.order[i]]|)
    ensures KeysHeld(sc, storeAll, table[sc.order[i] := arr], i + 1)
  {
    forall m { HeldEndsNode(sc, storeAll, i, m); }
  }

  /** After the whole traversal the table holds all nodes, or only the root. */
  lemma KeysAtEnd(sc: Scene, storeAll: bool, table: map<nat, Mat>)
    requires WellFormed(sc.tree) && IsPostorder(sc.tree, sc.order)
    requires KeysHeld(sc, storeAll, table, sc.NNodes())
    ensures forall m: nat :: m in table <==> (if storeAll then m < sc.NNodes() else m == sc.tree.root)
  {
    forall m: nat
      ensures m in table <==> (if storeAll then m < sc.NNodes() else m == sc.tree.root)
    {
      if m < sc.NNodes() && m != sc.tree.root {
        ChildBeforeParent(sc.tree, sc.order, m);
      }
    }
  }

  /** The observations of the first i nodes of the traversal can be looked up. */
  ghost predicate VisitedValid(sc: Scene, i: nat)
    requires IsPostorder(sc.tree, sc.order) && ObservationsWellShaped(sc) && i <= sc.NNodes()
  {
    forall j :: 0 <= j < i ==> NodeObsValid(sc, sc.order[j])
  }

  lemma VisitedValidStep(sc: Scene, i: nat)
    requires IsPostorder(sc.tree, sc.order) && ObservationsWellShaped(sc) && i < sc.NNodes()
    requires VisitedValid(sc, i) && NodeObsValid(sc, sc.order[i])
    ensures VisitedValid(sc, i + 1)
  {
  }

  lemma NodeObsInvalid(sc: Scene, node: nat)
    requires ObservationsWellShaped(sc) && node < sc.NNodes() && !NodeObsValid(sc, node)
    ensures !ObsValid(sc)
  {
  }

  lemma AllObsValid(sc: Scene)
    requires WellFormed(sc.tree) && IsPostorder(sc.tree, sc.order) && ObservationsWellShaped(sc)
    requires VisitedValid(sc, sc.NNodes())
    ensures ObsValid(sc)
  {
    forall m: nat | m < sc.NNodes()
      ensures NodeObsValid(sc, m)
    {
      var j := Pos(sc.order, m);
    }
  }

  /** Every entry of the table is the subtree array of its node. */
  ghost predicate SubtreeValues(sc: Scene, f: seq<Expm>, table: map<nat, Mat>)
    requires PassInputs(sc, f)
  {
    forall m: nat :: m in table ==> m < sc.NNodes() && table[m] == Subtree(sc, f, m)
  }

  lemma SubtreeValuesInsert(sc: Scene, f: seq<Expm>, table: map<nat, Mat>, n: nat, arr: Mat)
    requires PassInputs(sc, f) && SubtreeValues(sc, f, table) && n < sc.NNodes() && arr == Subtree(sc, f, n)
    ensures SubtreeValues(sc, f, table[n := arr])
  {
  }

  /**
   * One node of the subtree pass: order[i] multiplies expm_mul(rate, child
   * array) into arr for each child edge, deleting each child's array unless
   * storeAll.
   */
  method MultiplyChildEdges(f: seq<Expm>, storeAll: bool, sc: Scene, i: nat, ind: Mat, table0: map<nat, Mat>)
    returns (arr: Mat, table: map<nat, Mat>)
    requires PassInputs(sc, f) && i < sc.NNodes()
    requires ind == Indicator(sc, sc.order[i])
    requires KeysHeld(sc, storeAll, table0, i) && SubtreeValues(sc, f, table0)
    ensures arr == Subtree(sc, f, sc.order[i])
    ensures KeysDuring(sc, storeAll, table, i, |sc.tree.children[sc.order[i]]|) && SubtreeValues(sc, f, table)
  {
    var nstates, nsites := sc.NStates(), sc.NSites();
    var node := sc.order[i];
    var children := sc.tree.children[node];
    StartNode(sc, storeAll, table0, i);
    arr, table := ind, table0;
    var k := 0;
    while k < |children|
      invariant 0 <= k <= |children|
      invariant arr == SubtreeAcc(sc, f, node, k)
      invariant KeysDuring(sc, storeAll, table, i, k) && SubtreeValues(sc, f, table)
    {
      var child := children[k];
      ConsumeStep(sc, storeAll, table, i, k);
      SubtreeAccStep(sc, f, node, k);
      var edge := (node, child);
      var ev := f[sc.edgeProcess[edge]];
      MulShape(ev, nstates, sc.edgeRate[edge], table[child], nsites);
      var childEdgeArr := ev.mul(sc.edgeRate[edge], table[child]);
      arr := Hadamard(arr, childEdgeArr, nstates, nsites);
      if !storeAll {
        table := table - {child};
      }
      k := k + 1;
    }
  }

  /**
   * get_subtree_likelihoods: visit the nodes in postorder; each node starts
   * from its indicator array and multiplies in expm_mul(rate, child array)
   * for every child edge, deleting the child's array unless storeAll.
   * None when an observation cannot be looked up.
   */
  method GetSubtreeLikelihoods(f: seq<Expm>, storeAll: bool, sc: Scene) returns (r: Option<map<nat, Mat>>)
    requires PassInputs(sc, f)
    ensures r.Some? <==> ObsValid(sc)
    ensures r.Some? ==> forall m: nat :: m in r.value <==> (if storeAll then m < sc.NNodes() else m == sc.tree.root)
    ensures r.Some? ==> forall m: nat :: m in r.value ==> m < sc.NNodes() && r.value[m] == Subtree(sc, f, m)
  {
    var table: map<nat, Mat> := map[];
    var i := 0;
    while i < sc.NNodes()
      invariant 0 <= i <= sc.NNodes()
      invariant VisitedValid(sc, i)
      invariant KeysHeld(sc, storeAll, table, i) && SubtreeValues(sc, f, table)
    {
      var node := sc.order[i];
      var ind := CreateIndicatorArray(sc, node);
      if ind.None? {
        assert !ObsValid(sc) by { NodeObsInvalid(sc, node); }
        return None;
      }
      VisitedValidStep(sc, i);
      var arr;
      arr, table := MultiplyChildEdges(f, storeAll, sc, i, ind.value, table);
      EndNode(sc, storeAll, table, i, arr);
      SubtreeValuesInsert(sc, f, table, node, arr);
      table := table[node := arr];
      i := i + 1;
    }
    AllObsValid(sc);
    KeysAtEnd(sc, storeAll, table);
    r := Some(table);
  }

  // ---------------------------------------------------------------------
  // Postorder conditional pass (get_conditional_likelihoods)
  // ---------------------------------------------------------------------

  /** dict((tail, (head, tail)) for head, tail in edges): later edges win. */
  function ChildToEdge(edges: seq<Edge>): (m: map<nat, Edge>)
  {
    if |edges| == 0 then map[]
    else
      var e := edges[|edges| - 1];
      ChildToEdge(edges[..|edges| - 1])[e.1 := e]
  }

  /** The map has a key for each tail in edges, and maps it to an edge of edges with that tail. */
  lemma {:induction false} ChildToEdgeFacts(edges: seq<Edge>, c: nat)
    ensures c in ChildToEdge(edges) <==> exists i :: 0 <= i < |edges| && edges[i].1 == c
    ensures c in ChildToEdge(edges) ==> ChildToEdge(edges)[c] in edges && ChildToEdge(edges)[c].1 == c
  {
    if |edges| > 0 {
      var n := |edges| - 1;
      ChildToEdgeFacts(edges[..n], c);
      assert forall i :: 0 <= i < n ==> edges[..n][i] == edges[i];
      if c != edges[n].1 && c in ChildToEdge(edges) {
        var i :| 0 <= i < |edges| && edges[i].1 == c;
        assert i < n;
      }
    }
  }

  /** In a valid scene the edge recorded for each non-root node is its upstream edge. */
  lemma ChildToEdgeUp(sc: Scene, nprocesses: nat, c: nat)
    requires Valid(sc, nprocesses) && c < sc.NNodes() && c != sc.tree.root
    ensures c in ChildToEdge(sc.edges) && ChildToEdge(sc.edges)[c] == sc.UpEdge(c)
  {
    var m := ChildToEdge(sc.edges);
    ChildToEdgeFacts(sc.edges, c);
    assert sc.UpEdge(c) in sc.edges;
    var i :| 0 <= i < |sc.edges| && sc.edges[i] == sc.UpEdge(c);
    assert sc.edges[i].1 == c;
    var j :| 0 <= j < |sc.edges| && sc.edges[j] == m[c];
    assert sc.edges[j] == sc.UpEdge(sc.edges[j].1);
  }

  /**
   * The conditional array of n: its indicator times the conditional arrays
   * of its first k children.
   */
  function CondAcc(sc: Scene, f: seq<Expm>, n: nat, k: nat): (m: Mat)
    requires PassInputs(sc, f) && n < sc.NNodes() && k <= |sc.tree.children[n]|
    ensures IsMat(m, sc.NStates(), sc.NSites())
    decreases Pos(sc.order, n), k
  {
    if k == 0 then Indicator(sc, n)
    else
      ChildFacts(sc.tree, sc.order, n, k - 1);
      Hadamard(CondAcc(sc, f, n, k - 1), Cond(sc, f, sc.tree.children[n][k - 1]), sc.NStates(), sc.NSites())
  }

  /**
   * The conditional likelihood array of n: the product over all of its
   * children, and then, for a non-root node, expm_mul along its upstream edge.
   */
  function Cond(sc: Scene, f: seq<Expm>, n: nat): (m: Mat)
    requires PassInputs(sc, f) && n < sc.NNodes()
    ensures IsMat(m, sc.NStates(), sc.NSites())
    decreases Pos(sc.order, n), |sc.tree.children[n]| + 1
  {
    var prod := CondAcc(sc, f, n, |sc.tree.children[n]|);
    if n == sc.tree.root then prod
    else
      MulShape(EdgeExpm(sc, f, n), sc.NStates(), sc.edgeRate[sc.UpEdge(n)], prod, sc.NSites());
      EdgeExpm(sc, f, n).mul(sc.edgeRate[sc.UpEdge(n)], prod)
  }

  /** The accumulators of the two postorder passes agree. */
  lemma {:induction false} AccAgree(sc: Scene, f: seq<Expm>, n: nat, k: nat)
    requires PassInputs(sc, f) && n < sc.NNodes() && k <= |sc.tree.children[n]|
    ensures CondAcc(sc, f, n, k) == SubtreeAcc(sc, f, n, k)
    decreases Pos(sc.order, n), k
  {
    if k > 0 {
      var j := k - 1;
      var c := sc.tree.children[n][j];
      ChildFacts(sc.tree, sc.order, n, j);
      AccAgree(sc, f, n, j);
      AccAgree(sc, f, c, |sc.tree.children[c]|);
      AccAgreeStep(sc, f, n, j, c);
    }
  }

  /** The inductive step of AccAgree: both accumulators multiply in the same factor. */
  lemma AccAgreeStep(sc: Scene, f: seq<Expm>, n: nat, j: nat, c: nat)
    requires PassInputs(sc, f) && n < sc.NNodes() && j < |sc.tree.children[n]|
    requires c == sc.tree.children[n][j] && c < sc.NNodes()
    requires CondAcc(sc, f, n, j) == SubtreeAcc(sc, f, n, j)
    requires CondAcc(sc, f, c, |sc.tree.children[c]|) == SubtreeAcc(sc, f, c, |sc.tree.children[c]|)
    ensures CondAcc(sc, f, n, j + 1) == SubtreeAcc(sc, f, n, j + 1)
  {
    ChildFacts(sc.tree, sc.order, n, j);
    CondNonRoot(sc, f, c);
  }

  /** Cond of a non-root node, unfolded once. */
  lemma CondNonRoot(sc: Scene, f: seq<Expm>, c: nat)
    requires PassInputs(sc, f) && c < sc.NNodes() && c != sc.tree.root
    ensures Cond(sc, f, c) == EdgeExpm(sc, f, c).mul(sc.edgeRate[sc.UpEdge(c)], CondAcc(sc, f, c, |sc.tree.children[c]|))
  {
  }

  /**
   * The conditional array of a node is its subtree array pushed through the
   * upstream edge's transition matrix; the root's is its subtree array.
   */
  lemma CondIsSubtreeAlongEdge(sc: Scene, f: seq<Expm>, n: nat)
    requires PassInputs(sc, f) && n < sc.NNodes()
    ensures n == sc.tree.root ==> Cond(sc, f, n) == Subtree(sc, f, n)
    ensures n != sc.tree.root ==>
      Cond(sc, f, n) == EdgeExpm(sc, f, n).mul(sc.edgeRate[sc.UpEdge(n)], Subtree(sc, f, n))
  {
    AccAgree(sc, f, n, |sc.tree.children[n]|);
  }

  /** Every entry of the table is the conditional array of its node. */
  ghost predicate CondValues(sc: Scene, f: seq<Expm>, table: map<nat, Mat>)
    requires PassInputs(sc, f)
  {
    forall m: nat :: m in table ==> m < sc.NNodes() && table[m] == Cond(sc, f, m)
  }

  /** One more child's conditional array multiplied into the accumulator of n. */
  lemma CondAccStep(sc: Scene, f: seq<Expm>, n: nat, k: nat)
    requires PassInputs(sc, f) && n < sc.NNodes() && k < |sc.tree.children[n]|
    ensures sc.tree.children[n][k] < sc.NNodes()
    ensures CondAcc(sc, f, n, k + 1) ==
      Hadamard(CondAcc(sc, f, n, k), Cond(sc, f, sc.tree.children[n][k]), sc.NStates(), sc.NSites())
  {
    ChildFacts(sc.tree, sc.order, n, k);
  }

  /** One node of the conditional pass: multiply in each child's array, deleting it unless storeAll. */
  method MultiplyChildren(f: seq<Expm>, storeAll: bool, sc: Scene, i: nat, ind: Mat, table0: map<nat, Mat>)
    returns (arr: Mat, table: map<nat, Mat>)
    requires PassInputs(sc, f) && i < sc.NNodes()
    requires ind == Indicator(sc, sc.order[i])
    requires KeysHeld(sc, storeAll, table0, i) && CondValues(sc, f, table0)
    ensures arr == CondAcc(sc, f, sc.order[i], |sc.tree.children[sc.order[i]]|)
    ensures KeysDuring(sc, storeAll, table, i, |sc.tree.children[sc.order[i]]|) && CondValues(sc, f, table)
  {
    var node := sc.order[i];
    var children := sc.tree.children[node];
    StartNode(sc, storeAll, table0, i);
    arr, table := ind, table0;
    var k := 0;
    while k < |children|
      invariant 0 <= k <= |children|
      invariant arr == CondAcc(sc, f, node, k)
      invariant KeysDuring(sc, storeAll, table, i, k) && CondValues(sc, f, table)
    {
      var child := children[k];
      ConsumeStep(sc, storeAll, table, i, k);
      CondAccStep(sc, f, node, k);
      arr := Hadamard(arr, table[child], sc.NStates(), sc.NSites());
      if !storeAll {
        table := table - {child};
      }
      k := k + 1;
    }
  }

  /** For a non-root node, expm_mul along the upstream edge found through childToEdge. */
  method AlongUpEdge(f: seq<Expm>, sc: Scene, childToEdge: map<nat, Edge>, node: nat, prod: Mat) returns (arr: Mat)
    requires PassInputs(sc, f) && node < sc.NNodes() && childToEdge == ChildToEdge(sc.edges)
    requires prod == CondAcc(sc, f, node, |sc.tree.children[node]|)
    ensures arr == Cond(sc, f, node)
  {
    arr := prod;
    if node != sc.tree.root {
      ChildToEdgeUp(sc, |f|, node);
      var edge := childToEdge[node];
      var ev := f[sc.edgeProcess[edge]];
      arr := ev.mul(sc.edgeRate[edge], arr);
    }
  }

  lemma CondValuesInsert(sc: Scene, f: seq<Expm>, table: map<nat, Mat>, n: nat, arr: Mat)
    requires PassInputs(sc, f) && CondValues(sc, f, table) && n < sc.NNodes() && arr == Cond(sc, f, n)
    ensures CondValues(sc, f, table[n := arr])
  {
  }

  /**
   * get_conditional_likelihoods: as the subtree pass, but the children's
   * arrays already include their upstream edge, and each non-root node's
   * product is pushed through expm_mul along its own upstream edge.
   */
  method GetConditionalLikelihoods(f: seq<Expm>, storeAll: bool, sc: Scene) returns (r: Option<map<nat, Mat>>)
    requires PassInputs(sc, f)
    ensures r.Some? <==> ObsValid(sc)
    ensures r.Some? ==> forall m: nat :: m in r.value <==> (if storeAll then m < sc.NNodes() else m == sc.tree.root)
    ensures r.Some? ==> forall m: nat :: m in r.value ==> m < sc.NNodes() && r.value[m] == Cond(sc, f, m)
  {
    var childToEdge := ChildToEdge(sc.edges);
    var table: map<nat, Mat> := map[];
    var i := 0;
    while i < sc.NNodes()
      invariant 0 <= i <= sc.NNodes()
      invariant VisitedValid(sc, i)
      invariant KeysHeld(sc, storeAll, table, i) && CondValues(sc, f, table)
    {
      var node := sc.order[i];
      var ind := CreateIndicatorArray(sc, node);
      if ind.None? {
        assert !ObsValid(sc) by { NodeObsInvalid(sc, node); }
        return None;
      }
      VisitedValidStep(sc, i);
      var arr;
      arr, table := MultiplyChildren(f, storeAll, sc, i, ind.value, table);
      arr := AlongUpEdge(f, sc, childToEdge, node, arr);
      EndNode(sc, storeAll, table, i, arr);
      CondValuesInsert(sc, f, table, node, arr);
      table := table[node := arr];
      i := i + 1;
    }
    AllObsValid(sc);
    KeysAtEnd(sc, storeAll, table);
    r := Some(table);
  }

  // ---------------------------------------------------------------------
  // Preorder partials pass (get_preorder_conditional_likelihoods)
  // ---------------------------------------------------------------------

  /** A table with one (nstates, nsites) array per node. */
  ghost predicate PartialsShaped(sc: Scene, post: map<nat, Mat>) {
    forall m: nat :: m < sc.NNodes() ==> m in post && IsMat(post[m], sc.NStates(), sc.NSites())
  }

  /**
   * The caller's postorder partials, where the preorder pass reads them: a
   * child of a node with two or more children has, if present, an
   * (nstates, nsites) array.  Other entries are never read.
   */
  ghost predicate SiblingPartialsShaped(sc: Scene, post: map<nat, Mat>) {
    forall p: nat, k: nat ::
      (p < sc.NNodes() && k < |sc.tree.children[p]| && |sc.tree.children[p]| >= 2 && sc.tree.children[p][k] in post)
      ==> IsMat(post[sc.tree.children[p][k]], sc.NStates(), sc.NSites())
  }

  /** The first k children of p other than n all have a postorder partial. */
  ghost predicate SiblingsPresent(sc: Scene, post: map<nat, Mat>, p: nat, n: nat, k: nat)
    requires p < sc.NNodes() && k <= |sc.tree.children[p]|
  {
    forall j :: 0 <= j < k && sc.tree.children[p][j] != n ==> sc.tree.children[p][j] in post
  }

  /**
   * Every node on the path from n up to the root finds the partials of its
   * siblings, so the preorder pass reaches n without a KeyError.
   */
  ghost predicate PathReady(sc: Scene, post: map<nat, Mat>, n: nat)
    requires WellFormed(sc.tree) && IsPostorder(sc.tree, sc.order) && n < sc.NNodes()
    decreases sc.NNodes() - Pos(sc.order, n)
  {
    n == sc.tree.root ||
    (ChildBeforeParent(sc.tree, sc.order, n);
     var p := sc.tree.parent[n];
     SiblingsPresent(sc, post, p, n, |sc.tree.children[p]|) && PathReady(sc, post, p))
  }

  /** Every non-root node finds the partials of its siblings: the pass raises no KeyError. */
  ghost predicate PartialsReady(sc: Scene, post: map<nat, Mat>)
    requires WellFormed(sc.tree)
  {
    forall m: nat :: m < sc.NNodes() && m != sc.tree.root ==>
      SiblingsPresent(sc, post, sc.tree.parent[m], m, |sc.tree.children[sc.tree.parent[m]]|)
  }

  /** In a tree where no node has two children, no partial is ever read, so any map will do. */
  lemma ReadyWithoutSiblings(sc: Scene, post: map<nat, Mat>)
    requires WellFormed(sc.tree) && forall p :: 0 <= p < sc.NNodes() ==> |sc.tree.children[p]| <= 1
    ensures PartialsReady(sc, post) && SiblingPartialsShaped(sc, post)
  {
    forall m: nat | m < sc.NNodes() && m != sc.tree.root
      ensures SiblingsPresent(sc, post, sc.tree.parent[m], m, |sc.tree.children[sc.tree.parent[m]]|)
    {
      var p := sc.tree.parent[m];
      assert m in sc.tree.children[p];
      assert forall j :: 0 <= j < |sc.tree.children[p]| ==> sc.tree.children[p][j] == m;
    }
  }

  /** The k-th child of p is not n, while n is a child of p: p has two or more children. */
  lemma TwoChildren(sc: Scene, p: nat, n: nat, k: nat)
    requires p < sc.NNodes() && k < |sc.tree.children[p]| && n in sc.tree.children[p] && sc.tree.children[p][k] != n
    ensures |sc.tree.children[p]| >= 2
  {
    var j :| 0 <= j < |sc.tree.children[p]| && sc.tree.children[p][j] == n;
    assert j != k;
  }

  /** The product of the postorder partials of the first k children of p other than n. */
  function SiblingAcc(sc: Scene, post: map<nat, Mat>, p: nat, n: nat, k: nat): (m: Mat)
    requires SiblingPartialsShaped(sc, post)
    requires p < sc.NNodes() && k <= |sc.tree.children[p]| && n in sc.tree.children[p]
    requires SiblingsPresent(sc, post, p, n, k)
    ensures IsMat(m, sc.NStates(), sc.NSites())
  {
    if k == 0 then Const(sc.NStates(), sc.NSites(), 1.0)
    else
      var c := sc.tree.children[p][k - 1];
      if c != n then
        TwoChildren(sc, p, n, k - 1);
        Hadamard(SiblingAcc(sc, post, p, n, k - 1), post[c], sc.NStates(), sc.NSites())
      else SiblingAcc(sc, post, p, n, k - 1)
  }

  /**
   * The preorder partial of n: the prior copied to every site at the root;
   * otherwise expm_tmul along the upstream edge of the parent's partial times
   * the siblings' postorder partials.
   */
  function Pre(sc: Scene, f: seq<Expm>, prior: Vec, post: map<nat, Mat>, n: nat): (m: Mat)
    requires PassInputs(sc, f) && |prior| == sc.NStates() && SiblingPartialsShaped(sc, post)
    requires n < sc.NNodes() && PathReady(sc, post, n)
    ensures IsMat(m, sc.NStates(), sc.NSites())
    decreases sc.NNodes() - Pos(sc.order, n)
  {
    if n == sc.tree.root then ScaleRows(Const(sc.NStates(), sc.NSites(), 1.0), prior, sc.NStates(), sc.NSites())
    else
      var p := sc.tree.parent[n];
      ChildBeforeParent(sc.tree, sc.order, n);
      var pre := Hadamard(SiblingAcc(sc, post, p, n, |sc.tree.children[p]|), Pre(sc, f, prior, post, p),
                          sc.NStates(), sc.NSites());
      MulShape(EdgeExpm(sc, f, n), sc.NStates(), sc.edgeRate[sc.UpEdge(n)], pre, sc.NSites());
      EdgeExpm(sc, f, n).tmul(sc.edgeRate[sc.UpEdge(n)], pre)
  }

  /** The root's partial holds the prior probability of each state at every site. */
  lemma PreRoot(sc: Scene, f: seq<Expm>, prior: Vec, post: map<nat, Mat>, s: nat, site: nat)
    requires PassInputs(sc, f) && |prior| == sc.NStates() && SiblingPartialsShaped(sc, post)
    requires s < sc.NStates() && site < sc.NSites()
    ensures PathReady(sc, post, sc.tree.root)
    ensures Pre(sc, f, prior, post, sc.tree.root)[s][site] == prior[s]
  {
  }

  /** A node's own postorder partial never enters the product of its siblings. */
  lemma {:induction false} SiblingsExcludeSelf(sc: Scene, post: map<nat, Mat>, p: nat, n: nat, k: nat, x: Mat)
    requires SiblingPartialsShaped(sc, post) && IsMat(x, sc.NStates(), sc.NSites())
    requires p < sc.NNodes() && k <= |sc.tree.children[p]| && n in sc.tree.children[p]
    requires SiblingsPresent(sc, post, p, n, k)
    ensures SiblingPartialsShaped(sc, post[n := x]) && SiblingsPresent(sc, post[n := x], p, n, k)
    ensures SiblingAcc(sc, post[n := x], p, n, k) == SiblingAcc(sc, post, p, n, k)
  {
    if k > 0 {
      var j := k - 1;
      SiblingsExcludeSelf(sc, post, p, n, j, x);
    }
  }

  /**
   * The product of the siblings' partials, in child order; None (the raised
   * KeyError) as soon as a sibling has no partial.
   */
  method SiblingProduct(sc: Scene, post: map<nat, Mat>, p: nat, n: nat) returns (r: Option<Mat>)
    requires SiblingPartialsShaped(sc, post) && p < sc.NNodes() && n in sc.tree.children[p]
    ensures r.Some? <==> SiblingsPresent(sc, post, p, n, |sc.tree.children[p]|)
    ensures r.Some? ==> r.value == SiblingAcc(sc, post, p, n, |sc.tree.children[p]|)
  {
    var children := sc.tree.children[p];
    var arr := Const(sc.NStates(), sc.NSites(), 1.0);
    var k := 0;
    while k < |children|
      invariant 0 <= k <= |children|
      invariant SiblingsPresent(sc, post, p, n, k)
      invariant arr == SiblingAcc(sc, post, p, n, k)
    {
      var child := children[k];
      if child != n {
        if child !in post {
          MissingSibling(sc, post, p, n, k);
          return None;
        }
        TwoChildren(sc, p, n, k);
        arr := Hadamard(arr, post[child], sc.NStates(), sc.NSites());
      }
      SiblingAccStep(sc, post, p, n, k);
      k := k + 1;
    }
    r := Some(arr);
  }

  /** One more child: a sibling with a partial multiplies it in, the node itself is skipped. */
  lemma SiblingAccStep(sc: Scene, post: map<nat, Mat>, p: nat, n: nat, k: nat)
    requires SiblingPartialsShaped(sc, post)
    requires p < sc.NNodes() && k < |sc.tree.children[p]| && n in sc.tree.children[p]
    requires SiblingsPresent(sc, post, p, n, k) && (sc.tree.children[p][k] != n ==> sc.tree.children[p][k] in post)
    ensures SiblingsPresent(sc, post, p, n, k + 1)
    ensures var c := sc.tree.children[p][k];
      SiblingAcc(sc, post, p, n, k + 1) ==
        if c != n then Hadamard(SiblingAcc(sc, post, p, n, k), post[c], sc.NStates(), sc.NSites())
        else SiblingAcc(sc, post, p, n, k)
  {
    if sc.tree.children[p][k] != n {
      TwoChildren(sc, p, n, k);
    }
  }

  /** A sibling without a partial: the siblings are not all present. */
  lemma MissingSibling(sc: Scene, post: map<nat, Mat>, p: nat, n: nat, k: nat)
    requires p < sc.NNodes() && k < |sc.tree.children[p]|
    requires sc.tree.children[p][k] != n && sc.tree.children[p][k] !in post
    ensures !SiblingsPresent(sc, post, p, n, |sc.tree.children[p]|)
  {
  }

  /** The preorder table after visiting positions i .. N-1 of the traversal (in reverse). */
  ghost predicate PreTable(sc: Scene, f: seq<Expm>, prior: Vec, post: map<nat, Mat>, table: map<nat, Mat>, i: nat)
    requires PassInputs(sc, f) && |prior| == sc.NStates() && SiblingPartialsShaped(sc, post)
  {
    PreKeys(sc, table, i) && PreValues(sc, f, prior, post, table)
  }

  ghost predicate PreKeys(sc: Scene, table: map<nat, Mat>, i: nat)
    requires IsPostorder(sc.tree, sc.order)
  {
    forall m: nat :: m in table <==> m < sc.NNodes() && Pos(sc.order, m) >= i
  }

  ghost predicate PreValues(sc: Scene, f: seq<Expm>, prior: Vec, post: map<nat, Mat>, table: map<nat, Mat>)
    requires PassInputs(sc, f) && |prior| == sc.NStates() && SiblingPartialsShaped(sc, post)
  {
    forall m: nat :: m in table ==> m < sc.NNodes() && PathReady(sc, post, m) && table[m] == Pre(sc, f, prior, post, m)
  }

  lemma PreKeysInsert(sc: Scene, table: map<nat, Mat>, i: nat, arr: Mat)
    requires IsPostorder(sc.tree, sc.order) && i < sc.NNodes() && PreKeys(sc, table, i + 1)
    ensures PreKeys(sc, table[sc.order[i] := arr], i)
  {
    var node := sc.order[i];
    PosOf(sc.tree, sc.order, i);
    forall m: nat
      ensures m in table[node := arr] <==> m < sc.NNodes() && Pos(sc.order, m) >= i
    {
      if m != node && m < sc.NNodes() {
        assert Pos(sc.order, m) != i;
      }
    }
  }

  lemma PreTableInsert(sc: Scene, f: seq<Expm>, prior: Vec, post: map<nat, Mat>, table: map<nat, Mat>, i: nat, arr: Mat)
    requires PassInputs(sc, f) && |prior| == sc.NStates() && SiblingPartialsShaped(sc, post) && i < sc.NNodes()
    requires PreTable(sc, f, prior, post, table, i + 1)
    requires PathReady(sc, post, sc.order[i]) && arr == Pre(sc, f, prior, post, sc.order[i])
    ensures PreTable(sc, f, prior, post, table[sc.order[i] := arr], i)
  {
    PreKeysInsert(sc, table, i, arr);
  }

  /**
   * One node of the preorder pass, once every later node of the traversal is
   * done: None exactly when a sibling of this non-root node has no partial.
   */
  method PreorderNode(f: seq<Expm>, sc: Scene, prior: Vec, post: map<nat, Mat>, childToEdge: map<nat, Edge>,
                      table: map<nat, Mat>, i: nat) returns (r: Option<Mat>)
    requires PassInputs(sc, f) && |prior| == sc.NStates() && SiblingPartialsShaped(sc, post) && i < sc.NNodes()
    requires childToEdge == ChildToEdge(sc.edges) && PreTable(sc, f, prior, post, table, i + 1)
    ensures r.None? <==> (sc.order[i] != sc.tree.root &&
      !SiblingsPresent(sc, post, sc.tree.parent[sc.order[i]], sc.order[i], |sc.tree.children[sc.tree.parent[sc.order[i]]]|))
    ensures r.Some? ==> PathReady(sc, post, sc.order[i]) && r.value == Pre(sc, f, prior, post, sc.order[i])
  {
    var nstates, nsites := sc.NStates(), sc.NSites();
    var node := sc.order[i];
    var arr := Const(nstates, nsites, 1.0);
    if node == sc.tree.root {
      arr := ScaleRows(arr, prior, nstates, nsites);
    } else {
      var parentNode := sc.tree.parent[node];
      ChildBeforeParent(sc.tree, sc.order, node);
      PosOf(sc.tree, sc.order, i);
      var siblings := SiblingProduct(sc, post, parentNode, node);
      if siblings.None? {
        return None;
      }
      OnesHadamard(siblings.value, nstates, nsites);
      arr := Hadamard(arr, siblings.value, nstates, nsites);
      arr := Hadamard(arr, table[parentNode], nstates, nsites);
      ChildToEdgeUp(sc, |f|, node);
      var edge := childToEdge[node];
      var ev := f[sc.edgeProcess[edge]];
      arr := ev.tmul(sc.edgeRate[edge], arr);
    }
    r := Some(arr);
  }

  /**
   * get_preorder_conditional_likelihoods: visit the nodes in reverse
   * postorder, so every parent before its children.  A sibling without a
   * postorder partial raises KeyError (None).  No entry is ever deleted, so
   * the final key check only passes when everything is stored or the tree is
   * a single node; otherwise None.
   */
  method GetPreorderConditionalLikelihoods(f: seq<Expm>, storeAll: bool, sc: Scene, prior: Vec, post: map<nat, Mat>)
    returns (r: Option<map<nat, Mat>>)
    requires PassInputs(sc, f) && |prior| == sc.NStates() && SiblingPartialsShaped(sc, post)
    ensures r.Some? <==> PartialsReady(sc, post) && (storeAll || sc.NNodes() == 1)
    ensures r.Some? ==> forall m: nat :: m in r.value <==> m < sc.NNodes()
    ensures r.Some? ==> forall m: nat :: m in r.value ==>
      m < sc.NNodes() && PathReady(sc, post, m) && r.value[m] == Pre(sc, f, prior, post, m)
  {
    var childToEdge := ChildToEdge(sc.edges);
    var table: map<nat, Mat> := map[];
    var i := sc.NNodes();
    PreTableInit(sc, f, prior, post);
    while i > 0
      invariant 0 <= i <= sc.NNodes()
      invariant PreTable(sc, f, prior, post, table, i)
    {
      var j := i - 1;
      var node := sc.order[j];
      var arr := PreorderNode(f, sc, prior, post, childToEdge, table, j);
      if arr.None? {
        NotReady(sc, post, node);
        return None;
      }
      PreTableInsert(sc, f, prior, post, table, j, arr.value);
      table := table[node := arr.value];
      i := j;
    }
    PreTableDone(sc, f, prior, post, table);
    if !storeAll && sc.NNodes() != 1 {
      return None;
    }
    r := Some(table);
  }

  /** A non-root node missing a sibling's partial makes the partials not ready. */
  lemma NotReady(sc: Scene, post: map<nat, Mat>, n: nat)
    requires WellFormed(sc.tree) && n < sc.NNodes() && n != sc.tree.root
    requires !SiblingsPresent(sc, post, sc.tree.parent[n], n, |sc.tree.children[sc.tree.parent[n]]|)
    ensures !PartialsReady(sc, post)
  {
  }

  /** Before any node is visited the empty table is the table of the empty suffix. */
  lemma PreTableInit(sc: Scene, f: seq<Expm>, prior: Vec, post: map<nat, Mat>)
    requires PassInputs(sc, f) && |prior| == sc.NStates() && SiblingPartialsShaped(sc, post)
    ensures PreTable(sc, f, prior, post, map[], sc.NNodes())
  {
  }

  /** After the whole traversal every node has its preorder array, so no sibling partial was missing. */
  lemma PreTableDone(sc: Scene, f: seq<Expm>, prior: Vec, post: map<nat, Mat>, table: map<nat, Mat>)
    requires PassInputs(sc, f) && |prior| == sc.NStates() && SiblingPartialsShaped(sc, post)
    requires PreTable(sc, f, prior, post, table, 0)
    ensures PartialsReady(sc, post)
    ensures forall m: nat :: m in table <==> m < sc.NNodes()
    ensures forall m: nat :: m in table ==> m < sc.NNodes() && PathReady(sc, post, m) && table[m] == Pre(sc, f, prior, post, m)
  {
    forall m: nat | m < sc.NNodes() && m != sc.tree.root
      ensures SiblingsPresent(sc, post, sc.tree.parent[m], m, |sc.tree.children[sc.tree.parent[m]]|)
    {
      assert m in table;
      assert PathReady(sc, post, m);
    }
  }
}
