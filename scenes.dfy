/**
 * A scene: the tree with its traversal order, per-edge rates and processes,
 * the joint state space, and the per-site observations of observable variables.
 */
module Scenes {
  import opened Trees
  import StateSpace

  /**
   * obs[site][idx] is the observed value at one site of observable idx, which
   * is variable (axis) obsAxes[idx] at node obsNodes[idx].  edges is the edge
   * list in input order; edgeRate and edgeProcess are keyed by edge.
   */
  datatype Scene = Scene(
    tree: Tree,
    order: seq<nat>,
    edges: seq<Edge>,
    edgeRate: map<Edge, real>,
    edgeProcess: map<Edge, nat>,
    shape: seq<nat>,
    obsNodes: seq<nat>,
    obsAxes: seq<nat>,
    obs: seq<seq<int>>)
  {
    function NNodes(): nat { |tree.children| }
    function NStates(): nat { StateSpace.NStates(shape) }
    function NSites(): nat { |obs| }
    /** The edge from the parent of c down to c. */
    function UpEdge(c: nat): Edge
      requires c < |tree.parent|
    {
      (tree.parent[c], c)
    }
  }

  /** The observation tables have matching sizes and name existing axes of a state space without empty axes. */
  predicate ObservationsWellShaped(sc: Scene) {
    StateSpace.ValidShape(sc.shape) &&
    |sc.obsAxes| == |sc.obsNodes| &&
    (forall idx :: 0 <= idx < |sc.obsAxes| ==> sc.obsAxes[idx] < |sc.shape|) &&
    (forall site :: 0 <= site < |sc.obs| ==> |sc.obs[site]| == |sc.obsNodes|)
  }

  /**
   * The structural guarantees of the unpacking code: a well-formed tree and
   * traversal, a state space without empty axes, observation tables of matching
   * sizes, a rate and a known process for every tree edge, and an edge list holding
   * exactly the tree edges.
   */
  predicate Valid(sc: Scene, nprocesses: nat) {
    var n := sc.NNodes();
    WellFormed(sc.tree) && IsPostorder(sc.tree, sc.order) && ObservationsWellShaped(sc) &&
    (forall c :: 0 <= c < n && c != sc.tree.root ==>
      sc.UpEdge(c) in sc.edgeRate && sc.UpEdge(c) in sc.edgeProcess &&
      sc.edgeProcess[sc.UpEdge(c)] < nprocesses && sc.UpEdge(c) in sc.edges) &&
    (forall i :: 0 <= i < |sc.edges| ==>
      sc.edges[i].1 < n && sc.edges[i].1 != sc.tree.root && sc.edges[i] == sc.UpEdge(sc.edges[i].1))
  }
}
