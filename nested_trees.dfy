/**
 * The tree reader of the HKY example: a parsed Newick tree, a nested list
 * whose leaves are taxon names, is numbered in preorder into an edge list
 * and a map from taxon name to node.
 */
module NestedTrees {
  import opened Wrappers

  /** The parser's output: a name, or a parenthesized group of subtrees. */
  datatype Nested = Name(name: string) | Group(children: seq<Nested>)

  /** A directed edge (parent, child) of the numbered tree. */
  datatype Edge = Edge(parent: nat, child: nat)

  /** The number of nodes a subtree receives: one per name and one per group. */
  function Size(t: Nested): (r: nat)
    ensures r >= 1
    decreases t
  {
    match t
    case Name(_) => 1
    case Group(cs) => 1 + ForestSize(cs)
  }

  function ForestSize(ts: seq<Nested>): nat
    decreases ts
  {
    if |ts| == 0 then 0 else Size(ts[0]) + ForestSize(ts[1..])
  }

  /**
   * The edges _help_build_tree appends for subtree t numbered from node:
   * the edge from the parent, then the edges of each child subtree in turn,
   * each child numbered after the nodes of its elder siblings.
   */
  function TreeEdges(parent: Option<nat>, t: Nested, node: nat): seq<Edge>
    decreases t
  {
    (if parent.Some? then [Edge(parent.value, node)] else []) +
    match t
    case Name(_) => []
    case Group(cs) => ForestEdges(node, cs, node + 1)
  }

  function ForestEdges(p: nat, ts: seq<Nested>, next: nat): seq<Edge>
    decreases ts
  {
    if |ts| == 0 then []
    else TreeEdges(Some(p), ts[0], next) + ForestEdges(p, ts[1..], next + Size(ts[0]))
  }

  /** The name map after numbering t from node: each name is set, in preorder, to its node. */
  function TreeLabels(t: Nested, node: nat, m: map<string, nat>): map<string, nat>
    decreases t
  {
    match t
    case Name(n) => m[n := node]
    case Group(cs) => ForestLabels(cs, node + 1, m)
  }

  function ForestLabels(ts: seq<Nested>, next: nat, m: map<string, nat>): map<string, nat>
    decreases ts
  {
    if |ts| == 0 then m
    else ForestLabels(ts[1..], next + Size(ts[0]), TreeLabels(ts[0], next, m))
  }

  /** The names occurring in t. */
  function LeafNames(t: Nested): set<string>
    decreases t
  {
    match t
    case Name(n) => {n}
    case Group(cs) => ForestLeafNames(cs)
  }

  function ForestLeafNames(ts: seq<Nested>): set<string>
    decreases ts
  {
    if |ts| == 0 then {} else LeafNames(ts[0]) + ForestLeafNames(ts[1..])
  }

  /** The nodes that name nodes receive when t is numbered from node. */
  function Leaves(t: Nested, node: nat): set<nat>
    decreases t
  {
    match t
    case Name(_) => {node}
    case Group(cs) => ForestLeaves(cs, node + 1)
  }

  function ForestLeaves(ts: seq<Nested>, next: nat): set<nat>
    decreases ts
  {
    if |ts| == 0 then {} else Leaves(ts[0], next) + ForestLeaves(ts[1..], next + Size(ts[0]))
  }

  // ---------------------------------------------------------------------
  // Appending one more child
  // ---------------------------------------------------------------------

  lemma {:induction false} ForestSizeSnoc(a: seq<Nested>, x: Nested)
    ensures ForestSize(a + [x]) == ForestSize(a) + Size(x)
    decreases |a|
  {
    if |a| == 0 {
      assert a + [x] == [x];
      assert [x][1..] == [];
    } else {
      assert (a + [x])[0] == a[0];
      assert (a + [x])[1..] == a[1..] + [x];
      ForestSizeSnoc(a[1..], x);
    }
  }

  lemma {:induction false} ForestEdgesSnoc(p: nat, a: seq<Nested>, x: Nested, next: nat)
    ensures ForestEdges(p, a + [x], next) == ForestEdges(p, a, next) + TreeEdges(Some(p), x, next + ForestSize(a))
    decreases |a|
  {
    if |a| == 0 {
      assert a + [x] == [x];
      assert [x][1..] == [];
    } else {
      assert (a + [x])[0] == a[0];
      assert (a + [x])[1..] == a[1..] + [x];
      ForestEdgesSnoc(p, a[1..], x, next + Size(a[0]));
    }
  }

  lemma {:induction false} ForestLabelsSnoc(a: seq<Nested>, x: Nested, next: nat, m: map<string, nat>)
    ensures ForestLabels(a + [x], next, m) == TreeLabels(x, next + ForestSize(a), ForestLabels(a, next, m))
    decreases |a|
  {
    if |a| == 0 {
      assert a + [x] == [x];
      assert [x][1..] == [];
    } else {
      assert (a + [x])[0] == a[0];
      assert (a + [x])[1..] == a[1..] + [x];
      ForestLabelsSnoc(a[1..], x, next + Size(a[0]), TreeLabels(a[0], next, m));
    }
  }

  // ---------------------------------------------------------------------
  // _help_build_tree and get_tree_info
  // ---------------------------------------------------------------------

  /** The edge list and the name map that the recursive numbering appends to and writes. */
  class TreeBuilder {
    var edges: seq<Edge>
    var nameToNode: map<string, nat>

    constructor ()
      ensures edges == [] && nameToNode == map[]
    {
      edges := [];
      nameToNode := map[];
    }

    /**
     * _help_build_tree(parent, root, node, name_to_node, edges): appends the
     * edges of root numbered from node, writes the node of each name, and
     * returns the first number after the subtree's nodes.
     */
    method HelpBuildTree(parent: Option<nat>, root: Nested, node: nat) returns (neo: nat)
      modifies this
      ensures neo == node + Size(root)
      ensures edges == old(edges) + TreeEdges(parent, root, node)
      ensures nameToNode == TreeLabels(root, node, old(nameToNode))
      decreases root, 1
    {
      var up: seq<Edge> := if parent.Some? then [Edge(parent.value, node)] else [];
      if parent.Some? {
        edges := edges + [Edge(parent.value, node)];
      }
      neo := node + 1;
      match root
      case Name(n) =>
        nameToNode := nameToNode[n := node];
        assert TreeEdges(parent, root, node) == up + [];
      case Group(cs) =>
        neo := BuildChildren(node, cs, neo);
        assert TreeEdges(parent, root, node) == up + ForestEdges(node, cs, node + 1);
    }

    /**
     * The loop of _help_build_tree over the elements of a group numbered
     * node: each child subtree is numbered from the first number its elder
     * siblings left free.
     */
    method BuildChildren(node: nat, cs: seq<Nested>, next: nat) returns (neo: nat)
      modifies this
      ensures neo == next + ForestSize(cs)
      ensures edges == old(edges) + ForestEdges(node, cs, next)
      ensures nameToNode == ForestLabels(cs, next, old(nameToNode))
      decreases cs, 0
    {
      neo := next;
      for k := 0 to |cs|
        invariant neo == next + ForestSize(cs[..k])
        invariant edges == old(edges) + ForestEdges(node, cs[..k], next)
        invariant nameToNode == ForestLabels(cs[..k], next, old(nameToNode))
      {
        var done, c := cs[..k], cs[k];
        assert cs[..k + 1] == done + [c];
        ForestSizeSnoc(done, c);
        ForestEdgesSnoc(node, done, c, next);
        ForestLabelsSnoc(done, c, next, old(nameToNode));
        ghost var e0 := edges;
        neo := HelpBuildTree(Some(node), c, neo);
        assert edges == e0 + TreeEdges(Some(node), c, next + ForestSize(done));
      }
      assert cs[..|cs|] == cs;
    }
  }

  /**
   * The numbering part of get_tree_info, on the parsed nested list: the name
   * map and the edge list of the whole tree, numbered from the root 0.
   */
  method GetTreeInfo(tree: Nested) returns (nameToNode: map<string, nat>, edges: seq<Edge>)
    ensures |edges| + 1 == Size(tree)
    ensures forall i :: 0 <= i < |edges| ==> edges[i].parent < edges[i].child && edges[i].child == i + 1
    ensures nameToNode.Keys == LeafNames(tree)
    ensures forall name :: name in nameToNode ==> nameToNode[name] in Leaves(tree, 0)
    ensures forall i :: 0 <= i < |edges| ==> edges[i].parent !in Leaves(tree, 0)
  {
    var b := new TreeBuilder();
    var neo := b.HelpBuildTree(None, tree, 0);
    nameToNode, edges := b.nameToNode, b.edges;
    EdgesBounded(None, tree, 0);
    ChildrenPreorder(None, tree, 0);
    LabelsMeaning(tree, 0, map[]);
    LeavesHaveNoChildren(None, tree, 0);
    forall i | 0 <= i < |edges|
      ensures edges[i].child == i + 1
    {
      assert Children(edges)[i] == Range(1, Size(tree))[i];
    }
  }

  // ---------------------------------------------------------------------
  // Properties of the numbering
  // ---------------------------------------------------------------------

  /** Every edge points from a lower number to a higher one inside the subtree's range. */
  lemma {:induction false} EdgesBounded(parent: Option<nat>, t: Nested, node: nat)
    requires parent.Some? ==> parent.value < node
    ensures forall e :: e in TreeEdges(parent, t, node) ==>
      e.parent < e.child && node <= e.child < node + Size(t) && (node <= e.parent || Some(e.parent) == parent)
    decreases t
  {
    match t
    case Name(_) =>
    case Group(cs) =>
      ForestEdgesBounded(node, cs, node + 1);
  }

  lemma {:induction false} ForestEdgesBounded(p: nat, ts: seq<Nested>, next: nat)
    requires p < next
    ensures forall e :: e in ForestEdges(p, ts, next) ==>
      e.parent < e.child && next <= e.child < next + ForestSize(ts) && (next <= e.parent || e.parent == p)
    decreases ts
  {
    if |ts| > 0 {
      EdgesBounded(Some(p), ts[0], next);
      ForestEdgesBounded(p, ts[1..], next + Size(ts[0]));
    }
  }

  /** The children of an edge list, in order. */
  function Children(es: seq<Edge>): (r: seq<nat>)
    ensures |r| == |es| && forall i :: 0 <= i < |es| ==> r[i] == es[i].child
  {
    seq(|es|, i requires 0 <= i < |es| => es[i].child)
  }

  /** The numbers a, a + 1, ..., b - 1. */
  function Range(a: nat, b: nat): (r: seq<nat>)
    requires a <= b
    ensures |r| == b - a && forall i :: 0 <= i < |r| ==> r[i] == a + i
  {
    seq(b - a, i requires 0 <= i < b - a => a + i)
  }

  /**
   * Listed in order, the children of the edges are the subtree's numbers
   * after its first one (and including it when it has a parent edge): every
   * non-root node is the child of exactly one edge.
   */
  lemma {:induction false} ChildrenPreorder(parent: Option<nat>, t: Nested, node: nat)
    ensures Children(TreeEdges(parent, t, node)) == Range(if parent.Some? then node else node + 1, node + Size(t))
    decreases t
  {
    var up: seq<Edge> := if parent.Some? then [Edge(parent.value, node)] else [];
    var below: seq<Edge> := match t
      case Name(_) => []
      case Group(cs) => ForestEdges(node, cs, node + 1);
    assert TreeEdges(parent, t, node) == up + below;
    ChildrenAppend(up, below);
    match t
    case Name(_) =>
      assert Children(below) == [] == Range(node + 1, node + Size(t));
    case Group(cs) =>
      ForestChildrenPreorder(node, cs, node + 1);
    if parent.Some? {
      assert Children(up) == Range(node, node + 1);
      RangeAppend(node, node + 1, node + Size(t));
    } else {
      assert Children(up) == [];
      assert Children(up) + Children(below) == Children(below);
    }
  }

  lemma {:induction false} ForestChildrenPreorder(p: nat, ts: seq<Nested>, next: nat)
    ensures Children(ForestEdges(p, ts, next)) == Range(next, next + ForestSize(ts))
    decreases ts
  {
    if |ts| == 0 {
      assert Children(ForestEdges(p, ts, next)) == [] == Range(next, next);
    } else {
      var mid := next + Size(ts[0]);
      ChildrenPreorder(Some(p), ts[0], next);
      ForestChildrenPreorder(p, ts[1..], mid);
      ChildrenAppend(TreeEdges(Some(p), ts[0], next), ForestEdges(p, ts[1..], mid));
      RangeAppend(next, mid, next + ForestSize(ts));
    }
  }

  lemma ChildrenAppend(a: seq<Edge>, b: seq<Edge>)
    ensures Children(a + b) == Children(a) + Children(b)
  {
  }

  lemma RangeAppend(a: nat, b: nat, c: nat)
    requires a <= b <= c
    ensures Range(a, b) + Range(b, c) == Range(a, c)
  {
  }

  /**
   * The names written are exactly the subtree's names, each set to one of
   * its name nodes; every other entry of the map is left as it was.
   */
  lemma {:induction false} LabelsMeaning(t: Nested, node: nat, m: map<string, nat>)
    ensures TreeLabels(t, node, m).Keys == m.Keys + LeafNames(t)
    ensures forall k :: k in LeafNames(t) ==> TreeLabels(t, node, m)[k] in Leaves(t, node)
    ensures forall k :: k in m && k !in LeafNames(t) ==> TreeLabels(t, node, m)[k] == m[k]
    decreases t
  {
    match t
    case Name(_) =>
    case Group(cs) =>
      ForestLabelsMeaning(cs, node + 1, m);
  }

  lemma {:induction false} ForestLabelsMeaning(ts: seq<Nested>, next: nat, m: map<string, nat>)
    ensures ForestLabels(ts, next, m).Keys == m.Keys + ForestLeafNames(ts)
    ensures forall k :: k in ForestLeafNames(ts) ==> ForestLabels(ts, next, m)[k] in ForestLeaves(ts, next)
    ensures forall k :: k in m && k !in ForestLeafNames(ts) ==> ForestLabels(ts, next, m)[k] == m[k]
    decreases ts
  {
    if |ts| > 0 {
      var m1 := TreeLabels(ts[0], next, m);
      LabelsMeaning(ts[0], next, m);
      ForestLabelsMeaning(ts[1..], next + Size(ts[0]), m1);
    }
  }

  /** Name nodes are leaves: no edge of the subtree leaves one. */
  lemma {:induction false} LeavesHaveNoChildren(parent: Option<nat>, t: Nested, node: nat)
    requires parent.Some? ==> parent.value < node
    ensures forall e :: e in TreeEdges(parent, t, node) ==> e.parent !in Leaves(t, node)
    ensures forall l :: l in Leaves(t, node) ==> node <= l < node + Size(t)
    decreases t
  {
    match t
    case Name(_) =>
    case Group(cs) =>
      ForestLeavesHaveNoChildren(node, cs, node + 1);
  }

  lemma {:induction false} ForestLeavesHaveNoChildren(p: nat, ts: seq<Nested>, next: nat)
    requires p < next
    ensures forall e :: e in ForestEdges(p, ts, next) ==> e.parent !in ForestLeaves(ts, next)
    ensures forall l :: l in ForestLeaves(ts, next) ==> next <= l < next + ForestSize(ts)
    decreases ts
  {
    if |ts| > 0 {
      LeavesHaveNoChildren(Some(p), ts[0], next);
      ForestLeavesHaveNoChildren(p, ts[1..], next + Size(ts[0]));
      EdgesBounded(Some(p), ts[0], next);
      ForestEdgesBounded(p, ts[1..], next + Size(ts[0]));
    }
  }
}
