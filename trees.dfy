/**
 * Rooted trees as explicit child lists, and the postorder node ordering the
 * passes traverse (the output of the node-ordering module, which is not
 * modelled and is taken as given).
 */
module Trees {

  /** An edge (head, tail) runs from a parent to one of its children. */
  type Edge = (nat, nat)

  /**
   * Nodes are 0 .. |children| - 1.  children[n] lists the successors of n in the
   * order the graph reports them; parent[c] is the predecessor of every non-root c.
   */
  datatype Tree = Tree(root: nat, children: seq<seq<nat>>, parent: seq<nat>)
  {
    function Count(): nat { |children| }
  }

  /** The child lists and the parent map describe one rooted tree. */
  predicate WellFormed(t: Tree) {
    var n := |t.children|;
    n >= 1 && t.root < n && |t.parent| == n &&
    (forall p, i :: 0 <= p < n && 0 <= i < |t.children[p]| ==>
      t.children[p][i] < n && t.children[p][i] != t.root && t.parent[t.children[p][i]] == p) &&
    (forall p, i, j :: 0 <= p < n && 0 <= i < j < |t.children[p]| ==> t.children[p][i] != t.children[p][j]) &&
    (forall c :: 0 <= c < n && c != t.root ==> t.parent[c] < n && c in t.children[t.parent[c]])
  }

  /** order visits every node exactly once, each node after all of its children, the root last. */
  predicate IsPostorder(t: Tree, order: seq<nat>) {
    var n := |t.children|;
    |t.parent| == n && n >= 1 &&
    |order| == n && order[n - 1] == t.root &&
    (forall i :: 0 <= i < n ==> order[i] < n) &&
    (forall i, j :: 0 <= i < j < n ==> order[i] != order[j]) &&
    (forall m :: 0 <= m < n ==> m in order) &&
    (forall i, j :: 0 <= i < n && 0 <= j < n && order[j] != t.root && t.parent[order[j]] == order[i] ==> j < i)
  }

  /** The position of m in the traversal. */
  function Pos(order: seq<nat>, m: nat): (p: nat)
    requires m in order
    ensures p < |order| && order[p] == m
    ensures forall j :: 0 <= j < p ==> order[j] != m
  {
    if order[0] == m then 0
    else
      assert m in order[1..];
      1 + Pos(order[1..], m)
  }

  lemma PosOf(t: Tree, order: seq<nat>, i: nat)
    requires IsPostorder(t, order) && i < |order|
    ensures Pos(order, order[i]) == i
  {
  }

  /** Every edge goes from a later node of the traversal to an earlier one. */
  lemma ChildBeforeParent(t: Tree, order: seq<nat>, c: nat)
    requires WellFormed(t) && IsPostorder(t, order)
    requires c < |t.children| && c != t.root
    ensures t.parent[c] < |t.children|
    ensures Pos(order, c) < Pos(order, t.parent[c])
  {
    var i, j := Pos(order, t.parent[c]), Pos(order, c);
    assert order[j] != t.root && t.parent[order[j]] == order[i];
  }

  /** Facts about the k-th child of p. */
  lemma ChildFacts(t: Tree, order: seq<nat>, p: nat, k: nat)
    requires WellFormed(t) && IsPostorder(t, order)
    requires p < |t.children| && k < |t.children[p]|
    ensures t.children[p][k] < |t.children| && t.children[p][k] != t.root
    ensures t.parent[t.children[p][k]] == p
    ensures Pos(order, t.children[p][k]) < Pos(order, p)
  {
    ChildBeforeParent(t, order, t.children[p][k]);
  }
}
