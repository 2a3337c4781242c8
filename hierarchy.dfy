/**
 * Annotation of the compilation tree before layout: every child learns its
 * index among its siblings, and every node the chain of nodes from the root
 * down to its parent.
 */
module Hierarchy {
  import opened Wrappers

  /**
   * A node, named by its path from the root: the child indices taken at each
   * level. Ancestor chains hold these names in place of node references.
   */
  type Path = seq<nat>

  /**
   * A node of the tree. `datum` stands for the node's own JSON fields;
   * `children` is absent on leaves; `position` and `ancestors` are the two
   * annotations, absent until they are stamped.
   */
  datatype Tree<T> = Node(
    datum: T,
    children: Children<T>,
    position: Option<int>,
    ancestors: Option<seq<Path>>)

  /** A node's `children`: absent, or an array of nodes. */
  datatype Children<T> = Absent | Present(nodes: seq<Tree<T>>)

  /** The node reached from `t` by following `p`, if there is one. */
  function At<T>(t: Tree<T>, p: Path): Option<Tree<T>>
    decreases p
  {
    if p == [] then Some(t)
    else match t.children
      case Absent => None
      case Present(cs) => if p[0] < |cs| then At(cs[p[0]], p[1..]) else None
  }

  /** `orderChildren`: every child, at every depth, gets its index among its siblings. */
  function OrderChildren<T>(t: Tree<T>): (r: Tree<T>)
    ensures r.datum == t.datum && r.position == t.position && r.ancestors == t.ancestors
    ensures t.children.Absent? ==> r == t
    ensures r.children.Present? <==> t.children.Present?
    ensures t.children.Present? ==> |r.children.nodes| == |t.children.nodes|
    ensures t.children.Present? ==>
              forall i :: 0 <= i < |t.children.nodes| ==> r.children.nodes[i].position == Some(i)
    decreases t
  {
    match t.children
    case Absent => t
    case Present(cs) =>
      t.(children := Present(seq(|cs|, i requires 0 <= i < |cs| => OrderChildren(cs[i]).(position := Some(i)))))
  }

  /**
   * `addAnscestors`: `self` names `node`, and `ancestors` is the chain above
   * it; each child's chain is the parent's with the parent appended.
   */
  function AddAncestors<T>(node: Tree<T>, self: Path, ancestors: seq<Path>): (r: Tree<T>)
    ensures r.datum == node.datum && r.position == node.position
    ensures r.ancestors == Some(ancestors)
    ensures r.children.Present? <==> node.children.Present?
    ensures node.children.Present? ==> |r.children.nodes| == |node.children.nodes|
    ensures node.children.Present? ==>
              forall i :: 0 <= i < |node.children.nodes| ==> r.children.nodes[i].ancestors == Some(ancestors + [self])
    decreases node
  {
    match node.children
    case Absent => node.(ancestors := Some(ancestors))
    case Present(cs) =>
      node.(children := Present(seq(|cs|, i requires 0 <= i < |cs| => AddAncestors(cs[i], self + [i], ancestors + [self]))),
            ancestors := Some(ancestors))
  }

  /** The names of the nodes from the root down to the parent of the node at `p`. */
  function PathsAbove(p: Path): (r: seq<Path>)
    ensures |r| == |p|
    ensures forall k :: 0 <= k < |p| ==> r[k] == p[..k]
  {
    seq(|p|, k requires 0 <= k < |p| => p[..k])
  }

  /**
   * `orderChildren` keeps the shape of the tree: the same nodes at the same
   * paths, with the same data and the same number of children; every node but
   * the root gets the last index of its path as its position, and the root
   * keeps its own.
   */
  lemma {:induction false} OrderChildrenAt<T>(t: Tree<T>, p: Path)
    ensures At(OrderChildren(t), p).Some? <==> At(t, p).Some?
    ensures At(t, p).Some? ==>
              var n, m := At(t, p).value, At(OrderChildren(t), p).value;
              m.datum == n.datum && m.ancestors == n.ancestors &&
              (m.children.Present? <==> n.children.Present?) &&
              (n.children.Present? ==> |m.children.nodes| == |n.children.nodes|) &&
              m.position == if p == [] then n.position else Some(p[|p| - 1])
    decreases p
  {
    if p != [] && t.children.Present? && p[0] < |t.children.nodes| {
      var child := t.children.nodes[p[0]];
      OrderChildrenAt(child, p[1..]);
      assert At(OrderChildren(t), p) == At(OrderChildren(child).(position := Some(p[0])), p[1..]);
      if p[1..] != [] {
        RestampAt(OrderChildren(child), Some(p[0]), p[1..]);
        assert p[|p| - 1] == p[1..][|p[1..]| - 1];
      }
    }
  }

  /** Changing a node's own position changes nothing below it. */
  lemma RestampAt<T>(t: Tree<T>, position: Option<int>, p: Path)
    requires p != []
    ensures At(t.(position := position), p) == At(t, p)
  {
  }

  /**
   * `addAnscestors` keeps the shape of the tree and its data and positions,
   * and gives the node at path `p` below `self` the chain `ancestors`, then
   * `self`, then every node on the way down to its parent.
   */
  lemma {:induction false} AddAncestorsAt<T>(t: Tree<T>, self: Path, ancestors: seq<Path>, p: Path)
    ensures At(AddAncestors(t, self, ancestors), p).Some? <==> At(t, p).Some?
    ensures At(t, p).Some? ==>
              var n, m := At(t, p).value, At(AddAncestors(t, self, ancestors), p).value;
              m.datum == n.datum && m.position == n.position &&
              (m.children.Present? <==> n.children.Present?) &&
              (n.children.Present? ==> |m.children.nodes| == |n.children.nodes|) &&
              m.ancestors == Some(ancestors + seq(|p|, k requires 0 <= k < |p| => self + p[..k]))
    decreases p
  {
    if p == [] {
      assert ancestors + seq(|p|, k requires 0 <= k < |p| => self + p[..k]) == ancestors;
    } else if t.children.Present? && p[0] < |t.children.nodes| {
      var i, rest := p[0], p[1..];
      var child := t.children.nodes[i];
      AddAncestorsAt(child, self + [i], ancestors + [self], rest);
      assert At(AddAncestors(t, self, ancestors), p) == At(AddAncestors(child, self + [i], ancestors + [self]), rest);
      var below := seq(|rest|, k requires 0 <= k < |rest| => self + [i] + rest[..k]);
      var whole := seq(|p|, k requires 0 <= k < |p| => self + p[..k]);
      assert [self] + below == whole by {
        forall k | 0 <= k < |p|
          ensures ([self] + below)[k] == whole[k]
        {
          if k > 0 {
            assert p[..k] == [i] + rest[..k - 1];
          }
        }
      }
      assert ancestors + [self] + below == ancestors + whole;
    }
  }

  /** The tree handed to the layout: ordered first, then given its ancestor chains from an empty one at the root. */
  function Annotate<T>(data: Tree<T>): Tree<T> {
    AddAncestors(OrderChildren(data), [], [])
  }

  /**
   * In the annotated tree, every node of the input is still there with its
   * data; a child's position is its index among its siblings; every node's
   * ancestor chain names the nodes from the root to its parent, so its length
   * is the node's depth.
   */
  lemma AnnotatedNodes<T>(data: Tree<T>, p: Path)
    requires At(data, p).Some?
    ensures At(Annotate(data), p).Some?
    ensures var m := At(Annotate(data), p).value;
            m.datum == At(data, p).value.datum &&
            m.position == (if p == [] then data.position else Some(p[|p| - 1])) &&
            m.ancestors == Some(PathsAbove(p)) && |m.ancestors.value| == |p|
  {
    OrderChildrenAt(data, p);
    AddAncestorsAt(OrderChildren(data), [], [], p);
    var chain := [] + seq(|p|, k requires 0 <= k < |p| => [] + p[..k]);
    assert chain == PathsAbove(p) by {
      forall k | 0 <= k < |p|
        ensures chain[k] == PathsAbove(p)[k]
      {
        assert [] + p[..k] == p[..k];
      }
    }
  }
}
