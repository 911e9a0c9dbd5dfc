/**
 Trees kept as the file-system code keeps them: each node points to its parent, its first child and its next sibling,
 and new children go in front. As values, nodes are numbered in the order they were made, 0 is the root and -1 is null.
 */
module SiblingTree {

  datatype TreeNode<T> = TreeNode(name: string, data: T, parent: int, children: int, next: int)

  /** `a` is `b`, or leads into it. */
  predicate Starts(a: string, b: string) {
    a <= b && (|a| == |b| || b[|a|] == '/')
  }

  ghost predicate Linked<T>(nodes: seq<TreeNode<T>>) {
    && |nodes| >= 1 && nodes[0].parent == -1 && nodes[0].next == -1
    && (forall i :: 1 <= i < |nodes| ==> 0 <= nodes[i].parent < i)
    && (forall i :: 0 <= i < |nodes| ==> LinksOk(nodes, i))
    && (forall i :: 0 <= i < |nodes| ==> -1 <= nodes[i].next < i && -1 <= nodes[i].children < |nodes|)
  }

  /** The next sibling is older and has the same parent; the first child is a child. */
  ghost predicate LinksOk<T>(nodes: seq<TreeNode<T>>, i: int)
    requires 0 <= i < |nodes|
  {
    && -1 <= nodes[i].next < i
    && (nodes[i].next >= 0 ==> nodes[nodes[i].next].parent == nodes[i].parent)
    && -1 <= nodes[i].children < |nodes|
    && (nodes[i].children >= 0 ==> nodes[nodes[i].children].parent == i)
  }

  /** Sibling lists are complete, newest first. */
  ghost predicate Complete<T>(nodes: seq<TreeNode<T>>)
    requires Linked(nodes)
  {
    && (forall i, p :: 1 <= i < |nodes| && 0 <= p < |nodes| && nodes[i].parent == p ==> i <= nodes[p].children)
    && (forall i, j :: 1 <= j < i < |nodes| && nodes[i].parent == nodes[j].parent ==> j <= nodes[i].next)
  }

  /** A place in the walk: sibling `h` (or null) among the children of `p`. */
  ghost predicate At<T>(nodes: seq<TreeNode<T>>, h: int, p: int) {
    Linked(nodes) && 0 <= p < |nodes| && -1 <= h < |nodes| && (h >= 0 ==> nodes[h].parent == p && h > p)
  }

  lemma Moves<T>(nodes: seq<TreeNode<T>>, h: int, p: int)
    requires At(nodes, h, p) && h >= 0
    ensures At(nodes, nodes[h].children, h) && At(nodes, nodes[h].next, p)
  {
    assert LinksOk(nodes, h);
  }

  lemma FirstChild<T>(nodes: seq<TreeNode<T>>, p: int)
    requires Linked(nodes) && 0 <= p < |nodes|
    ensures At(nodes, nodes[p].children, p)
  {
    assert LinksOk(nodes, p);
  }

  /** Hangs a new node under `p`, before its siblings. */
  function Insert<T>(nodes: seq<TreeNode<T>>, p: nat, name: string, data: T): seq<TreeNode<T>>
    requires p < |nodes|
  {
    nodes[p := nodes[p].(children := |nodes|)] + [TreeNode(name, data, p, -1, nodes[p].children)]
  }

  lemma InsertLinked<T>(nodes: seq<TreeNode<T>>, p: nat, name: string, data: T)
    requires Linked(nodes) && p < |nodes|
    ensures Linked(Insert(nodes, p, name, data))
  {
    var nodes' := Insert(nodes, p, name, data);
    assert LinksOk(nodes, p);
    forall i | 0 <= i < |nodes'| ensures LinksOk(nodes', i) {
      if i < |nodes| {
        assert LinksOk(nodes, i);
      }
    }
  }

  lemma InsertComplete<T>(nodes: seq<TreeNode<T>>, p: nat, name: string, data: T)
    requires Linked(nodes) && p < |nodes| && Complete(nodes) && Linked(Insert(nodes, p, name, data))
    ensures Complete(Insert(nodes, p, name, data))
  {
    var nodes' := Insert(nodes, p, name, data);
    forall i, j | 1 <= j < i < |nodes'| && nodes'[i].parent == nodes'[j].parent ensures j <= nodes'[i].next {
      assert nodes'[j].parent == nodes[j].parent;
      if i < |nodes| {
        assert nodes'[i].parent == nodes[i].parent;
      }
    }
    forall i, q | 1 <= i < |nodes'| && 0 <= q < |nodes'| && nodes'[i].parent == q ensures i <= nodes'[q].children {
      if i < |nodes| {
        assert nodes'[i].parent == nodes[i].parent;
      }
    }
  }

  // ---------------------------------------------------------------- subtrees

  /** Node `x` is `d` or below it. */
  ghost predicate Under<T>(nodes: seq<TreeNode<T>>, x: int, d: int)
    requires Linked(nodes) && 0 <= x < |nodes|
    decreases x
  {
    x == d || (x > d && x > 0 && Under(nodes, nodes[x].parent, d))
  }

  lemma {:induction false} UnderChild<T>(nodes: seq<TreeNode<T>>, x: int, s: int)
    requires Linked(nodes) && 0 <= x < |nodes| && 1 <= s < |nodes| && Under(nodes, x, s)
    ensures Under(nodes, x, nodes[s].parent)
    decreases x
  {
    if x != s {
      UnderChild(nodes, nodes[x].parent, s);
    }
  }

  /** Nothing is below two different children of one node. */
  lemma {:induction false} UnderOne<T>(nodes: seq<TreeNode<T>>, x: int, c: int, d: int)
    requires Linked(nodes) && 0 <= x < |nodes| && 1 <= c < |nodes| && 1 <= d < |nodes|
    requires nodes[c].parent == nodes[d].parent
    requires Under(nodes, x, c) && Under(nodes, x, d)
    ensures c == d
    decreases x
  {
    var p := nodes[c].parent;
    if x == c && x != d {
      UnderAbove(nodes, p, d);
    } else if x == d && x != c {
      UnderAbove(nodes, p, c);
    } else if x != c {
      UnderOne(nodes, nodes[x].parent, c, d);
    }
  }

  lemma UnderAbove<T>(nodes: seq<TreeNode<T>>, x: int, d: int)
    requires Linked(nodes) && 0 <= x < |nodes| && Under(nodes, x, d)
    ensures d <= x
  {
  }

  // ---------------------------------------------------------------- the tree in memory

  class Node<T> {
    var name: string
    var data: T
    var parent: Node?<T>
    var children: Node?<T>
    var next: Node?<T>

    constructor (name: string, data: T, parent: Node?<T>, next: Node?<T>)
      ensures this.name == name && this.data == data && this.parent == parent && this.next == next && children == null
    {
      this.name, this.data, this.parent, this.next, this.children := name, data, parent, next, null;
    }
  }

  /** Pointer `p` is node number `k`, or both are null. */
  ghost predicate Ptr<T>(arena: seq<Node<T>>, p: Node?<T>, k: int) {
    if k < 0 then p == null else k < |arena| && p == arena[k]
  }

  ghost predicate Laid<T>(arena: seq<Node<T>>, nodes: seq<TreeNode<T>>, i: nat)
    requires i < |arena| && i < |nodes|
    reads arena
  {
    && arena[i].name == nodes[i].name && arena[i].data == nodes[i].data
    && Ptr(arena, arena[i].parent, nodes[i].parent) && Ptr(arena, arena[i].children, nodes[i].children) &&
       Ptr(arena, arena[i].next, nodes[i].next)
  }

  /** The objects of `arena` are the nodes, in their order. */
  ghost predicate LaidOut<T>(arena: seq<Node<T>>, nodes: seq<TreeNode<T>>)
    reads arena
  {
    && |arena| == |nodes|
    && (forall i, j :: 0 <= i < j < |arena| ==> arena[i] != arena[j])
    && (forall i :: 0 <= i < |arena| ==> Laid(arena, nodes, i))
  }

  /** Makes a node and hangs it under `parent`, before its siblings. */
  method AddChild<T>(ghost arena: seq<Node<T>>, ghost nodes: seq<TreeNode<T>>, ghost x: nat, parent: Node<T>,
                     name: string, data: T)
    returns (node: Node<T>)
    requires LaidOut(arena, nodes) && x < |nodes| && parent == arena[x]
    modifies parent`children
    ensures fresh(node) && LaidOut(arena + [node], Insert(nodes, x, name, data))
  {
    assert Laid(arena, nodes, x);
    node := new Node(name, data, parent, parent.children);
    parent.children := node;
    ghost var arena', nodes' := arena + [node], Insert(nodes, x, name, data);
    forall i | 0 <= i < |arena'| ensures Laid(arena', nodes', i) {
      if i < |nodes| {
        assert old(Laid(arena, nodes, i));
      }
    }
  }
}
