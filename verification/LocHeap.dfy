/** The pointer heap of gps/utils/LocHeap.cpp: nodes that swap data and unlink leaves in place. */
module LocHeap {
  import opened Wrappers
  import opened Ranking
  import opened HeapTree

  /** Which node sits where in a tree of nodes. */
  datatype Shape = Empty | At(node: LocHeapNode, left: Shape, right: Shape)

  ghost function Nodes(s: Shape): set<LocHeapNode> {
    match s
    case Empty => {}
    case At(n, l, r) => {n} + Nodes(l) + Nodes(r)
  }

  /** No node occurs twice. */
  ghost predicate Separate(s: Shape) {
    s.At? ==>
      && s.node !in Nodes(s.left) && s.node !in Nodes(s.right) && Nodes(s.left) !! Nodes(s.right)
      && Separate(s.left) && Separate(s.right)
  }

  /** The nodes of shape s, reached from n, hold the tree t. */
  ghost predicate Holds(n: LocHeapNode?, s: Shape, t: Tree)
    reads Nodes(s)
    decreases s
  {
    match s
    case Empty => n == null && t.Nil?
    case At(m, l, r) =>
      && n == m && t.Node? && m.mSize == t.size && m.mData == t.data
      && Holds(m.mLeft, l, t.left) && Holds(m.mRight, r, t.right)
  }

  /** A removal that found its object took one node out of the shape, a childless leaf carrying it; else nothing. */
  ghost predicate Taken(removed: LocHeapNode?, found: bool, data: Rankable, s: Shape, s': Shape)
    reads removed
  {
    && (removed != null) == found
    && (removed == null ==> s' == s)
    && (removed != null ==>
          && removed in Nodes(s) && Nodes(s') == Nodes(s) - {removed}
          && removed.mLeft == null && removed.mRight == null && removed.mData == data)
  }

  class LocHeapNode {
    var mSize: int
    var mLeft: LocHeapNode?
    var mRight: LocHeapNode?
    var mData: Rankable

    constructor (data: Rankable)
      ensures mSize == 1 && mLeft == null && mRight == null && mData == data
    {
      mSize := 1;
      mLeft, mRight := null, null;
      mData := data;
    }

    method Push(node: LocHeapNode, ghost s: Shape, ghost t: Tree, ghost repr: set<LocHeapNode>) returns (ghost s': Shape)
      requires repr == Nodes(s) && Holds(this, s, t) && Separate(s) && node !in Nodes(s)
      requires node.mSize == 1 && node.mLeft == null && node.mRight == null
      modifies repr, node
      ensures Holds(this, s', HeapTree.Push(t, old(node.mData)))
      ensures Separate(s') && Nodes(s') == Nodes(s) + {node}
      decreases s
    {
      if OutRanks(node.mData, mData) {
        node.mData, mData := mData, node.mData;
      }
      ghost var lo := node.mData;
      assert Holds(mLeft, s.left, t.left) && Holds(mRight, s.right, t.right);
      if mLeft == null {
        mLeft := node;
        s' := At(this, At(node, Empty, Empty), s.right);
        assert Holds(mLeft, s'.left, Leaf(lo)) && Holds(mRight, s.right, t.right);
      } else if mRight == null {
        mRight := node;
        s' := At(this, s.left, At(node, Empty, Empty));
        assert Holds(mLeft, s.left, t.left) && Holds(mRight, s'.right, Leaf(lo));
      } else if mLeft.mSize <= mRight.mSize {
        label before:
        ghost var l := mLeft.Push(node, s.left, t.left, Nodes(s.left));
        assert old@before(Holds(mRight, s.right, t.right)) && Holds(mRight, s.right, t.right);
        s' := At(this, l, s.right);
        assert Holds(mLeft, l, HeapTree.Push(t.left, lo)) && Holds(mRight, s.right, t.right);
      } else {
        label before:
        ghost var r := mRight.Push(node, s.right, t.right, Nodes(s.right));
        assert old@before(Holds(mLeft, s.left, t.left)) && Holds(mLeft, s.left, t.left);
        s' := At(this, s.left, r);
        assert Holds(mLeft, s.left, t.left) && Holds(mRight, r, HeapTree.Push(t.right, lo));
      }
      mSize := mSize + 1;
    }

    /** Takes the top object out. The node returned is a childless leaf that now carries it. */
    static method Pop(top: LocHeapNode, ghost s: Shape, ghost t: Tree, ghost repr: set<LocHeapNode>)
      returns (newTop: LocHeapNode?, popped: LocHeapNode, ghost s': Shape)
      requires repr == Nodes(s) && Holds(top, s, t) && Separate(s)
      modifies repr
      ensures newTop == null || newTop == top
      ensures Holds(newTop, s', HeapTree.Pop(t))
      ensures Separate(s') && popped in Nodes(s) && Nodes(s') == Nodes(s) - {popped}
      ensures popped.mLeft == null && popped.mRight == null && popped.mData == t.data
      decreases s, 1
    {
      if top.mLeft == null && top.mRight == null {
        popped := top;
        top.mSize := top.mSize - 1;
        newTop := null;
        s' := Empty;
      } else {
        newTop := top;
        if top.mRight == null || (top.mLeft != null && OutRanks(top.mLeft.mData, top.mRight.mData)) {
          popped, s' := PopLeft(top, s, t, repr);
        } else {
          popped, s' := PopRight(top, s, t, repr);
        }
      }
    }

    static method PopLeft(top: LocHeapNode, ghost s: Shape, ghost t: Tree, ghost repr: set<LocHeapNode>)
      returns (popped: LocHeapNode, ghost s': Shape)
      requires repr == Nodes(s) && Holds(top, s, t) && Separate(s)
      requires t.left.Node?
      modifies repr
      ensures Holds(top, s', Node(t.size - 1, HeapTree.Pop(t.left), t.right, t.left.data))
      ensures Separate(s') && popped in Nodes(s) && Nodes(s') == Nodes(s) - {popped}
      ensures popped.mLeft == null && popped.mRight == null && popped.mData == t.data
      decreases s, 0
    {
      assert Holds(top.mLeft, s.left, t.left) && Holds(top.mRight, s.right, t.right);
      label before:
      top.mSize := top.mSize - 1;
      top.mData, top.mLeft.mData := top.mLeft.mData, top.mData;
      ghost var sub := t.left.(data := t.data);
      var l;
      ghost var ls;
      l, popped, ls := Pop(top.mLeft, s.left, sub, Nodes(s.left));
      label popped:
      top.mLeft := l;
      assert old@popped(Holds(l, ls, HeapTree.Pop(t.left))) && Holds(l, ls, HeapTree.Pop(t.left));
      assert old@before(Holds(top.mRight, s.right, t.right)) && Holds(top.mRight, s.right, t.right);
      s' := At(top, ls, s.right);
    }

    static method PopRight(top: LocHeapNode, ghost s: Shape, ghost t: Tree, ghost repr: set<LocHeapNode>)
      returns (popped: LocHeapNode, ghost s': Shape)
      requires repr == Nodes(s) && Holds(top, s, t) && Separate(s)
      requires t.right.Node?
      modifies repr
      ensures Holds(top, s', Node(t.size - 1, t.left, HeapTree.Pop(t.right), t.right.data))
      ensures Separate(s') && popped in Nodes(s) && Nodes(s') == Nodes(s) - {popped}
      ensures popped.mLeft == null && popped.mRight == null && popped.mData == t.data
      decreases s, 0
    {
      assert Holds(top.mLeft, s.left, t.left) && Holds(top.mRight, s.right, t.right);
      label before:
      top.mSize := top.mSize - 1;
      top.mData, top.mRight.mData := top.mRight.mData, top.mData;
      ghost var sub := t.right.(data := t.data);
      var r;
      ghost var rs;
      r, popped, rs := Pop(top.mRight, s.right, sub, Nodes(s.right));
      label popped:
      top.mRight := r;
      assert old@popped(Holds(r, rs, HeapTree.Pop(t.right))) && Holds(r, rs, HeapTree.Pop(t.right));
      assert old@before(Holds(top.mLeft, s.left, t.left)) && Holds(top.mLeft, s.left, t.left);
      s' := At(top, s.left, rs);
    }

    /** Looks for an object by address, skipping subtrees it would outrank, and takes it out. */
    static method Remove(top: LocHeapNode, data: Rankable, ghost s: Shape, ghost t: Tree, ghost repr: set<LocHeapNode>)
      returns (newTop: LocHeapNode?, removed: LocHeapNode?, ghost s': Shape)
      requires repr == Nodes(s) && Holds(top, s, t) && Separate(s)
      modifies repr
      ensures newTop == null || newTop == top
      ensures Holds(newTop, s', HeapTree.Remove(t, data).0) && Separate(s')
      ensures Taken(removed, HeapTree.Remove(t, data).1, data, s, s')
      decreases s, 2
    {
      removed := null;
      newTop := top;
      s' := s;
      if data == top.mData {
        newTop, removed, s' := Pop(top, s, t, repr);
      } else if !OutRanks(data, top.mData) {
        removed, s' := RemoveBelow(top, data, s, t, repr);
      }
    }

    /** The search below a node that is not the one: left first, then right. */
    static method RemoveBelow(top: LocHeapNode, data: Rankable, ghost s: Shape, ghost t: Tree, ghost repr: set<LocHeapNode>)
      returns (removed: LocHeapNode?, ghost s': Shape)
      requires repr == Nodes(s) && Holds(top, s, t) && Separate(s) && data != t.data && !OutRanks(data, t.data)
      modifies repr
      ensures Holds(top, s', HeapTree.Remove(t, data).0) && Separate(s')
      ensures Taken(removed, HeapTree.Remove(t, data).1, data, s, s')
      decreases s, 1
    {
      hide Contents;
      RemoveMisses(t.left, data);
      RemoveMisses(t.right, data);
      removed := null;
      s' := s;
      if top.mLeft != null {
        removed, s' := RemoveLeft(top, data, s, t, repr);
        assert removed == null ==> Holds(top, s, t);
      }
      if removed == null && top.mRight != null {
        removed, s' := RemoveRight(top, data, s, t, repr);
      }
      if removed != null {
        Shrink(top, s', HeapTree.Remove(t, data).0, Nodes(s'));
      }
    }

    /** top lost a node in its subtree. */
    static method Shrink(top: LocHeapNode, ghost s: Shape, ghost t: Tree, ghost repr: set<LocHeapNode>)
      requires repr == Nodes(s) && Separate(s) && t.Node? && Holds(top, s, t.(size := t.size + 1))
      modifies top
      ensures Holds(top, s, t)
    {
      assert Holds(top.mLeft, s.left, t.left) && Holds(top.mRight, s.right, t.right);
      top.mSize := top.mSize - 1;
    }

    static method RemoveLeft(top: LocHeapNode, data: Rankable, ghost s: Shape, ghost t: Tree, ghost repr: set<LocHeapNode>)
      returns (removed: LocHeapNode?, ghost s': Shape)
      requires repr == Nodes(s) && Holds(top, s, t) && Separate(s) && t.left.Node?
      modifies repr
      ensures Holds(top, s', t.(left := HeapTree.Remove(t.left, data).0)) && Separate(s')
      ensures Taken(removed, HeapTree.Remove(t.left, data).1, data, s, s')
      decreases s, 0
    {
      assert Holds(top.mRight, s.right, t.right);
      label before:
      var l;
      ghost var ls;
      l, removed, ls := Remove(top.mLeft, data, s.left, t.left, Nodes(s.left));
      label found:
      top.mLeft := l;
      assert old@found(Holds(l, ls, HeapTree.Remove(t.left, data).0)) && Holds(l, ls, HeapTree.Remove(t.left, data).0);
      assert old@before(Holds(top.mRight, s.right, t.right)) && Holds(top.mRight, s.right, t.right);
      s' := At(top, ls, s.right);
    }

    static method RemoveRight(top: LocHeapNode, data: Rankable, ghost s: Shape, ghost t: Tree, ghost repr: set<LocHeapNode>)
      returns (removed: LocHeapNode?, ghost s': Shape)
      requires repr == Nodes(s) && Holds(top, s, t) && Separate(s) && t.right.Node?
      modifies repr
      ensures Holds(top, s', t.(right := HeapTree.Remove(t.right, data).0)) && Separate(s')
      ensures Taken(removed, HeapTree.Remove(t.right, data).1, data, s, s')
      decreases s, 0
    {
      assert Holds(top.mLeft, s.left, t.left);
      label before:
      var r;
      ghost var rs;
      r, removed, rs := Remove(top.mRight, data, s.right, t.right, Nodes(s.right));
      label found:
      top.mRight := r;
      assert old@found(Holds(r, rs, HeapTree.Remove(t.right, data).0)) && Holds(r, rs, HeapTree.Remove(t.right, data).0);
      assert old@before(Holds(top.mLeft, s.left, t.left)) && Holds(top.mLeft, s.left, t.left);
      s' := At(top, s.left, rs);
    }

    /** Whether the tree below this node is in rank order with exact sizes. */
    method CheckNodes(ghost s: Shape, ghost t: Tree, ghost repr: set<LocHeapNode>) returns (ok: bool)
      requires repr == Nodes(s) && Holds(this, s, t)
      ensures ok <==> Wf(t)
      decreases s
    {
      WfLocally(t);
      var totalSize := mSize;
      if mLeft != null {
        if OutRanks(mLeft.mData, mData) { return false; }
        var b := mLeft.CheckNodes(s.left, t.left, Nodes(s.left));
        if !b { return false; }
        totalSize := totalSize - mLeft.mSize;
      }
      if mRight != null {
        if OutRanks(mRight.mData, mData) { return false; }
        var b := mRight.CheckNodes(s.right, t.right, Nodes(s.right));
        if !b { return false; }
        totalSize := totalSize - mRight.mSize;
      }
      return totalSize == 1;
    }
  }

  class LocHeap {
    var mTree: LocHeapNode?
    ghost var shape: Shape
    ghost var tree: Tree
    ghost var Repr: set<LocHeapNode>

    ghost predicate Valid()
      reads this, Repr
    {
      Repr == Nodes(shape) && Holds(mTree, shape, tree) && Separate(shape) && Wf(tree)
    }

    constructor ()
      ensures Valid() && tree == Nil && fresh(Repr)
    {
      mTree, shape, tree, Repr := null, Empty, Nil, {};
    }

    method Push(node: Rankable)
      requires Valid()
      modifies this, Repr
      ensures Valid() && fresh(Repr - old(Repr))
      ensures tree == HeapTree.Push(old(tree), node)
    {
      PushKeepsHeap(tree, node);
      var heapNode := new LocHeapNode(node);
      if mTree == null {
        mTree := heapNode;
        shape := At(heapNode, Empty, Empty);
      } else {
        shape := mTree.Push(heapNode, shape, tree, Repr);
      }
      tree := HeapTree.Push(tree, node);
      Repr := Repr + {heapNode};
    }

    /** The top object, which nothing in the heap outranks; none when empty. */
    method Peek() returns (top: Option<Rankable>)
      requires Valid()
      ensures top == TopOf(tree)
      ensures top.None? <==> Contents(tree) == multiset{}
      ensures top.Some? ==> top.value in Contents(tree) && Dominates(top.value, tree)
    {
      RootDominates(tree);
      if mTree == null {
        top := None;
      } else {
        top := Some(mTree.mData);
      }
    }

    /** Takes out an object that nothing outranks and unlinks exactly one node. */
    method Pop() returns (popped: Option<Rankable>)
      requires Valid()
      modifies this, Repr
      ensures Valid()
      ensures popped == TopOf(old(tree))
      ensures popped.None? ==> tree == old(tree) && Repr == old(Repr)
      ensures popped.Some? ==>
        && tree == HeapTree.Pop(old(tree))
        && exists n :: n in old(Repr) && Repr == old(Repr) - {n}
    {
      popped := None;
      if mTree != null {
        PopKeepsHeap(tree);
        var heapNode;
        mTree, heapNode, shape := LocHeapNode.Pop(mTree, shape, tree, Repr);
        popped := Some(heapNode.mData);
        tree := HeapTree.Pop(tree);
        Repr := Repr - {heapNode};
      }
    }

    /** Takes out the given object if it is there; otherwise changes nothing. */
    method Remove(rankable: Rankable) returns (removed: Option<Rankable>)
      requires Valid()
      modifies this, Repr
      ensures Valid()
      ensures tree == HeapTree.Remove(old(tree), rankable).0
      ensures removed == if rankable in Contents(old(tree)) then Some(rankable) else None
      ensures if removed.None? then Repr == old(Repr) else exists n :: n in old(Repr) && Repr == old(Repr) - {n}
    {
      hide Wf, Contents, HeapTree.Remove, Separate;
      RemoveKeepsHeap(tree, rankable);
      RemoveFromNothing(tree, rankable);
      removed := None;
      if mTree != null {
        var heapNode;
        mTree, heapNode, shape := LocHeapNode.Remove(mTree, rankable, shape, tree, Repr);
        if heapNode != null {
          removed := Some(heapNode.mData);
          ghost var n: LocHeapNode := heapNode;
          Repr := Repr - {n};
          assert n in old(Repr) && Repr == old(Repr) - {n};
        }
        tree := HeapTree.Remove(tree, rankable).0;
      }
    }

    /** The heap's check of itself; one only ever reached through these methods passes it. */
    method CheckTree() returns (ok: bool)
      requires Valid()
      ensures ok
    {
      if mTree == null {
        return true;
      }
      ok := mTree.CheckNodes(shape, tree, Repr);
    }
  }
}
