/** The shape a LocHeapNode tree takes, as a value, and what push, pop and remove do to it. */
module HeapTree {
  import opened Wrappers
  import opened Ranking

  /** A tree of LocHeapNode: size is the stored mSize field, which nothing forces to be right. */
  datatype Tree = Nil | Node(size: int, left: Tree, right: Tree, data: Rankable)

  function Leaf(d: Rankable): Tree {
    Node(1, Nil, Nil, d)
  }

  function TopOf(t: Tree): Option<Rankable> {
    if t.Nil? then None else Some(t.data)
  }

  // ----- Reference notions -----

  ghost function Contents(t: Tree): multiset<Rankable> {
    match t
    case Nil => multiset{}
    case Node(_, l, r, d) => multiset{d} + Contents(l) + Contents(r)
  }

  function Count(t: Tree): nat {
    match t
    case Nil => 0
    case Node(_, l, r, _) => 1 + Count(l) + Count(r)
  }

  /** Nothing in the tree outranks d. */
  ghost predicate Dominates(d: Rankable, t: Tree) {
    forall x :: x in Contents(t) ==> !OutRanks(x, d)
  }

  /** At every node, nothing below outranks the node. */
  ghost predicate Ordered(t: Tree) {
    t.Nil? || (Dominates(t.data, t.left) && Dominates(t.data, t.right) && Ordered(t.left) && Ordered(t.right))
  }

  /** At every node, mSize is the number of nodes of the subtree. */
  predicate Sized(t: Tree) {
    t.Nil? || (t.size == Count(t) && Sized(t.left) && Sized(t.right))
  }

  ghost predicate Wf(t: Tree) {
    Ordered(t) && Sized(t)
  }

  // ----- LocHeapNode operations -----

  /** Whether push drops into the left child: it is missing, or both are there and it is not the larger. */
  predicate PushesLeft(t: Tree)
    requires t.Node?
  {
    t.left.Nil? || (t.right.Node? && t.left.size <= t.right.size)
  }

  function Push(t: Tree, d: Rankable): Tree {
    if t.Nil? then Leaf(d)
    else
      var hi := if OutRanks(d, t.data) then d else t.data;
      var lo := if OutRanks(d, t.data) then t.data else d;
      if PushesLeft(t) then Node(t.size + 1, Push(t.left, lo), t.right, hi)
      else Node(t.size + 1, t.left, Push(t.right, lo), hi)
  }

  /** Whether pop goes down to the left child. */
  predicate TakesLeft(t: Tree)
    requires t.Node? && (t.left.Node? || t.right.Node?)
  {
    t.right.Nil? || (t.left.Node? && OutRanks(t.left.data, t.right.data))
  }

  function Pop(t: Tree): (r: Tree)
    requires t.Node?
    ensures Count(r) == Count(t) - 1
  {
    if t.left.Nil? && t.right.Nil? then Nil
    else if TakesLeft(t) then Node(t.size - 1, Pop(t.left), t.right, t.left.data)
    else Node(t.size - 1, t.left, Pop(t.right), t.right.data)
  }

  /** The tree left, and whether the object was found. */
  function Remove(t: Tree, d: Rankable): (Tree, bool) {
    if t.Nil? then (t, false)
    else if d == t.data then (Pop(t), true)
    else if OutRanks(d, t.data) then (t, false)
    else if Remove(t.left, d).1 then (Node(t.size - 1, Remove(t.left, d).0, t.right, t.data), true)
    else if Remove(t.right, d).1 then (Node(t.size - 1, t.left, Remove(t.right, d).0, t.data), true)
    else (t, false)
  }

  // ----- Push -----

  lemma {:induction false} PushContents(t: Tree, d: Rankable)
    ensures Contents(Push(t, d)) == Contents(t) + multiset{d}
  {
    if t.Node? {
      var lo := if OutRanks(d, t.data) then t.data else d;
      if PushesLeft(t) {
        PushContents(t.left, lo);
      } else {
        PushContents(t.right, lo);
      }
    }
  }

  lemma {:induction false} PushSized(t: Tree, d: Rankable)
    requires Sized(t)
    ensures Sized(Push(t, d)) && Count(Push(t, d)) == Count(t) + 1
  {
    if t.Node? {
      var lo := if OutRanks(d, t.data) then t.data else d;
      PushSized(if PushesLeft(t) then t.left else t.right, lo);
    }
  }

  lemma {:induction false} PushOrdered(t: Tree, d: Rankable)
    requires Ordered(t)
    ensures Ordered(Push(t, d))
    ensures t.Node? ==> Push(t, d).data == if OutRanks(d, t.data) then d else t.data
  {
    if t.Node? {
      var hi := if OutRanks(d, t.data) then d else t.data;
      var lo := if OutRanks(d, t.data) then t.data else d;
      var sub := if PushesLeft(t) then t.left else t.right;
      PushOrdered(sub, lo);
      DominatesPushed(t.data, hi, sub, lo);
    }
  }

  lemma {:induction false} PushKeepsHeap(t: Tree, d: Rankable)
    requires Wf(t)
    ensures Wf(Push(t, d))
  {
    PushSized(t, d);
    PushOrdered(t, d);
  }

  lemma {:induction false} DominatesPushed(top: Rankable, hi: Rankable, t: Tree, lo: Rankable)
    requires Dominates(top, t) && !OutRanks(lo, hi) && !OutRanks(top, hi)
    ensures Dominates(hi, Push(t, lo))
  {
    PushContents(t, lo);
  }

  // ----- Pop -----

  lemma {:induction false} PopContents(t: Tree)
    requires t.Node?
    ensures Contents(Pop(t)) + multiset{t.data} == Contents(t)
  {
    if t.left.Node? || t.right.Node? {
      if TakesLeft(t) {
        PopContents(t.left);
      } else {
        PopContents(t.right);
      }
    }
  }

  lemma {:induction false} PopSized(t: Tree)
    requires t.Node? && Sized(t)
    ensures Sized(Pop(t))
  {
    if t.left.Node? || t.right.Node? {
      PopSized(if TakesLeft(t) then t.left else t.right);
    }
  }

  lemma {:induction false} PopOrdered(t: Tree)
    requires t.Node? && Ordered(t)
    ensures Ordered(Pop(t)) && Dominates(t.data, Pop(t))
  {
    PopContents(t);
    if t.left.Node? || t.right.Node? {
      var (sub, other) := if TakesLeft(t) then (t.left, t.right) else (t.right, t.left);
      RootDominates(sub);
      RootDominates(other);
      PopOrdered(sub);
      DominatesTransitive(sub.data, other);
    }
  }

  /** Of two children the left one comes up only if it outranks the right one; a lone child comes up. */
  lemma {:induction false} PopBringsUp(t: Tree)
    requires t.Node? && (t.left.Node? || t.right.Node?)
    ensures Pop(t).Node?
    ensures t.left.Node? && (t.right.Nil? || OutRanks(t.left.data, t.right.data)) ==> Pop(t).data == t.left.data && Pop(t).right == t.right
    ensures t.right.Node? && (t.left.Nil? || !OutRanks(t.left.data, t.right.data)) ==> Pop(t).data == t.right.data && Pop(t).left == t.left
  {
  }

  lemma {:induction false} PopKeepsHeap(t: Tree)
    requires t.Node? && Wf(t)
    ensures Wf(Pop(t))
  {
    PopSized(t);
    PopOrdered(t);
  }

  lemma {:induction false} RootIsMember(t: Tree)
    ensures t.Node? ==> t.data in Contents(t)
  {
  }

  lemma {:induction false} RootDominates(t: Tree)
    requires Ordered(t)
    ensures t.Node? ==> t.data in Contents(t) && Dominates(t.data, t)
  {
  }

  /** With the rank that timers have, the top of a heap is a soonest one in it, by the second. */
  lemma {:induction false} TopIsSoonest(t: Tree)
    requires t.Node? && Ordered(t)
    ensures t.data in Contents(t) && forall y :: y in Contents(t) ==> t.data.due.sec <= y.due.sec
  {
    RootDominates(t);
    forall y | y in Contents(t) ensures t.data.due.sec <= y.due.sec {
      assert !OutRanks(y, t.data);
    }
  }

  lemma DominatesTransitive(d: Rankable, t: Tree)
    requires t.Node? ==> Dominates(t.data, t) && !OutRanks(t.data, d)
    ensures Dominates(d, t)
  {
  }

  lemma {:induction false} OrderedLocally(t: Tree)
    requires t.Node?
    ensures Ordered(t) <==>
      && (t.left.Node? ==> !OutRanks(t.left.data, t.data) && Ordered(t.left))
      && (t.right.Node? ==> !OutRanks(t.right.data, t.data) && Ordered(t.right))
  {
    RootIsMember(t.left);
    RootIsMember(t.right);
    if Ordered(t.left) && (t.left.Node? ==> !OutRanks(t.left.data, t.data)) {
      RootDominates(t.left);
      DominatesTransitive(t.data, t.left);
    }
    if Ordered(t.right) && (t.right.Node? ==> !OutRanks(t.right.data, t.data)) {
      RootDominates(t.right);
      DominatesTransitive(t.data, t.right);
    }
  }

  /** Checking each node against its children, as checkNodes does, decides the whole tree. */
  lemma WfLocally(t: Tree)
    requires t.Node?
    ensures Wf(t) <==>
      && (t.left.Node? ==> !OutRanks(t.left.data, t.data) && Wf(t.left))
      && (t.right.Node? ==> !OutRanks(t.right.data, t.data) && Wf(t.right))
      && t.size == 1 + (if t.left.Node? then t.left.size else 0) + (if t.right.Node? then t.right.size else 0)
  {
    OrderedLocally(t);
    assert Count(t) == 1 + Count(t.left) + Count(t.right);
    assert t.left.Node? && Sized(t.left) ==> t.left.size == Count(t.left);
    assert t.right.Node? && Sized(t.right) ==> t.right.size == Count(t.right);
    assert t.left.Nil? ==> Wf(t.left);
    assert t.right.Nil? ==> Wf(t.right);
  }

  // ----- Remove -----

  /** An object that outranks the root is nowhere in the tree, so skipping the subtrees is sound. */
  lemma {:induction false} PruningSound(t: Tree, d: Rankable)
    requires t.Node? && Ordered(t) && OutRanks(d, t.data)
    ensures d !in Contents(t)
  {
    RootDominates(t);
  }

  /** The search succeeds exactly when the object is there, although it skips subtrees by rank. */
  lemma {:induction false} RemoveFinds(t: Tree, d: Rankable)
    requires Ordered(t)
    ensures Remove(t, d).1 <==> d in Contents(t)
  {
    if t.Nil? || d == t.data {
    } else if OutRanks(d, t.data) {
      PruningSound(t, d);
    } else {
      RemoveFinds(t.left, d);
      RemoveFinds(t.right, d);
    }
  }

  /** A search that fails leaves the tree alone. */
  lemma {:induction false} RemoveMisses(t: Tree, d: Rankable)
    ensures !Remove(t, d).1 ==> Remove(t, d).0 == t
  {
  }

  lemma {:induction false} RemoveFromNothing(t: Tree, d: Rankable)
    ensures t.Nil? ==> Remove(t, d) == (t, false) && d !in Contents(t)
  {
  }

  lemma {:induction false} RemoveContents(t: Tree, d: Rankable)
    ensures if Remove(t, d).1 then Contents(Remove(t, d).0) + multiset{d} == Contents(t) else Remove(t, d).0 == t
  {
    if t.Nil? {
    } else if d == t.data {
      PopContents(t);
    } else if !OutRanks(d, t.data) {
      if Remove(t.left, d).1 {
        RemoveContents(t.left, d);
      } else if Remove(t.right, d).1 {
        RemoveContents(t.right, d);
      }
    }
  }

  lemma {:induction false} RemoveSized(t: Tree, d: Rankable)
    requires Sized(t)
    ensures Sized(Remove(t, d).0)
    ensures Count(Remove(t, d).0) == Count(t) - (if Remove(t, d).1 then 1 else 0)
  {
    if t.Nil? {
    } else if d == t.data {
      PopSized(t);
    } else if !OutRanks(d, t.data) {
      RemoveSized(t.left, d);
      RemoveSized(t.right, d);
    }
  }

  lemma {:induction false} RemoveOrdered(t: Tree, d: Rankable)
    requires Ordered(t)
    ensures Ordered(Remove(t, d).0)
  {
    if t.Nil? {
    } else if d == t.data {
      PopOrdered(t);
    } else if !OutRanks(d, t.data) {
      RemoveOrdered(t.left, d);
      RemoveOrdered(t.right, d);
      DominatesRemoved(t.data, t.left, d);
      DominatesRemoved(t.data, t.right, d);
    }
  }

  lemma {:induction false} RemoveKeepsHeap(t: Tree, d: Rankable)
    requires Wf(t)
    ensures Wf(Remove(t, d).0) && (Remove(t, d).1 <==> d in Contents(t))
  {
    RemoveSized(t, d);
    RemoveOrdered(t, d);
    RemoveFinds(t, d);
  }

  lemma {:induction false} DominatesRemoved(top: Rankable, t: Tree, d: Rankable)
    requires Ordered(t) && Dominates(top, t)
    ensures Dominates(top, Remove(t, d).0)
  {
    RemoveContents(t, d);
  }
}
