/** Properties of a LocHeap over whole runs: what comes out, in which order, and how deep the tree grows. */
module HeapRuns {
  import opened Ranking
  import opened HeapTree

  datatype HeapOp = OpPush(d: Rankable) | OpPop | OpRemove(d: Rankable)

  function Step(t: Tree, op: HeapOp): Tree {
    match op
    case OpPush(d) => Push(t, d)
    case OpPop => if t.Nil? then t else Pop(t)
    case OpRemove(d) => Remove(t, d).0
  }

  function Run(t: Tree, ops: seq<HeapOp>): Tree
    decreases ops
  {
    if ops == [] then t else Run(Step(t, ops[0]), ops[1..])
  }

  /** The heap as a bag: push adds one, pop takes some object that nothing outranks, remove takes that very object. */
  ghost predicate BagStep(before: multiset<Rankable>, op: HeapOp, after: multiset<Rankable>) {
    match op
    case OpPush(d) => after == before + multiset{d}
    case OpRemove(d) => after == before - multiset{d}
    case OpPop =>
      if before == multiset{} then after == before
      else exists top :: top in before && after == before - multiset{top} && forall x :: x in before ==> !OutRanks(x, top)
  }

  ghost predicate BagRun(before: multiset<Rankable>, ops: seq<HeapOp>, after: multiset<Rankable>)
    decreases ops
  {
    if ops == [] then after == before
    else exists mid :: BagStep(before, ops[0], mid) && BagRun(mid, ops[1..], after)
  }

  lemma StepKeepsHeap(t: Tree, op: HeapOp)
    requires Wf(t)
    ensures Wf(Step(t, op))
  {
    match op {
      case OpPush(d) => PushKeepsHeap(t, d);
      case OpRemove(d) => RemoveKeepsHeap(t, d);
      case OpPop => if t.Node? { PopKeepsHeap(t); }
    }
  }

  lemma {:induction false} PopTakesFromBag(t: Tree)
    requires Ordered(t)
    ensures BagStep(Contents(t), OpPop, Contents(Step(t, OpPop)))
  {
    if t.Node? {
      var before, after := Contents(t), Contents(Pop(t));
      PopContents(t);
      RootDominates(t);
      assert after == before - multiset{t.data};
    }
  }

  lemma {:induction false} StepRefinesBag(t: Tree, op: HeapOp)
    requires Ordered(t)
    ensures BagStep(Contents(t), op, Contents(Step(t, op)))
  {
    match op {
      case OpPush(d) =>
        PushContents(t, d);
      case OpRemove(d) =>
        RemoveFinds(t, d);
        RemoveContents(t, d);
      case OpPop =>
        PopTakesFromBag(t);
    }
  }

  /** Over any run of pushes, pops and removes the tree stays a heap with exact sizes and refines a bag. */
  lemma {:induction false} RunRefinesBag(t: Tree, ops: seq<HeapOp>)
    requires Wf(t)
    ensures Wf(Run(t, ops))
    ensures BagRun(Contents(t), ops, Contents(Run(t, ops)))
    decreases ops
  {
    if ops != [] {
      StepKeepsHeap(t, ops[0]);
      StepRefinesBag(t, ops[0]);
      RunRefinesBag(Step(t, ops[0]), ops[1..]);
    }
  }

  // ----- Pop order -----

  function PopAll(t: Tree): seq<Rankable>
    decreases Count(t)
  {
    if t.Nil? then [] else [t.data] + PopAll(Pop(t))
  }

  lemma {:induction false} PopAllPermutes(t: Tree)
    ensures multiset(PopAll(t)) == Contents(t)
    decreases Count(t)
  {
    if t.Node? {
      PopAllPermutes(Pop(t));
      PopContents(t);
      var rest := PopAll(Pop(t));
      assert multiset([t.data] + rest) == multiset{t.data} + multiset(rest);
    }
  }

  /** Popping until empty never yields an object that outranks an earlier one. */
  lemma {:induction false} PopAllSorts(t: Tree)
    requires Ordered(t)
    ensures forall i, j :: 0 <= i < j < |PopAll(t)| ==> !OutRanks(PopAll(t)[j], PopAll(t)[i])
    decreases Count(t)
  {
    if t.Node? {
      var rest := PopAll(Pop(t));
      assert forall i, j :: 0 <= i < j < |rest| ==> !OutRanks(rest[j], rest[i]) by {
        PopOrdered(t);
        PopAllSorts(Pop(t));
      }
      assert forall j :: 0 <= j < |rest| ==> !OutRanks(rest[j], t.data) by {
        PopAllDominated(t);
      }
    }
  }

  lemma {:induction false} PopAllDominated(t: Tree)
    requires t.Node? && Ordered(t)
    ensures forall j :: 0 <= j < |PopAll(Pop(t))| ==> !OutRanks(PopAll(Pop(t))[j], t.data)
  {
    PopOrdered(t);
    PopAllPermutes(Pop(t));
    var rest := PopAll(Pop(t));
    forall j | 0 <= j < |rest| ensures !OutRanks(rest[j], t.data) {
      assert rest[j] in multiset(rest);
    }
  }

  // ----- Depth of a heap built by pushes -----

  function PushAll(ds: seq<Rankable>): Tree {
    if ds == [] then Nil else Push(PushAll(ds[..|ds| - 1]), ds[|ds| - 1])
  }

  predicate Balanced(t: Tree) {
    t.Nil? || (0 <= Count(t.left) - Count(t.right) <= 1 && Balanced(t.left) && Balanced(t.right))
  }

  function Depth(t: Tree): nat {
    if t.Nil? then 0
    else 1 + if Depth(t.left) >= Depth(t.right) then Depth(t.left) else Depth(t.right)
  }

  function Pow2(n: nat): nat {
    if n == 0 then 1 else 2 * Pow2(n - 1)
  }

  lemma {:induction false} PushBalanced(t: Tree, d: Rankable)
    requires Sized(t) && Balanced(t)
    ensures Balanced(Push(t, d))
  {
    if t.Node? {
      var lo := if OutRanks(d, t.data) then t.data else d;
      var sub := if PushesLeft(t) then t.left else t.right;
      PushBalanced(sub, lo);
      PushSized(sub, lo);
    }
  }

  lemma {:induction false} BalancedIsShallow(t: Tree)
    requires t.Node? && Balanced(t)
    ensures Pow2(Depth(t) - 1) <= Count(t)
  {
    var sub := if Depth(t.left) >= Depth(t.right) then t.left else t.right;
    if sub.Node? {
      BalancedIsShallow(sub);
    }
  }

  /** A heap built by n pushes has exact sizes, is balanced at every node and at most 1 + log2(n) deep. */
  lemma {:induction false} PushAllShallow(ds: seq<Rankable>)
    ensures Sized(PushAll(ds)) && Balanced(PushAll(ds)) && Count(PushAll(ds)) == |ds|
    ensures ds != [] ==> Depth(PushAll(ds)) >= 1 && Pow2(Depth(PushAll(ds)) - 1) <= |ds|
  {
    if ds != [] {
      var t, d := PushAll(ds[..|ds| - 1]), ds[|ds| - 1];
      PushAllShallow(ds[..|ds| - 1]);
      PushSized(t, d);
      PushBalanced(t, d);
      BalancedIsShallow(Push(t, d));
    }
  }

  lemma {:induction false} PushAllOrdered(ds: seq<Rankable>)
    ensures Ordered(PushAll(ds)) && Contents(PushAll(ds)) == multiset(ds)
  {
    if ds != [] {
      var before, d := ds[..|ds| - 1], ds[|ds| - 1];
      PushAllOrdered(before);
      PushOrdered(PushAll(before), d);
      PushContents(PushAll(before), d);
      assert ds == before + [d];
    }
  }

  /** Heap sort: pushing any sequence and popping until empty permutes it into rank order. */
  lemma {:induction false} PushAllPopAllSorts(ds: seq<Rankable>)
    ensures var out := PopAll(PushAll(ds));
      && multiset(out) == multiset(ds)
      && forall i, j :: 0 <= i < j < |out| ==> out[i].due.sec <= out[j].due.sec
  {
    PushAllOrdered(ds);
    PopAllPermutes(PushAll(ds));
    PopAllSorts(PushAll(ds));
    var out := PopAll(PushAll(ds));
    forall i, j | 0 <= i < j < |out| ensures out[i].due.sec <= out[j].due.sec {
      assert !OutRanks(out[j], out[i]);
    }
  }
}
