/** The container as an object: message handlers that update its heap, its kernel timer and its poll in place. */
module LocTimerContainer {
  import opened Wrappers
  import opened Ranking
  import opened HeapTree
  import opened TimerContainer
  import LocHeap

  /** Whether the Expire loop goes on: its first pop is unconditional, the others ask whether now outranks the top. */
  predicate Pops(t: Tree, now: Timespec, first: bool) {
    t.Node? && (first || TopIsDue(t, now))
  }

  /** The timers an Expire message takes out of a heap, in order. */
  function Expired(t: Tree, now: Timespec, first: bool): seq<Rankable>
    decreases Count(t)
  {
    if Pops(t, now, first) then [t.data] + Expired(Pop(t), now, false) else []
  }

  /** The heap it leaves. */
  function Remaining(t: Tree, now: Timespec, first: bool): Tree
    decreases Count(t)
  {
    if Pops(t, now, first) then Remaining(Pop(t), now, false) else t
  }

  /** One pop of the loop, or its end. */
  lemma {:induction false} ExpireUnrolls(t: Tree, now: Timespec, first: bool)
    ensures Pops(t, now, first) ==>
      && Expired(t, now, first) == [t.data] + Expired(Pop(t), now, false) && Remaining(t, now, first) == Remaining(Pop(t), now, false)
    ensures !Pops(t, now, first) ==> Expired(t, now, first) == [] && Remaining(t, now, first) == t
  {
  }

  /** Nothing is lost or made up, and what is left stays a heap. */
  lemma {:induction false} ExpireConserves(t: Tree, now: Timespec, first: bool)
    requires Wf(t)
    ensures multiset(Expired(t, now, first)) + Contents(Remaining(t, now, first)) == Contents(t)
    ensures Wf(Remaining(t, now, first))
    decreases Count(t)
  {
    if Pops(t, now, first) {
      var p := Expired(Pop(t), now, false);
      assert Wf(Pop(t)) by { PopKeepsHeap(t); }
      ExpireConserves(Pop(t), now, false);
      assert Contents(Pop(t)) + multiset{t.data} == Contents(t) by { PopContents(t); }
      assert multiset([t.data] + p) == multiset{t.data} + multiset(p);
    }
  }

  /** In order of tv_sec, and all due, but for an unconditional first one. */
  predicate InOrder(p: seq<Rankable>, now: Timespec, first: bool) {
    && (forall i, j :: 0 <= i < j < |p| ==> p[i].due.sec <= p[j].due.sec)
    && (forall i :: (if first then 1 else 0) <= i < |p| ==> p[i].due.sec <= now.sec)
  }

  lemma InOrderCons(x: Rankable, p: seq<Rankable>, now: Timespec, first: bool)
    requires InOrder(p, now, false) && (first || x.due.sec <= now.sec)
    requires forall y :: y in p ==> x.due.sec <= y.due.sec
    ensures InOrder([x] + p, now, first)
  {
    var q := [x] + p;
    forall i, j | 0 <= i < j < |q| ensures q[i].due.sec <= q[j].due.sec {
      assert q[j] == p[j - 1];
      assert i > 0 ==> q[i] == p[i - 1];
    }
  }

  lemma {:induction false} ExpiredAfterTop(t: Tree, now: Timespec)
    requires t.Node? && Wf(t)
    ensures forall y :: y in Expired(Pop(t), now, false) ==> t.data.due.sec <= y.due.sec
  {
    var p, left := Expired(Pop(t), now, false), Contents(Remaining(Pop(t), now, false));
    TopIsSoonest(t);
    assert multiset(p) + left + multiset{t.data} == Contents(t) by {
      PopKeepsHeap(t);
      ExpireConserves(Pop(t), now, false);
      PopContents(t);
    }
    forall y | y in p ensures t.data.due.sec <= y.due.sec {
      assert y in multiset(p);
    }
  }

  lemma {:induction false} ExpiredInOrder(t: Tree, now: Timespec, first: bool)
    requires Wf(t)
    ensures InOrder(Expired(t, now, first), now, first)
    decreases Count(t)
  {
    hide InOrder;
    if Pops(t, now, first) {
      var p := Expired(Pop(t), now, false);
      assert InOrder(p, now, false) by {
        PopKeepsHeap(t);
        ExpiredInOrder(Pop(t), now, false);
      }
      ExpiredAfterTop(t, now);
      InOrderCons(t.data, p, now, first);
    } else {
      EmptyInOrder(now, first);
    }
  }

  lemma EmptyInOrder(now: Timespec, first: bool)
    ensures InOrder([], now, first)
  {
  }

  /** Nothing due is left behind. */
  lemma {:induction false} RemainingNotDue(t: Tree, now: Timespec, first: bool)
    requires Wf(t)
    ensures forall x :: x in Contents(Remaining(t, now, first)) ==> now.sec < x.due.sec
    decreases Count(t)
  {
    if Pops(t, now, first) {
      PopKeepsHeap(t);
      RemainingNotDue(Pop(t), now, false);
    } else if t.Node? {
      TopIsSoonest(t);
    }
  }

  class LocTimerContainer {
    const mHeap: LocHeap.LocHeap
    var mPolled: bool
    var mArmed: Option<Timespec>

    ghost predicate Valid()
      reads this, mHeap, mHeap.Repr
    {
      mHeap.Valid()
    }

    ghost function View(): Container
      reads this, mHeap
    {
      Container(mHeap.tree, mPolled, mArmed)
    }

    constructor ()
      ensures Valid() && fresh(mHeap) && fresh(mHeap.Repr) && View() == Container(Nil, false, None)
    {
      mHeap := new LocHeap.LocHeap();
      mPolled, mArmed := false, None;
    }

    method SetTime(at: Timespec)
      modifies this`mArmed
      ensures View() == TimerContainer.SetTime(old(View()), at)
    {
      mArmed := if at == DISARM then None else Some(at);
    }

    method UpdateSoonestTime(priorTop: Option<Rankable>)
      requires Valid()
      modifies this
      ensures Valid() && View() == TimerContainer.UpdateSoonestTime(old(View()), priorTop)
    {
      var curTop := mHeap.Peek();
      if curTop != priorTop {
        if curTop.None? {
          mPolled := false;
          SetTime(DISARM);
        } else if priorTop.None? || OutRanks(curTop.value, priorTop.value) {
          mPolled := true;
          SetTime(curTop.value.due);
        }
      }
    }

    /** MsgTimerPush::proc */
    method ProcPush(timer: Rankable)
      requires Valid()
      modifies this, mHeap, mHeap.Repr
      ensures Valid() && fresh(mHeap.Repr - old(mHeap.Repr))
      ensures View() == TimerContainer.ProcPush(old(View()), timer)
    {
      var priorTop := mHeap.Peek();
      mHeap.Push(timer);
      UpdateSoonestTime(priorTop);
    }

    /** MsgTimerRemove::proc, up to the delete. */
    method ProcRemove(timer: Rankable)
      requires Valid()
      modifies this, mHeap, mHeap.Repr
      ensures Valid() && mHeap.Repr <= old(mHeap.Repr)
      ensures View() == TimerContainer.ProcRemove(old(View()), timer)
    {
      RemoveFinds(mHeap.tree, timer);
      var priorTop := mHeap.Peek();
      var removed := mHeap.Remove(timer);
      if priorTop == removed {
        UpdateSoonestTime(None);
      }
    }

    method PopIfOutRanks(now: Timespec) returns (popped: Option<Rankable>)
      requires Valid()
      modifies this, mHeap, mHeap.Repr
      ensures Valid() && mHeap.Repr <= old(mHeap.Repr)
      ensures if TopIsDue(old(mHeap.tree), now)
              then popped == TopOf(old(mHeap.tree)) && View() == old(View()).(heap := Pop(old(mHeap.tree)))
              else popped == None && View() == old(View())
    {
      popped := None;
      var top := mHeap.Peek();
      if top.Some? && !OutRanks(Rankable(0, now), top.value) {
        popped := mHeap.Pop();
      }
    }

    /** MsgTimerExpire::proc: the timers whose expire() it calls, in order. */
    method ProcExpire(now: Timespec) returns (expired: seq<Rankable>)
      requires Valid()
      modifies this, mHeap, mHeap.Repr
      ensures Valid() && mHeap.Repr <= old(mHeap.Repr)
      ensures expired == Expired(old(mHeap.tree), now, true)
      ensures View() == TimerContainer.UpdateSoonestTime(old(View()).(heap := Remaining(old(mHeap.tree), now, true)), None)
    {
      hide TimerContainer.UpdateSoonestTime, Wf, Expired, Remaining, HeapTree.Pop;
      expired := [];
      ghost var t := mHeap.tree;
      ExpireUnrolls(t, now, true);
      var timer := mHeap.Pop();
      while timer.Some?
        invariant Valid() && mHeap.Repr <= old(mHeap.Repr)
        invariant mPolled == old(mPolled) && mArmed == old(mArmed)
        invariant timer.None? ==> expired == Expired(t, now, true) && mHeap.tree == Remaining(t, now, true)
        invariant timer.Some? ==>
          && expired + ([timer.value] + Expired(mHeap.tree, now, false)) == Expired(t, now, true)
          && Remaining(mHeap.tree, now, false) == Remaining(t, now, true)
        decreases Count(mHeap.tree) + (if timer.Some? then 1 else 0)
      {
        ghost var rest := Expired(mHeap.tree, now, false);
        assert expired + ([timer.value] + rest) == expired + [timer.value] + rest;
        expired := expired + [timer.value];
        ExpireUnrolls(mHeap.tree, now, false);
        timer := PopIfOutRanks(now);
      }
      UpdateSoonestTime(None);
    }
  }
}
