/**
 The Expire message, step by step: which timers it takes out, exactly when one of them is early, and that its
 interleaved steps amount to the loop over a heap that nobody else touches.
 */
module TimerExpire {
  import opened Ranking
  import opened HeapTree
  import opened TimerContainer
  import opened TimerService
  import opened TimerInvariant
  import opened TimerSteps
  import opened TimerProgress
  import opened LocTimerContainer

  // ----- Early timers -----

  /** A step from s to t takes timer x out of its heap. */
  ghost predicate TakesOut(s: State, t: State, k: Kind, x: Rankable) {
    x in Bag(s, k) && x !in Bag(t, k)
  }

  lemma PopHeaps(s: State, k: Kind, now: Timespec, p: seq<Rankable>)
    requires LiveHeap(s, s.Box(k).heap)
    ensures var t, h := PopOrFinish(s, k, now, p), s.Box(k).heap;
      && (forall j :: j != k ==> t.Box(j) == s.Box(j))
      && t.Box(k).heap == if h.Node? && (p == [] || TopIsDue(s.Box(k).heap, now)) then Pop(h) else h
  {
    hide LiveHeap, HeapTree.Pop;
  }

  /** What one pop takes out: the top if it pops at all, else nothing; the other container stays. */
  lemma PopTakesTop(s: State, k: Kind, now: Timespec, p: seq<Rankable>)
    requires LiveHeap(s, s.Box(k).heap) && forall x :: x in Bag(s, k) ==> Bag(s, k)[x] == 1
    ensures var t, b := PopOrFinish(s, k, now, p), s.Box(k);
      forall j, x :: TakesOut(s, t, j, x) <==>
        j == k && b.heap.Node? && (p == [] || TopIsDue(b.heap, now)) && x == b.heap.data
  {
    hide LiveHeap, PopOrFinish, Contents, HeapTree.Pop;
    var b := s.Box(k);
    PopHeaps(s, k, now, p);
    if b.heap.Node? {
      PoppedBag(b.heap);
    }
  }

  lemma HeapOnce(s: State, k: Kind)
    requires Inv(s)
    ensures Wf(s.Box(k).heap) && LiveHeap(s, s.Box(k).heap) && forall x :: x in Bag(s, k) ==> Bag(s, k)[x] == 1
  {
    hide Wf, Links, Counted;
    BoxInvAt(s, k);
  }

  /**
   Taking up an Expire message takes out a timer before its time, to the nanosecond, if and only if the heap
   is not empty and the clock is before the deadline of its top; so it is in whole seconds too.
   */
  lemma FirstPopEarly(s: State, k: Kind)
    requires Reachable(s) && Enabled(s, Work) && s.queue[0] == MsgExpire(k)
    ensures var t, b := Apply(s, Work), s.Box(k);
      && ((exists j, x :: TakesOut(s, t, j, x) && !NoLater(x.due, s.clock)) <==> b.heap.Node? && !NoLater(b.heap.data.due, s.clock))
      && ((exists j, x :: TakesOut(s, t, j, x) && s.clock.sec < x.due.sec) <==> b.heap.Node? && s.clock.sec < b.heap.data.due.sec)
  {
    hide Inv, Wf, LiveHeap, TakesOut, PopOrFinish;
    ReachableKeeps(s);
    HeapOnce(s, k);
    var s1, t := s.(queue := s.queue[1..]), Apply(s, Work);
    SameHeapsTake(s, s1, t, k);
    PopTakesTop(s1, k, s.clock, []);
    if s.Box(k).heap.Node? {
      assert TakesOut(s, t, k, s.Box(k).heap.data);
    }
  }

  /** Taking a message off the queue changes no heap. */
  lemma SameHeapsTake(s: State, s1: State, t: State, k: Kind)
    requires s.queue != [] && s1 == s.(queue := s.queue[1..])
    requires LiveHeap(s, s.Box(k).heap)
    ensures LiveHeap(s1, s1.Box(k).heap) && Bag(s1, k) == Bag(s, k) && forall j, x :: TakesOut(s1, t, j, x) <==> TakesOut(s, t, j, x)
  {
  }

  /**
   A later pop of the same message takes out a timer before its time if and only if the top is due within the
   second the clock showed when the message was taken up, but later in it. It never does so before its second.
   */
  lemma LaterPopEarly(s: State)
    requires Reachable(s) && Enabled(s, PopNext)
    ensures var t, b, now := Apply(s, PopNext), s.Box(s.worker.kind), s.worker.now;
      && ((exists j, x :: TakesOut(s, t, j, x) && !NoLater(x.due, now)) <==>
            b.heap.Node? && b.heap.data.due.sec == now.sec && now.nsec < b.heap.data.due.nsec)
      && (forall j, x :: TakesOut(s, t, j, x) ==> x.due.sec <= now.sec <= s.clock.sec)
  {
    hide Inv, Wf, LiveHeap, TakesOut, PopOrFinish;
    ReachableKeeps(s);
    HeapOnce(s, s.worker.kind);
    DrainingInv(s);
    var t, b := Apply(s, PopNext), s.Box(s.worker.kind);
    PopTakesTop(s, s.worker.kind, s.worker.now, s.worker.drained);
    if TopIsDue(b.heap, s.worker.now) {
      assert TakesOut(s, t, s.worker.kind, b.heap.data);
    }
  }

  lemma DrainingInv(s: State)
    requires Inv(s)
    ensures CurIsLast(s.worker, s.delegates, s.clock)
    ensures s.worker.Draining? ==> Drained(s.worker.drained, s.worker.now, Bag(s, s.worker.kind))
  {
  }

  /** A step calls timer d back. */
  ghost predicate CallsBack(s: State, t: State, d: nat) {
    d in s.delegates && d in t.delegates && t.delegates[d].ended.fires > s.delegates[d].ended.fires
  }

  /**
   Expiring the popped delegate calls a timer back before its second, by the clock the message was taken up
   with, if and only if the delegate still has its client and is the first one popped, taken out early.
   */
  lemma CallbackEarly(s: State)
    requires Reachable(s) && Enabled(s, ExpireCur)
    ensures var t, d, p, now := Apply(s, ExpireCur), s.worker.cur.value, s.worker.drained, s.worker.now;
      && d in s.delegates && p != []
      && (forall e :: CallsBack(s, t, e) <==> e == d && s.delegates[d].client.Some?)
      && ((exists e :: CallsBack(s, t, e) && now.sec < s.delegates[e].due.sec) <==>
            s.delegates[d].client.Some? && |p| == 1 && now.sec < p[0].due.sec)
  {
    hide Inv, Apply;
    ReachableKeeps(s);
    DrainingInv(s);
    ExpireCurEffect(s);
    var t, d, p, now := Apply(s, ExpireCur), s.worker.cur.value, s.worker.drained, s.worker.now;
    assert p[|p| - 1] == Rankable(d, s.delegates[d].due);
    if s.delegates[d].client.Some? {
      assert CallsBack(s, t, d);
    }
  }

  lemma DueIsNormal(s: State, k: Kind, x: Rankable)
    requires Inv(s) && x in Bag(s, k)
    ensures Normal(x.due)
  {
    hide Wf, Counted;
    BoxInvAt(s, k);
    assert DelegateLinked(s.delegates[x.addr], x.addr, s.clients);
  }

  /** A pop after the first is early by less than one second. */
  lemma LaterPopNearly(s: State, t: State, k: Kind, x: Rankable)
    requires Reachable(s) && Enabled(s, PopNext) && t == Apply(s, PopNext) && TakesOut(s, t, k, x)
    ensures Nanos(x.due) < Nanos(s.worker.now) + NSEC_PER_SEC
  {
    hide Apply, Inv;
    LaterPopEarly(s);
    ReachableKeeps(s);
    DrainingInv(s);
    DueIsNormal(s, k, x);
  }

  /** Two timers of one second: the second one is taken out 0.8 s early, with the first on time. */
  lemma SameSecondEarly()
    ensures var a, b := Rankable(1, Timespec(10, 0)), Rankable(2, Timespec(10, 900_000_000));
      var now := Timespec(10, 100_000_000);
      Expired(Push(Push(Nil, a), b), now, true) == [a, b] && NoLater(a.due, now) && Nanos(b.due) - Nanos(now) == 800_000_000
  {
    var a, b := Rankable(1, Timespec(10, 0)), Rankable(2, Timespec(10, 900_000_000));
    var t := Node(2, Leaf(b), Nil, a);
    assert Push(Push(Nil, a), b) == t;
    assert Pop(t) == Leaf(b) && Pop(Leaf(b)) == Nil;
  }

  // ----- The message as one loop -----

  /** What the message under way has taken out and, nobody else touching the heap, will still take out. */
  function Taken(s: State): seq<Rankable>
    requires s.worker.Draining?
  {
    s.worker.drained + Expired(s.Box(s.worker.kind).heap, s.worker.now, false)
  }

  function Left(s: State): Tree
    requires s.worker.Draining?
  {
    Remaining(s.Box(s.worker.kind).heap, s.worker.now, false)
  }

  /** One pop of the loop, or its end. */
  lemma {:induction false} PopUnrolls(s: State, k: Kind, now: Timespec, p: seq<Rankable>)
    requires LiveHeap(s, s.Box(k).heap)
    ensures var t, h := PopOrFinish(s, k, now, p), s.Box(k).heap;
      if Pops(h, now, p == [])
      then t.worker.Draining? && t.worker.kind == k && t.worker.now == now
           && Taken(t) == p + Expired(h, now, p == []) && Left(t) == Remaining(h, now, p == [])
      else t.worker.Idle? && Expired(h, now, p == []) == [] && t.Box(k).heap == Remaining(h, now, p == []) == h
  {
    hide LiveHeap;
    var t, h := PopOrFinish(s, k, now, p), s.Box(k).heap;
    if Pops(h, now, p == []) {
      assert p + [h.data] + Expired(Pop(h), now, false) == p + ([h.data] + Expired(Pop(h), now, false));
    }
  }

  lemma TakenUp(s: State, k: Kind)
    requires Inv(s) && Enabled(s, Work) && s.queue[0] == MsgExpire(k)
    ensures var t, h := Apply(s, Work), s.Box(k).heap;
      if t.worker.Draining?
      then t.worker.kind == k && t.worker.now == s.clock && Taken(t) == Expired(h, s.clock, true) && Left(t) == Remaining(h, s.clock, true)
      else Expired(h, s.clock, true) == [] && t.Box(k).heap == Remaining(h, s.clock, true)
  {
    hide Inv, LiveHeap, Expired, Remaining, PopOrFinish;
    HeapOnce(s, k);
    var s1 := s.(queue := s.queue[1..]);
    SameHeapsTake(s, s1, s, k);
    PopUnrolls(s1, k, s.clock, []);
  }

  /** A step of anybody else, or a callback: the message goes on and its heap stays. */
  lemma OthersKeepHeap(s: State, a: Action)
    requires Inv(s) && s.worker.Draining? && Enabled(s, a) && !a.PopNext?
    ensures var t := Apply(s, a);
      t.worker.Draining? && t.worker.kind == s.worker.kind && t.worker.now == s.worker.now && t.worker.drained == s.worker.drained
      && t.Box(s.worker.kind).heap == s.Box(s.worker.kind).heap
  {
    hide Inv, DoExpire, StopAs, FutureTime, CanWake;
    match a {
      case ExpireCur => hide Apply; ExpireCurEffect(s);
      case Stop(c) => StopEffect(s, c, ByStop);
      case CloseStop(c) => StopEffect(s, c, ByDestructor);
      case _ =>
    }
  }

  /** However the threads take turns, what the message takes out in all does not change, nor does what it leaves. */
  lemma DrainStep(s: State, a: Action)
    requires Inv(s) && s.worker.Draining? && Enabled(s, a)
    ensures var t, k := Apply(s, a), s.worker.kind;
      if t.worker.Draining?
      then t.worker.kind == k && t.worker.now == s.worker.now && Taken(t) == Taken(s) && Left(t) == Left(s)
      else a.PopNext? && Taken(s) == s.worker.drained && Left(s) == t.Box(k).heap
  {
    hide Inv, LiveHeap, Apply, PopOrFinish;
    if a.PopNext? {
      var k := s.worker.kind;
      HeapOnce(s, k);
      DrainingInv(s);
      PopUnrolls(s, k, s.worker.now, s.worker.drained);
      PopNextIs(s);
    } else {
      OthersKeepHeap(s, a);
    }
  }

  lemma PopNextIs(s: State)
    requires Enabled(s, PopNext)
    ensures Apply(s, PopNext) == PopOrFinish(s, s.worker.kind, s.worker.now, s.worker.drained)
  {
  }

  /** A run during which one Expire message stays under way. */
  ghost predicate DrainRun(s: State, acts: seq<Action>, t: State)
    decreases acts
  {
    s.worker.Draining? && if acts == [] then s == t else Enabled(s, acts[0]) && DrainRun(Apply(s, acts[0]), acts[1..], t)
  }

  lemma {:induction false} DrainRunKeeps(s: State, acts: seq<Action>, t: State)
    requires Inv(s) && DrainRun(s, acts, t)
    ensures Inv(t) && t.worker.Draining? && t.worker.kind == s.worker.kind && Taken(t) == Taken(s) && Left(t) == Left(s)
    decreases acts
  {
    hide Inv, Apply, Enabled, Taken, Left;
    if acts != [] {
      DrainStep(s, acts[0]);
      StepKeeps(s, acts[0]);
      DrainRunKeeps(Apply(s, acts[0]), acts[1..], t);
    }
  }

  /**
   The message from end to end, with any steps of the other threads in between: the timers it pops are those
   the loop takes out of the heap as it was when the message was taken up, in that order, and the heap it
   leaves is what the loop leaves.
   */
  lemma {:induction false} MessageIsLoop(s: State, k: Kind, acts: seq<Action>, t: State)
    requires Reachable(s) && Enabled(s, Work) && s.queue[0] == MsgExpire(k)
    requires DrainRun(Apply(s, Work), acts, t) && Enabled(t, PopNext) && Apply(t, PopNext).worker.Idle?
    ensures t.worker.drained == Expired(s.Box(k).heap, s.clock, true)
    ensures Apply(t, PopNext).Box(k).heap == Remaining(s.Box(k).heap, s.clock, true)
  {
    hide Inv, Apply, Enabled, Taken, Left, Expired, Remaining;
    ReachableKeeps(s);
    StepKeeps(s, Work);
    TakenUp(s, k);
    DrainRunKeeps(Apply(s, Work), acts, t);
    DrainStep(t, PopNext);
  }
}
