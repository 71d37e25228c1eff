/** Every step of the timer service keeps the invariant. */
module TimerSteps {
  import opened Wrappers
  import opened Ranking
  import opened HeapTree
  import opened TimerContainer
  import opened TimerService
  import opened TimerInvariant
  import opened TimerPlacement

  // ----- Clients -----

  lemma LockIsLive(s: State, c: nat)
    requires Inv(s) && c in s.clients && !s.clients[c].phase.Dead?
    ensures LiveLock(s, c)
  {
  }

  lemma FutureTimeNormal(clock: Timespec, ms: nat)
    requires Normal(clock)
    ensures Normal(FutureTime(clock, ms)) && NoLater(clock, FutureTime(clock, ms))
  {
  }

  lemma NewTimerKeeps(s: State, c: nat)
    requires Inv(s) && Enabled(s, NewTimer(c))
    ensures Inv(Apply(s, NewTimer(c)))
  {
    hide Wf, Placed;
    LinksNew(s.clients, s.delegates, c);
    CountedNew(s.clients, s.locks, s.delegates, c);
  }

  lemma StartKeeps(s: State, c: nat, d: nat, ms: nat, k: Kind)
    requires Inv(s) && Enabled(s, Start(c, d, ms, k))
    ensures Inv(Apply(s, Start(c, d, ms, k)))
  {
    hide Wf, Placed, Links, Counted, Drained, Awaited, FutureTime;
    LockIsLive(s, c);
    if s.clients[c].timer.None? {
      var x := Delegate(Some(c), c, FutureTime(s.clock, ms), k, Some(k), false, Outcomes(0, 0, 0));
      FutureTimeNormal(s.clock, ms);
      LinksStart(s.clients, s.delegates, c, d, x);
      CountedStart(s.clients, s.locks, s.delegates, c, Some(d), d, x);
      StartKeepsBox(s, d, x, Sw);
      StartKeepsBox(s, d, x, Hw);
    }
  }

  lemma StartKeepsBox(s: State, d: nat, x: Delegate, k: Kind)
    requires BoxInv(s, k) && d !in s.delegates && x.client.Some? && !x.freed
    ensures BoxInv(s.(delegates := s.delegates[d := x], queue := s.queue + [MsgPush(x.kind, d)]), k)
  {
    var q', bag, cur := s.queue + [MsgPush(x.kind, d)], Bag(s, k), Cur(s.worker, k);
    if x.kind == k {
      PlacedStart(k, s.delegates, s.queue, bag, cur, d, x);
    } else {
      PlacedOther(k, s.delegates, s.queue, bag, cur, d, x);
      PlacedAppend(k, s.delegates[d := x], s.queue, bag, cur, MsgPush(x.kind, d));
    }
  }

  /** The state after a stop() that finds a timer. */
  function StoppedState(s: State, c: nat, d: nat, how: How): State
    requires c in s.clients && d in s.delegates
  {
    var x := s.delegates[d].(client := None, container := None, ended := Ended(s.delegates[d].ended, how));
    s.(clients := s.clients[c := s.clients[c].(timer := None)],
       delegates := s.delegates[d := x],
       queue := s.queue + [MsgRemove(x.kind, d)])
  }

  lemma StopEffectRaw(s: State, c: nat, how: How)
    requires LiveClient(s, c) && LiveLock(s, c)
    requires s.clients[c].timer.Some? ==>
      var d := s.clients[c].timer.value; LiveDelegate(s, d) && s.delegates[d].container == Some(s.delegates[d].kind)
    ensures StopAs(s, c, how) ==
      if s.clients[c].timer.None? then s else StoppedState(s, c, s.clients[c].timer.value, how)
  {
    if s.clients[c].timer.Some? {
      var d := s.clients[c].timer.value;
      var s1, t := DoStop(s, c).1, StoppedState(s, c, d, how);
      assert s1.queue == t.queue;
      assert StopAs(s, c, how).delegates == t.delegates;
    }
  }

  /** stop() on a live client never touches a deleted object and does just this. */
  lemma StopEffect(s: State, c: nat, how: How)
    requires Inv(s) && LiveClient(s, c)
    ensures s.clients[c].timer.Some? ==> s.clients[c].timer.value in s.delegates
    ensures StopAs(s, c, how) ==
      if s.clients[c].timer.None? then s else StoppedState(s, c, s.clients[c].timer.value, how)
  {
    LockIsLive(s, c);
    if s.clients[c].timer.Some? {
      assert ClientLinked(s.clients[c], c, s.delegates);
      assert DelegateLinked(s.delegates[s.clients[c].timer.value], s.clients[c].timer.value, s.clients);
    }
    StopEffectRaw(s, c, how);
  }

  lemma StopKeeps(s: State, c: nat, how: How)
    requires Inv(s) && LiveClient(s, c)
    ensures Inv(StopAs(s, c, how)) && c in StopAs(s, c, how).clients
    ensures StopAs(s, c, how).clients[c] == s.clients[c].(timer := None)
  {
    hide Wf, Placed, Counted, Drained, Awaited;
    StopEffect(s, c, how);
    if s.clients[c].timer.Some? {
      var d := s.clients[c].timer.value;
      var t := StoppedState(s, c, d, how);
      LinksStop(s.clients, s.delegates, c, d, t.delegates[d]);
      assert DelegateLinked(s.delegates[d], d, s.clients);
      CountedUpdate(s.clients, s.locks, s.delegates, c, t.clients[c], d, t.delegates[d]);
      StopKeepsBox(s, c, d, how, Sw);
      StopKeepsBox(s, c, d, how, Hw);
    }
  }

  lemma StopKeepsBox(s: State, c: nat, d: nat, how: How, k: Kind)
    requires BoxInv(s, k) && c in s.clients && d in s.delegates && !s.delegates[d].freed && s.delegates[d].client.Some?
    ensures BoxInv(StoppedState(s, c, d, how), k)
  {
    var t, bag, cur := StoppedState(s, c, d, how), Bag(s, k), Cur(s.worker, k);
    var x := t.delegates[d];
    if x.kind == k {
      PlacedStop(k, s.delegates, s.queue, bag, cur, d, x);
    } else {
      PlacedOther(k, s.delegates, s.queue, bag, cur, d, x);
      PlacedAppend(k, t.delegates, s.queue, bag, cur, MsgRemove(x.kind, d));
    }
  }

  lemma ClosingKeeps(s: State, c: nat)
    requires Inv(s) && c in s.clients && s.clients[c] == Client(Alive, None)
    ensures Inv(s.(clients := s.clients[c := Client(Closing, None)]))
  {
    LinksPhase(s.clients, s.delegates, c, Closing);
    CountedPhase(s.clients, s.locks, s.delegates, c, Client(Closing, None));
  }

  lemma CloseStopKeeps(s: State, c: nat)
    requires Inv(s) && Enabled(s, CloseStop(c))
    ensures Inv(Apply(s, CloseStop(c)))
  {
    StopKeeps(s, c, ByDestructor);
    ClosingKeeps(StopAs(s, c, ByDestructor), c);
  }

  lemma CloseDropKeeps(s: State, c: nat)
    requires Inv(s) && Enabled(s, CloseDrop(c))
    ensures Inv(Apply(s, CloseDrop(c)))
  {
    hide Wf, Placed, Drained, Awaited;
    assert ClientLinked(s.clients[c], c, s.delegates);
    LinksPhase(s.clients, s.delegates, c, Dead);
    CountedDrop(s.clients, s.locks, s.delegates, c);
  }

  // ----- Poll thread -----

  lemma PollWakeKeeps(s: State, ready: seq<Kind>)
    requires Inv(s) && Enabled(s, PollWake(ready))
    ensures Inv(Apply(s, PollWake(ready)))
  {
  }

  /** The poll thread is in expire() for a container, which it changed but for its heap. */
  function PollBusy(s: State, b: Container, stage: Stage): State
    requires s.poll.Handling? && s.poll.todo != []
  {
    s.SetBox(s.poll.todo[0], b).(poll := s.poll.(stage := stage))
  }

  lemma PollBusyKeepsBox(s: State, b: Container, stage: Stage, k: Kind)
    requires BoxInv(s, k) && s.poll.Handling? && s.poll.todo != [] && b.heap == s.Box(s.poll.todo[0]).heap
    ensures BoxInv(PollBusy(s, b, stage), k) && Bag(PollBusy(s, b, stage), k) == Bag(s, k)
  {
    assert s.poll.todo[0] in s.poll.todo;
    assert PollBusy(s, b, stage).Box(k).heap == s.Box(k).heap;
  }

  lemma PollBusyKeeps(s: State, b: Container, stage: Stage)
    requires Inv(s) && s.poll.Handling? && b.heap == s.Box(s.poll.todo[0]).heap
    ensures Inv(PollBusy(s, b, stage))
  {
    hide Wf, Placed, Links, Counted;
    PollBusyKeepsBox(s, b, stage, Sw);
    PollBusyKeepsBox(s, b, stage, Hw);
  }

  lemma PollDisarmKeeps(s: State)
    requires Inv(s) && Enabled(s, PollDisarm)
    ensures Inv(Apply(s, PollDisarm))
  {
    PollBusyKeeps(s, SetTime(s.Box(s.poll.todo[0]), DISARM), Unpoll);
  }

  lemma PollUnpollKeeps(s: State)
    requires Inv(s) && Enabled(s, PollUnpoll)
    ensures Inv(Apply(s, PollUnpoll))
  {
    PollBusyKeeps(s, s.Box(s.poll.todo[0]).(polled := false), Send);
  }

  lemma PollSendKeeps(s: State)
    requires Inv(s) && Enabled(s, PollSend)
    ensures Inv(Apply(s, PollSend))
  {
    hide Wf, Placed, Links, Counted;
    PollSendKeepsBox(s, Sw);
    PollSendKeepsBox(s, Hw);
  }

  lemma PollSendKeepsBox(s: State, k: Kind)
    requires BoxInv(s, k) && Enabled(s, PollSend)
    ensures BoxInv(Apply(s, PollSend), k)
  {
    hide Wf;
    var q' := s.queue + [MsgExpire(s.poll.todo[0])];
    PlacedAppend(k, s.delegates, s.queue, Bag(s, k), Cur(s.worker, k), MsgExpire(s.poll.todo[0]));
    assert q'[|s.queue|] == MsgExpire(s.poll.todo[0]);
    assert k in s.poll.todo ==> k == s.poll.todo[0] || k in s.poll.todo[1..];
  }

  // ----- Worker -----

  lemma HeapIsLive(s: State, k: Kind)
    requires Links(s.clients, s.delegates) && Placed(k, s.delegates, s.queue, Bag(s, k), Cur(s.worker, k))
    ensures LiveHeap(s, s.Box(k).heap) && AllPositive(s.Box(k).heap)
  {
    forall x | x in Bag(s, k) ensures LiveDelegate(s, x.addr) && x.due != DISARM {
      assert DelegateLinked(s.delegates[x.addr], x.addr, s.clients);
    }
  }

  lemma BoxInvAt(s: State, k: Kind)
    requires Inv(s)
    ensures BoxInv(s, k) && LiveHeap(s, s.Box(k).heap) && Links(s.clients, s.delegates) && Counted(s.clients, s.locks, s.delegates)
  {
    hide Wf, Placed, Links, Counted, LiveHeap;
    HeapIsLive(s, k);
  }

  /** Taking a message off the queue leaves the other container alone. */
  lemma SkipKeepsBox(s: State, k: Kind)
    requires BoxInv(s, k) && s.queue != [] && s.queue[0].kind != k
    ensures BoxInv(s.(queue := s.queue[1..]), k)
  {
    PlacedSkip(k, s.delegates, s.queue, Bag(s, k), Cur(s.worker, k));
    assert s.queue == [s.queue[0]] + s.queue[1..];
  }

  function OtherKind(k: Kind): Kind {
    if k.Sw? then Hw else Sw
  }

  lemma BothKinds(s: State, k: Kind)
    requires BoxInv(s, k) && BoxInv(s, OtherKind(k))
    ensures BoxInv(s, Sw) && BoxInv(s, Hw)
  {
  }

  lemma WorkPushKeeps(s: State, k: Kind, d: nat)
    requires s.worker.Idle? && s.queue != [] && s.queue[0] == MsgPush(k, d)
    requires Inv(s)
    ensures Inv(DoWork(s))
  {
    hide Wf, Placed, Counted;
    PlacedPush(k, s.delegates, s.queue, Bag(s, k), d);
    HeapIsLive(s, k);
    assert DelegateLinked(s.delegates[d], d, s.clients);
    WorkPushKeepsBox(s, k, d);
    WorkPushKeepsOther(s, k, ProcPush(s.Box(k), AsRankable(s, d)));
    BothKinds(DoWork(s), k);
  }

  lemma WorkPushKeepsOther(s: State, k: Kind, b: Container)
    requires BoxInv(s, OtherKind(k)) && s.queue != [] && s.queue[0].kind == k
    ensures BoxInv(s.(queue := s.queue[1..]).SetBox(k, b), OtherKind(k))
  {
    SkipKeepsBox(s, OtherKind(k));
  }

  lemma WorkPushKeepsBox(s: State, k: Kind, d: nat)
    requires BoxInv(s, k) && s.worker.Idle? && s.queue != [] && s.queue[0] == MsgPush(k, d) && d in s.delegates
    requires AllPositive(s.Box(k).heap) && Normal(s.delegates[d].due)
    ensures BoxInv(s.(queue := s.queue[1..]).SetBox(k, ProcPush(s.Box(k), AsRankable(s, d))), k)
  {
    var b, x := s.Box(k), AsRankable(s, d);
    PushKeepsWatch(b, x);
    AwaitedLater(k, b, ProcPush(b, x), s.queue, s.poll);
    assert Wf(Push(b.heap, x)) by { PushKeepsHeap(b.heap, x); }
    PushContents(b.heap, x);
    PlacedPush(k, s.delegates, s.queue, Bag(s, k), d);
  }

  /** A message other than Expire that keeps the top watched keeps a container awaited. */
  lemma AwaitedLater(k: Kind, b: Container, b': Container, q: seq<Msg>, poll: Poll)
    requires q != [] && q[0] != MsgExpire(k) && Awaited(k, b, q, poll, Idle) && (Watched(b) ==> Watched(b'))
    ensures Awaited(k, b', q[1..], poll, Idle)
  {
    assert q == [q[0]] + q[1..];
  }

  lemma WorkRemoveKeeps(s: State, k: Kind, d: nat)
    requires s.worker.Idle? && s.queue != [] && s.queue[0] == MsgRemove(k, d)
    requires Inv(s)
    ensures Inv(DoWork(s))
  {
    PlacedRemove(k, s.delegates, s.queue, Bag(s, k), d);
    HeapIsLive(s, k);
    assert DelegateLinked(s.delegates[d], d, s.clients);
    RemovedKeeps(s, k, d);
    CountedDelete(s.clients, s.locks, s.delegates, d);
    WorkRemoveEffect(s, k, d);
  }

  lemma RemovedKeeps(s: State, k: Kind, d: nat)
    requires Inv(s) && s.worker.Idle? && s.queue != [] && s.queue[0] == MsgRemove(k, d) && AllPositive(s.Box(k).heap)
    requires Owns(s.delegates, k, d) && s.delegates[d].client.None? && s.delegates[d].lock in s.clients
    ensures Inv(RemovedState(s, k, d))
  {
    hide Wf, Placed, Links;
    LinksDelete(s.clients, s.delegates, d);
    CountedDelete(s.clients, s.locks, s.delegates, d);
    WorkRemoveKeepsBox(s, k, d);
    WorkRemoveKeepsOther(s, k, d);
    BothKinds(RemovedState(s, k, d), k);
  }

  /** The state after a Remove message: its delegate deleted, its container refreshed, its lock dropped. */
  function RemovedState(s: State, k: Kind, d: nat): State
    requires s.queue != [] && d in s.delegates && s.delegates[d].lock in s.locks
  {
    var c := s.delegates[d].lock;
    s.SetBox(k, ProcRemove(s.Box(k), AsRankable(s, d)))
     .(queue := s.queue[1..], delegates := s.delegates[d := s.delegates[d].(freed := true)],
       locks := s.locks[c := Lock(s.locks[c].ref - 1, s.locks[c].ref == 1)])
  }

  lemma WorkRemoveEffect(s: State, k: Kind, d: nat)
    requires s.worker.Idle? && s.queue != [] && s.queue[0] == MsgRemove(k, d)
    requires LiveDelegate(s, d) && LiveHeap(s, s.Box(k).heap) && LiveLock(s, s.delegates[d].lock)
    ensures DoWork(s) == RemovedState(s, k, d)
  {
  }

  lemma WorkRemoveKeepsBox(s: State, k: Kind, d: nat)
    requires BoxInv(s, k) && s.worker.Idle? && s.queue != [] && s.queue[0] == MsgRemove(k, d) && d in s.delegates
    requires AllPositive(s.Box(k).heap) && s.delegates[d].lock in s.locks
    ensures BoxInv(RemovedState(s, k, d), k)
  {
    var b, x := s.Box(k), AsRankable(s, d);
    RemoveKeepsWatch(b, x);
    AwaitedLater(k, b, ProcRemove(b, x), s.queue, s.poll);
    assert Wf(Remove(b.heap, x).0) by { RemoveKeepsHeap(b.heap, x); }
    RemovedBag(b.heap, x);
    PlacedRemove(k, s.delegates, s.queue, Bag(s, k), d);
  }

  lemma {:induction false} RemovedBag(t: Tree, x: Rankable)
    requires Wf(t)
    ensures Contents(Remove(t, x).0) == Contents(t) - multiset{x}
  {
    RemoveFinds(t, x);
    RemoveContents(t, x);
  }

  lemma WorkRemoveKeepsOther(s: State, k: Kind, d: nat)
    requires BoxInv(s, OtherKind(k)) && s.queue != [] && s.queue[0] == MsgRemove(k, d)
    requires Owns(s.delegates, k, d) && s.delegates[d].lock in s.locks
    ensures BoxInv(RemovedState(s, k, d), OtherKind(k))
  {
    var j := OtherKind(k);
    SkipKeepsBox(s, j);
    PlacedOther(j, s.delegates, s.queue[1..], Bag(s, j), Cur(s.worker, j), d, s.delegates[d].(freed := true));
  }

  // ----- The Expire message -----

  lemma DrainedPop(p: seq<Rankable>, now: Timespec, bag: multiset<Rankable>, x: Rankable)
    requires Drained(p, now, bag) && x in bag && (p == [] || x.due.sec <= now.sec)
    requires forall y :: y in bag ==> x.due.sec <= y.due.sec
    ensures Drained(p + [x], now, bag - multiset{x})
  {
    assert forall y :: y in bag - multiset{x} ==> y in bag;
  }

  lemma {:induction false} PoppedBag(t: Tree)
    requires t.Node?
    ensures t.data in Contents(t) && Contents(Pop(t)) == Contents(t) - multiset{t.data}
  {
    RootIsMember(t);
    PopContents(t);
  }

  /** All of the invariant except what the container being drained waits for. */
  ghost predicate DrainInv(s: State, k: Kind, now: Timespec, p: seq<Rankable>) {
    && !s.fault && Normal(s.clock) && Links(s.clients, s.delegates) && Counted(s.clients, s.locks, s.delegates) && PollOk(s.poll)
    && Wf(s.Box(k).heap) && Placed(k, s.delegates, s.queue, Bag(s, k), None)
    && BoxInv(s.(worker := Idle), OtherKind(k))
    && Drained(p, now, Bag(s, k)) && Normal(now) && NoLater(now, s.clock)
  }

  /** The worker taking up an Expire message, or going on with one, leaves the other container alone. */
  lemma DrainKeepsOther(s: State, k: Kind, b: Container, w: Worker)
    requires BoxInv(s.(worker := Idle), OtherKind(k)) && (w.Idle? || w.kind == k)
    ensures BoxInv(s.SetBox(k, b).(worker := w), OtherKind(k))
  {
  }

  lemma TopIsCurrent(s: State, k: Kind)
    requires Placed(k, s.delegates, s.queue, Bag(s, k), None) && s.Box(k).heap.Node?
    ensures s.Box(k).heap.data.addr in s.delegates && s.Box(k).heap.data == AsRankable(s, s.Box(k).heap.data.addr)
  {
    RootIsMember(s.Box(k).heap);
  }

  lemma PopKeeps(s: State, k: Kind, now: Timespec, p: seq<Rankable>)
    requires DrainInv(s, k, now, p) && s.Box(k).heap.Node? && (p == [] || TopIsDue(s.Box(k).heap, now))
    ensures Inv(PopOrFinish(s, k, now, p))
  {
    hide Wf, Placed, Links, Counted, Drained;
    var t := PoppedState(s, k, now, p);
    HeapIsLiveIdle(s, k);
    TopIsCurrent(s, k);
    assert PopOrFinish(s, k, now, p) == t;
    PopKeepsBox(s, k, now, p);
    DrainKeepsOther(s, k, t.Box(k), t.worker);
    BothKinds(t, k);
  }

  /** The state after the worker popped the top of k's heap. */
  function PoppedState(s: State, k: Kind, now: Timespec, p: seq<Rankable>): State
    requires s.Box(k).heap.Node?
  {
    var b := s.Box(k);
    s.SetBox(k, b.(heap := Pop(b.heap))).(worker := Draining(k, now, Some(b.heap.data.addr), p + [b.heap.data]))
  }

  lemma PopKeepsBox(s: State, k: Kind, now: Timespec, p: seq<Rankable>)
    requires Wf(s.Box(k).heap) && Placed(k, s.delegates, s.queue, Bag(s, k), None) && Drained(p, now, Bag(s, k))
    requires s.Box(k).heap.Node? && (p == [] || TopIsDue(s.Box(k).heap, now))
    ensures BoxInv(PoppedState(s, k, now, p), k)
    ensures Drained(p + [s.Box(k).heap.data], now, Bag(PoppedState(s, k, now, p), k))
  {
    hide Placed, Drained;
    var b := s.Box(k);
    PoppedBag(b.heap);
    TopIsSoonest(b.heap);
    DrainedPop(p, now, Bag(s, k), b.heap.data);
    assert Wf(Pop(b.heap)) by { PopKeepsHeap(b.heap); }
    PlacedPop(k, s.delegates, s.queue, Bag(s, k), b.heap.data);
  }

  lemma HeapIsLiveIdle(s: State, k: Kind)
    requires Links(s.clients, s.delegates) && Placed(k, s.delegates, s.queue, Bag(s, k), None)
    ensures LiveHeap(s, s.Box(k).heap) && AllPositive(s.Box(k).heap)
  {
    HeapIsLive(s.(worker := Idle), k);
  }

  lemma FinishKeeps(s: State, k: Kind, now: Timespec, p: seq<Rankable>)
    requires DrainInv(s, k, now, p) && !(s.Box(k).heap.Node? && (p == [] || TopIsDue(s.Box(k).heap, now)))
    ensures Inv(PopOrFinish(s, k, now, p))
  {
    hide Wf, Placed, Links, Counted;
    var b := s.Box(k);
    HeapIsLiveIdle(s, k);
    RefreshWatches(b);
    var b' := UpdateSoonestTime(b, None);
    DrainKeepsOther(s, k, b', Idle);
    BothKinds(s.SetBox(k, b').(worker := Idle), k);
  }

  lemma WorkExpireKeeps(s: State, k: Kind)
    requires s.worker.Idle? && s.queue != [] && s.queue[0] == MsgExpire(k)
    requires Inv(s)
    ensures Inv(DoWork(s))
  {
    hide Wf, Placed, Links, Counted;
    var s1 := s.(queue := s.queue[1..]);
    PlacedSkip(k, s.delegates, s.queue, Bag(s, k), None);
    SkipKeepsBox(s, OtherKind(k));
    assert DrainInv(s1, k, s.clock, []);
    PopOrFinishKeeps(s1, k, s.clock, []);
  }

  lemma PopOrFinishKeeps(s: State, k: Kind, now: Timespec, p: seq<Rankable>)
    requires DrainInv(s, k, now, p)
    ensures Inv(PopOrFinish(s, k, now, p))
  {
    if s.Box(k).heap.Node? && (p == [] || TopIsDue(s.Box(k).heap, now)) {
      PopKeeps(s, k, now, p);
    } else {
      FinishKeeps(s, k, now, p);
    }
  }

  lemma PopNextKeeps(s: State)
    requires Inv(s) && Enabled(s, PopNext)
    ensures Inv(Apply(s, PopNext))
  {
    hide Wf, Placed, Links, Counted;
    var k := s.worker.kind;
    assert BoxInv(s.(worker := Idle), OtherKind(k));
    PopOrFinishKeeps(s, k, s.worker.now, s.worker.drained);
  }

  /** Letting go of a popped delegate that has no client any more. */
  lemma ForgetKeeps(s: State)
    requires Inv(s) && s.worker.Draining? && s.worker.cur.Some?
    requires s.worker.cur.value in s.delegates && s.delegates[s.worker.cur.value].client.None?
    ensures Inv(s.(worker := s.worker.(cur := None)))
  {
    hide Wf, Placed, Links, Counted;
    var k := s.worker.kind;
    var t := s.(worker := s.worker.(cur := None));
    PlacedExpired(k, s.delegates, s.queue, Bag(s, k), s.worker.cur.value);
    assert BoxInv(t, k);
    assert BoxInv(t, OtherKind(k));
    BothKinds(t, k);
  }

  lemma StopCommutes(s: State, w: Worker, c: nat, how: How)
    ensures StopAs(s.(worker := w), c, how) == StopAs(s, c, how).(worker := w)
  {
    var (d1, s1) := DoStop(s.(worker := w), c);
    var (d2, s2) := DoStop(s, c);
    assert d1 == d2 && s1 == s2.(worker := w);
  }

  lemma ExpireCurKeeps(s: State)
    requires Inv(s) && Enabled(s, ExpireCur)
    ensures Inv(Apply(s, ExpireCur))
  {
    hide Wf, Counted;
    var d := s.worker.cur.value;
    assert Owns(s.delegates, s.worker.kind, d);
    var x := s.delegates[d];
    if x.client.None? {
      ForgetKeeps(s);
    } else {
      assert DelegateLinked(x, d, s.clients);
      var c := x.client.value;
      assert ClientLinked(s.clients[c], c, s.delegates);
      StopKeeps(s, c, ByCallback);
      StopEffect(s, c, ByCallback);
      StopCommutes(s, s.worker.(cur := None), c, ByCallback);
      ForgetKeeps(StopAs(s, c, ByCallback));
    }
  }

  // ----- All steps -----

  lemma WorkKeeps(s: State)
    requires Inv(s) && Enabled(s, Work)
    ensures Inv(Apply(s, Work))
  {
    match s.queue[0] {
      case MsgPush(k, d) => WorkPushKeeps(s, k, d);
      case MsgRemove(k, d) => WorkRemoveKeeps(s, k, d);
      case MsgExpire(k) => WorkExpireKeeps(s, k);
    }
  }

  lemma InitEstablishes(s: State)
    requires Init(s)
    ensures Inv(s)
  {
    assert Holders(s.delegates, 0) == {};
  }

  /** Every step keeps the invariant. */
  lemma StepKeeps(s: State, a: Action)
    requires Inv(s) && Enabled(s, a)
    ensures Inv(Apply(s, a))
  {
    hide Inv;
    match a {
      case NewTimer(c) => NewTimerKeeps(s, c);
      case Start(c, d, ms, k) => StartKeeps(s, c, d, ms, k);
      case Stop(c) => StopKeeps(s, c, ByStop);
      case CloseStop(c) => CloseStopKeeps(s, c);
      case CloseDrop(c) => CloseDropKeeps(s, c);
      case Tick(t) => TickKeeps(s, t);
      case PollWake(ready) => PollWakeKeeps(s, ready);
      case PollDisarm => PollDisarmKeeps(s);
      case PollUnpoll => PollUnpollKeeps(s);
      case PollSend => PollSendKeeps(s);
      case Work => WorkKeeps(s);
      case ExpireCur => ExpireCurKeeps(s);
      case PopNext => PopNextKeeps(s);
    }
  }

  lemma TickKeeps(s: State, t: Timespec)
    requires Inv(s) && Enabled(s, Tick(t))
    ensures Inv(Apply(s, Tick(t)))
  {
  }

  /** So does every run. */
  lemma {:induction false} RunKeeps(s: State, acts: seq<Action>, t: State)
    requires Inv(s) && Run(s, acts, t)
    ensures Inv(t)
    decreases acts
  {
    hide Inv, Apply;
    if acts != [] {
      StepKeeps(s, acts[0]);
      RunKeeps(Apply(s, acts[0]), acts[1..], t);
    }
  }

  lemma ReachableKeeps(s: State)
    requires Reachable(s)
    ensures Inv(s)
  {
    var s0: State, acts: seq<Action> :| Init(s0) && Run(s0, acts, s);
    InitEstablishes(s0);
    RunKeeps(s0, acts, s);
  }
}
