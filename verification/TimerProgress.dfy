/**
 Progress of the timer service. With clients and clock at rest, its own threads can take only a bounded
 number of steps, and when they come to rest every timer whose second has passed has been called back.
 */
module TimerProgress {
  import opened Wrappers
  import opened Ranking
  import opened HeapTree
  import opened TimerContainer
  import opened TimerService
  import opened TimerInvariant
  import opened TimerSteps
  import opened TimerPlacement

  // ----- A measure that every internal step lowers -----

  function MsgWeight(m: Msg): nat {
    match m
    case MsgPush(_, _) => 22
    case MsgRemove(_, _) => 7
    case MsgExpire(_) => 1
  }

  function QueueWeight(q: seq<Msg>): nat {
    if q == [] then 0 else MsgWeight(q[0]) + QueueWeight(q[1..])
  }

  /** The poll thread has yet to take this container's fd out of epoll. */
  predicate WillUnpoll(poll: Poll, k: Kind) {
    poll.Handling? && poll.todo != [] &&
    (k in poll.todo[1..] || (k == poll.todo[0] && !poll.stage.Send?))
  }

  /** A container about to wake the poll thread weighs what handling the wakeup costs. */
  function ArmWeight(b: Container, clock: Timespec, poll: Poll, k: Kind): nat {
    if b.polled && Readable(b, clock) && !WillUnpoll(poll, k) then 6 else 0
  }

  function BoxWeight(b: Container, clock: Timespec, poll: Poll, k: Kind): nat {
    15 * Count(b.heap) + ArmWeight(b, clock, poll, k)
  }

  function PollWeight(poll: Poll): nat {
    if poll.Waiting? || poll.todo == [] then 0
    else 5 * (|poll.todo| - 1) + (match poll.stage case Disarm => 5 case Unpoll => 4 case Send => 3)
  }

  function WorkerWeight(w: Worker): nat {
    if w.Idle? then 0 else if w.cur.Some? then 15 else 7
  }

  function Weight(s: State): nat {
    QueueWeight(s.queue) + BoxWeight(s.sw, s.clock, s.poll, Sw) + BoxWeight(s.hw, s.clock, s.poll, Hw)
    + PollWeight(s.poll) + WorkerWeight(s.worker)
  }

  lemma {:induction false} QueueWeightAppend(q: seq<Msg>, m: Msg)
    ensures QueueWeight(q + [m]) == QueueWeight(q) + MsgWeight(m)
  {
    if q != [] {
      QueueWeightAppend(q[1..], m);
      assert (q + [m])[1..] == q[1..] + [m];
    } else {
      assert q + [m] == [m];
    }
  }

  lemma BoxesWeigh(s: State, k: Kind)
    ensures Weight(s) == QueueWeight(s.queue) + BoxWeight(s.Box(k), s.clock, s.poll, k)
      + BoxWeight(s.Box(OtherKind(k)), s.clock, s.poll, OtherKind(k)) + PollWeight(s.poll) + WorkerWeight(s.worker)
  {
  }

  /** epoll_wait never returns more than the two containers there are. */
  lemma AtMostTwo(ready: seq<Kind>)
    requires forall i, j :: 0 <= i < j < |ready| ==> ready[i] != ready[j]
    ensures |ready| <= 2
  {
    assert |ready| > 1 ==> ready[0] != ready[1];
    assert |ready| > 2 ==> ready[0] != ready[2] && ready[1] != ready[2];
  }

  lemma PollWakeLowers(s: State, ready: seq<Kind>)
    requires Enabled(s, PollWake(ready))
    ensures Weight(Apply(s, PollWake(ready))) < Weight(s)
  {
    hide Count, Readable;
    AtMostTwo(ready);
    var k, t := ready[0], Apply(s, PollWake(ready));
    assert ArmWeight(s.Box(k), s.clock, s.poll, k) == 6 && WillUnpoll(t.poll, k);
    if |ready| == 2 {
      assert ready[1] in ready[1..] && ready[1] == OtherKind(k);
      assert ArmWeight(s.Box(ready[1]), s.clock, s.poll, ready[1]) == 6;
    }
    BoxesWeigh(s, k);
    BoxesWeigh(t, k);
  }

  /** Kernel calls of the poll thread on a container that the measure already counts as unpolled. */
  lemma PollBusyLowers(s: State, b: Container, stage: Stage)
    requires s.poll.Handling? && s.poll.todo != [] && b.heap == s.Box(s.poll.todo[0]).heap
    requires PollWeight(s.poll.(stage := stage)) < PollWeight(s.poll) && (stage.Send? ==> !b.polled)
    ensures Weight(PollBusy(s, b, stage)) < Weight(s)
  {
    hide Count, Readable, Weight, PollWeight;
    var k, t := s.poll.todo[0], PollBusy(s, b, stage);
    assert ArmWeight(t.Box(k), t.clock, t.poll, k) == 0;
    assert WillUnpoll(t.poll, OtherKind(k)) == WillUnpoll(s.poll, OtherKind(k));
    BoxesWeigh(s, k);
    BoxesWeigh(t, k);
  }

  lemma PollDisarmLowers(s: State)
    requires Enabled(s, PollDisarm)
    ensures Weight(Apply(s, PollDisarm)) < Weight(s)
  {
    hide Weight;
    PollBusyLowers(s, SetTime(s.Box(s.poll.todo[0]), DISARM), Unpoll);
  }

  lemma PollUnpollLowers(s: State)
    requires Enabled(s, PollUnpoll)
    ensures Weight(Apply(s, PollUnpoll)) < Weight(s)
  {
    hide Weight;
    PollBusyLowers(s, s.Box(s.poll.todo[0]).(polled := false), Send);
  }

  lemma PollSendLowers(s: State)
    requires Enabled(s, PollSend) && PollOk(s.poll)
    ensures Weight(Apply(s, PollSend)) < Weight(s)
  {
    var t := Apply(s, PollSend);
    QueueWeightAppend(s.queue, MsgExpire(s.poll.todo[0]));
    forall k ensures WillUnpoll(t.poll, k) <==> WillUnpoll(s.poll, k) {
      if |s.poll.todo| > 1 {
        assert s.poll.todo[1..] == [s.poll.todo[1]] + s.poll.todo[1..][1..];
      }
    }
    BoxesWeigh(s, Sw);
    BoxesWeigh(t, Sw);
  }

  /** Refreshing the kernel timer costs at most one wakeup. */
  lemma RefreshWeight(b: Container, prior: Option<Rankable>, clock: Timespec, poll: Poll, k: Kind)
    ensures BoxWeight(UpdateSoonestTime(b, prior), clock, poll, k) <= 15 * Count(b.heap) + 6
  {
  }

  /** The worker changing one container, its own state and the queue. */
  lemma WorkerStepLowers(s: State, t: State, k: Kind)
    requires t.clock == s.clock && t.poll == s.poll && t.Box(OtherKind(k)) == s.Box(OtherKind(k))
    requires QueueWeight(t.queue) + BoxWeight(t.Box(k), s.clock, s.poll, k) + WorkerWeight(t.worker)
           < QueueWeight(s.queue) + BoxWeight(s.Box(k), s.clock, s.poll, k) + WorkerWeight(s.worker)
    ensures Weight(t) < Weight(s)
  {
    hide BoxWeight, QueueWeight, PollWeight, WorkerWeight;
    BoxesWeigh(s, k);
    BoxesWeigh(t, k);
  }

  lemma WorkPushLowers(s: State, k: Kind, d: nat)
    requires s.worker.Idle? && s.queue != [] && s.queue[0] == MsgPush(k, d) && LiveDelegate(s, d)
    requires LiveHeap(s, s.Box(k).heap) && Wf(s.Box(k).heap)
    ensures Weight(DoWork(s)) < Weight(s)
  {
    var b, x := s.Box(k), AsRankable(s, d);
    assert Count(Push(b.heap, x)) == Count(b.heap) + 1 by { PushSized(b.heap, x); }
    RefreshWeight(b.(heap := Push(b.heap, x)), TopOf(b.heap), s.clock, s.poll, k);
    WorkerStepLowers(s, DoWork(s), k);
  }

  lemma WorkRemoveLowers(s: State, k: Kind, d: nat)
    requires s.worker.Idle? && s.queue != [] && s.queue[0] == MsgRemove(k, d) && LiveDelegate(s, d)
    requires LiveHeap(s, s.Box(k).heap) && Wf(s.Box(k).heap) && LiveLock(s, s.delegates[d].lock)
    ensures Weight(DoWork(s)) < Weight(s)
  {
    var b, x := s.Box(k), AsRankable(s, d);
    RemoveWeight(b, x, s.clock, s.poll, k);
    assert DoWork(s) == RemovedState(s, k, d) by { WorkRemoveEffect(s, k, d); }
    WorkerStepLowers(s, RemovedState(s, k, d), k);
  }

  lemma RemoveWeight(b: Container, x: Rankable, clock: Timespec, poll: Poll, k: Kind)
    requires Wf(b.heap)
    ensures BoxWeight(ProcRemove(b, x), clock, poll, k) <= BoxWeight(b, clock, poll, k) + 6
  {
    hide Ordered;
    var rest := b.(heap := Remove(b.heap, x).0);
    RemoveRefreshes(b, x);
    assert Count(rest.heap) <= Count(b.heap) by { RemoveSized(b.heap, x); }
    RefreshWeight(rest, None, clock, poll, k);
  }

  lemma PopWeight(b: Container, clock: Timespec, poll: Poll, k: Kind)
    requires b.heap.Node?
    ensures BoxWeight(b.(heap := Pop(b.heap)), clock, poll, k) == BoxWeight(b, clock, poll, k) - 15
  {
  }

  lemma WorkExpireLowers(s: State, k: Kind)
    requires s.worker.Idle? && s.queue != [] && s.queue[0] == MsgExpire(k) && LiveHeap(s, s.Box(k).heap)
    ensures Weight(DoWork(s)) < Weight(s)
  {
    hide BoxWeight;
    var b := s.Box(k);
    if b.heap.Node? {
      PopWeight(b, s.clock, s.poll, k);
    }
    WorkerStepLowers(s, DoWork(s), k);
  }

  lemma PopNextLowers(s: State)
    requires Enabled(s, PopNext) && LiveHeap(s, s.Box(s.worker.kind).heap)
    ensures Weight(Apply(s, PopNext)) < Weight(s)
  {
    hide QueueWeight;
    var k, b := s.worker.kind, s.Box(s.worker.kind);
    if b.heap.Node? {
      PopWeight(b, s.clock, s.poll, k);
    }
    RefreshWeight(b, None, s.clock, s.poll, k);
    WorkerStepLowers(s, Apply(s, PopNext), k);
  }

  lemma ExpireCurLowers(s: State)
    requires Inv(s) && Enabled(s, ExpireCur)
    ensures Weight(Apply(s, ExpireCur)) < Weight(s)
  {
    hide Wf, Placed, Counted, BoxWeight, QueueWeight;
    var k, d := s.worker.kind, s.worker.cur.value;
    ExpireCurEffect(s);
    QueueWeightAppend(s.queue, MsgRemove(k, d));
    WorkerStepLowers(s, Apply(s, ExpireCur), k);
  }

  /** Expiring a popped delegate: nothing if it was stopped already, else its timer stops and its client is called back. */
  lemma ExpireCurEffect(s: State)
    requires Inv(s) && Enabled(s, ExpireCur)
    ensures var d, w := s.worker.cur.value, s.worker.(cur := None);
      && d in s.delegates && s.delegates[d].kind == s.worker.kind
      && Apply(s, ExpireCur) ==
           if s.delegates[d].client.None? then s.(worker := w)
           else
             assert s.delegates[d].client.value in s.clients;
             StoppedState(s, s.delegates[d].client.value, d, ByCallback).(worker := w)
  {
    hide Wf, Counted;
    var d := s.worker.cur.value;
    BoxInvAt(s, s.worker.kind);
    assert Owns(s.delegates, s.worker.kind, d);
    var x := s.delegates[d];
    if x.client.Some? {
      assert DelegateLinked(x, d, s.clients);
      assert ClientLinked(s.clients[x.lock], x.lock, s.delegates);
      StopEffect(s, x.lock, ByCallback);
      StopCommutes(s, s.worker.(cur := None), x.lock, ByCallback);
    }
  }

  lemma WorkLowers(s: State)
    requires Inv(s) && Enabled(s, Work)
    ensures Weight(Apply(s, Work)) < Weight(s)
  {
    hide Inv, Wf, Counted, Weight, LiveHeap, DoWork;
    var k := s.queue[0].kind;
    BoxInvAt(s, k);
    match s.queue[0] {
      case MsgPush(_, d) =>
        assert MsgPlaced(s.queue, 0, s.delegates, Bag(s, k), Cur(s.worker, k));
        WorkPushLowers(s, k, d);
      case MsgRemove(_, d) =>
        assert MsgPlaced(s.queue, 0, s.delegates, Bag(s, k), Cur(s.worker, k));
        assert DelegateLinked(s.delegates[d], d, s.clients);
        CountedDelete(s.clients, s.locks, s.delegates, d);
        assert LiveLock(s, s.delegates[d].lock) by { LockOfDelegate(s, d); }
        WorkRemoveLowers(s, k, d);
      case MsgExpire(_) =>
        WorkExpireLowers(s, k);
    }
  }

  lemma LockOfDelegate(s: State, d: nat)
    requires Counted(s.clients, s.locks, s.delegates) && LiveDelegate(s, d) && s.delegates[d].lock in s.clients
    ensures LiveLock(s, s.delegates[d].lock)
  {
    CountedDelete(s.clients, s.locks, s.delegates, d);
  }

  /** Every step of the service's own threads lowers the measure. */
  lemma InternalLowers(s: State, a: Action)
    requires Inv(s) && Enabled(s, a) && Internal(a)
    ensures Weight(Apply(s, a)) < Weight(s)
  {
    hide Inv, Weight, LiveHeap, Apply;
    match a {
      case PollWake(ready) => PollWakeLowers(s, ready);
      case PollDisarm => PollDisarmLowers(s);
      case PollUnpoll => PollUnpollLowers(s);
      case PollSend => assert PollOk(s.poll) by { PollOkOf(s); } PollSendLowers(s);
      case Work => WorkLowers(s);
      case ExpireCur => ExpireCurLowers(s);
      case PopNext => BoxInvAt(s, s.worker.kind); PopNextLowers(s);
    }
  }

  lemma PollOkOf(s: State)
    requires Inv(s)
    ensures PollOk(s.poll)
  {
  }

  predicate AllInternal(acts: seq<Action>) {
    forall i :: 0 <= i < |acts| ==> Internal(acts[i])
  }

  /** With clients and clock at rest the service takes at most Weight(s) steps from any state it can be in. */
  lemma {:induction false} InternalRunsEnd(s: State, acts: seq<Action>, t: State)
    requires Inv(s) && Run(s, acts, t) && AllInternal(acts)
    ensures |acts| + Weight(t) <= Weight(s)
    decreases acts
  {
    hide Inv, Weight, Apply, Enabled;
    if acts != [] {
      InternalLowers(s, acts[0]);
      StepKeeps(s, acts[0]);
      InternalRunsEnd(Apply(s, acts[0]), acts[1..], t);
    }
  }

  // ----- At rest -----

  ghost predicate Quiescent(s: State) {
    forall a: Action :: Internal(a) ==> !Enabled(s, a)
  }

  /** At rest the queue is empty, both threads wait, and no watched kernel timer has gone off. */
  lemma QuiescentMeans(s: State)
    requires PollOk(s.poll) && Quiescent(s)
    ensures s.queue == [] && s.worker.Idle? && s.poll.Waiting?
    ensures forall k :: s.Box(k).polled ==> !Readable(s.Box(k), s.clock)
  {
    assert !Enabled(s, Work) && !Enabled(s, ExpireCur) && !Enabled(s, PopNext);
    assert !Enabled(s, PollDisarm) && !Enabled(s, PollUnpoll) && !Enabled(s, PollSend);
    forall k | s.Box(k).polled ensures !Readable(s.Box(k), s.clock) {
      assert !Enabled(s, PollWake([k]));
      assert CanWake(s, [k]) <==> Readable(s.Box(k), s.clock);
    }
  }

  /** At rest the next timer of each container lies in the future, and no timer's second has passed. */
  lemma QuiescentNothingDue(s: State, k: Kind)
    requires Inv(s) && Quiescent(s)
    ensures s.Box(k).heap.Node? ==> !NoLater(s.Box(k).heap.data.due, s.clock)
    ensures forall x :: x in Bag(s, k) ==> s.clock.sec <= x.due.sec
  {
    hide Links, Counted, Placed;
    QuiescentMeans(s);
    BoxInvAt(s, k);
    assert Watched(s.Box(k));
    if s.Box(k).heap.Node? {
      TopIsSoonest(s.Box(k).heap);
    }
  }

  /** At rest every running timer is in its heap, and every other delegate has been deleted. */
  lemma QuiescentDelegates(s: State, d: nat)
    requires Inv(s) && Quiescent(s) && d in s.delegates
    ensures s.delegates[d].client.Some? ==> AsRankable(s, d) in Bag(s, s.delegates[d].kind)
    ensures s.delegates[d].client.None? <==> s.delegates[d].freed
  {
    hide Wf, Counted;
    QuiescentMeans(s);
    BoxInvAt(s, s.delegates[d].kind);
    assert Tracked(s.delegates[d], d, s.queue, Bag(s, s.delegates[d].kind), Cur(s.worker, s.delegates[d].kind));
    assert DelegateLinked(s.delegates[d], d, s.clients);
  }

  /** Nothing leaks: at rest the shared lock of every deleted LocTimer has been deleted too. */
  lemma QuiescentLocks(s: State, c: nat)
    requires Inv(s) && Quiescent(s) && c in s.clients && s.clients[c].phase.Dead?
    ensures c in s.locks && s.locks[c].freed
  {
    forall d | d in s.delegates ensures d !in Holders(s.delegates, c) {
      QuiescentDelegates(s, d);
      assert DelegateLinked(s.delegates[d], d, s.clients);
      assert s.delegates[d].client.Some? ==> ClientLinked(s.clients[s.delegates[d].lock], s.delegates[d].lock, s.delegates);
    }
    assert Holders(s.delegates, c) == {};
  }

  // ----- Due timers fire -----

  /** Internal steps leave the clock and everything about a delegate but its client, its deletion and its callbacks. */
  ghost predicate Later(s: State, t: State) {
    && t.clock == s.clock
    && forall d :: d in s.delegates ==> d in t.delegates && LaterDelegate(s.delegates[d], t.delegates[d])
  }

  predicate LaterDelegate(x: Delegate, y: Delegate) {
    && y.due == x.due && y.kind == x.kind && y.lock == x.lock
    && y.ended.stops == x.ended.stops && y.ended.cancels == x.ended.cancels && x.ended.fires <= y.ended.fires
  }

  lemma WorkLater(s: State)
    requires s.queue != []
    ensures Later(s, DoWork(s))
  {
    hide ProcPush, ProcRemove, PopOrFinish, LiveHeap;
    var s1, m := s.(queue := s.queue[1..]), s.queue[0];
    if m.MsgExpire? {
      PopLater(s1, m.kind, s.clock, []);
    } else if m.MsgRemove? && LiveDelegate(s, m.d) {
      assert LaterDelegate(s.delegates[m.d], s.delegates[m.d].(freed := true));
    }
  }

  lemma PopLater(s: State, k: Kind, now: Timespec, p: seq<Rankable>)
    ensures PopOrFinish(s, k, now, p).delegates == s.delegates && PopOrFinish(s, k, now, p).clock == s.clock
  {
  }

  lemma ExpireCurLater(s: State)
    requires Inv(s) && Enabled(s, ExpireCur)
    ensures Later(s, Apply(s, ExpireCur))
  {
    hide Inv, Apply;
    ExpireCurEffect(s);
  }

  lemma InternalLater(s: State, a: Action)
    requires Inv(s) && Enabled(s, a) && Internal(a)
    ensures Later(s, Apply(s, a))
  {
    hide Inv, DoWork, DoExpire, SetTime, UpdateSoonestTime, LiveHeap, HeapTree.Pop, TopIsDue, Contents, CanWake;
    match a {
      case ExpireCur => ExpireCurLater(s);
      case Work => WorkLater(s);
      case _ =>
    }
  }

  lemma {:induction false} InternalRunLater(s: State, acts: seq<Action>, t: State)
    requires Inv(s) && Run(s, acts, t) && AllInternal(acts)
    ensures Later(s, t) && Inv(t)
    decreases acts
  {
    hide Inv, Apply, Enabled;
    if acts != [] {
      InternalLater(s, acts[0]);
      StepKeeps(s, acts[0]);
      InternalRunLater(Apply(s, acts[0]), acts[1..], t);
    }
  }

  lemma DueHaveFired(s: State, t: State, d: nat)
    requires Inv(s) && Inv(t) && Later(s, t) && Quiescent(t)
    requires d in s.delegates && s.delegates[d].client.Some? && s.delegates[d].due.sec < s.clock.sec
    ensures d in t.delegates && t.delegates[d].ended == Outcomes(0, 0, 1) && t.delegates[d].freed
  {
    hide Wf, Placed, Counted, Enabled;
    QuiescentDelegates(t, d);
    QuiescentNothingDue(t, t.delegates[d].kind);
    assert DelegateLinked(s.delegates[d], d, s.clients);
    assert DelegateLinked(t.delegates[d], d, t.clients);
    assert LaterDelegate(s.delegates[d], t.delegates[d]);
  }

  /**
   Once the service comes to rest with nobody calling it, every timer that was running and whose second had
   passed has had its callback, exactly once.
   */
  lemma {:induction false} DueTimersFire(s: State, acts: seq<Action>, t: State, d: nat)
    requires Reachable(s) && Run(s, acts, t) && AllInternal(acts) && Quiescent(t)
    requires d in s.delegates && s.delegates[d].client.Some? && s.delegates[d].due.sec < s.clock.sec
    ensures d in t.delegates && t.delegates[d].ended == Outcomes(0, 0, 1) && t.delegates[d].freed
  {
    hide Inv, Run, Enabled, Quiescent;
    ReachableKeeps(s);
    InternalRunLater(s, acts, t);
    DueHaveFired(s, t, d);
  }

  /** And it does come to rest: from every state some internal run reaches one with no internal step left. */
  lemma {:induction false} ReachesRest(s: State) returns (acts: seq<Action>, t: State)
    requires Inv(s)
    ensures AllInternal(acts) && Run(s, acts, t) && Quiescent(t)
    decreases Weight(s)
  {
    hide Inv, Weight, Apply, Enabled;
    if Quiescent(s) {
      acts, t := [], s;
    } else {
      var a :| Internal(a) && Enabled(s, a);
      InternalLowers(s, a);
      StepKeeps(s, a);
      var rest;
      rest, t := ReachesRest(Apply(s, a));
      acts := [a] + rest;
      assert acts[1..] == rest;
    }
  }
}
