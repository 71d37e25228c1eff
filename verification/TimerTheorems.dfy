/** What the timer service guarantees in every reachable state, over every interleaving of its threads. */
module TimerTheorems {
  import opened Wrappers
  import opened Ranking
  import opened HeapTree
  import opened TimerService
  import opened TimerInvariant
  import opened TimerSteps

  // ----- What the invariant says -----

  lemma HeapsAreLive(s: State)
    requires Inv(s)
    ensures !s.fault
    ensures forall k, x :: x in Bag(s, k) ==> LiveDelegate(s, x.addr) && Bag(s, k)[x] == 1
  {
    hide Wf, Links, Counted;
    forall k, x | x in Bag(s, k) ensures LiveDelegate(s, x.addr) && Bag(s, k)[x] == 1 {
      BoxInvAt(s, k);
    }
  }

  lemma MessagesAreTidy(s: State, i: nat)
    requires Inv(s) && i < |s.queue| && !s.queue[i].MsgExpire?
    ensures LiveDelegate(s, s.queue[i].d)
    ensures forall j :: i < j < |s.queue| ==> s.queue[j] != s.queue[i]
    ensures s.queue[i].MsgRemove? ==> MsgPush(s.queue[i].kind, s.queue[i].d) !in s.queue[i..]
  {
    hide Wf, Links, Counted;
    BoxInvAt(s, s.queue[i].kind);
    assert MsgPlaced(s.queue, i, s.delegates, Bag(s, s.queue[i].kind), Cur(s.worker, s.queue[i].kind));
  }

  lemma LocksAreCounted(s: State, c: nat)
    requires Inv(s) && c in s.clients
    ensures c in s.locks
    ensures s.locks[c].ref == (if s.clients[c].phase.Dead? then 0 else 1) + |Holders(s.delegates, c)|
    ensures s.locks[c].freed <==> s.clients[c].phase.Dead? && Holders(s.delegates, c) == {}
  {
    hide Wf, Links, Placed;
  }

  lemma EndsOnce(s: State, d: nat)
    requires Inv(s) && d in s.delegates
    ensures var e := s.delegates[d].ended; e.stops + e.cancels + e.fires <= 1
    ensures var e := s.delegates[d].ended; e.stops + e.cancels + e.fires == 1 <==> s.delegates[d].client.None?
    ensures forall c :: c in s.clients ==> (s.clients[c].timer == Some(d) <==> s.delegates[d].client == Some(c))
  {
    hide Wf, Placed;
    assert DelegateLinked(s.delegates[d], d, s.clients);
    forall c | c in s.clients ensures s.clients[c].timer == Some(d) <==> s.delegates[d].client == Some(c) {
      assert ClientLinked(s.clients[c], c, s.delegates);
    }
  }

  lemma HeapIsAwaited(s: State, k: Kind)
    requires Inv(s) && s.worker.Idle? && s.Box(k).heap.Node?
    ensures MsgExpire(k) in s.queue
         || (s.poll.Handling? && k in s.poll.todo)
         || (s.Box(k).polled && s.Box(k).armed == Some(s.Box(k).heap.data.due))
  {
    BoxInvAt(s, k);
  }

  // ----- Safety -----

  /** No step ever touches or deletes something deleted; each heap holds undeleted delegates, each once. */
  lemma NothingDeletedIsTouched(s: State)
    requires Reachable(s)
    ensures !s.fault
    ensures forall k, x :: x in Bag(s, k) ==> LiveDelegate(s, x.addr) && Bag(s, k)[x] == 1
  {
    ReachableKeeps(s);
    HeapsAreLive(s);
  }

  /** The queue holds at most one Push and one Remove for a delegate, the Push first, and none for a deleted one. */
  lemma OneMessageEach(s: State, i: nat)
    requires Reachable(s) && i < |s.queue| && !s.queue[i].MsgExpire?
    ensures LiveDelegate(s, s.queue[i].d)
    ensures forall j :: i < j < |s.queue| ==> s.queue[j] != s.queue[i]
    ensures s.queue[i].MsgRemove? ==> MsgPush(s.queue[i].kind, s.queue[i].d) !in s.queue[i..]
  {
    ReachableKeeps(s);
    MessagesAreTidy(s, i);
  }

  /** A shared lock counts its client and its undeleted delegates, and is deleted with the last of them. */
  lemma LockCounts(s: State, c: nat)
    requires Reachable(s) && c in s.clients
    ensures c in s.locks
    ensures s.locks[c].ref == (if s.clients[c].phase.Dead? then 0 else 1) + |Holders(s.delegates, c)|
    ensures s.locks[c].freed <==> s.clients[c].phase.Dead? && Holders(s.delegates, c) == {}
  {
    ReachableKeeps(s);
    LocksAreCounted(s, c);
  }

  /** A timer ends at most once: stopped by its client, cancelled by its destructor, or called back, never two of them. */
  lemma AtMostOnce(s: State, d: nat)
    requires Reachable(s) && d in s.delegates
    ensures var e := s.delegates[d].ended; e.stops + e.cancels + e.fires <= 1
    ensures var e := s.delegates[d].ended; e.stops + e.cancels + e.fires == 1 <==> s.delegates[d].client.None?
    ensures forall c :: c in s.clients ==> (s.clients[c].timer == Some(d) <==> s.delegates[d].client == Some(c))
  {
    ReachableKeeps(s);
    EndsOnce(s, d);
  }

  /**
   Between messages, a nonempty heap has an Expire message queued, or the poll thread in expire() for it,
   or its fd polled and the kernel timer set to exactly the deadline of its top timer.
   */
  lemma NoLostWakeup(s: State, k: Kind)
    requires Reachable(s) && s.worker.Idle? && s.Box(k).heap.Node?
    ensures MsgExpire(k) in s.queue
         || (s.poll.Handling? && k in s.poll.todo)
         || (s.Box(k).polled && s.Box(k).armed == Some(s.Box(k).heap.data.due))
  {
    ReachableKeeps(s);
    HeapIsAwaited(s, k);
  }

  /**
   When an Expire message is done, every timer it popped came out no sooner than the one before, every one
   but the first was due, and every timer left has tv_sec beyond that of the clock read at the start.
   */
  lemma ExpireDrainsDue(s: State)
    requires Reachable(s) && Enabled(s, PopNext) && Apply(s, PopNext).worker.Idle?
    ensures var p := s.worker.drained;
      && p != []
      && (forall i, j :: 0 <= i < j < |p| ==> p[i].due.sec <= p[j].due.sec)
      && (forall i :: 1 <= i < |p| ==> p[i].due.sec <= s.worker.now.sec)
    ensures forall x :: x in Bag(Apply(s, PopNext), s.worker.kind) ==> s.worker.now.sec < x.due.sec
  {
    ReachableKeeps(s);
    var k := s.worker.kind;
    BoxInvAt(s, k);
    DrainLeaves(s, k, s.worker.now, s.worker.drained);
  }

  /**
   An Expire message takes out a timer before its second exactly when the first one, the top at the time
   the message was taken up, was early; then it takes out no other.
   */
  lemma OnlyFirstCanBeEarly(s: State)
    requires Reachable(s) && s.worker.Draining?
    ensures s.worker.drained != []
    ensures (exists i :: 0 <= i < |s.worker.drained| && s.worker.now.sec < s.worker.drained[i].due.sec)
       <==> s.worker.now.sec < s.worker.drained[0].due.sec
    ensures s.worker.now.sec < s.worker.drained[0].due.sec ==> |s.worker.drained| == 1
  {
    hide Wf, Placed, Links, Counted;
    ReachableKeeps(s);
    var p := s.worker.drained;
    if |p| > 1 {
      assert p[0].due.sec <= p[1].due.sec <= s.worker.now.sec;
    }
  }

  lemma DrainLeaves(s: State, k: Kind, now: Timespec, p: seq<Rankable>)
    requires Links(s.clients, s.delegates) && Placed(k, s.delegates, s.queue, Bag(s, k), Cur(s.worker, k)) && Wf(s.Box(k).heap)
    requires p != [] && PopOrFinish(s, k, now, p).worker.Idle? && s.worker.Draining?
    ensures forall x :: x in Bag(PopOrFinish(s, k, now, p), k) ==> now.sec < x.due.sec
  {
    HeapIsLive(s, k);
    if s.Box(k).heap.Node? {
      TopIsSoonest(s.Box(k).heap);
    }
  }

  // ----- Deadlines -----

  /** The deadline of a timer is the time of its start plus its timeout, to the nanosecond, in normal form. */
  lemma DeadlineExact(clock: Timespec, timeOutInMs: nat)
    requires Normal(clock)
    ensures Nanos(FutureTime(clock, timeOutInMs)) == Nanos(clock) + timeOutInMs * 1_000_000
    ensures Normal(FutureTime(clock, timeOutInMs))
  {
    assert timeOutInMs == timeOutInMs / 1000 * 1000 + timeOutInMs % 1000;
  }

  // ----- What the calls do -----

  /**
   A start on a client without a timer makes one of the kind asked for, due after the timeout, links it both ways
   and sends it to the container of that kind; it succeeds. With a timer running it changes nothing.
   */
  lemma StartMeans(s: State, c: nat, d: nat, ms: nat, k: Kind)
    requires Inv(s) && Enabled(s, Start(c, d, ms, k))
    ensures var t := Apply(s, Start(c, d, ms, k));
      if s.clients[c].timer.Some? then t == s
      else
        && d in t.delegates && t.delegates[d].kind == k && t.delegates[d].container == Some(k)
        && t.delegates[d].client == Some(c) && t.clients == s.clients[c := s.clients[c].(timer := Some(d))]
        && Nanos(t.delegates[d].due) == Nanos(s.clock) + ms * 1_000_000
        && t.queue == s.queue + [MsgPush(k, d)]
        && t.delegates == s.delegates[d := t.delegates[d]]
  {
    hide Inv, FutureTime, Nanos;
    LockIsLive(s, c);
    NormalClock(s);
    DeadlineExact(s.clock, ms);
  }

  lemma NormalClock(s: State)
    requires Inv(s)
    ensures Normal(s.clock)
  {
  }

  lemma RunningHasNotEnded(s: State, c: nat)
    requires Inv(s) && c in s.clients && s.clients[c].timer.Some?
    ensures var d := s.clients[c].timer.value; d in s.delegates && s.delegates[d].ended == Outcomes(0, 0, 0)
  {
    hide Wf, Placed, Counted;
    assert ClientLinked(s.clients[c], c, s.delegates);
    assert DelegateLinked(s.delegates[s.clients[c].timer.value], s.clients[c].timer.value, s.clients);
  }

  /** A stop() by the client ends its timer as stopped and queues its removal; without a timer it changes nothing. */
  lemma StopMeans(s: State, c: nat)
    requires Inv(s) && Enabled(s, Stop(c))
    ensures var t := Apply(s, Stop(c));
      if s.clients[c].timer.None? then t == s
      else
        var d := s.clients[c].timer.value;
        && d in s.delegates && d in t.delegates && t.delegates[d].client == None && t.delegates[d].ended == Outcomes(1, 0, 0)
        && t.clients == s.clients[c := s.clients[c].(timer := None)] && t.queue == s.queue + [MsgRemove(s.delegates[d].kind, d)]
  {
    hide Inv, StopAs;
    StopEffect(s, c, ByStop);
    if s.clients[c].timer.Some? {
      RunningHasNotEnded(s, c);
    }
  }

  /** The stop() in the destructor ends it as cancelled, and the client is not used any more. */
  lemma CloseStopMeans(s: State, c: nat)
    requires Inv(s) && Enabled(s, CloseStop(c))
    ensures var t := Apply(s, CloseStop(c));
      && c in t.clients && t.clients[c] == Client(Closing, None)
      && (s.clients[c].timer.None? ==> t == s.(clients := t.clients))
      && (s.clients[c].timer.Some? ==>
            var d := s.clients[c].timer.value;
            && d in s.delegates && d in t.delegates && t.delegates[d].client == None && t.delegates[d].ended == Outcomes(0, 1, 0)
            && t.queue == s.queue + [MsgRemove(s.delegates[d].kind, d)])
  {
    hide Inv, StopAs;
    StopEffect(s, c, ByDestructor);
    if s.clients[c].timer.Some? {
      RunningHasNotEnded(s, c);
    }
  }

  /** The poll thread's three calls for a container disarm its kernel timer, stop polling it and queue one Expire. */
  lemma PollHandles(s: State)
    requires Enabled(s, PollDisarm)
    ensures var k, t := s.poll.todo[0], Apply(s, PollDisarm);
      && Enabled(t, PollUnpoll) && Enabled(Apply(t, PollUnpoll), PollSend)
      && var u := Apply(Apply(t, PollUnpoll), PollSend);
      && u.Box(k) == s.Box(k).(armed := None, polled := false) && (forall j :: j != k ==> u.Box(j) == s.Box(j))
      && u.queue == s.queue + [MsgExpire(k)] && u.delegates == s.delegates && u.clients == s.clients
      && u.poll == if |s.poll.todo| == 1 then Waiting else Handling(s.poll.todo[1..], Disarm)
  {
  }
}
