/**
 What the service guarantees with expire() in its three steps, to clients that delete no LocTimer while the worker
 holds its address: all it guarantees with expire() in one.
 */
module TimerFineTheorems {
  import opened Wrappers
  import opened HeapTree
  import opened TimerService
  import opened TimerInvariant
  import opened TimerSteps
  import opened TimerProgress
  import opened TimerTheorems
  import opened TimerFine

  /** Reached from the start, no LocTimer having been deleted while held. */
  ghost predicate FineReachable(f: Fine) {
    exists s0: State, xs: seq<Act> :: Init(s0) && FineRun(Fine(s0, Outside), xs, f) && !SomeDeleted(Fine(s0, Outside), xs)
  }

  lemma FineReachableKeeps(f: Fine)
    requires FineReachable(f)
    ensures FineInv(f) && !HoldsDead(f)
  {
    var s0: State, xs: seq<Act> :| Init(s0) && FineRun(Fine(s0, Outside), xs, f) && !SomeDeleted(Fine(s0, Outside), xs);
    FineSafeExactly(s0, xs, f);
  }

  // ----- Safety -----

  /** Nothing deleted is touched, heaps hold live delegates once, and each lock counts its holders. */
  lemma FineNothingTouched(f: Fine)
    requires FineReachable(f)
    ensures !f.s.fault
    ensures forall k, x :: x in Bag(f.s, k) ==> LiveDelegate(f.s, x.addr) && Bag(f.s, k)[x] == 1
    ensures forall c :: c in f.s.clients ==> c in f.s.locks && (f.s.locks[c].freed <==> f.s.clients[c].phase.Dead? && Holders(f.s.delegates, c) == {})
  {
    hide Inv;
    FineReachableKeeps(f);
    HeapsAreLive(f.s);
    forall c | c in f.s.clients
      ensures c in f.s.locks && (f.s.locks[c].freed <==> f.s.clients[c].phase.Dead? && Holders(f.s.delegates, c) == {})
    {
      LocksAreCounted(f.s, c);
    }
  }

  /** A timer ends at most once. */
  lemma FineAtMostOnce(f: Fine, d: nat)
    requires FineReachable(f) && d in f.s.delegates
    ensures var e := f.s.delegates[d].ended; e.stops + e.cancels + e.fires <= 1
    ensures var e := f.s.delegates[d].ended; e.stops + e.cancels + e.fires == 1 <==> f.s.delegates[d].client.None?
  {
    FineReachableKeeps(f);
    EndsOnce(f.s, d);
  }

  /** No wakeup is lost. */
  lemma FineNoLostWakeup(f: Fine, k: Kind)
    requires FineReachable(f) && f.s.worker.Idle? && f.s.Box(k).heap.Node?
    ensures MsgExpire(k) in f.s.queue
         || (f.s.poll.Handling? && k in f.s.poll.todo)
         || (f.s.Box(k).polled && f.s.Box(k).armed == Some(f.s.Box(k).heap.data.due))
  {
    FineReachableKeeps(f);
    HeapIsAwaited(f.s, k);
  }

  // ----- Coming to rest -----

  /** A step of the service's own threads. */
  predicate FineInternal(x: Act) {
    x.Other? ==> Internal(x.a)
  }

  predicate AllFineInternal(xs: seq<Act>) {
    forall i :: 0 <= i < |xs| ==> FineInternal(xs[i])
  }

  /** The steps of expire() left before the next pop. */
  function Inner(f: Fine): nat {
    if !f.at.Outside? then 1 else if f.s.worker.Draining? && f.s.worker.cur.Some? then 2 else 0
  }

  function FineWeight(f: Fine): nat {
    4 * Weight(f.s) + Inner(f)
  }

  lemma ReadLowers(f: Fine)
    requires FineInv(f) && FineEnabled(f, ReadClient)
    ensures FineWeight(FineApply(f, ReadClient)) < FineWeight(f)
  {
    hide Inv, BoxWeight, QueueWeight, PollWeight;
    HeldIsLive(f.s);
  }

  /** The worker's stop() on a live client: it lets go of the popped delegate, and queues at most one Remove. */
  lemma StopHeldEffect(f: Fine)
    requires FineInv(f) && FineEnabled(f, StopClient) && LiveClient(f.s, f.at.c)
    ensures var s, c, g := f.s, f.at.c, FineApply(f, StopClient);
      && (s.clients[c].timer.Some? ==> s.clients[c].timer.value in s.delegates)
      && g.s == (if s.clients[c].timer.None? then Forget(s) else StoppedState(s, c, s.clients[c].timer.value, ByCallback).(worker := Forget(s).worker))
  {
    hide Inv, StopAs;
    StopEffect(f.s, f.at.c, ByCallback);
    StopCommutes(f.s, Forget(f.s).worker, f.at.c, ByCallback);
  }

  lemma StopHeldLowers(f: Fine)
    requires FineInv(f) && FineEnabled(f, StopClient) && LiveClient(f.s, f.at.c)
    ensures FineWeight(FineApply(f, StopClient)) < FineWeight(f)
  {
    hide Inv, BoxWeight, QueueWeight, FineApply;
    var s, c, g := f.s, f.at.c, FineApply(f, StopClient);
    StopHeldEffect(f);
    if s.clients[c].timer.Some? {
      var d := s.clients[c].timer.value;
      QueueWeightAppend(s.queue, MsgRemove(s.delegates[d].kind, d));
    }
    WorkerStepLowers(s, g.s, s.worker.kind);
    StopHeldInner(f);
  }

  lemma StopHeldInner(f: Fine)
    requires FineInv(f) && FineEnabled(f, StopClient)
    ensures Inner(FineApply(f, StopClient)) <= 1
  {
    hide Inv, StopAs;
    StopLeavesWorker(Forget(f.s), f.at.c);
  }

  /** Every step of the service's own threads lowers the measure. */
  lemma FineLowers(f: Fine, x: Act)
    requires FineInv(f) && !HoldsDead(f) && FineEnabled(f, x) && FineInternal(x)
    ensures FineWeight(FineApply(f, x)) < FineWeight(f)
  {
    hide Inv, Weight, Apply, StopAs;
    match x {
      case Other(a) => InternalLowers(f.s, a);
      case ReadClient => ReadLowers(f);
      case StopClient => StopHeldLowers(f);
      case CallBack =>
    }
  }

  /** Internal steps delete nobody. */
  lemma InternalHoldsLive(f: Fine, x: Act)
    requires FineInv(f) && !HoldsDead(f) && FineEnabled(f, x) && FineInternal(x)
    ensures FineInv(FineApply(f, x)) && !HoldsDead(FineApply(f, x))
  {
    hide FineApply, Inv, HeldOk;
    FineStep(f, x);
    HoldsDeadStep(f, x);
  }

  /** With clients and clock at rest the service takes a bounded number of steps. */
  lemma {:induction false} FineRunsEnd(f: Fine, xs: seq<Act>, g: Fine)
    requires FineInv(f) && !HoldsDead(f) && FineRun(f, xs, g) && AllFineInternal(xs)
    ensures |xs| + FineWeight(g) <= FineWeight(f)
    ensures FineInv(g) && !HoldsDead(g)
    decreases xs
  {
    hide FineInv, HoldsDead, FineWeight, FineApply, FineEnabled;
    if xs != [] {
      FineLowers(f, xs[0]);
      InternalHoldsLive(f, xs[0]);
      FineRunsEnd(FineApply(f, xs[0]), xs[1..], g);
    }
  }

  ghost predicate FineQuiescent(f: Fine) {
    forall x: Act :: FineInternal(x) ==> !FineEnabled(f, x)
  }

  /** At rest the worker is not in expire(), and no internal step is left with it in one step either. */
  lemma FineRestIsRest(f: Fine)
    requires FineQuiescent(f)
    ensures f.at.Outside? && Quiescent(f.s)
  {
    assert !FineEnabled(f, StopClient) && !FineEnabled(f, CallBack) && !FineEnabled(f, ReadClient);
    forall a: Action | Internal(a) ensures !Enabled(f.s, a) {
      assert !FineEnabled(f, Other(a));
    }
  }

  lemma FineStepLater(f: Fine, x: Act)
    requires FineInv(f) && !HoldsDead(f) && FineEnabled(f, x) && FineInternal(x)
    ensures Later(f.s, FineApply(f, x).s)
  {
    hide Inv, Apply, StopAs;
    match x {
      case Other(a) => InternalLater(f.s, a);
      case ReadClient => HeldIsLive(f.s);
      case StopClient => StopHeldEffect(f);
      case CallBack =>
    }
  }

  lemma {:induction false} FineRunLater(f: Fine, xs: seq<Act>, g: Fine)
    requires FineInv(f) && !HoldsDead(f) && FineRun(f, xs, g) && AllFineInternal(xs)
    ensures Later(f.s, g.s)
    decreases xs
  {
    hide FineInv, HoldsDead, FineApply, FineEnabled;
    if xs != [] {
      FineStepLater(f, xs[0]);
      InternalHoldsLive(f, xs[0]);
      FineRunLater(FineApply(f, xs[0]), xs[1..], g);
    }
  }

  /** Once the service comes to rest, every timer that was running and whose second had passed has been called back,
      exactly once, and deleted. */
  lemma {:induction false} FineDueTimersFire(f: Fine, xs: seq<Act>, g: Fine, d: nat)
    requires FineReachable(f) && FineRun(f, xs, g) && AllFineInternal(xs) && FineQuiescent(g)
    requires d in f.s.delegates && f.s.delegates[d].client.Some? && f.s.delegates[d].due.sec < f.s.clock.sec
    ensures d in g.s.delegates && g.s.delegates[d].ended == Outcomes(0, 0, 1) && g.s.delegates[d].freed
  {
    hide Wf, Placed, Counted, FineRun, FineEnabled, FineQuiescent, FineReachable, FineApply, FineWeight;
    FineReachableKeeps(f);
    FineRunLater(f, xs, g);
    FineRunsEnd(f, xs, g);
    FineRestIsRest(g);
    DueHaveFired(f.s, g.s, d);
  }
}
