/** One LocTimerContainer: a heap of delegates, its timerfd and whether epoll watches it. */
module TimerContainer {
  import opened Wrappers
  import opened Ranking
  import opened HeapTree

  /** polled: the fd is registered with epoll. armed: the time the timerfd is set to, if any. */
  datatype Container = Container(heap: Tree, polled: bool, armed: Option<Timespec>)

  const DISARM := Timespec(0, 0)

  /** timerfd_settime with an absolute time; an all-zero time disarms. */
  function SetTime(b: Container, at: Timespec): Container {
    b.(armed := if at == DISARM then None else Some(at))
  }

  /** The timerfd is never read, so it stays readable from its time on until it is set again. */
  predicate Readable(b: Container, clock: Timespec) {
    b.armed.Some? && NoLater(b.armed.value, clock)
  }

  function UpdateSoonestTime(b: Container, priorTop: Option<Rankable>): Container {
    var curTop := TopOf(b.heap);
    if curTop == priorTop then b
    else if curTop.None? then SetTime(b.(polled := false), DISARM)
    else if priorTop.None? || OutRanks(curTop.value, priorTop.value) then
      SetTime(b.(polled := true), curTop.value.due)
    else b
  }

  /** MsgTimerPush::proc */
  function ProcPush(b: Container, x: Rankable): Container {
    UpdateSoonestTime(b.(heap := Push(b.heap, x)), TopOf(b.heap))
  }

  /** MsgTimerRemove::proc, up to the delete. */
  function ProcRemove(b: Container, x: Rankable): Container {
    var (h, found) := Remove(b.heap, x);
    var rest := b.(heap := h);
    if TopOf(b.heap) == (if found then Some(x) else None) then UpdateSoonestTime(rest, None) else rest
  }

  /** popIfOutRanks: pops unless now outranks the top. */
  predicate TopIsDue(t: Tree, now: Timespec) {
    t.Node? && !(now.sec < t.data.due.sec)
  }

  // ----- What a message leaves behind -----

  /** The top timer is watched: epoll polls the fd and the kernel timer is set to exactly its deadline. */
  predicate Watched(b: Container) {
    b.heap.Node? ==> b.polled && b.armed == Some(b.heap.data.due)
  }

  ghost predicate AllPositive(t: Tree) {
    forall x :: x in Contents(t) ==> x.due != DISARM
  }

  /** Setting the soonest time from scratch leaves the top watched. */
  lemma RefreshWatches(b: Container)
    requires AllPositive(b.heap)
    ensures Watched(UpdateSoonestTime(b, None))
    ensures UpdateSoonestTime(b, None).heap == b.heap
  {
    RootIsMember(b.heap);
  }

  /** A heap that has become empty is no longer polled, and its kernel timer is disarmed; from no prior top the
      kernel timer of an empty heap is left as it is. */
  lemma EmptyUnwatches(b: Container, prior: Option<Rankable>)
    requires b.heap.Nil?
    ensures UpdateSoonestTime(b, prior) == if prior.Some? then b.(polled := false, armed := None) else b
  {
  }

  /** A push keeps the top watched, and leaves a container alone unless the new timer becomes the top. */
  lemma {:induction false} PushKeepsWatch(b: Container, x: Rankable)
    requires Wf(b.heap) && AllPositive(b.heap) && x.due != DISARM
    ensures ProcPush(b, x).heap == Push(b.heap, x)
    ensures Watched(b) ==> Watched(ProcPush(b, x))
    ensures Watched(ProcPush(b, x)) || (b.heap.Node? && ProcPush(b, x) == b.(heap := Push(b.heap, x)))
    ensures b.heap.Nil? || OutRanks(x, b.heap.data) ==> Watched(ProcPush(b, x)) && TopOf(ProcPush(b, x).heap) == Some(x)
    ensures b.heap.Node? && !OutRanks(x, b.heap.data) ==> ProcPush(b, x) == b.(heap := Push(b.heap, x))
  {
    PushOrdered(b.heap, x);
  }

  lemma {:induction false} RemovedPositive(t: Tree, x: Rankable)
    requires AllPositive(t)
    ensures AllPositive(Remove(t, x).0)
  {
    RemoveContents(t, x);
  }

  /** The top only goes when it is the object removed; the search finds anything at the top. */
  lemma {:induction false} RemoveKeepsTop(t: Tree, x: Rankable)
    requires t.Node?
    ensures x != t.data ==> Remove(t, x).0.Node? && Remove(t, x).0.data == t.data
    ensures x == t.data ==> Remove(t, x).1
  {
  }

  /** A removal refreshes the kernel timer exactly when it took the top, or the heap was empty. */
  lemma {:induction false} RemoveRefreshes(b: Container, x: Rankable)
    ensures var rest := b.(heap := Remove(b.heap, x).0);
      ProcRemove(b, x) == if b.heap.Nil? || x == b.heap.data then UpdateSoonestTime(rest, None) else rest
  {
    if b.heap.Node? {
      RemoveKeepsTop(b.heap, x);
    }
  }

  /** A removal keeps the top watched, and watches it anew when it took the old top. */
  lemma {:induction false} RemoveKeepsWatch(b: Container, x: Rankable)
    requires AllPositive(b.heap)
    ensures ProcRemove(b, x).heap == Remove(b.heap, x).0
    ensures Watched(b) ==> Watched(ProcRemove(b, x))
    ensures Watched(ProcRemove(b, x)) || (b.heap.Node? && ProcRemove(b, x) == b.(heap := Remove(b.heap, x).0))
  {
    var rest := b.(heap := Remove(b.heap, x).0);
    RemoveRefreshes(b, x);
    if b.heap.Nil? || x == b.heap.data {
      assert AllPositive(rest.heap) by { RemovedPositive(b.heap, x); }
      RefreshWatches(rest);
    } else {
      RemoveKeepsTop(b.heap, x);
    }
  }
}
