/**
 The timer service of gps/utils/LocTimer.cpp as a transition system. Client threads start, stop and
 delete LocTimer objects; one worker thread (MsgTask) takes messages off a FIFO queue; one poll thread
 waits in epoll. Each section under a shared lock, each atomic counter operation, each message proc()
 and each kernel call of the poll thread is one step. The Expire message is several steps, so client
 threads run in between its pops and callbacks.
 */
module TimerService {
  import opened Wrappers
  import opened Ranking
  import opened HeapTree
  import opened TimerContainer

  /** Sw: timers, Hw: alarms that wake the CPU. There is one container of each. */
  datatype Kind = Sw | Hw

  /** A LocTimer object: usable; past the stop() of its destructor; deleted. */
  datatype Phase = Alive | Closing | Dead

  /** timer is mTimer, the running delegate if any. */
  datatype Client = Client(phase: Phase, timer: Option<nat>)

  /** A LocSharedLock and its mRef. */
  datatype Lock = Lock(ref: int, freed: bool)

  /** How a timer ended: stop() by the client, stop() inside the destructor, timeOutCallback(). */
  datatype Outcomes = Outcomes(stops: nat, cancels: nat, fires: nat)

  /** A LocTimerDelegate. lock and kind never change; ended counts outcomes and is not in the code. */
  datatype Delegate = Delegate(client: Option<nat>, lock: nat, due: Timespec, kind: Kind,
                               container: Option<Kind>, freed: bool, ended: Outcomes)

  datatype Msg = MsgPush(kind: Kind, d: nat) | MsgRemove(kind: Kind, d: nat) | MsgExpire(kind: Kind)

  /** Where the poll thread is: in epoll_wait, or about to do a kernel call of expire() for todo[0]. */
  datatype Stage = Disarm | Unpoll | Send
  datatype Poll = Waiting | Handling(todo: seq<Kind>, stage: Stage)

  /** Where the worker is: between messages, or in an Expire message with cur popped (or expired already). */
  datatype Worker = Idle | Draining(kind: Kind, now: Timespec, cur: Option<nat>, drained: seq<Rankable>)

  /**
   Delegates and clients are named by ids that are never reused, and a deleted one keeps its entry.
   fault is set when a step touches or deletes something already deleted.
   */
  datatype State = State(clients: map<nat, Client>, locks: map<nat, Lock>, delegates: map<nat, Delegate>,
                         sw: Container, hw: Container, queue: seq<Msg>, poll: Poll, worker: Worker,
                         clock: Timespec, fault: bool)
  {
    function Box(k: Kind): Container {
      if k.Sw? then sw else hw
    }

    function SetBox(k: Kind, b: Container): State {
      if k.Sw? then this.(sw := b) else this.(hw := b)
    }

    function Enqueue(m: Msg): State {
      this.(queue := queue + [m])
    }
  }

  datatype Action =
    | NewTimer(c: nat)
    | Start(c: nat, d: nat, timeOutInMs: nat, k: Kind)
    | Stop(c: nat)
    | CloseStop(c: nat)
    | CloseDrop(c: nat)
    | Tick(t: Timespec)
    | PollWake(ready: seq<Kind>)
    | PollDisarm
    | PollUnpoll
    | PollSend
    | Work
    | ExpireCur
    | PopNext

  /** A step of the service's own threads, as opposed to client calls and the passing of time. */
  predicate Internal(a: Action) {
    a.PollWake? || a.PollDisarm? || a.PollUnpoll? || a.PollSend? || a.Work? || a.ExpireCur? || a.PopNext?
  }

  const NSEC_PER_SEC := 1_000_000_000

  predicate Normal(t: Timespec) {
    0 <= t.sec && 0 <= t.nsec < NSEC_PER_SEC && t != DISARM
  }

  /** A time in nanoseconds. */
  function Nanos(t: Timespec): int {
    t.sec * NSEC_PER_SEC + t.nsec
  }

  /** The deadline LocTimer::start computes. */
  function FutureTime(clock: Timespec, timeOutInMs: nat): Timespec {
    var sec := clock.sec + timeOutInMs / 1000;
    var nsec := clock.nsec + (timeOutInMs % 1000) * 1_000_000;
    if nsec >= NSEC_PER_SEC then Timespec(sec + nsec / NSEC_PER_SEC, nsec % NSEC_PER_SEC) else Timespec(sec, nsec)
  }

  predicate Init(s: State) {
    && s.clients == map[] && s.locks == map[] && s.delegates == map[]
    && s.sw == s.hw == Container(Nil, false, None)
    && s.queue == [] && s.poll == Waiting && s.worker == Idle && Normal(s.clock) && !s.fault
  }

  // ----- Touching objects -----

  predicate LiveClient(s: State, c: nat) {
    c in s.clients && !s.clients[c].phase.Dead?
  }

  predicate LiveLock(s: State, c: nat) {
    c in s.locks && !s.locks[c].freed
  }

  predicate LiveDelegate(s: State, d: nat) {
    d in s.delegates && !s.delegates[d].freed
  }

  /** Comparing ranks reads delegates in the heap; all of them count as touched. */
  ghost predicate LiveHeap(s: State, t: Tree) {
    forall x :: x in Contents(t) ==> LiveDelegate(s, x.addr)
  }

  function Fault(s: State): State {
    s.(fault := true)
  }

  function AsRankable(s: State, d: nat): Rankable
    requires d in s.delegates
  {
    Rankable(d, s.delegates[d].due)
  }

  // ----- Enabled steps -----

  ghost predicate Enabled(s: State, a: Action) {
    match a
    case NewTimer(c) => c !in s.clients
    case Start(c, d, _, _) => c in s.clients && s.clients[c].phase.Alive? && d !in s.delegates
    case Stop(c) => c in s.clients && s.clients[c].phase.Alive?
    case CloseStop(c) => c in s.clients && s.clients[c].phase.Alive?
    case CloseDrop(c) => c in s.clients && s.clients[c].phase.Closing?
    case Tick(t) => NoLater(s.clock, t) && Normal(t)
    case PollWake(ready) => s.poll.Waiting? && ready != [] && CanWake(s, ready)
    case PollDisarm => s.poll.Handling? && s.poll.stage.Disarm? && s.poll.todo != []
    case PollUnpoll => s.poll.Handling? && s.poll.stage.Unpoll? && s.poll.todo != []
    case PollSend => s.poll.Handling? && s.poll.stage.Send? && s.poll.todo != []
    case Work => s.worker.Idle? && s.queue != []
    case ExpireCur => s.worker.Draining? && s.worker.cur.Some?
    case PopNext => s.worker.Draining? && s.worker.cur.None?
  }

  /** epoll_wait may return these containers: each is polled and readable, none twice. */
  predicate CanWake(s: State, ready: seq<Kind>) {
    && (forall i :: 0 <= i < |ready| ==> s.Box(ready[i]).polled && Readable(s.Box(ready[i]), s.clock))
    && (forall i, j :: 0 <= i < j < |ready| ==> ready[i] != ready[j])
  }

  // ----- Client steps -----

  /** LocTimer::start */
  function DoStart(s: State, c: nat, d: nat, timeOutInMs: nat, k: Kind): State
    requires c in s.clients
  {
    if !LiveLock(s, c) then Fault(s)
    else if s.clients[c].timer.Some? then s
    else
      var due := FutureTime(s.clock, timeOutInMs);
      s.(clients := s.clients[c := s.clients[c].(timer := Some(d))],
         locks := s.locks[c := s.locks[c].(ref := s.locks[c].ref + 1)],
         delegates := s.delegates[d := Delegate(Some(c), c, due, k, Some(k), false, Outcomes(0, 0, 0))],
         queue := s.queue + [MsgPush(k, d)])
  }

  /** LocTimer::stop with destroyLocked: the delegate it stopped, if any (success), and the new state. */
  function DoStop(s: State, c: nat): (r: (Option<nat>, State))
    ensures r.0.Some? ==> r.0.value in r.1.delegates
  {
    if !LiveClient(s, c) || !LiveLock(s, c) then (None, Fault(s))
    else if s.clients[c].timer.None? then (None, s)
    else
      var d := s.clients[c].timer.value;
      if !LiveDelegate(s, d) then (None, Fault(s))
      else
        var cleared := s.(clients := s.clients[c := s.clients[c].(timer := None)],
                          delegates := s.delegates[d := s.delegates[d].(client := None, container := None)]);
        var container := s.delegates[d].container;
        (Some(d), if container.Some? then cleared.Enqueue(MsgRemove(container.value, d)) else cleared)
  }

  datatype How = ByStop | ByDestructor | ByCallback

  function Ended(e: Outcomes, how: How): Outcomes {
    match how
    case ByStop => e.(stops := e.stops + 1)
    case ByDestructor => e.(cancels := e.cancels + 1)
    case ByCallback => e.(fires := e.fires + 1)
  }

  /** stop() on a client, recording how the timer it stopped came to its end. */
  function StopAs(s: State, c: nat, how: How): State {
    var (stopped, s1) := DoStop(s, c);
    if stopped.None? then s1
    else
      var d := stopped.value;
      s1.(delegates := s1.delegates[d := s1.delegates[d].(ended := Ended(s1.delegates[d].ended, how))])
  }

  /** The stop() in ~LocTimer, after which its owner does not use the object any more. */
  function StopByDestructor(s: State, c: nat): State {
    var s1 := StopAs(s, c, ByDestructor);
    if c in s1.clients then s1.(clients := s1.clients[c := s1.clients[c].(phase := Closing)]) else s1
  }

  /** LocSharedLock::drop */
  function DropLock(s: State, c: nat): State {
    if !LiveLock(s, c) then Fault(s)
    else
      var ref := s.locks[c].ref;
      s.(locks := s.locks[c := Lock(ref - 1, ref == 1)])
  }

  // ----- Worker steps -----

  /** delete mTimer: the destructor drops the shared lock. */
  function DeleteDelegate(s: State, d: nat): State {
    if !LiveDelegate(s, d) then Fault(s)
    else DropLock(s.(delegates := s.delegates[d := s.delegates[d].(freed := true)]), s.delegates[d].lock)
  }

  ghost function WorkPush(s: State, k: Kind, d: nat): State {
    if !LiveDelegate(s, d) || !LiveHeap(s, s.Box(k).heap) then Fault(s)
    else s.SetBox(k, ProcPush(s.Box(k), AsRankable(s, d)))
  }

  ghost function WorkRemove(s: State, k: Kind, d: nat): State {
    if !LiveDelegate(s, d) || !LiveHeap(s, s.Box(k).heap) then Fault(s)
    else DeleteDelegate(s.SetBox(k, ProcRemove(s.Box(k), AsRankable(s, d))), d)
  }

  /** The part of the Expire loop that pops: the first pop is unconditional, later ones ask the clock read at the start. */
  ghost function PopOrFinish(s: State, k: Kind, now: Timespec, drained: seq<Rankable>): State {
    var b := s.Box(k);
    if !LiveHeap(s, b.heap) then Fault(s)
    else if b.heap.Node? && (drained == [] || TopIsDue(b.heap, now)) then
      s.SetBox(k, b.(heap := Pop(b.heap))).(worker := Draining(k, now, Some(b.heap.data.addr), drained + [b.heap.data]))
    else
      s.SetBox(k, UpdateSoonestTime(b, None)).(worker := Idle)
  }

  ghost function DoWork(s: State): State
    requires s.queue != []
  {
    var s1 := s.(queue := s.queue[1..]);
    match s.queue[0]
    case MsgPush(k, d) => WorkPush(s1, k, d)
    case MsgRemove(k, d) => WorkRemove(s1, k, d)
    case MsgExpire(k) => PopOrFinish(s1, k, s.clock, [])
  }

  /** LocTimerDelegate::expire on the popped delegate: stop its client's timer and, if that worked, call back. */
  function DoExpire(s: State): State
    requires s.worker.Draining? && s.worker.cur.Some?
  {
    var d := s.worker.cur.value;
    var s1 := s.(worker := s.worker.(cur := None));
    if !LiveDelegate(s, d) then Fault(s1)
    else if s.delegates[d].client.None? then s1
    else StopAs(s1, s.delegates[d].client.value, ByCallback)
  }

  // ----- The transition function -----

  ghost function Apply(s: State, a: Action): State
    requires Enabled(s, a)
  {
    match a
    case NewTimer(c) => s.(clients := s.clients[c := Client(Alive, None)], locks := s.locks[c := Lock(1, false)])
    case Start(c, d, ms, k) => DoStart(s, c, d, ms, k)
    case Stop(c) => StopAs(s, c, ByStop)
    case CloseStop(c) => StopByDestructor(s, c)
    case CloseDrop(c) => DropLock(s.(clients := s.clients[c := s.clients[c].(phase := Dead)]), c)
    case Tick(t) => s.(clock := t)
    case PollWake(ready) => s.(poll := Handling(ready, Disarm))
    case PollDisarm => s.SetBox(s.poll.todo[0], SetTime(s.Box(s.poll.todo[0]), DISARM)).(poll := s.poll.(stage := Unpoll))
    case PollUnpoll => s.SetBox(s.poll.todo[0], s.Box(s.poll.todo[0]).(polled := false)).(poll := s.poll.(stage := Send))
    case PollSend =>
      s.Enqueue(MsgExpire(s.poll.todo[0]))
       .(poll := if |s.poll.todo| > 1 then Handling(s.poll.todo[1..], Disarm) else Waiting)
    case Work => DoWork(s)
    case ExpireCur => DoExpire(s)
    case PopNext => PopOrFinish(s, s.worker.kind, s.worker.now, s.worker.drained)
  }

  /** as takes the service from s to t, one enabled step at a time. */
  ghost predicate Run(s: State, acts: seq<Action>, t: State)
    decreases acts
  {
    if acts == [] then s == t
    else Enabled(s, acts[0]) && Run(Apply(s, acts[0]), acts[1..], t)
  }

  ghost predicate Reachable(s: State) {
    exists s0: State, acts: seq<Action> :: Init(s0) && Run(s0, acts, s)
  }
}
