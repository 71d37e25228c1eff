/** What every step of the timer service keeps. Each part is a predicate of the state components it concerns. */
module TimerInvariant {
  import opened Wrappers
  import opened Ranking
  import opened HeapTree
  import opened TimerContainer
  import opened TimerService

  // ----- The parts -----

  /** A client's mTimer and a delegate's mClient point at each other; a delegate without client has ended exactly once. */
  ghost predicate Links(clients: map<nat, Client>, ds: map<nat, Delegate>) {
    && (forall c :: c in clients ==> ClientLinked(clients[c], c, ds))
    && (forall d :: d in ds ==> DelegateLinked(ds[d], d, clients))
  }

  predicate ClientLinked(x: Client, c: nat, ds: map<nat, Delegate>) {
    x.timer.Some? ==> x.phase.Alive? && x.timer.value in ds && ds[x.timer.value].client == Some(c)
  }

  predicate DelegateLinked(x: Delegate, d: nat, clients: map<nat, Client>) {
    && x.lock in clients
    && (x.client.Some? ==> x.client.value == x.lock && clients[x.lock].timer == Some(d) && !x.freed)
    && x.container == (if x.client.Some? then Some(x.kind) else None)
    && x.ended.stops + x.ended.cancels + x.ended.fires == (if x.client.Some? then 0 else 1)
    && Normal(x.due)
  }

  /** Where the delegates of one kind are: in a Push message, in the heap, popped, or in a Remove message. */
  ghost predicate Placed(k: Kind, ds: map<nat, Delegate>, q: seq<Msg>, bag: multiset<Rankable>, cur: Option<nat>) {
    && (forall i :: 0 <= i < |q| && q[i].kind == k ==> MsgPlaced(q, i, ds, bag, cur))
    && (forall x :: x in bag ==> bag[x] == 1 && Owns(ds, k, x.addr) && x.due == ds[x.addr].due)
    && (cur.Some? ==> Owns(ds, k, cur.value) && Rankable(cur.value, ds[cur.value].due) !in bag)
    && (forall d :: d in ds && ds[d].kind == k ==> Tracked(ds[d], d, q, bag, cur))
  }

  predicate Owns(ds: map<nat, Delegate>, k: Kind, d: nat) {
    d in ds && !ds[d].freed && ds[d].kind == k
  }

  /** One Push, ahead of at most one Remove; neither before its time nor for a deleted delegate. */
  ghost predicate MsgPlaced(q: seq<Msg>, i: nat, ds: map<nat, Delegate>, bag: multiset<Rankable>, cur: Option<nat>)
    requires i < |q|
  {
    match q[i]
    case MsgPush(k, d) =>
      && Owns(ds, k, d) && Rankable(d, ds[d].due) !in bag && cur != Some(d)
      && (forall j :: i < j < |q| ==> q[j] != MsgPush(k, d))
    case MsgRemove(k, d) =>
      && Owns(ds, k, d) && ds[d].client.None?
      && (forall j :: i < j < |q| ==> q[j] != MsgPush(k, d) && q[j] != MsgRemove(k, d))
    case MsgExpire(_) => true
  }

  /** A running delegate is on its way to the heap, in it or just popped; an ended one awaits its Remove. */
  predicate Tracked(x: Delegate, d: nat, q: seq<Msg>, bag: multiset<Rankable>, cur: Option<nat>) {
    && (x.client.Some? ==> MsgPush(x.kind, d) in q || Rankable(d, x.due) in bag || cur == Some(d))
    && (x.client.None? && !x.freed ==> MsgRemove(x.kind, d) in q)
  }

  function Holders(ds: map<nat, Delegate>, c: nat): set<nat> {
    set d | d in ds && !ds[d].freed && ds[d].lock == c
  }

  /** A shared lock counts its LocTimer, until deleted, and its undeleted delegates; it is deleted at zero. */
  ghost predicate Counted(clients: map<nat, Client>, locks: map<nat, Lock>, ds: map<nat, Delegate>) {
    && locks.Keys == clients.Keys
    && (forall c :: c in clients ==>
          && locks[c].ref == (if clients[c].phase.Dead? then 0 else 1) + |Holders(ds, c)|
          && (locks[c].freed <==> locks[c].ref == 0))
  }

  /** Someone will see to a nonempty heap: a queued Expire, the poll thread, the worker, or the kernel timer. */
  ghost predicate Awaited(k: Kind, b: Container, q: seq<Msg>, poll: Poll, worker: Worker) {
    || MsgExpire(k) in q
    || (poll.Handling? && k in poll.todo)
    || (worker.Draining? && worker.kind == k)
    || Watched(b)
  }

  predicate PollOk(poll: Poll) {
    poll.Handling? ==> poll.todo != [] && forall i, j :: 0 <= i < j < |poll.todo| ==> poll.todo[i] != poll.todo[j]
  }

  /** What one Expire message popped: in order, all but the first due, none later than what is left. */
  ghost predicate Drained(p: seq<Rankable>, now: Timespec, bag: multiset<Rankable>) {
    && (forall i, j :: 0 <= i < j < |p| ==> p[i].due.sec <= p[j].due.sec)
    && (forall i :: 1 <= i < |p| ==> p[i].due.sec <= now.sec)
    && (p != [] ==> forall x :: x in bag ==> p[|p| - 1].due.sec <= x.due.sec)
  }

  /** The popped delegate is the last one popped, and the clock has not gone back since the message was taken up. */
  predicate CurIsLast(worker: Worker, ds: map<nat, Delegate>, clock: Timespec) {
    worker.Draining? ==>
      && worker.drained != [] && Normal(worker.now) && NoLater(worker.now, clock)
      && (worker.cur.Some? ==>
            worker.cur.value in ds && worker.drained[|worker.drained| - 1] == Rankable(worker.cur.value, ds[worker.cur.value].due))
  }

  // ----- The whole -----

  ghost function Bag(s: State, k: Kind): multiset<Rankable> {
    Contents(s.Box(k).heap)
  }

  function Cur(worker: Worker, k: Kind): Option<nat> {
    if worker.Draining? && worker.kind == k then worker.cur else None
  }

  ghost predicate BoxInv(s: State, k: Kind) {
    && Wf(s.Box(k).heap)
    && Placed(k, s.delegates, s.queue, Bag(s, k), Cur(s.worker, k))
    && Awaited(k, s.Box(k), s.queue, s.poll, s.worker)
  }

  ghost predicate Inv(s: State) {
    && !s.fault && Normal(s.clock)
    && Links(s.clients, s.delegates)
    && Counted(s.clients, s.locks, s.delegates)
    && BoxInv(s, Sw) && BoxInv(s, Hw)
    && PollOk(s.poll)
    && CurIsLast(s.worker, s.delegates, s.clock)
    && (s.worker.Draining? ==> Drained(s.worker.drained, s.worker.now, Bag(s, s.worker.kind)))
  }
}
