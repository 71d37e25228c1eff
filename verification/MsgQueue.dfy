/** The blocking message queue of gps/utils/msg_q.c over the linked list, and its behaviour over whole runs. */
module MsgQueue {
  import opened Wrappers
  import opened LinkedList

  // ----- What each call does under the mutex -----

  /** A queue as a value: the items, oldest first, and whether it was unblocked. */
  datatype Queue = Queue(items: seq<Item>, unblocked: bool)

  /** How far a receiver gets: it goes to sleep on the condition variable, or returns, perhaps with a message. */
  datatype Outcome = Sleeps | Returns(rv: Err, msg: Option<Ptr>)

  function SndSpec(q: Queue, m: Item): (Err, Queue) {
    if m.data == NULL then (InvalidParameter, q)
    else if q.unblocked then (UnavailableResource, q)
    else (Success, q.(items := q.items + [m]))
  }

  /** The wait loop and what follows it, each time the receiver holds the mutex. */
  function LoopSpec(q: Queue): (Outcome, Queue) {
    if q.items == [] then (if q.unblocked then Returns(UnavailableResource, None) else Sleeps, q)
    else (Returns(Success, Some(q.items[0].data)), q.(items := q.items[1..]))
  }

  function RcvSpec(q: Queue): (Outcome, Queue) {
    if q.unblocked then (Returns(UnavailableResource, None), q) else LoopSpec(q)
  }

  function FlushSpec(q: Queue): (seq<Item>, Queue) {
    (Deallocs(q.items), q.(items := []))
  }

  function UnblockSpec(q: Queue): (Err, Queue) {
    (if q.unblocked then UnavailableResource else Success, q.(unblocked := true))
  }

  // ----- The queue as an object -----

  class MsgQ {
    const msgList: List
    var unblocked: bool

    ghost predicate Valid()
      reads this, msgList, msgList.elems
    {
      msgList.Valid()
    }

    ghost function View(): Queue
      reads this, msgList
    {
      Queue(msgList.items, unblocked)
    }

    /** The list has no element but those it had and new ones. */
    twostate predicate Grown()
      reads this, msgList
    {
      forall i :: 0 <= i < |msgList.elems| ==> msgList.elems[i] in old(msgList.elems) || fresh(msgList.elems[i])
    }

    constructor ()
      ensures Valid() && fresh(msgList) && msgList.elems == [] && View() == Queue([], false)
    {
      msgList := new List();
      unblocked := false;
    }

    method Snd(msg: Ptr, dealloc: Ptr) returns (rv: Err)
      requires Valid()
      modifies msgList, msgList.elems
      ensures Valid() && Grown()
      ensures (rv, View()) == SndSpec(old(View()), Item(msg, dealloc))
      ensures msg != NULL && !unblocked ==> rv == Success && msgList.items == old(msgList.items) + [Item(msg, dealloc)]
      ensures msg == NULL ==> rv == InvalidParameter && msgList.items == old(msgList.items)
      ensures msg != NULL && unblocked ==> rv == UnavailableResource && msgList.items == old(msgList.items)
    {
      if msg == NULL {
        return InvalidParameter;
      }
      if unblocked {
        return UnavailableResource;
      }
      rv := msgList.Add(msg, dealloc);
    }

    /** msg_q_rcv up to where it first waits or returns. It sleeps exactly on an empty queue that is not unblocked,
        and a message it returns is the oldest. */
    method RcvEnter() returns (out: Outcome)
      requires Valid()
      modifies msgList, msgList.elems
      ensures Valid() && Grown()
      ensures (out, View()) == RcvSpec(old(View()))
      ensures out.Sleeps? <==> old(msgList.items) == [] && !unblocked
      ensures old(msgList.items) != [] && !unblocked ==>
        out == Returns(Success, Some(old(msgList.items)[0].data)) && msgList.items == old(msgList.items)[1..]
      ensures unblocked ==> out == Returns(UnavailableResource, None) && msgList.items == old(msgList.items)
    {
      if unblocked {
        return Returns(UnavailableResource, None);
      }
      out := RcvLoop();
    }

    /** The test of the wait loop and, past it, the removal: on entry, and after every wakeup. */
    method RcvLoop() returns (out: Outcome)
      requires Valid()
      modifies msgList, msgList.elems
      ensures Valid() && Grown()
      ensures (out, View()) == LoopSpec(old(View()))
      ensures old(msgList.items) != [] ==>
        out == Returns(Success, Some(old(msgList.items)[0].data)) && msgList.items == old(msgList.items)[1..]
      ensures old(msgList.items) == [] ==> out == if unblocked then Returns(UnavailableResource, None) else Sleeps
    {
      var empty := msgList.Empty();
      if empty && !unblocked {
        return Sleeps;
      }
      var rv, msg := msgList.Remove();
      out := Returns(rv, msg);
    }

    method Flush() returns (calls: seq<Item>)
      requires Valid()
      modifies msgList
      ensures Valid() && Grown()
      ensures (calls, View()) == FlushSpec(old(View()))
      ensures msgList.items == [] && calls == Deallocs(old(msgList.items))
    {
      calls := msgList.Flush();
    }

    method Unblock() returns (rv: Err)
      requires Valid()
      modifies this
      ensures Valid() && Grown()
      ensures (rv, View()) == UnblockSpec(old(View()))
      ensures unblocked && msgList.items == old(msgList.items) && rv == if old(unblocked) then UnavailableResource else Success
    {
      if unblocked {
        return UnavailableResource;
      }
      unblocked := true;
      return Success;
    }
  }

  // ----- Runs of many threads -----

  /**
   What threads do while they hold the queue's mutex. A send signals the condition variable, which wakes one
   sleeper if there is any; unblocking wakes them all; and a sleeper may wake for no reason. A woken receiver
   goes through the test of its loop again.
   */
  datatype Op = Snd(m: Item, wakes: nat) | RcvEnter(thread: nat) | RcvLoop(thread: nat) | Spurious(thread: nat) | Flush | Unblock

  /**
   sleeping: the receivers on the condition variable. woken: those to go on, which wait for the mutex. sent: the
   items accepted so far. gone: the items that left, by receipt or flush. received: the messages handed out.
   freed: the deallocator calls of flushes.
   */
  datatype State = State(q: Queue, sleeping: set<nat>, woken: set<nat>, sent: seq<Item>, gone: seq<Item>, received: seq<Ptr>, freed: seq<Item>)

  predicate Init(s: State) {
    s == State(Queue([], false), {}, {}, [], [], [], [])
  }

  predicate Enabled(s: State, op: Op) {
    match op
    case Snd(_, t) => s.sleeping == {} || t in s.sleeping
    case RcvEnter(t) => t !in s.sleeping && t !in s.woken
    case RcvLoop(t) => t in s.woken
    case Spurious(t) => t in s.sleeping
    case _ => true
  }

  function Wake(s: State, ts: set<nat>): State {
    s.(sleeping := s.sleeping - ts, woken := s.woken + (s.sleeping * ts))
  }

  /** A receiver gets as far as out says, leaving queue q. */
  function Receive(s: State, t: nat, out: Outcome, q: Queue): State {
    match out
    case Sleeps => s.(sleeping := s.sleeping + {t}, woken := s.woken - {t})
    case Returns(_, None) => s.(woken := s.woken - {t})
    case Returns(_, Some(msg)) =>
      s.(woken := s.woken - {t}, q := q, gone := s.gone + (if s.q.items == [] then [] else [s.q.items[0]]), received := s.received + [msg])
  }

  function Apply(s: State, op: Op): State {
    match op
    case Snd(m, t) =>
      var (rv, q) := SndSpec(s.q, m);
      if rv == Success then Wake(s, {t}).(q := q, sent := s.sent + [m]) else s
    case RcvEnter(t) => Receive(s, t, RcvSpec(s.q).0, RcvSpec(s.q).1)
    case RcvLoop(t) => Receive(s, t, LoopSpec(s.q).0, LoopSpec(s.q).1)
    case Spurious(t) => Wake(s, {t})
    case Flush => s.(q := FlushSpec(s.q).1, gone := s.gone + s.q.items, freed := s.freed + FlushSpec(s.q).0)
    case Unblock => Wake(s, s.sleeping).(q := UnblockSpec(s.q).1)
  }

  predicate Run(s: State, ops: seq<Op>, t: State)
    decreases ops
  {
    if ops == [] then s == t else Enabled(s, ops[0]) && Run(Apply(s, ops[0]), ops[1..], t)
  }

  predicate NoFlush(ops: seq<Op>) {
    forall i :: 0 <= i < |ops| ==> !ops[i].Flush?
  }

  function Data(items: seq<Item>): seq<Ptr> {
    seq(|items|, i requires 0 <= i < |items| => items[i].data)
  }

  /** A message is accepted exactly if it is not NULL and the queue is not unblocked, however much is queued. */
  lemma SendAccepted(s: State, m: Item, t: nat)
    requires Enabled(s, Snd(m, t))
    ensures var u := Apply(s, Snd(m, t));
      if m.data != NULL && !s.q.unblocked
      then u.q == Queue(s.q.items + [m], false) && u.sent == s.sent + [m] && u.received == s.received && u.freed == s.freed
      else u == s
  {
  }

  /** Unblocking unblocks, wakes everybody and loses nothing. */
  lemma UnblockUnblocks(s: State)
    ensures var u := Apply(s, Unblock);
      u.q == Queue(s.q.items, true) && u.sleeping == {} && u.woken == s.woken + s.sleeping && u.received == s.received
  {
  }

  /** Over any run, what left the queue followed by what is in it is what was accepted, in that order. */
  lemma {:induction false} NothingLost(s: State, ops: seq<Op>, t: State)
    requires s.sent == s.gone + s.q.items && Run(s, ops, t)
    ensures t.sent == t.gone + t.q.items
    decreases ops
  {
    if ops != [] {
      NothingLost(Apply(s, ops[0]), ops[1..], t);
    }
  }

  lemma StepInOrder(s: State, op: Op)
    requires s.received + Data(s.q.items) == Data(s.sent) && !op.Flush?
    ensures var u := Apply(s, op); u.received + Data(u.q.items) == Data(u.sent)
  {
    if s.q.items != [] {
      assert Data(s.q.items) == [s.q.items[0].data] + Data(s.q.items[1..]);
    }
    if op.Snd? {
      assert Data(s.q.items + [op.m]) == Data(s.q.items) + [op.m.data];
      assert Data(s.sent + [op.m]) == Data(s.sent) + [op.m.data];
    }
  }

  /** Over any run without flush, the messages received followed by those queued are those accepted, in order. */
  lemma {:induction false} FirstInFirstOut(s: State, ops: seq<Op>, t: State)
    requires s.received + Data(s.q.items) == Data(s.sent) && Run(s, ops, t) && NoFlush(ops)
    ensures t.received + Data(t.q.items) == Data(t.sent)
    decreases ops
  {
    hide Apply, Data;
    if ops != [] {
      assert !ops[0].Flush?;
      StepInOrder(s, ops[0]);
      FirstInFirstOut(Apply(s, ops[0]), ops[1..], t);
    }
  }

  // ----- Nobody is left asleep -----

  /** While anybody sleeps the queue is not unblocked, and for every message there is a woken receiver. */
  ghost predicate Awake(s: State) {
    && s.sleeping !! s.woken
    && (s.sleeping != {} ==> !s.q.unblocked && |s.q.items| <= |s.woken|)
  }

  /** Waking one sleeper. */
  lemma WakeAwake(s: State, t: nat)
    requires s.sleeping !! s.woken && t in s.sleeping
    ensures var u := Wake(s, {t}); u.sleeping !! u.woken && |u.woken| == |s.woken| + 1 && u.q == s.q
  {
    assert s.sleeping * {t} == {t};
  }

  lemma ReceiveAwake(s: State, t: nat)
    requires Awake(s) && t !in s.sleeping
    ensures t in s.woken ==> Awake(Receive(s, t, LoopSpec(s.q).0, LoopSpec(s.q).1))
    ensures t !in s.woken ==> Awake(Receive(s, t, RcvSpec(s.q).0, RcvSpec(s.q).1))
  {
    assert |s.woken - {t}| == |s.woken| - if t in s.woken then 1 else 0;
  }

  lemma StepAwake(s: State, op: Op)
    requires Awake(s) && Enabled(s, op)
    ensures Awake(Apply(s, op))
  {
    hide Receive, LoopSpec, RcvSpec;
    match op {
      case Snd(m, t) =>
        if t in s.sleeping {
          hide Wake;
          WakeAwake(s, t);
        }
      case RcvEnter(t) => ReceiveAwake(s, t);
      case RcvLoop(t) => ReceiveAwake(s, t);
      case Spurious(t) => hide Wake; WakeAwake(s, t);
      case Flush =>
      case Unblock =>
    }
  }

  lemma {:induction false} RunAwake(s: State, ops: seq<Op>, t: State)
    requires Awake(s) && Run(s, ops, t)
    ensures Awake(t)
    decreases ops
  {
    hide Awake, Apply, Enabled;
    if ops != [] {
      StepAwake(s, ops[0]);
      RunAwake(Apply(s, ops[0]), ops[1..], t);
    }
  }

  /**
   In no run does a receiver sleep while there is a message and no woken receiver to take it, or once the
   queue is unblocked. So when no woken receiver is left, sleepers mean an empty queue.
   */
  lemma {:induction false} NobodyLeftAsleep(s: State, ops: seq<Op>, t: State)
    requires Init(s) && Run(s, ops, t) && t.sleeping != {}
    ensures !t.q.unblocked && |t.q.items| <= |t.woken|
    ensures t.woken == {} ==> t.q.items == []
  {
    RunAwake(s, ops, t);
  }

  lemma StepUnblocked(s: State, op: Op)
    requires s.q.unblocked && s.sleeping == {} && Enabled(s, op)
    ensures var t := Apply(s, op);
      t.q.unblocked && t.sent == s.sent && t.sleeping == {} && t.woken <= s.woken && |t.received| + |t.woken| <= |s.received| + |s.woken|
  {
    if op.RcvLoop? {
      assert |s.woken - {op.thread}| == |s.woken| - 1;
    } else if op.RcvEnter? {
      assert s.woken - {op.thread} == s.woken;
    }
  }

  /**
   After unblock every later send and receive fails: nothing more is accepted, no receiver joins, nobody sleeps,
   and only the receivers that were inside already may each still take one message.
   */
  lemma {:induction false} UnblockIsFinal(s: State, ops: seq<Op>, t: State)
    requires Awake(s) && s.q.unblocked && Run(s, ops, t)
    ensures t.q.unblocked && t.sent == s.sent && t.sleeping == {} && t.woken <= s.woken
    ensures |t.received| + |t.woken| <= |s.received| + |s.woken|
    decreases ops
  {
    hide Apply, Enabled;
    if ops != [] {
      StepUnblocked(s, ops[0]);
      StepAwake(s, ops[0]);
      UnblockIsFinal(Apply(s, ops[0]), ops[1..], t);
    }
  }

  /** A flush calls the deallocator of each queued item that has one, once, and of no other. */
  lemma {:induction false} FlushFreesEach(items: seq<Item>)
    ensures forall m :: multiset(Deallocs(items))[m] == if m.dealloc == NULL then 0 else multiset(items)[m]
  {
    if items != [] {
      var n := |items| - 1;
      FlushFreesEach(items[..n]);
      assert items == items[..n] + [items[n]];
      assert multiset(items) == multiset(items[..n]) + multiset{items[n]};
      var rest := Deallocs(items[..n]);
      assert multiset([items[n]] + rest) == multiset{items[n]} + multiset(rest);
    }
  }
}
