/**
 A timer can be called back before its time. Removing the last timer leaves the kernel timer set, so a
 later, unrelated timer is taken out by the unconditional first pop of the Expire message it causes.
 */
module TimerEarly {
  import opened Wrappers
  import opened Ranking
  import opened HeapTree
  import opened TimerContainer
  import opened TimerService

  const T0 := Timespec(1, 0)
  const T1 := Timespec(2, 0)
  const FAR := Timespec(101, 0)
  const UNUSED := Container(Nil, false, None)

  /** Client 0 with lock count ref and running delegate t. */
  function At(t: Option<nat>, ref: int, ds: map<nat, Delegate>, sw: Container, q: seq<Msg>, poll: Poll, w: Worker, clock: Timespec): State {
    State(map[0 := Client(Alive, t)], map[0 := Lock(ref, false)], ds, sw, UNUSED, q, poll, w, clock, false)
  }

  function Running(due: Timespec): Delegate {
    Delegate(Some(0), 0, due, Sw, Some(Sw), false, Outcomes(0, 0, 0))
  }

  const STOPPED := Delegate(None, 0, T1, Sw, None, false, Outcomes(1, 0, 0))
  const DELETED := STOPPED.(freed := true)
  const FIRED := Delegate(None, 0, FAR, Sw, None, false, Outcomes(0, 0, 1))
  const OLD := Container(Leaf(Rankable(0, T1)), true, Some(T1))
  const STALE := Container(Nil, true, Some(T1))
  const NEXT := Rankable(1, FAR)

  /** The delegates once the second timer runs. */
  const BOTH: map<nat, Delegate> := map[0 := DELETED, 1 := Running(FAR)]

  /** One more step at the end of a run. */
  lemma {:induction false} RunThen(s: State, acts: seq<Action>, t: State, a: Action)
    requires Run(s, acts, t) && Enabled(t, a)
    ensures Run(s, acts + [a], Apply(t, a))
    decreases acts
  {
    hide Apply, Enabled;
    if acts == [] {
      assert (acts + [a])[1..] == [];
      assert Run(Apply(s, a), [], Apply(t, a));
    } else {
      RunThen(Apply(s, acts[0]), acts[1..], t, a);
      assert (acts + [a])[1..] == acts[1..] + [a];
    }
  }

  lemma Then(s: State, a: Action, t: State)
    requires Reachable(s) && Enabled(s, a) && Apply(s, a) == t
    ensures Reachable(t)
  {
    hide Apply, Enabled;
    var s0: State, acts: seq<Action> :| Init(s0) && Run(s0, acts, s);
    RunThen(s0, acts, s, a);
  }

  // A one-second timer starts and is watched; it is stopped and deleted, but the kernel timer stays set.

  lemma Step1()
    ensures Reachable(At(None, 1, map[], UNUSED, [], Waiting, Idle, T0))
  {
    var s0 := State(map[], map[], map[], UNUSED, UNUSED, [], Waiting, Idle, T0, false);
    assert Init(s0) && Run(s0, [], s0);
    Then(s0, NewTimer(0), At(None, 1, map[], UNUSED, [], Waiting, Idle, T0));
  }

  lemma Step2()
    ensures Reachable(At(Some(0), 2, map[0 := Running(T1)], UNUSED, [MsgPush(Sw, 0)], Waiting, Idle, T0))
  {
    Step1();
    Then(At(None, 1, map[], UNUSED, [], Waiting, Idle, T0), Start(0, 0, 1000, Sw),
         At(Some(0), 2, map[0 := Running(T1)], UNUSED, [MsgPush(Sw, 0)], Waiting, Idle, T0));
  }

  lemma Step3()
    ensures Reachable(At(Some(0), 2, map[0 := Running(T1)], OLD, [], Waiting, Idle, T0))
  {
    Step2();
    Then(At(Some(0), 2, map[0 := Running(T1)], UNUSED, [MsgPush(Sw, 0)], Waiting, Idle, T0), Work,
         At(Some(0), 2, map[0 := Running(T1)], OLD, [], Waiting, Idle, T0));
  }

  lemma Step4()
    ensures Reachable(At(None, 2, map[0 := STOPPED], OLD, [MsgRemove(Sw, 0)], Waiting, Idle, T0))
  {
    Step3();
    Then(At(Some(0), 2, map[0 := Running(T1)], OLD, [], Waiting, Idle, T0), Stop(0),
         At(None, 2, map[0 := STOPPED], OLD, [MsgRemove(Sw, 0)], Waiting, Idle, T0));
  }

  lemma Step5()
    ensures Reachable(At(None, 1, map[0 := DELETED], STALE, [], Waiting, Idle, T0))
  {
    Step4();
    var s := At(None, 2, map[0 := STOPPED], OLD, [MsgRemove(Sw, 0)], Waiting, Idle, T0);
    assert Contents(OLD.heap) == multiset{Rankable(0, T1)};
    Then(s, Work, At(None, 1, map[0 := DELETED], STALE, [], Waiting, Idle, T0));
  }

  // A timer a hundred seconds away starts; a second later the stale kernel timer wakes the poll thread.

  lemma Step6()
    ensures Reachable(At(Some(1), 2, BOTH, STALE, [MsgPush(Sw, 1)], Waiting, Idle, T0))
  {
    Step5();
    Then(At(None, 1, map[0 := DELETED], STALE, [], Waiting, Idle, T0), Start(0, 1, 100_000, Sw),
         At(Some(1), 2, BOTH, STALE, [MsgPush(Sw, 1)], Waiting, Idle, T0));
  }

  lemma Step8()
    ensures Reachable(At(Some(1), 2, BOTH, STALE, [MsgPush(Sw, 1)], Handling([Sw], Disarm), Idle, T1))
  {
    Step6();
    var s7 := At(Some(1), 2, BOTH, STALE, [MsgPush(Sw, 1)], Waiting, Idle, T1);
    Then(At(Some(1), 2, BOTH, STALE, [MsgPush(Sw, 1)], Waiting, Idle, T0), Tick(T1), s7);
    assert CanWake(s7, [Sw]);
    Then(s7, PollWake([Sw]), s7.(poll := Handling([Sw], Disarm)));
  }

  lemma Step11()
    ensures Reachable(At(Some(1), 2, BOTH, UNUSED, [MsgPush(Sw, 1), MsgExpire(Sw)], Waiting, Idle, T1))
  {
    Step8();
    var s8 := At(Some(1), 2, BOTH, STALE, [MsgPush(Sw, 1)], Handling([Sw], Disarm), Idle, T1);
    var s9 := s8.(sw := Container(Nil, true, None), poll := Handling([Sw], Unpoll));
    Then(s8, PollDisarm, s9);
    var s10 := s9.(sw := UNUSED, poll := Handling([Sw], Send));
    Then(s9, PollUnpoll, s10);
    Then(s10, PollSend, At(Some(1), 2, BOTH, UNUSED, [MsgPush(Sw, 1), MsgExpire(Sw)], Waiting, Idle, T1));
  }

  // The worker pushes the new timer, then handles the Expire message, which takes it out again.

  lemma Step12()
    ensures Reachable(At(Some(1), 2, BOTH, Container(Leaf(NEXT), true, Some(FAR)), [MsgExpire(Sw)], Waiting, Idle, T1))
  {
    Step11();
    var s := At(Some(1), 2, BOTH, UNUSED, [MsgPush(Sw, 1), MsgExpire(Sw)], Waiting, Idle, T1);
    assert s.queue[1..] == [MsgExpire(Sw)];
    Then(s, Work, At(Some(1), 2, BOTH, Container(Leaf(NEXT), true, Some(FAR)), [MsgExpire(Sw)], Waiting, Idle, T1));
  }

  lemma Step13()
    ensures Reachable(At(Some(1), 2, BOTH, Container(Nil, true, Some(FAR)), [], Waiting, Draining(Sw, T1, Some(1), [NEXT]), T1))
  {
    Step12();
    var s := At(Some(1), 2, BOTH, Container(Leaf(NEXT), true, Some(FAR)), [MsgExpire(Sw)], Waiting, Idle, T1);
    assert Contents(Leaf(NEXT)) == multiset{NEXT};
    assert LiveHeap(s.(queue := []), Leaf(NEXT)) && s.queue[1..] == [] && [] + [NEXT] == [NEXT];
    Then(s, Work, At(Some(1), 2, BOTH, Container(Nil, true, Some(FAR)), [], Waiting, Draining(Sw, T1, Some(1), [NEXT]), T1));
  }

  /** A reachable state in which a popped timer still has its client. */
  lemma AboutToExpire() returns (s: State)
    ensures Reachable(s) && Enabled(s, ExpireCur) && s.worker.cur == Some(1) && 1 in s.delegates && s.delegates[1].client == Some(0)
  {
    Step13();
    s := At(Some(1), 2, BOTH, Container(Nil, true, Some(FAR)), [], Waiting, Draining(Sw, T1, Some(1), [NEXT]), T1);
  }

  /** A reachable state in which a timer had its callback ninety-nine seconds before its deadline. */
  lemma EarlyCallback() returns (s: State)
    ensures Reachable(s) && 1 in s.delegates && s.delegates[1].ended.fires == 1
    ensures s.clock.sec + 99 == s.delegates[1].due.sec
  {
    Step13();
    var s13 := At(Some(1), 2, BOTH, Container(Nil, true, Some(FAR)), [], Waiting, Draining(Sw, T1, Some(1), [NEXT]), T1);
    s := At(None, 2, map[0 := DELETED, 1 := FIRED], Container(Nil, true, Some(FAR)), [MsgRemove(Sw, 1)], Waiting,
            Draining(Sw, T1, None, [NEXT]), T1);
    Then(s13, ExpireCur, s);
  }
}
