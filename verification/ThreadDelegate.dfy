/** gps/utils/LocThread.cpp: one LocThreadDelegate shared by the client that
    made it and the thread it spawned. Every access to a field is one step, and
    the two threads' steps interleave in any order; destroy() is one step. */
module ThreadDelegate {

  /** Where the client is: in the constructor, in create(), holding the
      delegate, or in stop() or bye(). */
  datatype ClientPc =
    | Creating            // about to call pthread_create
    | Failing             // it failed: about to reset the fields
    | Naming              // it worked: about to set the name, and detach
    | Checking            // create(): about to ask isRunning()
    | Holding             // start() returned true
    | Dropping            // bye(): about to look at mJoinable
    | Stopping            // stop(): about to clear mRunnable
    | Stopped             // stop(): about to look at mJoinable
    | Joining             // in pthread_join
    | Releasing           // about to call destroy()
    | Gone

  /** Where the spawned thread is, in threadMain. */
  datatype ThreadPc =
    | Unborn
    | NeverBorn           // pthread_create failed
    | Starting            // about to read mRunnable
    | Preparing           // about to ask isRunning() before prerun()
    | Looping             // about to ask isRunning() before run()
    | Finishing           // about to ask isRunning() before postrun()
    | Clearing            // about to clear mRunnable
    | Deleting            // about to delete the runnable
    | Leaving             // about to call destroy()
    | Exited

  /** The two threads and the fields that steer them. `took` says that the
      thread read a non-NULL mRunnable, `asked` is the caller's request for a
      joinable thread, `started` what start() answered, and `joined` that the
      client went through pthread_join. */
  datatype Control = Control(
    client: ClientPc, thread: ThreadPc, hasRunnable: bool, joinable: bool,
    took: bool, asked: bool, started: bool, joined: bool)

  /** mRefCount, how often the delegate and the runnable were deleted, and
      whether either was ever used after that. */
  datatype Memory = Memory(refs: int, deletes: nat, runnableDeletes: nat, fault: bool)

  datatype State = State(c: Control, m: Memory)

  /** The constructor's initial values: as if pthread_create had succeeded. */
  function Init(joinable: bool): (s: State) {
    State(Control(Creating, Unborn, true, joinable, false, joinable, false, false), Memory(2, 0, 0, false))
  }

  /** A step of the client, with what pthread_create answers and whether the
      client's next call is stop(); or one of the thread, with what run()
      answers. */
  datatype Action = ClientStep(createOk: bool, stop: bool) | ThreadStep(again: bool)

  // ----- memory -------------------------------------------------------------

  function Touch(m: Memory): (r: Memory) {
    m.(fault := m.fault || m.deletes > 0)
  }

  function TouchRunnable(m: Memory): (r: Memory) {
    m.(fault := m.fault || m.runnableDeletes > 0)
  }

  function DeleteRunnable(m: Memory): (r: Memory) {
    TouchRunnable(m).(runnableDeletes := m.runnableDeletes + 1)
  }

  function Destroy(m: Memory): (r: Memory) {
    var t := Touch(m);
    if m.refs > 0 then t.(refs := m.refs - 1, deletes := if m.refs == 1 then m.deletes + 1 else m.deletes) else t
  }

  function ClientMemory(c: Control, m: Memory): (r: Memory) {
    match c.client
    case Failing => Touch(m).(refs := 1)
    case Holding => m
    case Joining => m
    case Releasing => Destroy(m)
    case Gone => m
    case _ => Touch(m)
  }

  function ThreadMemory(c: Control, m: Memory): (r: Memory) {
    match c.thread
    case Unborn => m
    case NeverBorn => m
    case Deleting => DeleteRunnable(m)
    case Leaving => Destroy(m)
    case Exited => m
    case Starting => Touch(m)
    case Clearing => Touch(m)
    case _ => if c.hasRunnable then TouchRunnable(Touch(m)) else Touch(m)
  }

  // ----- control ------------------------------------------------------------

  /** create() is over, and start() has answered. */
  predicate Answered(pc: ClientPc) {
    pc != Creating && pc != Failing && pc != Naming && pc != Checking
  }

  /** The constructor and create(). */
  function CreateMove(c: Control, createOk: bool): (r: Control) {
    match c.client
    case Creating => if createOk then c.(client := Naming, thread := Starting) else c.(client := Failing, thread := NeverBorn)
    case Failing => c.(client := Checking, hasRunnable := false, joinable := false)
    case Naming => c.(client := Checking)
    case _ => c.(client := if c.hasRunnable then Holding else Releasing, started := c.hasRunnable)
  }

  /** stop(), bye() and the destructor. */
  function ReleaseMove(c: Control, stop: bool): (r: Control) {
    match c.client
    case Holding => c.(client := if stop then Stopping else Dropping)
    case Dropping => c.(client := if c.joinable then Stopping else Releasing)
    case Stopping => c.(client := Stopped, hasRunnable := false)
    case Stopped => if c.joinable then c.(client := Joining, joinable := false) else c.(client := Releasing)
    case Joining => if c.thread == Exited then c.(client := Releasing, joined := true) else c
    case _ => c.(client := Gone)
  }

  function ClientMove(c: Control, createOk: bool, stop: bool): (r: Control) {
    if Answered(c.client) then ReleaseMove(c, stop) else CreateMove(c, createOk)
  }

  function ThreadMove(c: Control, again: bool): (r: Control) {
    match c.thread
    case Unborn => c
    case NeverBorn => c
    case Starting => if c.hasRunnable then c.(thread := Preparing, took := true) else c.(thread := Leaving)
    case Preparing => c.(thread := Looping)
    case Looping => if c.hasRunnable && again then c else c.(thread := Finishing)
    case Finishing => c.(thread := Clearing)
    case Clearing => c.(thread := Deleting, hasRunnable := false)
    case Deleting => c.(thread := Leaving)
    case Leaving => c.(thread := Exited)
    case Exited => c
  }

  function Step(s: State, a: Action): (r: State) {
    match a
    case ClientStep(createOk, stop) => State(ClientMove(s.c, createOk, stop), ClientMemory(s.c, s.m))
    case ThreadStep(again) => State(ThreadMove(s.c, again), ThreadMemory(s.c, s.m))
  }

  function Run(s: State, actions: seq<Action>): (r: State)
    decreases actions
  {
    if actions == [] then s else Run(Step(s, actions[0]), actions[1..])
  }

  // ----- the invariant ------------------------------------------------------

  /** The thread's share of the delegate, counted before it is born. A failed
      creation is undone by the client's next step. */
  predicate ThreadHolds(c: Control) {
    c.thread != Exited && (c.thread != NeverBorn || c.client == Failing)
  }

  predicate ClientHolds(c: Control) {
    c.client != Gone
  }

  predicate PastDeleting(c: Control) {
    c.took && (c.thread == Leaving || c.thread == Exited)
  }

  /** The counts: the references, and what has been deleted. */
  ghost predicate Counted(c: Control, m: Memory) {
    && !m.fault
    && m.refs == (if ClientHolds(c) then 1 else 0) + (if ThreadHolds(c) then 1 else 0)
    && m.deletes == (if m.refs == 0 then 1 else 0)
    && m.runnableDeletes == (if PastDeleting(c) then 1 else 0)
  }

  predicate Born(pc: ThreadPc) {
    pc != Unborn && pc != NeverBorn
  }

  /** The thread has not cleared mRunnable yet. */
  predicate Busy(pc: ThreadPc) {
    Born(pc) && pc != Deleting && pc != Leaving && pc != Exited
  }

  ghost predicate ClientPlaced(c: Control) {
    match c.client
    case Creating => c.thread == Unborn && c.hasRunnable
    case Failing => c.thread == NeverBorn
    case Naming => Born(c.thread) && (c.hasRunnable <==> Busy(c.thread))
    case Checking => c.thread != Unborn && (c.hasRunnable <==> Busy(c.thread))
    case Stopped => Born(c.thread) && !c.hasRunnable
    case Joining => Born(c.thread) && !c.hasRunnable
    case Releasing => c.thread != Unborn
    case Gone => c.thread != Unborn
    case _ => Born(c.thread)
  }

  ghost predicate ThreadPlaced(c: Control) {
    && (c.joined ==> c.thread == Exited)
    && match c.thread
       case Unborn => c.client == Creating && !c.took
       case NeverBorn => !c.took && (c.client == Failing || !c.hasRunnable)
       case Starting => !c.took
       case Deleting => c.took && !c.hasRunnable
       case Leaving => !c.hasRunnable
       case Exited => !c.hasRunnable
       case _ => c.took
  }

  /** A joinable thread is joined by the client that start() answered true. */
  ghost predicate JoinPlaced(c: Control) {
    match c.client
    case Creating => !c.started && !c.joined && c.joinable == c.asked
    case Failing => !c.started && !c.joined
    case Naming => !c.started && !c.joined && c.joinable == c.asked
    case Checking => !c.started && !c.joined && (c.joinable == c.asked || !c.hasRunnable)
    case Joining => c.started && !c.joined && c.asked
    case Releasing => c.joined == (c.asked && c.started)
    case Gone => c.joined == (c.asked && c.started)
    case _ => c.started && !c.joined && c.joinable == c.asked
  }

  ghost predicate Placed(c: Control) {
    ClientPlaced(c) && ThreadPlaced(c) && JoinPlaced(c)
  }

  ghost predicate Inv(s: State) {
    Counted(s.c, s.m) && Placed(s.c)
  }

  lemma ClientMovePlaced(c: Control, createOk: bool, stop: bool)
    requires Placed(c)
    ensures Placed(ClientMove(c, createOk, stop))
  {
    if Answered(c.client) {
      hide CreateMove;
    } else {
      hide ReleaseMove;
    }
  }

  lemma ThreadMovePlaced(c: Control, again: bool)
    requires Placed(c)
    ensures Placed(ThreadMove(c, again))
  {
  }

  /** A move from c to r leaves both shares as they are, unless it gives one up. */
  ghost predicate HoldsAfter(c: Control, r: Control) {
    && (ClientHolds(r) <==> ClientHolds(c) && c.client != Releasing)
    && (ThreadHolds(r) <==> ThreadHolds(c) && c.client != Failing)
    && (PastDeleting(r) <==> PastDeleting(c))
  }

  lemma CreateMoveHolds(c: Control, createOk: bool)
    requires ClientPlaced(c) && ThreadPlaced(c) && !Answered(c.client)
    ensures HoldsAfter(c, CreateMove(c, createOk))
  {
  }

  lemma ReleaseMoveHolds(c: Control, stop: bool)
    requires ThreadPlaced(c) && Answered(c.client)
    ensures HoldsAfter(c, ReleaseMove(c, stop))
  {
    hide ThreadPlaced;
  }

  lemma ClientStepCounted(c: Control, m: Memory, createOk: bool, stop: bool)
    requires Counted(c, m) && ClientPlaced(c) && ThreadPlaced(c)
    ensures Counted(ClientMove(c, createOk, stop), ClientMemory(c, m))
  {
    hide CreateMove, ReleaseMove, PastDeleting, ThreadPlaced;
    if Answered(c.client) {
      ReleaseMoveHolds(c, stop);
    } else {
      CreateMoveHolds(c, createOk);
    }
  }

  lemma ThreadStepCounted(c: Control, m: Memory, again: bool)
    requires Counted(c, m) && ThreadPlaced(c)
    ensures Counted(ThreadMove(c, again), ThreadMemory(c, m))
  {
    match c.thread {
      case Starting =>
      case Preparing =>
      case Looping =>
      case Finishing =>
      case Clearing =>
      case Deleting =>
      case Leaving =>
      case _ =>
    }
  }

  lemma StepKeeps(s: State, a: Action)
    requires Inv(s)
    ensures Inv(Step(s, a))
  {
    hide Counted, ClientMove, ThreadMove, ClientMemory, ThreadMemory;
    match a
    case ClientStep(createOk, stop) =>
      ClientMovePlaced(s.c, createOk, stop);
      ClientStepCounted(s.c, s.m, createOk, stop);
    case ThreadStep(again) =>
      ThreadMovePlaced(s.c, again);
      ThreadStepCounted(s.c, s.m, again);
  }

  lemma {:induction false} RunKeeps(s: State, actions: seq<Action>)
    requires Inv(s)
    ensures Inv(Run(s, actions))
    decreases actions
  {
    hide Inv, Step;
    if actions != [] {
      StepKeeps(s, actions[0]);
      RunKeeps(Step(s, actions[0]), actions[1..]);
    }
  }

  /** In every interleaving: nothing deleted is used; the delegate is deleted at
      most once, and it is deleted exactly when the client has let go of it and
      the thread has left, or was never born; the runnable is deleted at most
      once, by the thread, and only if the thread found it. */
  lemma {:induction false} FreedOnce(joinable: bool, actions: seq<Action>)
    ensures var s := Run(Init(joinable), actions);
      && !s.m.fault && s.m.deletes <= 1 && s.m.runnableDeletes <= 1
      && (s.m.deletes == 1 <==> s.c.client == Gone && (s.c.thread == Exited || s.c.thread == NeverBorn))
      && (s.m.runnableDeletes == 1 <==> s.c.took && (s.c.thread == Leaving || s.c.thread == Exited))
  {
    RunKeeps(Init(joinable), actions);
  }

  lemma CreateMoveAnswer(c: Control, createOk: bool)
    ensures CreateMove(c, createOk).asked == c.asked
  {
  }

  lemma ReleaseMoveAnswer(c: Control, stop: bool)
    requires Answered(c.client)
    ensures var r := ReleaseMove(c, stop); r.asked == c.asked && Answered(r.client) && r.started == c.started
  {
    match c.client {
      case Holding =>
      case Dropping =>
      case Stopping =>
      case Stopped =>
      case Joining =>
      case _ =>
    }
  }

  lemma ThreadMoveAnswer(c: Control, again: bool)
    ensures var r := ThreadMove(c, again);
      r.asked == c.asked && r.client == c.client && r.started == c.started
  {
  }

  lemma {:induction false} AnswerStays(s: State, actions: seq<Action>)
    ensures Run(s, actions).c.asked == s.c.asked
    ensures Answered(s.c.client) ==> Answered(Run(s, actions).c.client) && Run(s, actions).c.started == s.c.started
    decreases actions
  {
    hide CreateMove, ReleaseMove, ThreadMove, ClientMemory, ThreadMemory;
    if actions != [] {
      match actions[0] {
        case ClientStep(createOk, stop) =>
          CreateMoveAnswer(s.c, createOk);
          if Answered(s.c.client) {
            ReleaseMoveAnswer(s.c, stop);
          }
        case ThreadStep(again) => ThreadMoveAnswer(s.c, again);
      }
      AnswerStays(Step(s, actions[0]), actions[1..]);
    }
  }

  /** Once the client has let go, the thread has been joined exactly if the caller asked for a joinable thread and
      mRunnable was still set when create() looked, that is, if the thread had not got past clearing it; and a
      joined thread has left by then. start() answers true exactly if mRunnable was still set. */
  lemma {:induction false} JoinedExactly(joinable: bool, before: seq<Action>, look: Action, after: seq<Action>)
    requires Run(Init(joinable), before).c.client == Checking && look.ClientStep?
    ensures var seen := Run(Init(joinable), before).c;
      var c := Run(Step(Run(Init(joinable), before), look), after).c;
      && (seen.hasRunnable <==> Busy(seen.thread))
      && (c.started <==> seen.hasRunnable)
      && (c.client == Gone ==> (c.joined <==> joinable && seen.hasRunnable) && (c.joined ==> c.thread == Exited))
  {
    var s := Run(Init(joinable), before);
    RunKeeps(Init(joinable), before);
    StepKeeps(s, look);
    RunKeeps(Step(s, look), after);
    AnswerStays(Init(joinable), before);
    AnswerStays(Step(s, look), after);
    hide Run, Counted;
  }

  // ----- what goes on, and what stops it ------------------------------------

  function Turns(n: nat): (r: seq<Action>)
    ensures |r| == n && forall i :: 0 <= i < n ==> r[i] == ThreadStep(true)
  {
    seq(n, _ => ThreadStep(true))
  }

  /** As long as mRunnable is set and run() answers true the thread goes on calling it, and changes nothing else. */
  lemma {:induction false} LoopGoesOn(s: State, n: nat)
    requires Inv(s) && s.c.thread == Looping && s.c.hasRunnable
    ensures Run(s, Turns(n)) == s
  {
    hide Counted, ClientPlaced, JoinPlaced;
    if n > 0 {
      LoopTouches(s);
      assert Turns(n)[1..] == Turns(n - 1);
      LoopGoesOn(s, n - 1);
    }
  }

  lemma LoopTouches(s: State)
    requires Inv(s) && s.c.thread == Looping && s.c.hasRunnable
    ensures Step(s, ThreadStep(true)) == s
  {
  }

  /** It leaves the loop as soon as run() answers false or mRunnable is cleared. */
  lemma LoopEnds(s: State, again: bool)
    requires s.c.thread == Looping && !(s.c.hasRunnable && again)
    ensures Step(s, ThreadStep(again)).c == s.c.(thread := Finishing)
  {
  }

  /** stop() clears mRunnable and then joins a joinable thread; bye() does so only for a joinable one, and lets a
      detached thread run on. */
  lemma StopAndBye(s: State, createOk: bool, stop: bool)
    requires s.c.client == Holding
    ensures var a := ClientStep(createOk, stop);
      var t := Step(Step(s, a), a).c;
      if stop then t == s.c.(client := Stopped, hasRunnable := false)
      else t == s.c.(client := if s.c.joinable then Stopping else Releasing)
  {
  }

  // ----- a thread that is done too soon -------------------------------------

  lemma {:induction false} RunTwo(s: State, a: Action, b: Action, rest: seq<Action>)
    ensures Run(s, [a, b] + rest) == Run(Step(Step(s, a), b), rest)
  {
    assert ([a, b] + rest)[1..] == [b] + rest && ([b] + rest)[1..] == rest;
  }

  /** A joinable thread whose run() answers false at once, and which leaves before create() looks. */
  lemma LeavesBeforeLook() returns (before: seq<Action>)
    ensures Run(Init(true), before) == State(Control(Checking, Exited, false, true, true, true, false, false), Memory(1, 0, 1, false))
  {
    hide Run, Step;
    var c, t := ClientStep(true, true), ThreadStep(false);
    var s2 := State(Control(Naming, Preparing, true, true, true, true, false, false), Memory(2, 0, 0, false));
    var s4 := State(Control(Naming, Finishing, true, true, true, true, false, false), Memory(2, 0, 0, false));
    var s6 := State(Control(Naming, Deleting, false, true, true, true, false, false), Memory(2, 0, 0, false));
    var s8 := State(Control(Naming, Exited, false, true, true, true, false, false), Memory(1, 0, 1, false));
    var rest := [t, t] + ([t, t] + ([t, t] + [c]));
    FirstTurns(c, t, s2, s4);
    MiddleTurns(t, s4, s6);
    LastTurns(c, t, s6, s8);
    RunTwo(Init(true), c, t, rest);
    RunTwo(s2, t, t, [t, t] + ([t, t] + [c]));
    RunTwo(s4, t, t, [t, t] + [c]);
    RunTwo(s6, t, t, [c]);
    RunOne(s8, c);
    before := [c, t] + rest;
  }

  lemma FirstTurns(c: Action, t: Action, s2: State, s4: State)
    requires c == ClientStep(true, true) && t == ThreadStep(false)
    requires s2 == State(Control(Naming, Preparing, true, true, true, true, false, false), Memory(2, 0, 0, false))
    requires s4 == State(Control(Naming, Finishing, true, true, true, true, false, false), Memory(2, 0, 0, false))
    ensures Step(Step(Init(true), c), t) == s2 && Step(Step(s2, t), t) == s4
  {
  }

  lemma MiddleTurns(t: Action, s4: State, s6: State)
    requires t == ThreadStep(false)
    requires s4 == State(Control(Naming, Finishing, true, true, true, true, false, false), Memory(2, 0, 0, false))
    requires s6 == State(Control(Naming, Deleting, false, true, true, true, false, false), Memory(2, 0, 0, false))
    ensures Step(Step(s4, t), t) == s6
  {
  }

  lemma LastTurns(c: Action, t: Action, s6: State, s8: State)
    requires c == ClientStep(true, true) && t == ThreadStep(false)
    requires s6 == State(Control(Naming, Deleting, false, true, true, true, false, false), Memory(2, 0, 0, false))
    requires s8 == State(Control(Naming, Exited, false, true, true, true, false, false), Memory(1, 0, 1, false))
    ensures Step(Step(s6, t), t) == s8
    ensures Step(s8, c) == State(Control(Checking, Exited, false, true, true, true, false, false), Memory(1, 0, 1, false))
  {
    assert Step(s6, t) == State(Control(Naming, Leaving, false, true, true, true, false, false), Memory(2, 0, 1, false));
  }

  lemma {:induction false} RunOne(s: State, a: Action)
    ensures Run(s, [a]) == Step(s, a)
  {
    assert Run(Step(s, a), []) == Step(s, a);
  }

  /** It ran, start() answers false, the thread is never joined, and all is freed. */
  lemma NeverJoined() returns (before: seq<Action>, look: Action, after: seq<Action>)
    ensures Run(Init(true), before).c.client == Checking && look.ClientStep?
    ensures var s := Run(Step(Run(Init(true), before), look), after);
      && s.c.client == Gone && s.c.thread == Exited && s.c.asked && s.c.took && !s.c.started && !s.c.joined
      && s.m.deletes == 1 && s.m.runnableDeletes == 1
  {
    before := LeavesBeforeLook();
    look := ClientStep(true, true);
    after := [look];
    RunOne(Step(Run(Init(true), before), look), look);
  }

  // ----- stop() comes to an end ---------------------------------------------

  function ClientLeft(pc: ClientPc): (n: nat) {
    match pc
    case Creating => 9 case Failing => 8 case Naming => 8 case Checking => 7 case Holding => 6 case Dropping => 5
    case Stopping => 4 case Stopped => 3 case Joining => 2 case Releasing => 1 case Gone => 0
  }

  function ThreadLeft(pc: ThreadPc): (n: nat) {
    match pc
    case Unborn => 8 case Starting => 7 case Preparing => 6 case Looping => 5 case Finishing => 4 case Clearing => 3
    case Deleting => 2 case Leaving => 1 case Exited => 0 case NeverBorn => 0
  }

  function Left(c: Control): (n: nat)
    ensures n <= 17
  {
    ClientLeft(c.client) + ThreadLeft(c.thread)
  }

  lemma CreateAdvances(c: Control, createOk: bool)
    requires !c.hasRunnable && ClientPlaced(c) && !Answered(c.client)
    ensures var r := CreateMove(c, createOk); !r.hasRunnable && Left(r) < Left(c)
  {
  }

  lemma ReleaseAdvances(c: Control, stop: bool)
    requires !c.hasRunnable && Answered(c.client)
    ensures var r := ReleaseMove(c, stop);
      !r.hasRunnable && r.thread == c.thread && (ClientLeft(r.client) < ClientLeft(c.client) || (r == c && (c.client == Joining || c.client == Gone)))
  {
    match c.client {
      case Holding =>
      case Dropping =>
      case Stopping =>
      case Stopped =>
      case Joining =>
      case _ =>
    }
  }

  lemma ThreadAdvances(c: Control, again: bool)
    requires !c.hasRunnable
    ensures var r := ThreadMove(c, again);
      !r.hasRunnable && (ThreadLeft(r.thread) < ThreadLeft(c.thread) || (r == c && (!Born(c.thread) || c.thread == Exited)))
  {
    match c.thread {
      case Starting =>
      case Preparing =>
      case Looping =>
      case Finishing =>
      case Clearing =>
      case Deleting =>
      case Leaving =>
      case _ =>
    }
  }

  /** Once mRunnable is cleared it stays so, and each step that does anything
      brings one of the threads nearer to its end. */
  lemma ClearedAdvances(s: State, a: Action)
    requires Inv(s) && !s.c.hasRunnable
    ensures !Step(s, a).c.hasRunnable
    ensures Step(s, a) == s || Left(Step(s, a).c) < Left(s.c)
  {
    hide Counted, JoinPlaced, ThreadPlaced, CreateMove, ReleaseMove, ThreadMove, ClientLeft, ThreadLeft;
    match a
    case ClientStep(createOk, stop) =>
      if Answered(s.c.client) {
        ReleaseAdvances(s.c, stop);
      } else {
        CreateAdvances(s.c, createOk);
      }
    case ThreadStep(again) =>
      ThreadAdvances(s.c, again);
      ThreadMoveAnswer(s.c, again);
  }

  /** Steps that each do something. */
  ghost predicate AllAdvance(s: State, actions: seq<Action>)
    decreases actions
  {
    actions == [] || (Step(s, actions[0]) != s && AllAdvance(Step(s, actions[0]), actions[1..]))
  }

  /** So after stop() has cleared mRunnable only a bounded number of steps is
      left, whatever run() answers and however the threads take turns. */
  lemma {:induction false} ClearedRunsEnd(s: State, actions: seq<Action>)
    requires Inv(s) && !s.c.hasRunnable && AllAdvance(s, actions)
    ensures |actions| <= Left(s.c)
    decreases actions
  {
    hide Inv, Step, Left;
    if actions != [] {
      StepKeeps(s, actions[0]);
      ClearedAdvances(s, actions[0]);
      ClearedRunsEnd(Step(s, actions[0]), actions[1..]);
    }
  }

  /** Nobody waits for ever: where no step does anything, both threads are done
      and the delegate is freed. */
  lemma RestIsFreed(s: State)
    requires Inv(s) && forall a :: Step(s, a) == s
    ensures s.c.client == Gone && (s.c.thread == Exited || s.c.thread == NeverBorn) && s.m.deletes == 1
  {
    assert Step(s, ClientStep(true, true)) == s;
    assert Step(s, ThreadStep(false)) == s;
  }
}
