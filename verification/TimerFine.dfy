/**
 LocTimerDelegate::expire in its three steps. The worker reads mClient without the lock, then calls stop() on that
 client, then calls it back; other threads run in between. Whether this is safe is up to the clients: it is, exactly
 if no LocTimer is deleted while the worker holds its address.
 */
module TimerFine {
  import opened Wrappers
  import opened Ranking
  import opened HeapTree
  import opened TimerContainer
  import opened TimerService
  import opened TimerInvariant
  import opened TimerSteps
  import TimerEarly

  /** Where the worker is in expire(): not in it; with a client's address read; with that client's timer stopped. */
  datatype Inside = Outside | Holds(c: nat) | Stopped(c: nat)

  datatype Fine = Fine(s: State, at: Inside)

  datatype Act = Other(a: Action) | ReadClient | StopClient | CallBack

  ghost predicate FineEnabled(f: Fine, x: Act) {
    match x
    case Other(a) => Enabled(f.s, a) && !a.ExpireCur? && (a.PopNext? ==> f.at.Outside?)
    case ReadClient => f.at.Outside? && Enabled(f.s, ExpireCur)
    case StopClient => f.at.Holds?
    case CallBack => f.at.Stopped?
  }

  function Forget(s: State): State
    requires s.worker.Draining?
  {
    s.(worker := s.worker.(cur := None))
  }

  function DoRead(s: State): Fine
    requires s.worker.Draining? && s.worker.cur.Some?
  {
    var d := s.worker.cur.value;
    if !LiveDelegate(s, d) then Fine(Fault(s), Outside)
    else if s.delegates[d].client.None? then Fine(Forget(s), Outside)
    else Fine(s, Holds(s.delegates[d].client.value))
  }

  /** client->stop(): on a client that is gone this touches freed memory. */
  function DoStopHeld(s: State, c: nat): Fine {
    var s1 := if s.worker.Draining? then Forget(s) else s;
    Fine(StopAs(s1, c, ByCallback), if DoStop(s1, c).0.Some? then Stopped(c) else Outside)
  }

  function DoCallBack(s: State, c: nat): Fine {
    Fine(if LiveClient(s, c) then s else Fault(s), Outside)
  }

  ghost function FineApply(f: Fine, x: Act): Fine
    requires FineEnabled(f, x)
  {
    match x
    case Other(a) => Fine(Apply(f.s, a), f.at)
    case ReadClient => DoRead(f.s)
    case StopClient => DoStopHeld(f.s, f.at.c)
    case CallBack => DoCallBack(f.s, f.at.c)
  }

  ghost predicate FineRun(f: Fine, xs: seq<Act>, g: Fine)
    decreases xs
  {
    if xs == [] then f == g else FineEnabled(f, xs[0]) && FineRun(FineApply(f, xs[0]), xs[1..], g)
  }

  // ----- What holds in between -----

  /** The client held is that of the popped delegate, unless that has been stopped meanwhile. */
  ghost predicate HeldOk(f: Fine) {
    match f.at
    case Outside => true
    case Holds(c) =>
      && c in f.s.clients && f.s.worker.Draining? && f.s.worker.cur.Some?
      && var d := f.s.worker.cur.value; d in f.s.delegates && (f.s.delegates[d].client == None || f.s.delegates[d].client == Some(c))
    case Stopped(c) => c in f.s.clients && f.s.worker.Draining? && f.s.worker.cur.None?
  }

  ghost predicate FineInv(f: Fine) {
    Inv(f.s) && HeldOk(f)
  }

  /** The next step uses a LocTimer that has been deleted. */
  predicate UsesDead(f: Fine, x: Act) {
    (x.StopClient? || x.CallBack?) && !f.at.Outside? && !LiveClient(f.s, f.at.c)
  }

  /** A step of others while the worker is in expire(): it goes on there, and no client appears at a delegate. */
  lemma OthersKeepHeld(s: State, a: Action)
    requires Inv(s) && s.worker.Draining? && Enabled(s, a) && !a.ExpireCur? && !a.PopNext?
    ensures var t := Apply(s, a);
      && t.worker == s.worker && (forall c :: c in s.clients ==> c in t.clients)
      && forall d :: d in s.delegates ==> d in t.delegates && (t.delegates[d].client == s.delegates[d].client || t.delegates[d].client == None)
  {
    hide Inv, StopAs, FutureTime, CanWake, SetTime;
    match a {
      case Stop(c) => StopEffect(s, c, ByStop);
      case CloseStop(c) => StopEffect(s, c, ByDestructor);
      case _ =>
    }
  }

  lemma OtherKeeps(f: Fine, a: Action)
    requires FineInv(f) && FineEnabled(f, Other(a))
    ensures FineInv(FineApply(f, Other(a)))
  {
    hide Inv, Apply;
    StepKeeps(f.s, a);
    if !f.at.Outside? {
      OthersKeepHeld(f.s, a);
    }
  }

  lemma ReadKeeps(f: Fine)
    requires FineInv(f) && FineEnabled(f, ReadClient)
    ensures FineInv(FineApply(f, ReadClient))
  {
    hide Wf, Counted;
    var s, d := f.s, f.s.worker.cur.value;
    BoxInvAt(s, s.worker.kind);
    assert Owns(s.delegates, s.worker.kind, d);
    if s.delegates[d].client.None? {
      ForgetKeeps(s);
    } else {
      assert DelegateLinked(s.delegates[d], d, s.clients);
    }
  }

  /** stop() on the client held, if it is still there: the service stays sound. */
  lemma StopHeldKeeps(f: Fine)
    requires FineInv(f) && FineEnabled(f, StopClient) && LiveClient(f.s, f.at.c)
    ensures FineInv(FineApply(f, StopClient))
  {
    hide Inv, StopAs;
    var s, c, d := f.s, f.at.c, f.s.worker.cur.value;
    if s.delegates[d].client.None? {
      ForgetKeeps(s);
      StopKeeps(Forget(s), c, ByCallback);
      StopLeavesWorker(Forget(s), c);
    } else {
      StepKeeps(s, ExpireCur);
      ExpireIs(s, c);
      StopKeeps(s, c, ByCallback);
      StopLeavesWorker(Forget(s), c);
      StopCommutes(s, Forget(s).worker, c, ByCallback);
    }
  }

  lemma ExpireIs(s: State, c: nat)
    requires Inv(s) && Enabled(s, ExpireCur) && s.worker.cur.value in s.delegates && s.delegates[s.worker.cur.value].client == Some(c)
    ensures Apply(s, ExpireCur) == StopAs(Forget(s), c, ByCallback)
  {
    hide Inv, StopAs;
    HeldIsLive(s);
  }

  lemma HeldIsLive(s: State)
    requires Inv(s) && Enabled(s, ExpireCur)
    ensures LiveDelegate(s, s.worker.cur.value)
  {
    hide Wf, Counted, Links;
    BoxInvAt(s, s.worker.kind);
    assert Owns(s.delegates, s.worker.kind, s.worker.cur.value);
  }

  lemma StopLeavesWorker(s: State, c: nat)
    ensures StopAs(s, c, ByCallback).worker == s.worker && forall e :: e in s.clients ==> e in StopAs(s, c, ByCallback).clients
  {
  }

  lemma CallBackKeeps(f: Fine)
    requires FineInv(f) && FineEnabled(f, CallBack) && LiveClient(f.s, f.at.c)
    ensures FineInv(FineApply(f, CallBack))
  {
  }

  /** Every step keeps the invariant unless it uses a deleted LocTimer, and then the fault shows. */
  lemma FineStep(f: Fine, x: Act)
    requires FineInv(f) && FineEnabled(f, x)
    ensures if UsesDead(f, x) then FineApply(f, x).s.fault else FineInv(FineApply(f, x))
  {
    hide Inv, Apply, HeldOk;
    match x {
      case Other(a) => OtherKeeps(f, a);
      case ReadClient => ReadKeeps(f);
      case StopClient =>
        if LiveClient(f.s, f.at.c) {
          StopHeldKeeps(f);
        }
      case CallBack =>
        if LiveClient(f.s, f.at.c) {
          CallBackKeeps(f);
        }
    }
  }

  // ----- Runs -----

  /** The step that deletes a LocTimer whose address the worker holds. */
  predicate DeletesHeld(f: Fine, x: Act) {
    x.Other? && x.a.CloseDrop? && !f.at.Outside? && f.at.c == x.a.c
  }

  /** Some step of the run is one. */
  ghost predicate SomeDeleted(f: Fine, xs: seq<Act>)
    decreases xs
  {
    xs != [] && FineEnabled(f, xs[0]) && (DeletesHeld(f, xs[0]) || SomeDeleted(FineApply(f, xs[0]), xs[1..]))
  }

  /** The worker holds the address of a deleted LocTimer, which its next step in expire() will use. */
  predicate HoldsDead(f: Fine) {
    !f.at.Outside? && !LiveClient(f.s, f.at.c)
  }

  lemma StopFault(s: State, c: nat, how: How)
    ensures s.fault ==> StopAs(s, c, how).fault
  {
  }

  lemma WorkFault(s: State)
    requires s.queue != []
    ensures s.fault ==> DoWork(s).fault
  {
    hide ProcPush, ProcRemove, LiveHeap, UpdateSoonestTime, HeapTree.Pop, TopIsDue;
  }

  lemma PopFault(s: State, k: Kind, now: Timespec, p: seq<Rankable>)
    ensures s.fault ==> PopOrFinish(s, k, now, p).fault
  {
    hide LiveHeap, UpdateSoonestTime, HeapTree.Pop, TopIsDue;
  }

  /** A fault stays. */
  lemma FaultStays(s: State, a: Action)
    requires s.fault && Enabled(s, a)
    ensures Apply(s, a).fault
  {
    hide DoWork, PopOrFinish, StopAs, FutureTime, CanWake, SetTime, DoExpire;
    match a {
      case Stop(c) => StopFault(s, c, ByStop);
      case CloseStop(c) => StopFault(s, c, ByDestructor);
      case Work => WorkFault(s);
      case PopNext => PopFault(s, s.worker.kind, s.worker.now, s.worker.drained);
      case ExpireCur => ExpireFault(s);
      case _ =>
    }
  }

  lemma ExpireFault(s: State)
    requires s.fault && s.worker.Draining? && s.worker.cur.Some?
    ensures DoExpire(s).fault
  {
    hide StopAs;
    var d := s.worker.cur.value;
    if LiveDelegate(s, d) && s.delegates[d].client.Some? {
      StopFault(Forget(s), s.delegates[d].client.value, ByCallback);
    }
  }

  lemma {:induction false} FineFaultStays(f: Fine, xs: seq<Act>, g: Fine)
    requires f.s.fault && FineRun(f, xs, g)
    ensures g.s.fault
    decreases xs
  {
    hide Apply, Enabled, StopAs;
    if xs != [] {
      match xs[0] {
        case Other(a) => FaultStays(f.s, a);
        case StopClient => StopFault(if f.s.worker.Draining? then Forget(f.s) else f.s, f.at.c, ByCallback);
        case _ =>
      }
      FineFaultStays(FineApply(f, xs[0]), xs[1..], g);
    }
  }

  /** Others' steps delete a LocTimer by its destructor's last step only. */
  lemma OthersDelete(s: State, a: Action, c: nat)
    requires Inv(s) && s.worker.Draining? && Enabled(s, a) && !a.ExpireCur? && !a.PopNext? && c in s.clients
    ensures LiveClient(Apply(s, a), c) <==> LiveClient(s, c) && a != CloseDrop(c)
  {
    hide Inv, StopAs, FutureTime, CanWake, SetTime;
    match a {
      case Stop(e) => StopEffect(s, e, ByStop);
      case CloseStop(e) => StopEffect(s, e, ByDestructor);
      case _ =>
    }
  }

  lemma ReadHoldsLive(f: Fine)
    requires FineInv(f) && FineEnabled(f, ReadClient)
    ensures !HoldsDead(FineApply(f, ReadClient))
  {
    hide Wf, Counted, Placed;
    var s, d := f.s, f.s.worker.cur.value;
    HeldIsLive(s);
    if s.delegates[d].client.Some? {
      ClientIsAlive(s, s.delegates[d].client.value);
    }
  }

  lemma StopHoldsLive(f: Fine)
    requires FineInv(f) && FineEnabled(f, StopClient) && LiveClient(f.s, f.at.c)
    ensures !HoldsDead(FineApply(f, StopClient))
  {
    hide Inv, StopAs;
    StopEffect(f.s, f.at.c, ByCallback);
    StopCommutes(f.s, Forget(f.s).worker, f.at.c, ByCallback);
  }

  /** A step that uses no deleted LocTimer leaves the worker with one exactly if it had one or the step deletes it. */
  lemma HoldsDeadStep(f: Fine, x: Act)
    requires FineInv(f) && FineEnabled(f, x) && !UsesDead(f, x)
    ensures HoldsDead(FineApply(f, x)) <==> HoldsDead(f) || DeletesHeld(f, x)
  {
    hide Inv, Apply, StopAs;
    match x {
      case Other(a) =>
        if !f.at.Outside? {
          OthersDelete(f.s, a, f.at.c);
        }
      case ReadClient => ReadHoldsLive(f);
      case StopClient => StopHoldsLive(f);
      case CallBack =>
    }
  }

  /** Once the worker holds a deleted LocTimer it keeps it until it uses it. */
  lemma {:induction false} DoomedRun(f: Fine, xs: seq<Act>, g: Fine)
    requires FineInv(f) && HoldsDead(f) && FineRun(f, xs, g)
    ensures g.s.fault || HoldsDead(g)
    decreases xs
  {
    hide Inv, HeldOk, FineApply, FineEnabled, UsesDead, HoldsDead;
    if xs != [] {
      FineStep(f, xs[0]);
      if UsesDead(f, xs[0]) {
        FineFaultStays(FineApply(f, xs[0]), xs[1..], g);
      } else {
        HoldsDeadStep(f, xs[0]);
        DoomedRun(FineApply(f, xs[0]), xs[1..], g);
      }
    }
  }

  lemma {:induction false} SafeFrom(f: Fine, xs: seq<Act>, g: Fine)
    requires FineInv(f) && !HoldsDead(f) && FineRun(f, xs, g)
    ensures g.s.fault || HoldsDead(g) <==> SomeDeleted(f, xs)
    ensures !SomeDeleted(f, xs) ==> FineInv(g)
    decreases xs
  {
    hide Inv, HeldOk, FineApply, FineEnabled, HoldsDead, DeletesHeld;
    if xs == [] {
      NoFault(f);
    } else {
      NotDeadNotUsed(f, xs[0]);
      FineStep(f, xs[0]);
      HoldsDeadStep(f, xs[0]);
      if DeletesHeld(f, xs[0]) {
        DoomedRun(FineApply(f, xs[0]), xs[1..], g);
      } else {
        SafeFrom(FineApply(f, xs[0]), xs[1..], g);
      }
    }
  }

  lemma NotDeadNotUsed(f: Fine, x: Act)
    requires !HoldsDead(f)
    ensures !UsesDead(f, x)
  {
  }

  lemma NoFault(f: Fine)
    requires FineInv(f)
    ensures !f.s.fault
  {
  }

  lemma FineInit(s: State)
    requires Init(s)
    ensures FineInv(Fine(s, Outside)) && !HoldsDead(Fine(s, Outside))
  {
    InitEstablishes(s);
  }

  /**
   Over every interleaving from the start of the service: freed memory has been used, or is about to be by the
   worker's next step in expire(), if and only if some LocTimer was deleted while the worker held its address.
   Otherwise the whole invariant holds.
   */
  lemma {:induction false} FineSafeExactly(s0: State, xs: seq<Act>, g: Fine)
    requires Init(s0) && FineRun(Fine(s0, Outside), xs, g)
    ensures g.s.fault || HoldsDead(g) <==> SomeDeleted(Fine(s0, Outside), xs)
    ensures !SomeDeleted(Fine(s0, Outside), xs) ==> FineInv(g)
  {
    FineInit(s0);
    SafeFrom(Fine(s0, Outside), xs, g);
  }

  /** And that next step does use it. */
  lemma HeldDeadIsUsed(f: Fine, x: Act)
    requires HoldsDead(f) && FineEnabled(f, x) && !x.Other?
    ensures FineApply(f, x).s.fault
  {
    hide StopAs;
    if x.StopClient? {
      DeadStopFaults(if f.s.worker.Draining? then Forget(f.s) else f.s, f.at.c);
    }
  }

  lemma DeadStopFaults(s: State, c: nat)
    requires !LiveClient(s, c)
    ensures StopAs(s, c, ByCallback).fault
  {
  }

  // ----- The coarse runs are among them -----

  lemma {:induction false} FineThen(f: Fine, xs: seq<Act>, g: Fine, ys: seq<Act>, h: Fine)
    requires FineRun(f, xs, g) && FineRun(g, ys, h)
    ensures FineRun(f, xs + ys, h)
    decreases xs
  {
    if xs == [] {
      assert xs + ys == ys;
    } else {
      FineThen(FineApply(f, xs[0]), xs[1..], g, ys, h);
      assert (xs + ys)[1..] == xs[1..] + ys;
    }
  }

  /** Taking the three steps at once is one way of taking them. */
  lemma ExpireInSteps(s: State) returns (xs: seq<Act>)
    requires Inv(s) && Enabled(s, ExpireCur)
    ensures FineRun(Fine(s, Outside), xs, Fine(Apply(s, ExpireCur), Outside))
  {
    hide Wf, Counted, Placed;
    HeldIsLive(s);
    var d := s.worker.cur.value;
    var f := Fine(s, Outside);
    var g := FineApply(f, ReadClient);
    if s.delegates[d].client.None? {
      xs := [ReadClient];
      assert FineRun(g, xs[1..], g);
    } else {
      var c := s.delegates[d].client.value;
      assert DelegateLinked(s.delegates[d], d, s.clients) && ClientLinked(s.clients[c], c, s.delegates);
      ExpireIs(s, c);
      StopEffect(s, c, ByCallback);
      StopCommutes(s, Forget(s).worker, c, ByCallback);
      StopFinds(Forget(s), c);
      var h := FineApply(g, StopClient);
      xs := [ReadClient, StopClient, CallBack];
      assert h == Fine(Apply(s, ExpireCur), Stopped(c)) && LiveClient(h.s, c);
      assert FineRun(FineApply(h, CallBack), xs[1..][1..][1..], Fine(Apply(s, ExpireCur), Outside));
    }
  }

  lemma StopFinds(s: State, c: nat)
    requires LiveClient(s, c) && s.clients[c].timer.Some? && !StopAs(s, c, ByCallback).fault
    ensures DoStop(s, c).0.Some?
  {
  }

  /** Every run with expire() in one step is a run with it in three. */
  lemma {:induction false} CoarseIsFine(s: State, acts: seq<Action>, t: State) returns (xs: seq<Act>)
    requires Inv(s) && Run(s, acts, t)
    ensures FineRun(Fine(s, Outside), xs, Fine(t, Outside))
    decreases acts
  {
    hide Inv, Apply, Enabled;
    if acts == [] {
      return [];
    }
    var u := Apply(s, acts[0]);
    StepKeeps(s, acts[0]);
    var first;
    if acts[0].ExpireCur? {
      first := ExpireInSteps(s);
    } else {
      first := [Other(acts[0])];
      assert FineRun(FineApply(Fine(s, Outside), first[0]), first[1..], Fine(u, Outside));
    }
    var rest := CoarseIsFine(u, acts[1..], t);
    FineThen(Fine(s, Outside), first, Fine(u, Outside), rest, Fine(t, Outside));
    xs := first + rest;
  }

  // ----- What can go wrong -----

  lemma CloseEffect(s: State, c: nat)
    requires Inv(s) && c in s.clients && s.clients[c].phase.Alive?
    ensures var t := Apply(s, CloseStop(c));
      Inv(t) && t.worker == s.worker && c in t.clients && t.clients[c].phase.Closing? && Enabled(t, CloseDrop(c))
  {
    hide Inv, StopAs;
    StepKeeps(s, CloseStop(c));
    StopKeeps(s, c, ByDestructor);
    StopEffect(s, c, ByDestructor);
  }

  /** Whenever a timer is about to be called back, its owner can delete it at the wrong moment: between the reading
      of mClient and the stop() on it. */
  lemma DeletedWhileHeld(s: State, c: nat) returns (xs: seq<Act>, g: Fine)
    requires Inv(s) && Enabled(s, ExpireCur) && s.worker.cur.value in s.delegates && s.delegates[s.worker.cur.value].client == Some(c)
    ensures FineRun(Fine(s, Outside), xs, g) && g.s.fault
  {
    hide Inv;
    HeldIsLive(s);
    ClientIsAlive(s, c);
    var t := Apply(s, CloseStop(c));
    CloseEffect(s, c);
    var u := Apply(t, CloseDrop(c));
    xs := [ReadClient, Other(CloseStop(c)), Other(CloseDrop(c)), StopClient];
    var f1, f3 := Fine(s, Holds(c)), Fine(u, Holds(c));
    g := FineApply(f3, StopClient);
    hide Apply, StopAs, FineRun;
    FourSteps(Fine(s, Outside), ReadClient, f1, Other(CloseStop(c)), Fine(t, Holds(c)), Other(CloseDrop(c)), f3, StopClient, g);
  }

  lemma {:induction false} FourSteps(f0: Fine, x0: Act, f1: Fine, x1: Act, f2: Fine, x2: Act, f3: Fine, x3: Act, f4: Fine)
    requires FineEnabled(f0, x0) && FineApply(f0, x0) == f1 && FineEnabled(f1, x1) && FineApply(f1, x1) == f2
    requires FineEnabled(f2, x2) && FineApply(f2, x2) == f3 && FineEnabled(f3, x3) && FineApply(f3, x3) == f4
    ensures FineRun(f0, [x0, x1, x2, x3], f4)
  {
    hide FineEnabled, FineApply;
    assert [x0, x1, x2, x3][1..] == [x1, x2, x3] && [x1, x2, x3][1..] == [x2, x3] && [x2, x3][1..] == [x3] && [x3][1..] == [];
    assert FineRun(f4, [], f4);
    assert FineRun(f3, [x3], f4);
    assert FineRun(f2, [x2, x3], f4);
  }

  lemma ClientIsAlive(s: State, c: nat)
    requires Inv(s) && Enabled(s, ExpireCur) && s.worker.cur.value in s.delegates && s.delegates[s.worker.cur.value].client == Some(c)
    ensures c in s.clients && s.clients[c].phase.Alive? && s.clients[c].timer == s.worker.cur
  {
    hide Wf, Counted, Placed;
    var d := s.worker.cur.value;
    assert DelegateLinked(s.delegates[d], d, s.clients);
    assert ClientLinked(s.clients[c], c, s.delegates);
  }

  /** So it happens: a run from the start of the service in which freed memory is used. */
  lemma UseAfterFree() returns (s0: State, xs: seq<Act>, g: Fine)
    ensures Init(s0) && FineRun(Fine(s0, Outside), xs, g) && g.s.fault
  {
    hide Inv, Apply, Enabled, FineRun;
    var s := TimerEarly.AboutToExpire();
    var acts: seq<Action>;
    s0, acts :| Init(s0) && Run(s0, acts, s);
    InitEstablishes(s0);
    var before := CoarseIsFine(s0, acts, s);
    ReachableKeeps(s);
    var after;
    after, g := DeletedWhileHeld(s, 0);
    FineThen(Fine(s0, Outside), before, Fine(s, Outside), after, g);
    xs := before + after;
  }

  /** The stop() on a live client ends whatever timer the client has by then. That is the popped one exactly if
      nobody stopped it in between; otherwise it is one started since, or none. */
  lemma StopsWhom(f: Fine)
    requires FineInv(f) && FineEnabled(f, StopClient) && LiveClient(f.s, f.at.c)
    ensures var s, c, d, t := f.s, f.at.c, f.s.worker.cur.value, FineApply(f, StopClient).s;
      && d in s.delegates
      && (forall e :: e in s.delegates ==> e in t.delegates && (t.delegates[e].ended.fires > s.delegates[e].ended.fires <==> s.clients[c].timer == Some(e)))
      && (s.clients[c].timer == Some(d) <==> s.delegates[d].client.Some?)
  {
    hide Wf, Counted, Placed, StopAs;
    var s, c, d := f.s, f.at.c, f.s.worker.cur.value;
    assert DelegateLinked(s.delegates[d], d, s.clients) && ClientLinked(s.clients[c], c, s.delegates);
    StopEffect(s, c, ByCallback);
    StopCommutes(s, Forget(s).worker, c, ByCallback);
  }

  /** So it calls a timer back before its second exactly if the client's mTimer is then set and not due. */
  lemma StopEarlyExactly(f: Fine)
    requires FineInv(f) && FineEnabled(f, StopClient) && LiveClient(f.s, f.at.c)
    ensures var s, t, timer := f.s, FineApply(f, StopClient).s, f.s.clients[f.at.c].timer;
      && (timer.Some? ==> timer.value in s.delegates)
      && ((exists e :: e in s.delegates && e in t.delegates && t.delegates[e].ended.fires > s.delegates[e].ended.fires
                       && s.clock.sec < s.delegates[e].due.sec) <==>
            timer.Some? && s.clock.sec < s.delegates[timer.value].due.sec)
  {
    hide FineApply, Wf, Counted, Placed;
    StopsWhom(f);
    var s, timer := f.s, f.s.clients[f.at.c].timer;
    assert ClientLinked(s.clients[f.at.c], f.at.c, s.delegates);
  }

  /**
   A second way to be early, with the popped timer on time: its client stops it, with success, and starts another
   after the worker has read mClient. The worker's stop() then ends the new timer, a thousand seconds ahead.
   */
  lemma RestartedEarly(s: State, c: nat, d2: nat) returns (xs: seq<Act>, g: Fine)
    requires Inv(s) && Enabled(s, ExpireCur) && s.worker.cur.value in s.delegates && s.delegates[s.worker.cur.value].client == Some(c)
    requires d2 !in s.delegates
    ensures FineRun(Fine(s, Outside), xs, g) && !g.s.fault && g.s.clock == s.clock
    ensures var d := s.worker.cur.value;
      && d in g.s.delegates && g.s.delegates[d].ended == Outcomes(1, 0, 0)
      && d2 in g.s.delegates && g.s.delegates[d2].ended == Outcomes(0, 0, 1)
      && g.s.clock.sec + 1000 <= g.s.delegates[d2].due.sec
  {
    hide Inv;
    HeldIsLive(s);
    ClientIsAlive(s, c);
    xs := [ReadClient, Other(Stop(c)), Other(Start(c, d2, 1_000_000, Sw)), StopClient];
    var t := Apply(s, Stop(c));
    StepKeeps(s, Stop(c));
    var u := Apply(t, Start(c, d2, 1_000_000, Sw));
    RestartEffect(s, c, d2);
    var f1, f2, f3 := Fine(s, Holds(c)), Fine(t, Holds(c)), Fine(u, Holds(c));
    g := FineApply(f3, StopClient);
    RestartStops(c, d2, f3, g);
    hide Apply, StopAs, FineRun, FutureTime;
    FourSteps(Fine(s, Outside), ReadClient, f1, Other(Stop(c)), f2, Other(Start(c, d2, 1_000_000, Sw)), f3, StopClient, g);
  }

  /** The client has stopped its timer and started another. */
  lemma RestartEffect(s: State, c: nat, d2: nat)
    requires Inv(s) && c in s.clients && s.clients[c].phase.Alive? && s.clients[c].timer.Some? && d2 !in s.delegates
    ensures var d, t := s.clients[c].timer.value, Apply(s, Stop(c));
      && d in s.delegates && d != d2 && Enabled(t, Start(c, d2, 1_000_000, Sw))
      && var u := Apply(t, Start(c, d2, 1_000_000, Sw));
      && Inv(u) && u.worker == s.worker && u.clock == s.clock
      && c in u.clients && u.clients[c] == Client(Alive, Some(d2))
      && d in u.delegates && u.delegates[d].client == None && u.delegates[d].ended == Outcomes(1, 0, 0)
      && d2 in u.delegates && u.delegates[d2].ended == Outcomes(0, 0, 0) && u.clock.sec + 1000 <= u.delegates[d2].due.sec
  {
    hide Wf, Placed, Counted, StopAs;
    var d := s.clients[c].timer.value;
    assert ClientLinked(s.clients[c], c, s.delegates) && DelegateLinked(s.delegates[d], d, s.clients);
    StopEffect(s, c, ByStop);
    StopKeeps(s, c, ByStop);
    var t := Apply(s, Stop(c));
    LockIsLive(t, c);
    StepKeeps(t, Start(c, d2, 1_000_000, Sw));
  }

  lemma RestartStops(c: nat, d2: nat, f: Fine, g: Fine)
    requires Inv(f.s) && f.at == Holds(c) && g == DoStopHeld(f.s, c) && f.s.worker.Draining?
    requires c in f.s.clients && f.s.clients[c] == Client(Alive, Some(d2)) && d2 in f.s.delegates && f.s.delegates[d2].ended == Outcomes(0, 0, 0)
    ensures !g.s.fault && g.s.clock == f.s.clock && d2 in g.s.delegates && g.s.delegates[d2].ended == Outcomes(0, 0, 1)
    ensures g.s.delegates[d2].due == f.s.delegates[d2].due
    ensures forall d :: d in f.s.delegates && d != d2 ==> d in g.s.delegates && g.s.delegates[d] == f.s.delegates[d]
  {
    hide Wf, Placed, Counted, StopAs;
    StopEffect(f.s, c, ByCallback);
    StopCommutes(f.s, Forget(f.s).worker, c, ByCallback);
  }
}
