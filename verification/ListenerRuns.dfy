/** The calls a sensor client makes, activate, setDelay and batch, and what
    holds of the listener graph after any sequence of them. */
module ListenerRuns {
  import opened Wrappers
  import opened ListenerGraph

  // ----- activate -----------------------------------------------------------

  function Use(ctxs: Contexts, v: int, hw: int, en: bool): (r: Contexts)
    requires hw in ctxs && v in ctxs && Closed(ctxs)
  {
    if en then Attach(ctxs, v, hw) else Detach(ctxs, v, hw)
  }

  lemma UseCloses(ctxs: Contexts, v: int, hw: int, en: bool)
    requires hw in ctxs && v in ctxs && Closed(ctxs)
    ensures Use(ctxs, v, hw, en).Keys == ctxs.Keys && Closed(Use(ctxs, v, hw, en))
  {
    hide EffectiveDelay, EffectiveLatency, Delays, Latencies;
    UnregisteredIsSubset(ctxs[hw].listeners, v);
    OneChangedCloses(ctxs, Use(ctxs, v, hw, en), hw, v);
  }

  lemma UseKeeps(ctxs: Contexts, v: int, hw: int, en: bool)
    requires hw in ctxs && v in ctxs && Closed(ctxs) && DriversAgree(ctxs)
    ensures var r := Use(ctxs, v, hw, en);
      && SameSensors(ctxs, r) && Closed(r) && DriversAgree(r)
      && (forall h :: h in ctxs && h != hw ==> r[h] == ctxs[h])
      && (forall u :: u in r[hw].listeners <==> if u == v then en else u in ctxs[hw].listeners)
  {
    hide Attach, Detach, DriversAgree;
    if en {
      AttachKeeps(ctxs, v, hw);
    } else {
      DetachKeeps(ctxs, v, hw);
      assert Distinct(ctxs[hw].listeners) by {
        DistinctListeners(ctxs, hw);
      }
      UnregisteredDistinct(ctxs[hw].listeners, v);
      UnregisteredIsSubset(ctxs[hw].listeners, v);
    }
  }

  lemma DistinctListeners(ctxs: Contexts, h: int)
    requires Closed(ctxs) && DriversAgree(ctxs) && h in ctxs
    ensures Distinct(ctxs[h].listeners)
  {
  }

  /** The loop of activate over the background sensors. */
  function UseAll(ctxs: Contexts, v: int, hws: seq<int>, en: bool): (r: Contexts)
    requires v in ctxs && Closed(ctxs) && Known(ctxs, hws)
    ensures r.Keys == ctxs.Keys && Closed(r)
    decreases hws
  {
    if hws == [] then ctxs else
      UseCloses(ctxs, v, hws[0], en);
      UseAll(Use(ctxs, v, hws[0], en), v, hws[1..], en)
  }

  lemma {:induction false} UseAllKeeps(ctxs: Contexts, v: int, hws: seq<int>, en: bool)
    requires v in ctxs && Closed(ctxs) && Known(ctxs, hws) && DriversAgree(ctxs)
    ensures var r := UseAll(ctxs, v, hws, en);
      && SameSensors(ctxs, r) && Closed(r) && DriversAgree(r)
      && forall h, u :: h in ctxs ==>
           (u in r[h].listeners <==> if u == v && h in hws then en else u in ctxs[h].listeners)
    decreases hws
  {
    hide Use, DriversAgree;
    if hws != [] {
      var c := Use(ctxs, v, hws[0], en);
      UseKeeps(ctxs, v, hws[0], en);
      UseAllKeeps(c, v, hws[1..], en);
      assert hws == [hws[0]] + hws[1..];
    }
  }

  function Activate(ctxs: Contexts, v: int, en: bool): (r: Contexts)
    requires Closed(ctxs)
  {
    if v !in ctxs then ctxs else
      var c1 := ctxs[v := ctxs[v].(enable := en)];
      assert Closed(c1) by {
        OneChangedCloses(ctxs, c1, v, v);
      }
      if c1[v].oneShot then c1[v := c1[v].(switched := Some(en))]
      else
        var c2 := UseAll(c1, v, c1[v].deps, en);
        if c2[v].isVirtual then c2[v := c2[v].(switched := Some(en))] else c2
  }

  // ----- setDelay and batch -------------------------------------------------

  function Sync(ctxs: Contexts, hw: int, both: bool): (r: Contexts)
    requires hw in ctxs && Closed(ctxs)
  {
    if both then SyncLatency(SyncDelay(ctxs, hw), hw) else SyncDelay(ctxs, hw)
  }

  lemma SyncCloses(ctxs: Contexts, hw: int, both: bool)
    requires hw in ctxs && Closed(ctxs)
    ensures Sync(ctxs, hw, both).Keys == ctxs.Keys && Closed(Sync(ctxs, hw, both))
  {
    OneChangedCloses(ctxs, Sync(ctxs, hw, both), hw, hw);
  }

  function SyncAll(ctxs: Contexts, hws: seq<int>, both: bool): (r: Contexts)
    requires Closed(ctxs) && Known(ctxs, hws)
    ensures r.Keys == ctxs.Keys && Closed(r)
    decreases hws
  {
    if hws == [] then ctxs else
      SyncCloses(ctxs, hws[0], both);
      SyncAll(Sync(ctxs, hws[0], both), hws[1..], both)
  }

  /** Only what the drivers were told has changed. */
  ghost predicate OnlyTold(a: Contexts, b: Contexts) {
    a.Keys == b.Keys && forall h :: h in a ==>
      b[h] == a[h].(driverDelay := b[h].driverDelay, driverLatency := b[h].driverLatency)
  }

  lemma SyncSyncs(ctxs: Contexts, hw: int, both: bool)
    requires hw in ctxs && Closed(ctxs) && Closed(Sync(ctxs, hw, both))
    ensures var r := Sync(ctxs, hw, both);
      && OnlyTold(ctxs, r)
      && DelaySynced(r, hw) && (both || LatencySynced(ctxs, hw) ==> LatencySynced(r, hw))
      && forall h :: h in ctxs && h != hw ==> r[h] == ctxs[h]
  {
    hide EffectiveDelay, EffectiveLatency;
    var ls := ctxs[hw].listeners;
    var c1 := SyncDelay(ctxs, hw);
    SameLists(ctxs, c1, ls);
    SameLists(ctxs, Sync(ctxs, hw, both), ls);
  }

  /** Every sensor on the list is told; the others stay as they were told. */
  lemma {:induction false} SyncAllSyncs(ctxs: Contexts, hws: seq<int>, both: bool)
    requires Closed(ctxs) && Known(ctxs, hws)
    ensures var r := SyncAll(ctxs, hws, both);
      && OnlyTold(ctxs, r)
      && (forall h :: h in ctxs && (h in hws || DelaySynced(ctxs, h)) ==> DelaySynced(r, h))
      && (forall h :: h in ctxs && ((both && h in hws) || LatencySynced(ctxs, h)) ==> LatencySynced(r, h))
    decreases hws
  {
    hide DelaySynced, LatencySynced, Sync;
    if hws != [] {
      SyncCloses(ctxs, hws[0], both);
      var c := Sync(ctxs, hws[0], both);
      SyncSyncs(ctxs, hws[0], both);
      SyncAllSyncs(c, hws[1..], both);
      assert hws == [hws[0]] + hws[1..];
      forall h | h in ctxs && h != hws[0]
        ensures DelaySynced(ctxs, h) <==> DelaySynced(c, h)
        ensures LatencySynced(ctxs, h) <==> LatencySynced(c, h)
      {
        SyncedElsewhere(ctxs, c, h);
      }
    }
  }

  function Retune(ctxs: Contexts, v: int, delay: int, latency: int, both: bool): (r: Contexts)
    requires Closed(ctxs) && v in ctxs
  {
    var c1 := ctxs[v := ctxs[v].(delay := delay, latency := latency)];
    assert Closed(c1) by {
      OneChangedCloses(ctxs, c1, v, v);
    }
    SyncAll(c1, c1[v].deps, both)
  }

  /** A 32-bit int that has overflowed. */
  function Wrap32(x: int): (r: int)
    ensures -0x8000_0000 <= r < 0x8000_0000
    ensures -0x8000_0000 <= x < 0x8000_0000 ==> r == x
  {
    (x + 0x8000_0000) % 0x1_0000_0000 - 0x8000_0000
  }

  /** The sensor's minimum, given in microseconds, as setDelay computes it: a product of two ints. */
  function MinNs(c: SensorContext): int {
    Wrap32(c.minDelay * 1000)
  }

  /** setDelay refuses zero, ignores one-shot sensors and raises what is below
      the minimum. */
  function SetDelay(ctxs: Contexts, v: int, ns: int): (r: Contexts)
    requires Closed(ctxs)
  {
    if v !in ctxs || ns == 0 || ctxs[v].oneShot then ctxs
    else Retune(ctxs, v, if ns < MinNs(ctxs[v]) then MinNs(ctxs[v]) else ns, ctxs[v].latency, false)
  }

  function Batch(ctxs: Contexts, v: int, sample: int, latency: int): (r: Contexts)
    requires Closed(ctxs)
  {
    if (latency != 0 && latency < sample) || v !in ctxs || ctxs[v].oneShot then ctxs
    else Retune(ctxs, v, sample, latency, true)
  }

  // ----- the invariant ------------------------------------------------------

  ghost predicate Uses(c: SensorContext, hw: int) {
    c.enable && !c.oneShot && hw in c.deps
  }

  /** v is on hw's listener list exactly when v is enabled, is not one-shot and
      depends on hw. */
  ghost predicate Linked(ctxs: Contexts) {
    forall h, u :: h in ctxs && u in ctxs ==> (u in ctxs[h].listeners <==> Uses(ctxs[u], h))
  }

  ghost predicate Inv(ctxs: Contexts) {
    Closed(ctxs) && Linked(ctxs) && DriversAgree(ctxs)
  }

  /** As getSensorListInner leaves it: nothing enabled, nobody listening, and no
      call made to any driver yet. */
  ghost predicate Initial(ctxs: Contexts) {
    && (forall h :: h in ctxs ==> Known(ctxs, ctxs[h].deps))
    && (forall h :: h in ctxs ==> !ctxs[h].enable && ctxs[h].listeners == [] && ctxs[h].switched == None)
  }

  lemma InitialInv(ctxs: Contexts)
    requires Initial(ctxs)
    ensures Inv(ctxs)
  {
  }

  lemma TouchedAgrees(ctxs: Contexts, now: Contexts, v: int)
    requires Closed(ctxs) && DriversAgree(ctxs) && v in ctxs && Closed(now) && now.Keys == ctxs.Keys
    requires forall h :: h in ctxs && h != v ==> now[h] == ctxs[h]
    requires now[v] == ctxs[v].(enable := now[v].enable, switched := now[v].switched)
    requires now[v].switched == ctxs[v].switched || now[v].oneShot || now[v].isVirtual
    ensures DriversAgree(now)
  {
    hide EffectiveDelay, EffectiveLatency, Delays, Latencies;
    forall h | h in now ensures Synced(now, h) {
      SameLists(ctxs, now, now[h].listeners);
    }
  }

  /** A one-shot sensor listens to nobody. */
  lemma OneShotKeeps(ctxs: Contexts, c1: Contexts, v: int, en: bool)
    requires Inv(ctxs) && v in ctxs && ctxs[v].oneShot && c1 == ctxs[v := ctxs[v].(enable := en, switched := Some(en))]
    ensures Inv(c1)
  {
    hide DriversAgree;
    OneChangedCloses(ctxs, c1, v, v);
    TouchedAgrees(ctxs, c1, v);
    forall h, u | h in c1 && u in c1 ensures u in c1[h].listeners <==> Uses(c1[u], h) {
      assert u in ctxs[h].listeners <==> Uses(ctxs[u], h);
    }
  }

  lemma NotedKeeps(c2: Contexts, r: Contexts, v: int, en: bool)
    requires Closed(c2) && DriversAgree(c2) && Linked(c2) && v in c2
    requires r == if c2[v].isVirtual then c2[v := c2[v].(switched := Some(en))] else c2
    ensures Inv(r)
  {
    hide DriversAgree;
    OneChangedCloses(c2, r, v, v);
    TouchedAgrees(c2, r, v);
    forall h, u | h in r && u in r ensures u in r[h].listeners <==> Uses(r[u], h) {
      assert u in c2[h].listeners <==> Uses(c2[u], h);
    }
  }

  lemma ActivateKeeps(ctxs: Contexts, v: int, en: bool)
    requires Inv(ctxs)
    ensures Inv(Activate(ctxs, v, en))
  {
    hide DriversAgree, UseAll, Known, Linked, Uses;
    if v in ctxs {
      var c1 := ctxs[v := ctxs[v].(enable := en)];
      OneChangedCloses(ctxs, c1, v, v);
      var r := Activate(ctxs, v, en);
      if c1[v].oneShot {
        assert r == ctxs[v := ctxs[v].(enable := en, switched := Some(en))];
        OneShotKeeps(ctxs, r, v, en);
      } else {
        TouchedAgrees(ctxs, c1, v);
        UseAllKeeps(c1, v, c1[v].deps, en);
        var c2 := UseAll(c1, v, c1[v].deps, en);
        LinkedAfter(ctxs, c1, c2, v, en);
        NotedKeeps(c2, r, v, en);
      }
    }
  }

  lemma LinkedAfter(ctxs: Contexts, c1: Contexts, c2: Contexts, v: int, en: bool)
    requires Linked(ctxs) && v in ctxs && c1 == ctxs[v := ctxs[v].(enable := en)] && !c1[v].oneShot
    requires SameSensors(c1, c2)
    requires forall h, u :: h in c1 ==>
      (u in c2[h].listeners <==> if u == v && h in c1[v].deps then en else u in c1[h].listeners)
    ensures Linked(c2)
  {
    forall h, u | h in c2 && u in c2 ensures u in c2[h].listeners <==> Uses(c2[u], h) {
      assert u in ctxs[h].listeners <==> Uses(ctxs[u], h);
      assert SameSettings(c1[u], c2[u]);
    }
  }

  /** Only the sensors v depends on can have v as a listener, so telling those
      is enough. */
  lemma RetuneKeeps(ctxs: Contexts, v: int, delay: int, latency: int, both: bool)
    requires Inv(ctxs) && v in ctxs && (both || latency == ctxs[v].latency)
    ensures Inv(Retune(ctxs, v, delay, latency, both))
  {
    hide SyncAll, DelaySynced, LatencySynced, Distinct, Switched;
    var c1 := ctxs[v := ctxs[v].(delay := delay, latency := latency)];
    OneChangedCloses(ctxs, c1, v, v);
    SyncAllSyncs(c1, c1[v].deps, both);
    forall h | h in ctxs
      ensures h in c1[v].deps || DelaySynced(c1, h)
      ensures (both && h in c1[v].deps) || LatencySynced(c1, h)
    {
      RetuneSpares(ctxs, c1, v, h);
    }
    ToldKeeps(ctxs, c1, Retune(ctxs, v, delay, latency, both), v);
  }

  lemma ToldKeeps(ctxs: Contexts, c1: Contexts, r: Contexts, v: int)
    requires Inv(ctxs) && v in ctxs && v in c1 && Closed(r)
    requires c1 == ctxs[v := ctxs[v].(delay := c1[v].delay, latency := c1[v].latency)]
    requires OnlyTold(c1, r) && forall h :: h in r ==> Synced(r, h)
    ensures Inv(r)
  {
    hide Synced, Distinct;
    forall h, u | h in r && u in r ensures u in r[h].listeners <==> Uses(r[u], h) {
      assert u in ctxs[h].listeners <==> Uses(ctxs[u], h);
    }
  }

  lemma RetuneSpares(ctxs: Contexts, c1: Contexts, v: int, h: int)
    requires Inv(ctxs) && v in ctxs && h in ctxs && v in c1 && Closed(c1)
    requires c1 == ctxs[v := ctxs[v].(delay := c1[v].delay, latency := c1[v].latency)]
    ensures h in c1[v].deps || DelaySynced(c1, h)
    ensures h !in c1[v].deps || c1[v].latency == ctxs[v].latency ==> LatencySynced(c1, h)
  {
    hide EffectiveDelay, EffectiveLatency;
    var ls := ctxs[h].listeners;
    assert Synced(ctxs, h);
    if h !in c1[v].deps {
      assert v !in ls by {
        assert !Uses(ctxs[v], h);
      }
      assert Delays(ctxs, ls) == Delays(c1, ls);
    }
    assert c1[v].latency == ctxs[v].latency || v !in ls ==> Latencies(ctxs, ls) == Latencies(c1, ls);
  }

  // ----- what a call asks for ---------------------------------------------

  /** Activating a sensor sets its own flag and no sensor's settings; the driver of a virtual or one-shot sensor is
      told so itself. */
  lemma ActivateMeans(ctxs: Contexts, v: int, en: bool)
    requires Inv(ctxs) && v in ctxs
    ensures var r := Activate(ctxs, v, en);
      && v in r && r[v].enable == en && SameSensors(ctxs[v := ctxs[v].(enable := en)], r)
      && (r[v].isVirtual || r[v].oneShot ==> r[v].switched == Some(en))
  {
    hide DriversAgree, UseAll, Linked;
    var c1 := ctxs[v := ctxs[v].(enable := en)];
    OneChangedCloses(ctxs, c1, v, v);
    TouchedAgrees(ctxs, c1, v);
    UseAllKeeps(c1, v, c1[v].deps, en);
  }

  lemma RetuneMeans(ctxs: Contexts, v: int, delay: int, latency: int, both: bool)
    requires Closed(ctxs) && v in ctxs
    ensures var r := Retune(ctxs, v, delay, latency, both);
      v in r && OnlyTold(ctxs[v := ctxs[v].(delay := delay, latency := latency)], r)
  {
    hide SyncAll, DelaySynced, LatencySynced;
    var c1 := ctxs[v := ctxs[v].(delay := delay, latency := latency)];
    OneChangedCloses(ctxs, c1, v, v);
    SyncAllSyncs(c1, c1[v].deps, both);
  }

  /** An accepted setDelay gives the sensor the delay asked for, raised to the minimum, and changes no other setting. */
  lemma SetDelayMeans(ctxs: Contexts, v: int, ns: int)
    requires Closed(ctxs) && v in ctxs && ns != 0 && !ctxs[v].oneShot
    ensures var r := SetDelay(ctxs, v, ns);
      && v in r && r[v].delay >= ns && r[v].delay >= MinNs(ctxs[v])
      && (r[v].delay == ns || r[v].delay == MinNs(ctxs[v]))
      && OnlyTold(ctxs[v := ctxs[v].(delay := r[v].delay)], r)
  {
    hide Retune, MinNs;
    var d := if ns < MinNs(ctxs[v]) then MinNs(ctxs[v]) else ns;
    RetuneMeans(ctxs, v, d, ctxs[v].latency, false);
    assert ctxs[v].(delay := d, latency := ctxs[v].latency) == ctxs[v].(delay := d);
  }

  /** An accepted batch gives the sensor the sample period as its delay and the latency as its latency, and changes
      no other setting. */
  lemma BatchMeans(ctxs: Contexts, v: int, sample: int, latency: int)
    requires Closed(ctxs) && v in ctxs && !ctxs[v].oneShot && (latency == 0 || latency >= sample)
    ensures var r := Batch(ctxs, v, sample, latency);
      && v in r && r[v].delay == sample && r[v].latency == latency
      && OnlyTold(ctxs[v := ctxs[v].(delay := sample, latency := latency)], r)
  {
    hide Retune;
    RetuneMeans(ctxs, v, sample, latency, true);
  }

  /** Calls for an unknown sensor, with a zero delay or too small a latency, and rates for a one-shot sensor, change
      nothing. */
  lemma RefusedChangesNothing(ctxs: Contexts, v: int, en: bool, ns: int, latency: int)
    requires Closed(ctxs)
    ensures v !in ctxs ==> Activate(ctxs, v, en) == SetDelay(ctxs, v, ns) == Batch(ctxs, v, ns, latency) == ctxs
    ensures v in ctxs && ctxs[v].oneShot ==> SetDelay(ctxs, v, ns) == Batch(ctxs, v, ns, latency) == ctxs
    ensures SetDelay(ctxs, v, 0) == ctxs
    ensures latency != 0 && latency < ns ==> Batch(ctxs, v, ns, latency) == ctxs
  {
  }

  /** The sensor's own minimum is kept for every delay asked for, exactly if it fits an int in nanoseconds. */
  lemma MinimumKeptExactly(ctxs: Contexts, v: int)
    requires Closed(ctxs) && v in ctxs && !ctxs[v].oneShot
    ensures (forall ns :: ns != 0 ==> v in SetDelay(ctxs, v, ns) && SetDelay(ctxs, v, ns)[v].delay >= ctxs[v].minDelay * 1000)
       <==> ctxs[v].minDelay * 1000 < 0x8000_0000
  {
    hide SetDelay, OnlyTold;
    var least := ctxs[v].minDelay * 1000;
    if least < 0x8000_0000 {
      WrapRaises(least);
      forall ns | ns != 0 ensures v in SetDelay(ctxs, v, ns) && SetDelay(ctxs, v, ns)[v].delay >= least {
        SetDelayMeans(ctxs, v, ns);
      }
    } else {
      var ns := if MinNs(ctxs[v]) == 0 then 1 else MinNs(ctxs[v]);
      SetDelayMeans(ctxs, v, ns);
      assert SetDelay(ctxs, v, ns)[v].delay < least;
    }
  }

  lemma WrapRaises(x: int)
    requires x < 0x8000_0000
    ensures Wrap32(x) >= x
  {
  }

  // ----- runs ---------------------------------------------------------------

  datatype Call = ActivateCall(handle: int, en: bool) | SetDelayCall(handle: int, ns: int)
                | BatchCall(handle: int, sample: int, maxLatency: int)

  function Step(ctxs: Contexts, call: Call): (r: Contexts)
    requires Closed(ctxs)
  {
    match call
    case ActivateCall(h, en) => Activate(ctxs, h, en)
    case SetDelayCall(h, ns) => SetDelay(ctxs, h, ns)
    case BatchCall(h, sample, latency) => Batch(ctxs, h, sample, latency)
  }

  lemma StepKeeps(ctxs: Contexts, call: Call)
    requires Inv(ctxs)
    ensures Inv(Step(ctxs, call))
  {
    hide Inv, Activate, Retune, Closed;
    InvCloses(ctxs);
    match call
    case ActivateCall(h, en) => ActivateKeeps(ctxs, h, en);
    case SetDelayCall(h, ns) =>
      if !(h !in ctxs || ns == 0 || ctxs[h].oneShot) {
        RetuneKeeps(ctxs, h, if ns < MinNs(ctxs[h]) then MinNs(ctxs[h]) else ns, ctxs[h].latency, false);
      }
    case BatchCall(h, sample, latency) =>
      if !((latency != 0 && latency < sample) || h !in ctxs || ctxs[h].oneShot) {
        RetuneKeeps(ctxs, h, sample, latency, true);
      }
  }

  lemma InvCloses(ctxs: Contexts)
    requires Inv(ctxs)
    ensures Closed(ctxs)
  {
  }

  lemma InvSynced(ctxs: Contexts, hw: int)
    requires Inv(ctxs) && hw in ctxs
    ensures Closed(ctxs) && Synced(ctxs, hw)
  {
  }

  ghost function Run(ctxs: Contexts, calls: seq<Call>): (r: Contexts)
    requires Inv(ctxs)
    decreases calls
  {
    if calls == [] then ctxs else
      StepKeeps(ctxs, calls[0]);
      Run(Step(ctxs, calls[0]), calls[1..])
  }

  /** After any sequence of calls: who listens to whom, what each driver was
      last told, and whether each driver is on. */
  lemma {:induction false} RunKeeps(ctxs: Contexts, calls: seq<Call>)
    requires Inv(ctxs)
    ensures Inv(Run(ctxs, calls))
    decreases calls
  {
    hide Inv, Step;
    InvCloses(ctxs);
    if calls != [] {
      StepKeeps(ctxs, calls[0]);
      RunKeeps(Step(ctxs, calls[0]), calls[1..]);
    }
  }

  /** In every state reached from start-up, v listens to hw exactly when it is
      enabled, is not one-shot and depends on hw; nobody listens twice. */
  lemma {:induction false} ListenersExact(ctxs: Contexts, calls: seq<Call>, hw: int, v: int)
    requires Initial(ctxs) && Inv(ctxs)
    ensures var r := Run(ctxs, calls);
      hw in r && v in r ==>
        && Distinct(r[hw].listeners)
        && (v in r[hw].listeners <==> r[v].enable && !r[v].oneShot && hw in r[v].deps)
  {
    RunKeeps(ctxs, calls);
  }

  /** In every such state a sensor with listeners has been told a delay, which is
      the least nonzero one exactly when its head listener's delay is not zero or
      some delay is negative; the latency it was told is the least. A hardware
      sensor's driver is on exactly while it has listeners, once it was told. */
  lemma {:induction false} DriversTold(ctxs: Contexts, calls: seq<Call>, hw: int)
    requires Initial(ctxs) && Inv(ctxs)
    ensures var r := Run(ctxs, calls);
      hw in r ==>
        && Closed(r)
        && var c := r[hw];
        && (c.listeners != [] ==>
              var ds, ts := Delays(r, c.listeners), Latencies(r, c.listeners);
              && c.driverDelay.Some?
              && (IsLeastNonzero(c.driverDelay.value, ds) <==> ds[0] != 0 || exists d :: d in ds && d < 0)
              && (c.hasFifo ==> c.driverLatency.Some? && c.driverLatency.value in ts
                                && forall t :: t in ts ==> c.driverLatency.value <= t))
        && (!c.isVirtual && !c.oneShot ==> c.switched == Some(c.listeners != []) || (c.switched == None && c.listeners == []))
  {
    hide EffectiveDelay, EffectiveLatency;
    RunKeeps(ctxs, calls);
    var r := Run(ctxs, calls);
    if hw in r {
      assert Synced(r, hw);
      var c := r[hw];
      if c.listeners != [] {
        EffectiveDelayIsLeast(Delays(r, c.listeners));
        EffectiveLatencyIsLeast(Latencies(r, c.listeners));
      }
    }
  }

  // ----- a zero delay at the head -------------------------------------------

  function Blank(virt: bool, deps: seq<int>): (c: SensorContext) {
    SensorContext(false, false, virt, false, 0, 0, 0, 0, deps, [], None, None, None)
  }

  /** A sensor with one background sensor goes to the end of that one's list. */
  lemma AttachesLast(ctxs: Contexts, v: int, hw: int)
    requires Inv(ctxs) && v in ctxs && !ctxs[v].oneShot && ctxs[v].deps == [hw]
    ensures hw in ctxs && hw in Activate(ctxs, v, true) && Activate(ctxs, v, true)[hw].listeners == Registered(ctxs[hw].listeners, v)
  {
    hide Attach, DriversAgree, Linked;
    var c1 := ctxs[v := ctxs[v].(enable := true)];
    OneChangedCloses(ctxs, c1, v, v);
    TouchedAgrees(ctxs, c1, v);
    assert Known(ctxs, ctxs[v].deps) && ctxs[v].deps[0] == hw;
    AttachKeeps(c1, v, hw);
    var c2 := Attach(c1, v, hw);
    assert [hw][1..] == [] && UseAll(c2, v, [], true) == c2;
    assert UseAll(c1, v, [hw], true) == c2 by {
      UseCloses(c1, v, hw, true);
    }
  }

  /** A virtual sensor is activated before its delay is set, and then the
      hardware sensor it uses is asked for 20 ms: the driver is told 0. */
  lemma ZeroHeadWins()
    ensures var start := map[1 := Blank(false, [1]), 2 := Blank(true, [1])];
      && Initial(start) && Inv(start)
      && var r := Run(start, [ActivateCall(2, true), ActivateCall(1, true), SetDelayCall(1, 20_000_000)]);
      && 1 in r && r[1].listeners == [2, 1]
      && r[1].driverDelay == Some(0)
  {
    hide Inv, Activate, SetDelay, OnlyTold, SameSensors, LowestFrom;
    var start := map[1 := Blank(false, [1]), 2 := Blank(true, [1])];
    InitialInv(start);
    InvCloses(start);
    var s1 := Activate(start, 2, true);
    ActivateKeeps(start, 2, true);
    InvCloses(s1);
    AttachesLast(start, 2, 1);
    ActivateMeans(start, 2, true);
    StaysSame(start, 2, s1, 1);
    StaysSame(start, 2, s1, 2);
    var s2 := Activate(s1, 1, true);
    ActivateKeeps(s1, 1, true);
    InvCloses(s2);
    AttachesLast(s1, 1, 1);
    ActivateMeans(s1, 1, true);
    StaysSame(s1, 1, s2, 1);
    StaysSame(s1, 1, s2, 2);
    var r := SetDelay(s2, 1, 20_000_000);
    StepKeeps(s2, SetDelayCall(1, 20_000_000));
    SetDelayMeans(s2, 1, 20_000_000);
    ToldSame(s2, 1, r);
    RunThree(start, ActivateCall(2, true), s1, ActivateCall(1, true), s2, SetDelayCall(1, 20_000_000), r);
    InvSynced(r, 1);
    var ds := Delays(r, r[1].listeners);
    assert r[1].listeners == [2, 1] && ds == [0, 20_000_000];
    EffectiveDelayIsLeast(ds);
  }

  lemma StaysSame(ctxs: Contexts, v: int, r: Contexts, h: int)
    requires v in ctxs && h in ctxs && SameSensors(ctxs[v := ctxs[v].(enable := true)], r)
    ensures h in r && r[h].delay == ctxs[h].delay && r[h].deps == ctxs[h].deps && r[h].oneShot == ctxs[h].oneShot && r[h].minDelay == ctxs[h].minDelay
  {
  }

  lemma ToldSame(ctxs: Contexts, v: int, r: Contexts)
    requires v in ctxs && v in r && OnlyTold(ctxs[v := ctxs[v].(delay := r[v].delay)], r)
    ensures r.Keys == ctxs.Keys && r[v].listeners == ctxs[v].listeners && forall h :: h in ctxs && h != v ==> r[h].delay == ctxs[h].delay
  {
  }

  lemma {:induction false} RunThree(c0: Contexts, x0: Call, c1: Contexts, x1: Call, c2: Contexts, x2: Call, c3: Contexts)
    requires Inv(c0) && Closed(c0) && Closed(c1) && Closed(c2) && c1 == Step(c0, x0) && c2 == Step(c1, x1) && c3 == Step(c2, x2)
    ensures Run(c0, [x0, x1, x2]) == c3
  {
    hide Inv, Step, Closed;
    StepKeeps(c0, x0);
    StepKeeps(c1, x1);
    StepKeeps(c2, x2);
    assert [x0, x1, x2][1..] == [x1, x2] && [x1, x2][1..] == [x2] && [x2][1..] == [];
    assert Run(c3, []) == c3;
    assert Run(c2, [x2]) == c3;
    assert Run(c1, [x1, x2]) == c3;
  }
}
