/** Which sensor listens to which, and what each driver was last told: the
    state of NativeSensorManager as values, and what its calls do to it. */
module ListenerGraph {
  import opened Wrappers

  /** One sensor. `deps` are the handles of the background sensors it needs (a
      hardware sensor needs itself), `listeners` the handles of the sensors now
      using it. `switched`, `driverDelay` and `driverLatency` are the arguments
      of the last such calls to its driver. */
  datatype SensorContext = SensorContext(
    enable: bool, oneShot: bool, isVirtual: bool, hasFifo: bool, minDelay: int, maxDelay: int,
    delay: int, latency: int, deps: seq<int>, listeners: seq<int>,
    switched: Option<bool>, driverDelay: Option<int>, driverLatency: Option<int>)

  type Contexts = map<int, SensorContext>

  // ----- well-formed graphs -------------------------------------------------

  predicate Known(ctxs: Contexts, hs: seq<int>) {
    forall i :: 0 <= i < |hs| ==> hs[i] in ctxs
  }

  lemma KnownByMembership(ctxs: Contexts, hs: seq<int>)
    ensures Known(ctxs, hs) <==> forall h :: h in hs ==> h in ctxs
  {
    if forall h :: h in hs ==> h in ctxs {
      forall i | 0 <= i < |hs| ensures hs[i] in ctxs {
        var h := hs[i];
        assert h in hs;
      }
    }
  }

  ghost predicate Closed(ctxs: Contexts) {
    forall h :: h in ctxs ==> Known(ctxs, ctxs[h].deps) && Known(ctxs, ctxs[h].listeners)
  }

  ghost predicate Distinct(s: seq<int>) {
    forall i, j :: 0 <= i < j < |s| ==> s[i] != s[j]
  }

  /** Nothing changed at a sensor but its listeners and its driver. */
  ghost predicate SameSettings(a: SensorContext, b: SensorContext) {
    b == a.(listeners := b.listeners, switched := b.switched, driverDelay := b.driverDelay, driverLatency := b.driverLatency)
  }

  ghost predicate SameSensors(a: Contexts, b: Contexts) {
    a.Keys == b.Keys && forall h :: h in a ==> SameSettings(a[h], b[h])
  }

  // ----- listener lists -----------------------------------------------------

  function Registered(ls: seq<int>, v: int): (r: seq<int>)
    ensures forall u :: u in r <==> u in ls || u == v
  {
    if v in ls then ls else ls + [v]
  }

  function Unregistered(ls: seq<int>, v: int): (r: seq<int>) {
    if ls == [] then [] else if ls[0] == v then ls[1..] else [ls[0]] + Unregistered(ls[1..], v)
  }

  lemma RegisteredDistinct(ls: seq<int>, v: int)
    requires Distinct(ls)
    ensures Distinct(Registered(ls, v))
  {
  }

  lemma {:induction false} UnregisteredIsSubset(ls: seq<int>, v: int)
    ensures forall u :: u in Unregistered(ls, v) ==> u in ls
    ensures forall u :: u in ls && u != v ==> u in Unregistered(ls, v)
  {
    if ls != [] {
      UnregisteredIsSubset(ls[1..], v);
    }
  }

  lemma {:induction false} UnregisteredDistinct(ls: seq<int>, v: int)
    requires Distinct(ls)
    ensures Distinct(Unregistered(ls, v)) && v !in Unregistered(ls, v)
  {
    if ls != [] {
      UnregisteredDistinct(ls[1..], v);
      UnregisteredIsSubset(ls[1..], v);
      assert ls[0] !in ls[1..];
    }
  }

  // ----- the delay and latency a driver gets --------------------------------

  function Delays(ctxs: Contexts, ls: seq<int>): (r: seq<int>)
    requires Known(ctxs, ls)
    ensures |r| == |ls| && forall i :: 0 <= i < |ls| ==> r[i] == ctxs[ls[i]].delay
  {
    seq(|ls|, i requires 0 <= i < |ls| => ctxs[ls[i]].delay)
  }

  function Latencies(ctxs: Contexts, ls: seq<int>): (r: seq<int>)
    requires Known(ctxs, ls)
    ensures |r| == |ls| && forall i :: 0 <= i < |ls| ==> r[i] == ctxs[ls[i]].latency
  {
    seq(|ls|, i requires 0 <= i < |ls| => ctxs[ls[i]].latency)
  }

  /** The loop of syncDelay: a zero delay never replaces what was found. */
  function LowestFrom(low: int, ds: seq<int>): (r: int)
    decreases ds
  {
    if ds == [] then low
    else LowestFrom(if ds[0] != 0 && low > ds[0] then ds[0] else low, ds[1..])
  }

  function LeastFrom(low: int, ds: seq<int>): (r: int)
    decreases ds
  {
    if ds == [] then low
    else LeastFrom(if low > ds[0] then ds[0] else low, ds[1..])
  }

  /** syncDelay starts from the head's delay, zero or not. */
  function EffectiveDelay(ds: seq<int>): (r: int)
    requires ds != []
  {
    LowestFrom(ds[0], ds)
  }

  function EffectiveLatency(ds: seq<int>): (r: int)
    requires ds != []
  {
    LeastFrom(ds[0], ds)
  }

  lemma {:induction false} LowestFromBounds(low: int, ds: seq<int>)
    ensures LowestFrom(low, ds) <= low
    ensures LowestFrom(low, ds) == low || (LowestFrom(low, ds) != 0 && LowestFrom(low, ds) in ds)
    ensures forall d :: d in ds && d != 0 ==> LowestFrom(low, ds) <= d
    decreases ds
  {
    if ds != [] {
      assert ds == [ds[0]] + ds[1..];
      LowestFromBounds(if ds[0] != 0 && low > ds[0] then ds[0] else low, ds[1..]);
    }
  }

  lemma {:induction false} LeastFromBounds(low: int, ds: seq<int>)
    ensures LeastFrom(low, ds) <= low
    ensures LeastFrom(low, ds) == low || LeastFrom(low, ds) in ds
    ensures forall d :: d in ds ==> LeastFrom(low, ds) <= d
    decreases ds
  {
    if ds != [] {
      assert ds == [ds[0]] + ds[1..];
      LeastFromBounds(if low > ds[0] then ds[0] else low, ds[1..]);
    }
  }

  ghost predicate IsLeastNonzero(e: int, ds: seq<int>) {
    e != 0 && e in ds && forall d :: d in ds && d != 0 ==> e <= d
  }

  /** The driver gets the least nonzero delay exactly when the head listener's
      delay is not zero, or some delay is negative. */
  lemma EffectiveDelayIsLeast(ds: seq<int>)
    requires ds != []
    ensures IsLeastNonzero(EffectiveDelay(ds), ds) <==> ds[0] != 0 || exists d :: d in ds && d < 0
    ensures ds[0] == 0 && (forall d :: d in ds ==> d >= 0) ==> EffectiveDelay(ds) == 0
  {
    LowestFromBounds(ds[0], ds);
    if ds[0] != 0 || exists d :: d in ds && d < 0 {
      assert EffectiveDelay(ds) in ds;
    }
  }

  lemma EffectiveLatencyIsLeast(ds: seq<int>)
    requires ds != []
    ensures EffectiveLatency(ds) in ds && forall d :: d in ds ==> EffectiveLatency(ds) <= d
  {
    LeastFromBounds(ds[0], ds);
  }

  // ----- what the calls do --------------------------------------------------

  function SyncDelay(ctxs: Contexts, hw: int): (r: Contexts)
    requires hw in ctxs && Known(ctxs, ctxs[hw].listeners)
  {
    var ls := ctxs[hw].listeners;
    if ls == [] then ctxs else ctxs[hw := ctxs[hw].(driverDelay := Some(EffectiveDelay(Delays(ctxs, ls))))]
  }

  function SyncLatency(ctxs: Contexts, hw: int): (r: Contexts)
    requires hw in ctxs && Known(ctxs, ctxs[hw].listeners)
  {
    var ls := ctxs[hw].listeners;
    if ls == [] || !ctxs[hw].hasFifo then ctxs
    else ctxs[hw := ctxs[hw].(driverLatency := Some(EffectiveLatency(Latencies(ctxs, ls))))]
  }

  /** One turn of the loop in activate: v starts using the background sensor hw. */
  function Attach(ctxs: Contexts, v: int, hw: int): (r: Contexts)
    requires hw in ctxs && v in ctxs && Closed(ctxs)
  {
    var c1 := ctxs[hw := ctxs[hw].(listeners := Registered(ctxs[hw].listeners, v))];
    var c2 := SyncLatency(c1, hw);
    var c3 := c2[hw := c2[hw].(switched := Some(true))];
    SyncDelay(c3, hw)
  }

  /** The same, when v stops using hw. */
  function Detach(ctxs: Contexts, v: int, hw: int): (r: Contexts)
    requires hw in ctxs && v in ctxs && Closed(ctxs)
  {
    UnregisteredIsSubset(ctxs[hw].listeners, v);
    var c1 := ctxs[hw := ctxs[hw].(listeners := Unregistered(ctxs[hw].listeners, v))];
    KnownByMembership(ctxs, ctxs[hw].listeners);
    KnownByMembership(c1, c1[hw].listeners);
    var c2 := if ctxs[hw].listeners != [] then SyncLatency(SyncDelay(c1, hw), hw) else ctxs;
    if c2[hw].listeners == [] then c2[hw := c2[hw].(switched := Some(false))] else c2
  }

  // ----- one background sensor ----------------------------------------------

  ghost predicate DelaySynced(ctxs: Contexts, hw: int)
    requires hw in ctxs && Known(ctxs, ctxs[hw].listeners)
  {
    var c := ctxs[hw];
    c.listeners != [] ==> c.driverDelay == Some(EffectiveDelay(Delays(ctxs, c.listeners)))
  }

  ghost predicate LatencySynced(ctxs: Contexts, hw: int)
    requires hw in ctxs && Known(ctxs, ctxs[hw].listeners)
  {
    var c := ctxs[hw];
    c.listeners != [] && c.hasFifo ==> c.driverLatency == Some(EffectiveLatency(Latencies(ctxs, c.listeners)))
  }

  /** hw's driver was told what its listeners call for. */
  ghost predicate Synced(ctxs: Contexts, hw: int)
    requires hw in ctxs && Known(ctxs, ctxs[hw].listeners)
  {
    DelaySynced(ctxs, hw) && LatencySynced(ctxs, hw)
  }

  /** hw's driver is on while it has listeners and off once it has none; before
      the first call it was told nothing. */
  ghost predicate Switched(c: SensorContext) {
    match c.switched
    case None => c.listeners == []
    case Some(on) => on <==> c.listeners != []
  }

  /** The drivers' part of the invariant. The drivers of virtual and one-shot
      sensors are switched by the sensor's own activation instead. */
  ghost predicate DriversAgree(ctxs: Contexts)
    requires Closed(ctxs)
  {
    forall h :: h in ctxs ==>
      && Distinct(ctxs[h].listeners)
      && Synced(ctxs, h)
      && (!ctxs[h].isVirtual && !ctxs[h].oneShot ==> Switched(ctxs[h]))
  }

  ghost predicate SameNumbers(a: Contexts, b: Contexts) {
    a.Keys == b.Keys && forall h :: h in a ==> a[h].delay == b[h].delay && a[h].latency == b[h].latency
  }

  lemma SameLists(a: Contexts, b: Contexts, ls: seq<int>)
    requires SameNumbers(a, b) && Known(a, ls)
    ensures Delays(a, ls) == Delays(b, ls) && Latencies(a, ls) == Latencies(b, ls)
  {
    forall i | 0 <= i < |ls|
      ensures Delays(a, ls)[i] == Delays(b, ls)[i] && Latencies(a, ls)[i] == Latencies(b, ls)[i]
    {
      var h := ls[i];
      assert h in a && a[h].delay == b[h].delay && a[h].latency == b[h].latency;
    }
  }

  lemma SyncedElsewhere(a: Contexts, b: Contexts, h: int)
    requires Closed(a) && Closed(b) && SameNumbers(a, b) && h in a && a[h] == b[h]
    ensures DelaySynced(a, h) <==> DelaySynced(b, h)
    ensures LatencySynced(a, h) <==> LatencySynced(b, h)
  {
    SameLists(a, b, a[h].listeners);
  }

  lemma OneChangedCloses(ctxs: Contexts, now: Contexts, hw: int, v: int)
    requires Closed(ctxs) && hw in ctxs && v in ctxs && now.Keys == ctxs.Keys
    requires forall h :: h in ctxs && h != hw ==> now[h] == ctxs[h]
    requires now[hw].deps == ctxs[hw].deps
    requires forall u :: u in now[hw].listeners ==> u in ctxs[hw].listeners || u == v
    ensures Closed(now)
  {
    KnownByMembership(ctxs, ctxs[hw].listeners);
    KnownByMembership(now, now[hw].listeners);
    forall h | h in now ensures Known(now, now[h].deps) && Known(now, now[h].listeners) {
      assert Known(ctxs, ctxs[h].deps) && Known(ctxs, ctxs[h].listeners);
    }
  }

  /** What attaching does, and that it keeps the drivers right. */
  lemma AttachKeeps(ctxs: Contexts, v: int, hw: int)
    requires Closed(ctxs) && hw in ctxs && v in ctxs && DriversAgree(ctxs)
    ensures var r := Attach(ctxs, v, hw);
      && SameSensors(ctxs, r) && Closed(r) && DriversAgree(r)
      && r[hw].listeners == Registered(ctxs[hw].listeners, v)
      && forall h :: h in ctxs && h != hw ==> r[h] == ctxs[h]
  {
    hide EffectiveDelay, EffectiveLatency;
    var r := Attach(ctxs, v, hw);
    OneChangedCloses(ctxs, r, hw, v);
    AttachSyncs(ctxs, v, hw);
    RegisteredDistinct(ctxs[hw].listeners, v);
    forall h | h in r && h != hw ensures Synced(r, h) {
      SyncedElsewhere(ctxs, r, h);
    }
  }

  lemma AttachSyncs(ctxs: Contexts, v: int, hw: int)
    requires Closed(ctxs) && hw in ctxs && v in ctxs && Closed(Attach(ctxs, v, hw))
    ensures Synced(Attach(ctxs, v, hw), hw)
  {
    hide EffectiveDelay, EffectiveLatency;
    var c1 := ctxs[hw := ctxs[hw].(listeners := Registered(ctxs[hw].listeners, v))];
    var c2 := SyncLatency(c1, hw);
    var c3 := c2[hw := c2[hw].(switched := Some(true))];
    var r := Attach(ctxs, v, hw);
    SameLists(c1, r, r[hw].listeners);
    SameLists(c3, r, r[hw].listeners);
  }

  lemma {:induction false} DetachKeeps(ctxs: Contexts, v: int, hw: int)
    requires Closed(ctxs) && hw in ctxs && v in ctxs && DriversAgree(ctxs)
    ensures var r := Detach(ctxs, v, hw);
      && SameSensors(ctxs, r) && Closed(r) && DriversAgree(r)
      && r[hw].listeners == Unregistered(ctxs[hw].listeners, v)
      && forall h :: h in ctxs && h != hw ==> r[h] == ctxs[h]
  {
    hide EffectiveDelay, EffectiveLatency;
    var r := Detach(ctxs, v, hw);
    UnregisteredIsSubset(ctxs[hw].listeners, v);
    UnregisteredDistinct(ctxs[hw].listeners, v);
    OneChangedCloses(ctxs, r, hw, v);
    DetachSyncs(ctxs, v, hw);
    forall h | h in r && h != hw ensures Synced(r, h) {
      SyncedElsewhere(ctxs, r, h);
    }
  }

  lemma DetachSyncs(ctxs: Contexts, v: int, hw: int)
    requires Closed(ctxs) && hw in ctxs && v in ctxs && Closed(Detach(ctxs, v, hw))
    ensures Synced(Detach(ctxs, v, hw), hw)
  {
    hide EffectiveDelay, EffectiveLatency;
    UnregisteredIsSubset(ctxs[hw].listeners, v);
    var c1 := ctxs[hw := ctxs[hw].(listeners := Unregistered(ctxs[hw].listeners, v))];
    var r := Detach(ctxs, v, hw);
    if r[hw].listeners != [] {
      SameLists(c1, r, r[hw].listeners);
      SameLists(SyncDelay(c1, hw), r, r[hw].listeners);
    }
  }
}
