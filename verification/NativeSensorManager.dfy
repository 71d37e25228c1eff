/** sensors/NativeSensorManager.cpp: the loops that keep the listener lists and
    program the drivers, proved against the listener graph. */
module NativeSensorManager {
  import opened Wrappers
  import opened ListenerGraph
  import opened ListenerRuns
  import opened Errno

  class NativeSensorManager {
    /** The sensors by handle. */
    var context: Contexts

    ghost predicate Valid()
      reads this
    {
      Inv(context)
    }

    /** Adds a background sensor to a virtual sensor during start-up, once, and narrows the sensor's maximum delay.
        For an unknown handle the code reads through a NULL pointer: no answer comes back. */
    method AddDependency(v: int, handle: int) returns (r: Option<int>)
      requires Initial(context) && v in context
      modifies this
      ensures Initial(context) && Valid()
      ensures r == None <==> old(context)[v].isVirtual && handle !in old(context)
      ensures r.Some? ==> r.value == if old(context)[v].isVirtual then 0 else -1
      ensures r != Some(0) ==> context == old(context)
      ensures r == Some(0) ==>
        var was := old(context);
        && context == was[v := was[v].(deps := Registered(was[v].deps, handle),
                                       maxDelay := Narrowed(was[v].maxDelay, was[handle].maxDelay))]
        && (Distinct(was[v].deps) ==> Distinct(context[v].deps))
    {
      InitialInv(context);
      if !context[v].isVirtual {
        return Some(-1);
      }
      if handle !in context {
        return None;
      }
      NarrowMaxDelay(v, handle);
      var deps := context[v].deps;
      for i := 0 to |deps|
        invariant handle !in deps[..i]
      {
        if deps[i] == handle {
          return Some(0);
        }
      }
      RegisteredDistinctIf(deps, handle);
      context := context[v := context[v].(deps := deps + [handle])];
      InitialInv(context);
      r := Some(0);
    }

    method NarrowMaxDelay(v: int, handle: int)
      requires Initial(context) && v in context && handle in context
      modifies this
      ensures Initial(context) && Valid()
      ensures context == old(context)[v := old(context)[v].(maxDelay := Narrowed(old(context)[v].maxDelay, old(context)[handle].maxDelay))]
    {
      var own, dep := context[v].maxDelay, context[handle].maxDelay;
      if own == 0 {
        context := context[v := context[v].(maxDelay := dep)];
      } else {
        context := context[v := context[v].(maxDelay := if dep < own then dep else own)];
      }
      InitialInv(context);
    }

    method RegisterListener(hw: int, virt: int) returns (r: int)
      requires hw in context
      modifies this
      ensures r == if virt in old(context)[hw].listeners then -1 else 0
      ensures context == old(context)[hw := old(context)[hw].(listeners := Registered(old(context)[hw].listeners, virt))]
    {
      var ls := context[hw].listeners;
      for i := 0 to |ls|
        invariant virt !in ls[..i]
      {
        if ls[i] == virt {
          return -1;
        }
      }
      context := context[hw := context[hw].(listeners := ls + [virt])];
      r := 0;
    }

    method UnregisterListener(hw: int, virt: int) returns (r: int)
      requires hw in context
      modifies this
      ensures r == if virt in old(context)[hw].listeners then 0 else -1
      ensures context == old(context)[hw := old(context)[hw].(listeners := Unregistered(old(context)[hw].listeners, virt))]
    {
      var ls := context[hw].listeners;
      for i := 0 to |ls|
        invariant virt !in ls[..i]
      {
        if ls[i] == virt {
          UnregisteredAt(ls, virt, i);
          context := context[hw := context[hw].(listeners := ls[..i] + ls[i + 1..])];
          return 0;
        }
      }
      UnregisteredAbsent(ls, virt);
      r := -1;
    }

    method SyncDelay(hw: int)
      requires hw in context && Known(context, context[hw].listeners)
      modifies this
      ensures context == ListenerGraph.SyncDelay(old(context), hw)
    {
      var ls := context[hw].listeners;
      if ls == [] {
        return;
      }
      var low := context[ls[0]].delay;
      ghost var ds := Delays(context, ls);
      for i := 0 to |ls|
        invariant LowestFrom(low, ds[i..]) == EffectiveDelay(ds)
      {
        var d := context[ls[i]].delay;
        assert ds[i..][0] == d && ds[i..][1..] == ds[i + 1..];
        if d == 0 {
          continue;
        }
        if low > d {
          low := d;
        }
      }
      context := context[hw := context[hw].(driverDelay := Some(low))];
    }

    method SyncLatency(hw: int)
      requires hw in context && Known(context, context[hw].listeners)
      modifies this
      ensures context == ListenerGraph.SyncLatency(old(context), hw)
    {
      var ls := context[hw].listeners;
      if ls == [] {
        return;
      }
      var low := context[ls[0]].latency;
      ghost var ds := Latencies(context, ls);
      for i := 0 to |ls|
        invariant LeastFrom(low, ds[i..]) == EffectiveLatency(ds)
      {
        var d := context[ls[i]].latency;
        assert ds[i..][0] == d && ds[i..][1..] == ds[i + 1..];
        if low > d {
          low := d;
        }
      }
      if context[hw].hasFifo {
        context := context[hw := context[hw].(driverLatency := Some(low))];
      }
    }

    /** One turn of the loop of activate. */
    method UseOne(v: int, hw: int, enable: bool)
      requires v in context && hw in context && Closed(context)
      modifies this
      ensures context == Use(old(context), v, hw, enable)
    {
      hide EffectiveDelay, EffectiveLatency, Delays, Latencies;
      UseCloses(context, v, hw, enable);
      KnownByMembership(context, context[hw].listeners);
      if enable {
        var _ := RegisterListener(hw, v);
        KnownByMembership(context, context[hw].listeners);
        SyncLatency(hw);
        context := context[hw := context[hw].(switched := Some(true))];
        SyncDelay(hw);
      } else {
        if context[hw].listeners != [] {
          UnregisteredIsSubset(context[hw].listeners, v);
          var _ := UnregisterListener(hw, v);
          KnownByMembership(context, context[hw].listeners);
          SyncDelay(hw);
          SyncLatency(hw);
        }
        if context[hw].listeners == [] {
          context := context[hw := context[hw].(switched := Some(false))];
        }
      }
    }

    /** `driverResult` is what a one-shot sensor's driver answers. */
    method Activate(handle: int, enable: bool, driverResult: int) returns (r: int)
      requires Valid()
      modifies this
      ensures Valid() && context == ListenerRuns.Activate(old(context), handle, enable)
      ensures r == if handle !in old(context) then -EINVAL
                   else if old(context)[handle].oneShot then driverResult else 0
    {
      hide Use, DriversAgree, Linked;
      ActivateKeeps(context, handle, enable);
      if handle !in context {
        return -EINVAL;
      }
      OneChangedCloses(context, context[handle := context[handle].(enable := enable)], handle, handle);
      context := context[handle := context[handle].(enable := enable)];
      if context[handle].oneShot {
        context := context[handle := context[handle].(switched := Some(enable))];
        return driverResult;
      }
      ghost var start := context;
      var deps := context[handle].deps;
      for i := 0 to |deps|
        invariant context.Keys == start.Keys && Closed(context) && Known(context, deps)
        invariant UseAll(context, handle, deps[i..], enable) == UseAll(start, handle, deps, enable)
      {
        assert deps[i..][0] == deps[i] && deps[i..][1..] == deps[i + 1..];
        UseCloses(context, handle, deps[i], enable);
        UseOne(handle, deps[i], enable);
      }
      if context[handle].isVirtual {
        context := context[handle := context[handle].(switched := Some(enable))];
      }
      r := 0;
    }

    method SetDelay(handle: int, ns: int) returns (r: int)
      requires Valid()
      modifies this
      ensures Valid() && context == ListenerRuns.SetDelay(old(context), handle, ns)
      ensures r == if handle !in old(context) || ns == 0 then -EINVAL else 0
    {
      hide DriversAgree, Linked;
      StepKeeps(context, SetDelayCall(handle, ns));
      if handle !in context {
        return -EINVAL;
      }
      if ns == 0 {
        return -EINVAL;
      }
      if context[handle].oneShot {
        return 0;
      }
      var c := context[handle];
      var delay := if ns < MinNs(c) then MinNs(c) else ns;
      OneChangedCloses(context, context[handle := c.(delay := delay)], handle, handle);
      context := context[handle := c.(delay := delay)];
      SyncDeps(handle, false);
      r := 0;
    }

    method Batch(handle: int, sample: int, latency: int) returns (r: int)
      requires Valid()
      modifies this
      ensures Valid() && context == ListenerRuns.Batch(old(context), handle, sample, latency)
      ensures r == if (latency != 0 && latency < sample) || handle !in old(context) then -EINVAL else 0
    {
      hide DriversAgree, Linked;
      StepKeeps(context, BatchCall(handle, sample, latency));
      if latency != 0 && latency < sample {
        return -EINVAL;
      }
      if handle !in context {
        return -EINVAL;
      }
      if context[handle].oneShot {
        return 0;
      }
      var c := context[handle].(delay := sample, latency := latency);
      OneChangedCloses(context, context[handle := c], handle, handle);
      context := context[handle := c];
      SyncDeps(handle, true);
      r := 0;
    }

    /** The loop over the background sensors in setDelay, and in batch, which
        passes the latency on as well. */
    method SyncDeps(handle: int, both: bool)
      requires Closed(context) && handle in context
      modifies this
      ensures context == SyncAll(old(context), old(context)[handle].deps, both)
    {
      hide EffectiveDelay, EffectiveLatency, Delays, Latencies;
      ghost var start := context;
      var deps := context[handle].deps;
      for i := 0 to |deps|
        invariant context.Keys == start.Keys && Closed(context) && Known(context, deps)
        invariant SyncAll(context, deps[i..], both) == SyncAll(start, deps, both)
      {
        assert deps[i..][0] == deps[i] && deps[i..][1..] == deps[i + 1..];
        SyncCloses(context, deps[i], both);
        SyncCloses(context, deps[i], false);
        SyncDelay(deps[i]);
        if both {
          SyncLatency(deps[i]);
        }
      }
    }
  }

  /** The lower of two maxima, where zero is none yet. */
  function Narrowed(own: int, dep: int): (r: int)
    ensures own == 0 ==> r == dep
    ensures r == own || r == dep
    ensures own != 0 ==> r <= own && r <= dep
  {
    if own == 0 then dep else if dep < own then dep else own
  }

  lemma RegisteredDistinctIf(s: seq<int>, v: int)
    ensures Distinct(s) ==> Distinct(Registered(s, v))
  {
  }

  lemma {:induction false} UnregisteredAt(ls: seq<int>, v: int, i: nat)
    requires i < |ls| && ls[i] == v && v !in ls[..i]
    ensures Unregistered(ls, v) == ls[..i] + ls[i + 1..]
    decreases i
  {
    if i > 0 {
      assert ls[0] in ls[..i];
      assert ls[1..][..i - 1] == ls[..i][1..];
      UnregisteredAt(ls[1..], v, i - 1);
    }
  }

  lemma {:induction false} UnregisteredAbsent(ls: seq<int>, v: int)
    requires v !in ls
    ensures Unregistered(ls, v) == ls
  {
    if ls != [] {
      UnregisteredAbsent(ls[1..], v);
    }
  }
}
