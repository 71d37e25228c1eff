/** power/power.c: the cap that the LOW_POWER and SUSTAINED_PERFORMANCE hints
    put on scaling_max_freq, beside other writers of the same knob. */
module FreqCap {
  import opened Wrappers

  const LOW_POWER_MAX_FREQ := 800000
  const SUSTAINED_MAX_FREQ := 1209600

  /** The HAL's static variables and the knob. `saved` is the frequency found
      when the first cap was put on, `applied` the cap last written; None is the
      empty string. */
  datatype World = World(lowPower: bool, sustained: bool, saved: int, applied: Option<int>, knob: int)

  /** A hint, with whether reading and writing the knob work during it, or a
      write to the knob by somebody else. */
  datatype Event =
    | LowPower(on: bool, readOk: bool, writeOk: bool)
    | Sustained(on: bool, readOk: bool, writeOk: bool)
    | Outside(freq: int)

  predicate AnyMode(w: World) {
    w.lowPower || w.sustained
  }

  /** The lowest cap of the modes that are on. */
  function LowestCap(lowPower: bool, sustained: bool): (r: Option<int>)
    ensures r == None <==> !lowPower && !sustained
    ensures r.Some? ==> (lowPower && r.value == LOW_POWER_MAX_FREQ) || (sustained && r.value == SUSTAINED_MAX_FREQ)
    ensures r.Some? ==> (lowPower ==> r.value <= LOW_POWER_MAX_FREQ) && (sustained ==> r.value <= SUSTAINED_MAX_FREQ)
    ensures (lowPower ==> r == Some(800000)) && (sustained && !lowPower ==> r == Some(1209600))
  {
    if lowPower && sustained then
      Some(if LOW_POWER_MAX_FREQ < SUSTAINED_MAX_FREQ then LOW_POWER_MAX_FREQ else SUSTAINED_MAX_FREQ)
    else if lowPower then Some(LOW_POWER_MAX_FREQ)
    else if sustained then Some(SUSTAINED_MAX_FREQ)
    else None
  }

  /** The new state after the modes have been set. */
  function Apply(w: World, readOk: bool, writeOk: bool): (r: World) {
    match LowestCap(w.lowPower, w.sustained)
    case Some(cap) =>
      if w.applied == None && !readOk then w
      else w.(saved := if w.applied == None then w.knob else w.saved,
              applied := Some(cap),
              knob := if writeOk then cap else w.knob)
    case None =>
      if w.applied == None then w
      else if readOk && Some(w.knob) != w.applied then w.(applied := None)
      else w.(applied := None, knob := if writeOk then w.saved else w.knob)
  }

  function Step(w: World, e: Event): (r: World) {
    match e
    case LowPower(on, readOk, writeOk) => Apply(w.(lowPower := on), readOk, writeOk)
    case Sustained(on, readOk, writeOk) => Apply(w.(sustained := on), readOk, writeOk)
    case Outside(freq) => w.(knob := freq)
  }

  function Run(w: World, events: seq<Event>): (r: World)
    decreases |events|
  {
    if events == [] then w else Step(Run(w, events[..|events| - 1]), events[|events| - 1])
  }

  class PowerHal {
    var lowPowerActive: bool
    var sustainedActive: bool
    var savedMaxFreq: int
    var appliedCap: Option<int>
    /** scaling_max_freq, which others write too. */
    var scalingMaxFreq: int

    ghost function Abstract(): (w: World)
      reads this
    {
      World(lowPowerActive, sustainedActive, savedMaxFreq, appliedCap, scalingMaxFreq)
    }

    constructor (freq: int)
      ensures Abstract() == Fresh(freq)
    {
      lowPowerActive, sustainedActive, savedMaxFreq, appliedCap := false, false, 0, None;
      scalingMaxFreq := freq;
    }

    method ApplyFreqCapLocked(readOk: bool, writeOk: bool)
      modifies this
      ensures Abstract() == Apply(old(Abstract()), readOk, writeOk)
    {
      var cap := None;
      if lowPowerActive && sustainedActive {
        cap := Some(if LOW_POWER_MAX_FREQ < SUSTAINED_MAX_FREQ then LOW_POWER_MAX_FREQ else SUSTAINED_MAX_FREQ);
      } else if lowPowerActive {
        cap := Some(LOW_POWER_MAX_FREQ);
      } else if sustainedActive {
        cap := Some(SUSTAINED_MAX_FREQ);
      }
      if cap != None {
        if appliedCap == None {
          if !readOk {
            return;
          }
          savedMaxFreq := scalingMaxFreq;
        }
        if writeOk {
          scalingMaxFreq := cap.value;
        }
        appliedCap := cap;
        return;
      }
      if appliedCap == None {
        return;
      }
      if !(readOk && Some(scalingMaxFreq) != appliedCap) {
        if writeOk {
          scalingMaxFreq := savedMaxFreq;
        }
      }
      appliedCap := None;
    }

    method HintLowPower(on: bool, readOk: bool, writeOk: bool)
      modifies this
      ensures Abstract() == Step(old(Abstract()), LowPower(on, readOk, writeOk))
    {
      lowPowerActive := on;
      ApplyFreqCapLocked(readOk, writeOk);
    }

    method HintSustained(on: bool, readOk: bool, writeOk: bool)
      modifies this
      ensures Abstract() == Step(old(Abstract()), Sustained(on, readOk, writeOk))
    {
      sustainedActive := on;
      ApplyFreqCapLocked(readOk, writeOk);
    }
  }

  function Fresh(freq: int): (w: World) {
    World(false, false, 0, None, freq)
  }

  // ----- every run ----------------------------------------------------------

  /** An applied cap is always the one the modes call for. */
  ghost predicate Consistent(w: World) {
    w.applied == None || w.applied == LowestCap(w.lowPower, w.sustained)
  }

  ghost predicate Quiet(e: Event) {
    !e.Outside?
  }

  ghost predicate Works(e: Event) {
    !e.Outside? ==> e.readOk && e.writeOk
  }

  lemma {:induction false} RunConsistent(freq: int, events: seq<Event>)
    ensures Consistent(Run(Fresh(freq), events))
    decreases |events|
  {
    if events != [] {
      RunConsistent(freq, events[..|events| - 1]);
    }
  }

  /** A hint sets its mode. If a mode is then on, a cap is recorded as applied unless there was none and the knob
      cannot be read, whether or not the write works, and the value found is saved only if there was none. If both
      are off none is recorded. */
  lemma HintRecords(w: World, e: Event)
    requires !e.Outside?
    ensures var r := Step(w, e);
      && (if e.LowPower? then r.lowPower == e.on && r.sustained == w.sustained else r.sustained == e.on && r.lowPower == w.lowPower)
      && (!AnyMode(r) ==> r.applied == None)
      && (AnyMode(r) && w.applied == None && !e.readOk ==> r.applied == None && r.knob == w.knob)
      && (AnyMode(r) && (w.applied.Some? || e.readOk) ==>
            && r.applied == LowestCap(r.lowPower, r.sustained) && Some(r.knob) == (if e.writeOk then r.applied else Some(w.knob))
            && r.saved == if w.applied == None then w.knob else w.saved)
  {
  }

  /** Undisturbed, the knob holds the lowest cap of the modes that are on, and
      its original value whenever both are off. */
  lemma {:induction false} UndisturbedRun(freq: int, events: seq<Event>)
    requires forall i :: 0 <= i < |events| ==> Quiet(events[i]) && Works(events[i])
    ensures var w := Run(Fresh(freq), events);
      && w.applied == LowestCap(w.lowPower, w.sustained)
      && (AnyMode(w) ==> Some(w.knob) == LowestCap(w.lowPower, w.sustained) && w.saved == freq)
      && (!AnyMode(w) ==> w.knob == freq)
    decreases |events|
  {
    if events != [] {
      var front, e := events[..|events| - 1], events[|events| - 1];
      assert Quiet(e) && Works(e);
      UndisturbedRun(freq, front);
    }
  }

  /** Where reads and writes work but others write too, the HAL still always
      knows which cap it has put on. */
  lemma {:induction false} WorkingRun(freq: int, events: seq<Event>)
    requires forall i :: 0 <= i < |events| ==> Works(events[i])
    ensures var w := Run(Fresh(freq), events); w.applied == LowestCap(w.lowPower, w.sustained)
    decreases |events|
  {
    if events != [] {
      assert Works(events[|events| - 1]);
      WorkingRun(freq, events[..|events| - 1]);
    }
  }

  /** The knob changes on release exactly if it differs from the saved value, the
      write works, and either it still holds the last applied cap or reading it
      fails; and then to the saved value. */
  lemma {:induction false} ReleaseYields(freq: int, events: seq<Event>, e: Event)
    ensures var w := Run(Fresh(freq), events);
      var r := Step(w, e);
      !e.Outside? && !AnyMode(r) ==>
        && r.applied == None
        && (r.knob != w.knob <==> w.applied.Some? && w.saved != w.knob && e.writeOk && (Some(w.knob) == w.applied || !e.readOk))
        && (r.knob != w.knob ==> r.knob == w.saved)
  {
  }

  ghost predicate Known(f: int, freq: int, events: seq<Event>) {
    f == LOW_POWER_MAX_FREQ || f == SUSTAINED_MAX_FREQ || f == freq || Outside(f) in events
  }

  lemma StepWrites(w: World, e: Event)
    ensures var r := Step(w, e);
      && (r.knob in {w.knob, LOW_POWER_MAX_FREQ, SUSTAINED_MAX_FREQ} || (w.applied.Some? && r.knob == w.saved) || e == Outside(r.knob))
      && (r.applied.Some? ==> r.saved == w.knob || (w.applied.Some? && r.saved == w.saved))
  {
  }

  /** The HAL invents no frequency: whatever fails and whoever else writes, the
      knob holds a cap, the first value, or one that somebody else wrote. */
  lemma {:induction false} NothingInvented(freq: int, events: seq<Event>)
    ensures var w := Run(Fresh(freq), events);
      Known(w.knob, freq, events) && (w.applied.Some? ==> Known(w.saved, freq, events))
    decreases |events|
  {
    hide Step;
    if events != [] {
      var front, e := events[..|events| - 1], events[|events| - 1];
      NothingInvented(freq, front);
      StepWrites(Run(Fresh(freq), front), e);
      assert events == front + [e];
      assert forall f :: Known(f, freq, front) ==> Known(f, freq, events);
    }
  }

  // ----- one spell of capping -----------------------------------------------

  ghost predicate StaysOn(w: World, events: seq<Event>) {
    forall i :: 0 <= i <= |events| ==> AnyMode(Run(w, events[..i]))
  }

  /** However the modes change while one of them stays on, whatever fails and
      whoever else writes, the frequency to go back to stays the one found when
      the first cap was put on. */
  lemma {:induction false} SpellKeepsSaved(w: World, events: seq<Event>)
    requires w.applied.Some? && StaysOn(w, events)
    ensures Run(w, events).applied.Some? && Run(w, events).saved == w.saved
    decreases |events|
  {
    if events != [] {
      var front := events[..|events| - 1];
      assert StaysOn(w, front) by {
        forall i | 0 <= i <= |front| ensures AnyMode(Run(w, front[..i])) {
          assert front[..i] == events[..i];
        }
      }
      SpellKeepsSaved(w, front);
      assert events[..|events|] == events;
      assert AnyMode(Run(w, events));
    }
  }

  /** A whole spell: a working hint `first` puts a cap on where none was, anything
      happens while some mode stays on, and a working hint `last` turns both
      off. The knob is then back at its value before the spell if it still held
      the cap, and otherwise keeps what somebody else wrote. */
  lemma {:induction false} SpellRestores(w: World, first: Event, events: seq<Event>, last: Event)
    requires w.applied == None && Quiet(first) && Works(first) && Quiet(last) && Works(last)
    requires StaysOn(Step(w, first), events)
    requires !AnyMode(Step(Run(Step(w, first), events), last))
    ensures var before := Run(Step(w, first), events);
      var after := Step(before, last);
      && after.applied == None
      && after.knob == if Some(before.knob) == before.applied then w.knob else before.knob
  {
    var w1 := Step(w, first);
    assert Run(w1, events[..0]) == w1;
    assert AnyMode(w1);
    SpellKeepsSaved(w1, events);
  }

  // ----- where it does not give way -----------------------------------------

  /** Exactly when a hint writes over the knob with something higher: a hint that leaves a mode on does if its cap
      is higher and a cap is on already or the knob can be read; a release does if the saved value is higher and
      the knob still holds the cap or cannot be read. Either way the write has to work. */
  ghost predicate Raises(w: World, e: Event) {
    !e.Outside? && e.writeOk &&
    match LowestCap(if e.LowPower? then e.on else w.lowPower, if e.Sustained? then e.on else w.sustained)
    case Some(cap) => (w.applied.Some? || e.readOk) && w.knob < cap
    case None => w.applied.Some? && w.knob < w.saved && (Some(w.knob) == w.applied || !e.readOk)
  }

  lemma RaisesExactly(w: World, e: Event)
    ensures !e.Outside? ==> (w.knob < Step(w, e).knob <==> Raises(w, e))
  {
  }

  /** A limit f that somebody else sets after any run is raised by the next hint exactly then. */
  lemma {:induction false} LimitLostExactly(freq: int, events: seq<Event>, f: int, e: Event)
    requires !e.Outside?
    ensures var w := Run(Fresh(freq), events);
      Run(Fresh(freq), events + [Outside(f), e]).knob > f <==> Raises(w.(knob := f), e)
  {
    var limit := events + [Outside(f)];
    assert limit[..|events|] == events && events + [Outside(f), e] == limit + [e] && (limit + [e])[..|limit|] == limit;
    RaisesExactly(Run(Fresh(freq), limit), e);
  }

  /** Where all reading and writing works, a limit is raised by a hint exactly if the hint leaves a mode on whose
      cap is higher, which it writes over any value, or it is a release, the limit equals the cap that was on, and the value saved is higher. */
  lemma {:induction false} WorkingLimitLost(freq: int, events: seq<Event>, f: int, e: Event)
    requires !e.Outside? && Works(e) && forall i :: 0 <= i < |events| ==> Works(events[i])
    ensures var w := Run(Fresh(freq), events);
      var r := Run(Fresh(freq), events + [Outside(f), e]);
      && (AnyMode(r) ==> Some(r.knob) == LowestCap(r.lowPower, r.sustained))
      && (r.knob > f <==>
            if AnyMode(r) then f < LowestCap(r.lowPower, r.sustained).value
            else LowestCap(w.lowPower, w.sustained) == Some(f) && f < w.saved)
  {
    WorkingRun(freq, events);
    LimitLostExactly(freq, events, f, e);
    var limit := events + [Outside(f)];
    assert limit[..|events|] == events && events + [Outside(f), e] == limit + [e] && (limit + [e])[..|limit|] == limit;
  }

  /** Thermal control lowers the knob to 400000 while LOW_POWER is on, and then SUSTAINED_PERFORMANCE comes on:
      the knob is raised to 800000. If instead LOW_POWER goes off and the knob cannot be read, to 1209600. */
  lemma ThermalLimitLost()
    ensures var thermal := [LowPower(true, true, true), Outside(400000)];
      && Run(Fresh(1209600), thermal).knob == 400000
      && Run(Fresh(1209600), thermal + [Sustained(true, true, true)]).knob == 800000
      && Run(Fresh(1209600), thermal + [LowPower(false, false, true)]).knob == 1209600
  {
    var a := [LowPower(true, true, true)];
    var b := a + [Outside(400000)];
    var c, d := b + [Sustained(true, true, true)], b + [LowPower(false, false, true)];
    assert b[..1] == a && c[..2] == b && d[..2] == b && a[..0] == [];
  }
}
