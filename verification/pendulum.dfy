/** The pendulum tracker: a per-sample state machine over the current swing
    direction, the time of the last pass through equilibrium and the largest
    angle seen since. A sample inside the equilibrium band whose sign differs
    from the stored direction ends a half-cycle and reports its period and
    amplitude. Angles are degrees, timestamps are milliseconds. */
module Pendulum {

  datatype Option<T> = None | Some(value: T)

  /** Half-width of the equilibrium band, in degrees. */
  const EquilibriumThreshold: real := 5.0

  /** Milliseconds per second: the period is reported in seconds. */
  const MillisPerSecond: real := 1000.0

  /** Which side of equilibrium the pendulum is on. */
  type Direction = d: int | d == 1 || d == -1 witness 1

  function Abs(x: real): (r: real)
    ensures r >= 0.0 && (r == x || r == -x)
  {
    if x < 0.0 then -x else x
  }

  function Max(a: real, b: real): (r: real)
    ensures r >= a && r >= b && (r == a || r == b)
  {
    if b > a then b else a
  }

  /** The direction a sample reports: +1 for a non-negative angle (an angle of
      exactly 0 counts as +1), -1 otherwise. */
  function SampleDirection(angle: real): (d: Direction)
    ensures d == 1 <==> angle >= 0.0
  {
    if angle >= 0.0 then 1 else -1
  }

  function Flip(d: Direction): (r: Direction)
    ensures r != d
  {
    if d == 1 then -1 else 1
  }

  /** A completed half-cycle: period in seconds, amplitude in degrees. */
  datatype Event = Event(period: real, amplitude: real)

  /** The tracker's three variables; None stands for "not yet in the band". */
  datatype TrackerState = TrackerState(
    direction: Option<Direction>,
    lastEquilibriumTime: Option<int>,
    maxAmplitude: real)

  const Initial: TrackerState := TrackerState(None, None, 0.0)

  /** What every reachable state satisfies: the direction and the
      equilibrium time are set together, and the amplitude is a magnitude. */
  predicate Consistent(s: TrackerState)
  {
    (s.direction.None? <==> s.lastEquilibriumTime.None?) && s.maxAmplitude >= 0.0
  }

  datatype Outcome = Outcome(state: TrackerState, event: Option<Event>)

  /** One sample at angle `angle` taken at time `now`. The amplitude always
      absorbs |angle|; only an in-band sample can change anything else. */
  function Next(s: TrackerState, angle: real, now: int): (o: Outcome)
    requires Consistent(s)
    ensures Consistent(o.state)
    // an event is emitted exactly on an in-band sample against the set direction
    ensures o.event.Some? <==>
      Abs(angle) < EquilibriumThreshold && s.direction.Some? && SampleDirection(angle) != s.direction.value
    // the event: time since the last equilibrium pass, and the largest angle including this one;
    // then the half-cycle restarts at this sample in the new direction
    ensures o.event.Some? ==>
      o.event.value.period == ((now - s.lastEquilibriumTime.value) as real) / MillisPerSecond &&
      o.event.value.amplitude == Max(s.maxAmplitude, Abs(angle)) &&
      o.state == TrackerState(Some(Flip(s.direction.value)), Some(now), 0.0)
    // without an event the amplitude is the running maximum
    ensures o.event.None? ==> o.state.maxAmplitude == Max(s.maxAmplitude, Abs(angle))
    // the first in-band sample arms the tracker; any other event-free sample keeps direction and time
    ensures o.event.None? && s.direction.None? && Abs(angle) < EquilibriumThreshold ==>
      o.state.direction == Some(SampleDirection(angle)) && o.state.lastEquilibriumTime == Some(now)
    ensures o.event.None? && (s.direction.Some? || Abs(angle) >= EquilibriumThreshold) ==>
      o.state.direction == s.direction && o.state.lastEquilibriumTime == s.lastEquilibriumTime
  {
    var magnitude := Abs(angle);
    var amplitude := Max(s.maxAmplitude, magnitude);
    var newDirection := SampleDirection(angle);
    if magnitude < EquilibriumThreshold then
      if s.direction.None? then
        Outcome(TrackerState(Some(newDirection), Some(now), amplitude), None)
      else if newDirection != s.direction.value then
        var period := ((now - s.lastEquilibriumTime.value) as real) / MillisPerSecond;
        Outcome(TrackerState(Some(newDirection), Some(now), 0.0), Some(Event(period, amplitude)))
      else
        Outcome(s.(maxAmplitude := amplitude), None)
    else
      Outcome(s.(maxAmplitude := amplitude), None)
  }

  /** The tracker as the loop keeps it: three variables updated in place. */
  class Tracker {
    var currentDirection: Option<Direction>
    var lastEquilibriumTime: Option<int>
    var currentMaxAmplitude: real

    function State(): TrackerState
      reads this
    {
      TrackerState(currentDirection, lastEquilibriumTime, currentMaxAmplitude)
    }

    predicate Valid()
      reads this
    {
      Consistent(State())
    }

    /** Nothing seen yet: no direction, no equilibrium time, amplitude 0. */
    constructor ()
      ensures Valid() && State() == Initial
    {
      currentDirection := None;
      lastEquilibriumTime := None;
      currentMaxAmplitude := 0.0;
    }

    /** Processes one sample, updating the variables in place, and returns the
        completed half-cycle if this sample ended one. */
    method Step(angle: real, now: int) returns (event: Option<Event>)
      requires Valid()
      modifies this
      ensures Valid()
      ensures Outcome(State(), event) == Next(old(State()), angle, now)
    {
      var magnitude := Abs(angle);
      var newDirection := SampleDirection(angle);
      currentMaxAmplitude := Max(currentMaxAmplitude, magnitude);
      event := None;
      if magnitude < EquilibriumThreshold {
        if currentDirection.None? {
          currentDirection := Some(newDirection);
          lastEquilibriumTime := Some(now);
        } else if newDirection != currentDirection.value {
          var period := ((now - lastEquilibriumTime.value) as real) / MillisPerSecond;
          event := Some(Event(period, currentMaxAmplitude));
          lastEquilibriumTime := Some(now);
          currentMaxAmplitude := 0.0;
          currentDirection := Some(newDirection);
        }
      }
    }
  }

  /** One reading of the sensor and the clock. */
  datatype Sample = Sample(angle: real, time: int)

  /** The state after a stream of samples and the events it emitted, in order. */
  datatype Trace = Trace(state: TrackerState, events: seq<Event>)

  function EventList(e: Option<Event>): seq<Event>
  {
    if e.Some? then [e.value] else []
  }

  /** Feeds the samples to the state machine one after the other from `s`. */
  function Run(s: TrackerState, samples: seq<Sample>): (t: Trace)
    requires Consistent(s)
    ensures Consistent(t.state)
    ensures |t.events| <= |samples|
    decreases |samples|
  {
    if |samples| == 0 then Trace(s, [])
    else
      var t := Run(s, samples[..|samples| - 1]);
      var last := samples[|samples| - 1];
      var o := Next(t.state, last.angle, last.time);
      Trace(o.state, t.events + EventList(o.event))
  }

  /** The tracking loop over a finite stream of samples: returns every
      half-cycle reported, in order. */
  method Track(samples: seq<Sample>) returns (events: seq<Event>)
    ensures events == Run(Initial, samples).events
  {
    var tracker := new Tracker();
    events := [];
    var i := 0;
    while i < |samples|
      invariant 0 <= i <= |samples|
      invariant tracker.Valid()
      invariant Run(Initial, samples[..i]) == Trace(tracker.State(), events)
    {
      assert samples[..i + 1][..i] == samples[..i];
      var event := tracker.Step(samples[i].angle, samples[i].time);
      events := events + EventList(event);
      i := i + 1;
    }
    assert samples[..i] == samples;
  }

  /** Every sample of the stream lies on the same side `d` of equilibrium. */
  predicate OneSided(samples: seq<Sample>, d: Direction)
  {
    forall i :: 0 <= i < |samples| ==> SampleDirection(samples[i].angle) == d
  }

  /** A stream whose angles never change sign reports no half-cycle, and the
      tracker's direction, once set, is that side. */
  lemma {:induction false} OneSidedStreamIsSilent(samples: seq<Sample>, d: Direction)
    requires OneSided(samples, d)
    ensures Run(Initial, samples).events == []
    ensures Run(Initial, samples).state.direction in {None, Some(d)}
    decreases |samples|
  {
    if |samples| > 0 {
      var prefix := samples[..|samples| - 1];
      assert OneSided(prefix, d) by {
        forall i | 0 <= i < |prefix| ensures SampleDirection(prefix[i].angle) == d {
          assert prefix[i] == samples[i];
        }
      }
      OneSidedStreamIsSilent(prefix, d);
    }
  }

  /** The direction `d` flipped `k` times. */
  function Flipped(d: Direction, k: nat): (r: Direction)
    ensures r == (if k % 2 == 0 then d else Flip(d))
  {
    if k == 0 then d else Flip(Flipped(d, k - 1))
  }

  /** Once set, the direction is never unset, and every reported half-cycle
      flips it: successive events alternate sides. */
  lemma {:induction false} EachEventFlipsDirection(s: TrackerState, samples: seq<Sample>)
    requires Consistent(s) && s.direction.Some?
    ensures Run(s, samples).state.direction == Some(Flipped(s.direction.value, |Run(s, samples).events|))
    decreases |samples|
  {
    if |samples| > 0 {
      EachEventFlipsDirection(s, samples[..|samples| - 1]);
    }
  }

  /** Strictly increasing sample times. */
  predicate Increasing(samples: seq<Sample>)
  {
    forall i, j :: 0 <= i < j < |samples| ==> samples[i].time < samples[j].time
  }

  /** With strictly increasing timestamps every reported period is positive,
      and the stored equilibrium time is never later than the latest sample. */
  lemma {:induction false} PeriodsArePositive(samples: seq<Sample>)
    requires Increasing(samples)
    ensures forall e :: e in Run(Initial, samples).events ==> e.period > 0.0
    ensures |samples| > 0 && Run(Initial, samples).state.lastEquilibriumTime.Some? ==>
      Run(Initial, samples).state.lastEquilibriumTime.value <= samples[|samples| - 1].time
    decreases |samples|
  {
    if |samples| > 0 {
      var n := |samples|;
      var prefix := samples[..n - 1];
      assert Increasing(prefix) by {
        forall i, j | 0 <= i < j < |prefix| ensures prefix[i].time < prefix[j].time {
          assert prefix[i] == samples[i] && prefix[j] == samples[j];
        }
      }
      PeriodsArePositive(prefix);
      var t := Run(Initial, prefix);
      if t.state.lastEquilibriumTime.Some? {
        assert n - 1 > 0;
        assert t.state.lastEquilibriumTime.value < samples[n - 1].time by {
          assert prefix[n - 2] == samples[n - 2];
        }
      }
    }
  }

  /** The largest |angle| in a stream (0 for an empty one). */
  function MaxAbs(samples: seq<Sample>): (r: real)
    ensures r >= 0.0
    ensures forall k :: 0 <= k < |samples| ==> Abs(samples[k].angle) <= r
    ensures |samples| > 0 ==> exists k :: 0 <= k < |samples| && r == Abs(samples[k].angle)
    decreases |samples|
  {
    if |samples| == 0 then 0.0
    else
      var prefix := samples[..|samples| - 1];
      var m := MaxAbs(prefix);
      assert forall k :: 0 <= k < |prefix| ==> prefix[k] == samples[k];
      Max(m, Abs(samples[|samples| - 1].angle))
  }

  /** While no half-cycle closes, the stored amplitude is the running
      maximum of |angle| over the stream, starting from the stored one. */
  lemma {:induction false} QuietStretchKeepsRunningMax(s: TrackerState, samples: seq<Sample>)
    requires Consistent(s) && Run(s, samples).events == []
    ensures Run(s, samples).state.maxAmplitude == Max(s.maxAmplitude, MaxAbs(samples))
    decreases |samples|
  {
    if |samples| > 0 {
      var prefix := samples[..|samples| - 1];
      assert Run(s, prefix).events == [];
      QuietStretchKeepsRunningMax(s, prefix);
    }
  }

  /** The amplitude a half-cycle reports is the largest |angle| over its own
      samples, the closing one included (and over the stored amplitude, which
      is 0 right after the previous report). */
  lemma {:induction false} HalfCycleAmplitude(s: TrackerState, samples: seq<Sample>, last: Sample)
    requires Consistent(s) && Run(s, samples).events == []
    requires Run(s, samples + [last]).events != []
    ensures Run(s, samples + [last]).events
         == [Event(Run(s, samples + [last]).events[0].period, Max(s.maxAmplitude, MaxAbs(samples + [last])))]
  {
    var all := samples + [last];
    assert all[..|all| - 1] == samples;
    QuietStretchKeepsRunningMax(s, samples);
    assert MaxAbs(all) == Max(MaxAbs(samples), Abs(last.angle));
  }

  /** The sample that arms the tracker can precede the crossing inside the
      band: then the crossing itself closes a "half-cycle" that lasted one
      sampling interval. Here +4 degrees at 0 ms arms the tracker and -3
      degrees at 50 ms reports a period of 0.05 s with amplitude 4. */
  lemma {:induction false} ArmingBeforeCrossingReportsShortHalfCycle()
    ensures Run(Initial, [Sample(4.0, 0), Sample(-3.0, 50)]).events == [Event(0.05, 4.0)]
  {
    var samples := [Sample(4.0, 0), Sample(-3.0, 50)];
    assert samples[..1] == [Sample(4.0, 0)];
    assert [Sample(4.0, 0)][..0] == [];
    var armed := Run(Initial, samples[..1]);
    assert armed.state == TrackerState(Some(1), Some(0), 4.0) && armed.events == [];
  }
}
