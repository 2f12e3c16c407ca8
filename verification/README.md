# Kinematics and pendulum tracking, modelled in Dafny

This project models the computational core of a small MicroPython physics
kit with two parts.

- **Motion (`motion.py`).** A PIR sensor measures how long an object takes
  to cross a detection zone of width `DETECTION_ZONE_WIDTH` = 1.0 m.
  - `simulate_velocity_profile` synthesises a triangular velocity profile
    over that interval. It samples `num_samples` equally spaced times
    `t_i = T·i/(n−1)`, with `v = 4W·t/T²` up to `T/2` and `4W·(T−t)/T²`
    after.
  - `calculate_kinematics` integrates a sampled velocity series with
    composite Simpson's rule. When the sample count is even, a trapezoid
    covers the last interval. It then reports the average velocity, the
    displacement and the average acceleration, or `(0, 0, 0)` for
    degenerate input.
- **Pendulum (`pendulum.py`).** The body of the `track_pendulum` loop is a
  per-sample state machine over three variables:
  - the current swing direction;
  - the time of the last pass through the ±5° equilibrium band;
  - the largest angle seen since then.

  An in-band sample whose sign differs from the stored direction ends a
  half-cycle and reports its period (milliseconds / 1000) and amplitude.

The project has three modules:

- `Simpson` (`simpson.dfy`) defines Simpson's rule in two forms:
  - the per-node weighted sum that the source's loop accumulates
    (weights 1, 4, 2, …, 2, 4, 1);
  - the textbook sum over panels.

  It proves that the two forms agree, and gives closed forms for constant
  and linear samples.
- `Motion` (`motion.dfy`) holds the two source functions as methods with
  loops:
  - `SimulateVelocityProfile` builds both lists by appending, as the source
    does.
  - `CalculateKinematics` takes the displacement from `DisplacementLoop`,
    which follows the source's odd and even branches. That method
    accumulates the Simpson sum in a `for` loop (`SimpsonLoop`).

  Each method is proved equal to a specification function (`ProfileTimes`,
  `ProfileVelocities`, `KinematicsOf`), and the properties are proved about
  those functions. The module shows three exactness results:
  - A constant velocity is integrated exactly on any time grid.
  - A velocity linear in time is integrated exactly on any equally spaced
    grid, of either parity.
  - When the sample count is `4q + 1`, the synthesised profile is
    integrated to exactly `W`.
- `Pendulum` (`pendulum.dfy`):
  - `Next` is the transition as a pure function.
  - `Tracker` is a class whose fields are the three loop variables. Its
    `Step` method mutates them in the source's order and is proved to agree
    with `Next`.
  - `Run` folds `Next` over a finite stream of samples.
  - `Track` is the loop driving a `Tracker` over such a stream.

Floats are modelled as exact `real`s. Timestamps are `int` milliseconds, and
`time.ticks_diff` is a plain difference.

## Model

| member | source | states |
|---|---|---|
| Simpson.WeightedSumIsPanels | motion.py:53-56 | the loop's weighted sum with weights 1, 4, 2, …, 2, 4, 1 over 2k+1 nodes equals the sum of the k Simpson panels v[2p] + 4v[2p+1] + v[2p+2] |
| Simpson.InteriorIsPanelsWithoutEnds | motion.py:54-56 | the interior accumulation (coefficient 4 at odd, 2 at even indices) equals the panel sum without its two end values |
| Simpson.WeightsSumToThreeIntervals | motion.py:53-56 | for an odd count m ≥ 3, Simpson's weights sum to 3(m − 1): a constant c gives a weighted sum of 3(m − 1)c |
| Motion.SimulateVelocityProfile | motion.py:25-39 | with num_samples defaulting to 11, returns two lists of length max(num_samples, 0), both built by appending; they are exactly the specified sample times and the triangular velocities at those times |
| Motion.SampleTimeStrictlyIncreasing | motion.py:32 | for T > 0 the synthesised sample times strictly increase with the index |
| Motion.ProfileTimesSpan | motion.py:31-32 | the times run from exactly 0 to exactly T and strictly increase |
| Motion.TriangularVelocityBounds | motion.py:33-36 | on [0, T] the triangular velocity lies between 0 and the peak 2W/T |
| Motion.ProfileVelocityBounds | motion.py:31-38 | the synthesised velocities start and end at 0 and all lie in [0, 2W/T] |
| Motion.ProfileSymmetric | motion.py:31-38 | the synthesised profile is symmetric: v[i] = v[n−1−i] |
| Motion.ProfilePeak | motion.py:32-34 | for an odd sample count the middle sample is exactly the peak 2W/T |
| Motion.SimpsonLoop | motion.py:53-56 | the accumulation loop over the first m (odd) samples yields the composite Simpson panel sum |
| Motion.DisplacementLoop | motion.py:51-68 | the displacement branch computes exactly `Displacement`: Simpson over all samples when n is odd; when n is even, Simpson over the first n−1 samples plus the trapezoid over the last interval |
| Motion.AveragesTimesSpan | motion.py:69-70 | for non-degenerate input, average velocity × span = displacement and average acceleration × span = v_last − v_first |
| Motion.CalculateKinematics | motion.py:41-71 | the result equals `KinematicsOf`; fewer than 3 samples or a non-positive span gives (0, 0, 0); otherwise displacement is Simpson (plus the last trapezoid for even n), average velocity × span = displacement, and average acceleration × span = v_last − v_first |
| Motion.SimpsonRuleConstant | motion.py:51-57 | Simpson's rule over an odd count of constant samples c gives c × (time span), whatever the times |
| Motion.ConstantVelocityExact | motion.py:45-71 | for non-degenerate input of constant velocity c the kinematics are exactly (c, c × span, 0), for either parity and any increasing or irregular times |
| Motion.ConstantDisplacementEven | motion.py:58-68 | for an even count of constant samples c, Simpson over n−1 samples plus the last trapezoid gives c × (whole span) |
| Motion.SimpsonRuleLinear | motion.py:51-57 | on equally spaced times Simpson's rule integrates v = a + b·t exactly: a(t₁−t₀) + b(t₁²−t₀²)/2 |
| Motion.LinearVelocityExact | motion.py:51-68 | on equally spaced times the displacement of v = a + b·t is its exact integral, for odd and even sample counts |
| Motion.LinearVelocityExactEven | motion.py:58-68 | the even branch (Simpson over n−1 samples plus the last trapezoid) integrates a linear velocity exactly |
| Motion.ProfileZeroAcceleration | motion.py:69-70 | every synthesised profile (T > 0, n ≥ 2) has average acceleration 0, because it starts and ends at rest |
| Motion.TentDisplacement | motion.py:51-57 | Simpson over 4q+1 equally spaced samples of a tent peaking at node 2q yields the tent's exact area |
| Motion.QuarterGridDisplacement | motion.py:51-57 | for n = 4q+1 samples, the displacement of the synthesised profile is exactly the zone width W |
| Motion.ProfileIntegratesToZoneWidth | motion.py:45-71 | for n = 4q+1 samples, integrating the synthesised profile yields exactly (W/T, W, 0) |
| Motion.ElevenSampleProfileOvershoots | motion.py:25 | with the default 11 samples over T = 2, the triangle's kink falls inside a panel and the displacement is 76/75 W, not W |
| Motion.TenSampleProfileUndershoots | motion.py:58-68 | with 10 samples over T = 2, the even-count branch (Simpson over nine samples plus one trapezoid) gives 242/243 W |
| Pendulum.SampleDirection | pendulum.py:27 | the direction is +1 exactly when the angle is ≥ 0 (an angle of 0 counts as +1) |
| Pendulum.Next | pendulum.py:27-42 | the amplitude always becomes max(old, abs(angle)). An event is emitted if and only if the sample is in the band (abs(angle) < 5), the direction is set, and the sample's sign differs. The event carries (now − last)/1000 and the maximum including this sample, then the state resets to the flipped direction, time now and amplitude 0. The first in-band sample sets the direction and time without an event. Every other sample keeps the direction and time. The direction and the time are set together |
| Pendulum.Tracker.constructor | pendulum.py:19-21 | a new tracker has no direction, no equilibrium time and amplitude 0 |
| Pendulum.Tracker.Step | pendulum.py:24-42 | updating the three fields in place gives the new state and event that `Next` specifies, and the fields stay consistent |
| Pendulum.Run | pendulum.py:23-42 | feeding a stream sample by sample keeps the state consistent and emits at most one event per sample |
| Pendulum.Track | pendulum.py:23-42 | the tracking loop over a finite stream reports exactly the events of `Run` from the initial state, in order |
| Pendulum.OneSidedStreamIsSilent | pendulum.py:27-42 | a stream whose angles never change sign emits no event, and the direction is unset or that sign |
| Pendulum.EachEventFlipsDirection | pendulum.py:33-42 | once set, the direction is never unset, and after k events it is the starting direction flipped k times, so successive events alternate sides |
| Pendulum.QuietStretchKeepsRunningMax | pendulum.py:29-30 | while no event is emitted, the stored amplitude is the maximum of the starting amplitude and every abs(angle) seen |
| Pendulum.HalfCycleAmplitude | pendulum.py:29-41 | the event closing a half-cycle reports the largest abs(angle) over that half-cycle's samples, the closing sample included |
| Pendulum.ArmingBeforeCrossingReportsShortHalfCycle | pendulum.py:32-42 | +4° at 0 ms then −3° at 50 ms emits one event of period 0.05 s and amplitude 4: when the arming sample precedes the crossing, the first event covers only one sampling interval |
| Pendulum.PeriodsArePositive | pendulum.py:37 | with strictly increasing timestamps every reported period is positive, and the stored equilibrium time is never after the latest sample |

## Notes on the code

- The period is reported in seconds. The code divides the millisecond
  difference by 1000 (pendulum.py:37), and so does the model.
- Any time span ≤ 0, not only a zero span, gives (0, 0, 0)
  (motion.py:49).
- A zero or negative sample count gives two empty lists (motion.py:31).
- The first event can cover a single sampling interval. The code arms on
  the first in-band sample even when that sample comes before the
  crossing (pendulum.py:32-35), as
  `ArmingBeforeCrossingReportsShortHalfCycle` shows.

## Left out

- The PIR sensor reads and `measure_motion` (motion.py:8-23) are not modelled. They are hardware pin reads, sleep-polling loops and MicroPython tick arithmetic. The measured interval `T` is a parameter instead.
- `visualize_data` and `main` (motion.py:73-97) are not modelled. They are console output only.
- `read_pendulum_sensor` (pendulum.py:5-11) is not modelled. It is a placeholder sinusoid over the clock, and the angle is a parameter instead.
- The sleep, the infinite `while True` loop and the `KeyboardInterrupt` handling (pendulum.py:22-24, 44-57) are not modelled. The loop becomes `Track` over a finite stream of samples.
- The `print` of each event (pendulum.py:38) is not modelled. It becomes the returned `Event`.
- `time.ticks_diff` wrap-around (pendulum.py:37) is not modelled. Timestamps are unbounded integers and the period is a plain difference.
- Floating-point rounding is not modelled. All arithmetic is exact over `real`. One consequence is that the default 11-sample profile is not claimed to integrate to W. Its kink at index 5 falls inside a Simpson panel, so in floating point and in exact arithmetic alike the result exceeds W. The exactness theorem covers sample counts of the form 4q+1, whose kink lies on a panel boundary.
- Motion.SimulateVelocityProfile: requires `num_samples != 1`, and `T != 0` when `num_samples > 0`. The source divides by zero in exactly those cases.
- Motion.CalculateKinematics: requires both lists to have the same length. The source checks only that each has at least 3 entries, and mismatched lengths fail or silently use a wrong last element. Under this precondition, the source's test `n < 3 or len(velocity_samples) < 3` is the single test `n < 3`.
- Pendulum.Next: requires `Consistent`: the direction and the equilibrium time are set together, and the stored amplitude is non-negative. Every state the tracker reaches satisfies this, as `Tracker.Step` and `Run` prove: the amplitude starts at 0 (pendulum.py:20) and afterwards only ever holds an `abs` value or 0 (pendulum.py:29-30, 41). In the source, a direction without a time would fail at the subtraction.
