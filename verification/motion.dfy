/** Linear-motion reconstruction: a triangular velocity profile sampled over
    the measured pass-through interval [0, T], and the kinematics (average
    velocity, displacement by composite Simpson's rule with a trapezoid for a
    trailing interval, average acceleration) computed from time/velocity
    samples. Python floats are modelled as exact reals. */
module Motion {
  import opened Simpson

  /** Width of the detection zone in metres: the displacement the synthesized
      profile is normalised to. */
  const DetectionZoneWidth: real := 1.0

  /** Number of elements `range(n)` yields. */
  function SampleCount(n: int): nat
  {
    if n > 0 then n else 0
  }

  /** The i-th of n equally spaced sample times over [0, T]. */
  function SampleTime(T: real, n: int, i: int): real
    requires n != 1
  {
    T * (i as real) / ((n - 1) as real)
  }

  /** The triangular profile: rising as 4Wt/T^2 up to T/2, falling as
      4W(T - t)/T^2 after it. */
  function TriangularVelocity(T: real, t: real): real
    requires T != 0.0
  {
    if t <= T / 2.0 then 4.0 * DetectionZoneWidth * t / (T * T)
    else 4.0 * DetectionZoneWidth * (T - t) / (T * T)
  }

  /** The peak velocity of the profile, 2W/T. */
  function PeakVelocity(T: real): real
    requires T != 0.0
  {
    2.0 * DetectionZoneWidth / T
  }

  /** The list of sample times the synthesizer produces. */
  function ProfileTimes(T: real, n: int): seq<real>
    requires n != 1
  {
    seq(SampleCount(n), i => SampleTime(T, n, i))
  }

  /** The list of sample velocities the synthesizer produces. */
  function ProfileVelocities(T: real, n: int): seq<real>
    requires n != 1
    requires n > 0 ==> T != 0.0
  {
    seq(SampleCount(n), i requires 0 <= i < SampleCount(n) => TriangularVelocity(T, SampleTime(T, n, i)))
  }

  /** Builds the sample lists by appending one time and one velocity per
      index in range(numSamples). Fails in the source (division by zero) when
      numSamples is 1, or when T is 0 and there is at least one sample. */
  method SimulateVelocityProfile(T: real, numSamples: int := 11) returns (times: seq<real>, velocities: seq<real>)
    requires numSamples != 1
    requires numSamples > 0 ==> T != 0.0
    ensures |times| == |velocities| == SampleCount(numSamples)
    ensures times == ProfileTimes(T, numSamples)
    ensures velocities == ProfileVelocities(T, numSamples)
  {
    times := [];
    velocities := [];
    var i := 0;
    while i < numSamples
      invariant 0 <= i <= SampleCount(numSamples)
      invariant |times| == |velocities| == i
      invariant times == ProfileTimes(T, numSamples)[..i]
      invariant velocities == ProfileVelocities(T, numSamples)[..i]
    {
      var t := T * (i as real) / ((numSamples - 1) as real);
      assert t == SampleTime(T, numSamples, i);
      var v;
      if t <= T / 2.0 {
        v := 4.0 * DetectionZoneWidth * t / (T * T);
        assert v == TriangularVelocity(T, t);
      } else {
        v := 4.0 * DetectionZoneWidth * (T - t) / (T * T);
        assert v == TriangularVelocity(T, t);
      }
      assert ProfileTimes(T, numSamples)[..i + 1] == times + [t];
      assert ProfileVelocities(T, numSamples)[..i + 1] == velocities + [v];
      times := times + [t];
      velocities := velocities + [v];
      i := i + 1;
    }
  }

  // ---------------------------------------------------------------------
  // Properties of the synthesized profile

  lemma {:induction false} SampleTimeStrictlyIncreasing(T: real, n: int, i: int, j: int)
    requires T > 0.0 && n >= 2 && i < j
    ensures SampleTime(T, n, i) < SampleTime(T, n, j)
  {
    var d := (n - 1) as real;
    assert T * (i as real) < T * (j as real);
    assert T * (i as real) / d < T * (j as real) / d;
  }

  lemma {:induction false} SampleTimeMirror(T: real, n: int, i: int)
    requires n >= 2
    ensures SampleTime(T, n, n - 1 - i) == T - SampleTime(T, n, i)
  {
    var d := (n - 1) as real;
    calc {
      SampleTime(T, n, n - 1 - i);
      T * (d - i as real) / d;
      T * d / d - T * (i as real) / d;
      T - SampleTime(T, n, i);
    }
  }

  /** Times start at 0, end at T and strictly increase. */
  lemma {:induction false} ProfileTimesSpan(T: real, n: int)
    requires T > 0.0 && n >= 2
    ensures var ts := ProfileTimes(T, n);
      |ts| == n && ts[0] == 0.0 && ts[n - 1] == T &&
      forall i, j :: 0 <= i < j < n ==> ts[i] < ts[j]
  {
    var ts := ProfileTimes(T, n);
    assert ts[n - 1] == SampleTime(T, n, n - 1);
    assert ts[n - 1] == T * ((n - 1) as real) / ((n - 1) as real) == T;
    forall i, j | 0 <= i < j < n ensures ts[i] < ts[j] {
      SampleTimeStrictlyIncreasing(T, n, i, j);
    }
  }

  /** The profile is a mirror image about T/2. */
  lemma {:induction false} TriangularVelocitySymmetric(T: real, t: real)
    requires T != 0.0
    ensures TriangularVelocity(T, T - t) == TriangularVelocity(T, t)
  {
  }

  lemma {:induction false} DivMonotone(a: real, b: real, c: real)
    requires a <= b && c > 0.0
    ensures a / c <= b / c
  {
    assert b / c - a / c == (b - a) / c;
  }

  /** On [0, T] the profile lies between 0 and its peak 2W/T. */
  lemma {:induction false} TriangularVelocityBounds(T: real, t: real)
    requires T > 0.0 && 0.0 <= t <= T
    ensures 0.0 <= TriangularVelocity(T, t) <= PeakVelocity(T)
  {
    var TT := T * T;
    assert TT > 0.0;
    var u := if t <= T / 2.0 then t else T - t;
    assert 0.0 <= u <= T / 2.0;
    assert TriangularVelocity(T, t) == 4.0 * DetectionZoneWidth * u / TT;
    DivMonotone(4.0 * DetectionZoneWidth * u, 2.0 * DetectionZoneWidth * T, TT);
    assert 2.0 * DetectionZoneWidth * T / TT == PeakVelocity(T);
  }

  /** The velocities are 0 at the first and last sample, never negative and
      never above the peak 2W/T. */
  lemma {:induction false} ProfileVelocityBounds(T: real, n: int)
    requires T > 0.0 && n >= 2
    ensures var vs := ProfileVelocities(T, n);
      |vs| == n && vs[0] == 0.0 && vs[n - 1] == 0.0 &&
      forall i :: 0 <= i < n ==> 0.0 <= vs[i] <= PeakVelocity(T)
  {
    var vs := ProfileVelocities(T, n);
    ProfileTimesSpan(T, n);
    assert vs[n - 1] == TriangularVelocity(T, T);
    forall i | 0 <= i < n ensures 0.0 <= vs[i] <= PeakVelocity(T) {
      if 0 < i { SampleTimeStrictlyIncreasing(T, n, 0, i); }
      if i < n - 1 { SampleTimeStrictlyIncreasing(T, n, i, n - 1); }
      TriangularVelocityBounds(T, SampleTime(T, n, i));
    }
  }

  /** The sampled profile is symmetric: v[i] == v[n-1-i]. */
  lemma {:induction false} ProfileSymmetric(T: real, n: int)
    requires T > 0.0 && n >= 2
    ensures var vs := ProfileVelocities(T, n);
      |vs| == n && forall i :: 0 <= i < n ==> vs[i] == vs[n - 1 - i]
  {
    var vs := ProfileVelocities(T, n);
    forall i | 0 <= i < n ensures vs[i] == vs[n - 1 - i] {
      SampleTimeMirror(T, n, i);
      TriangularVelocitySymmetric(T, SampleTime(T, n, i));
    }
  }

  /** For an odd sample count the middle sample falls at T/2 and carries the
      peak velocity 2W/T. */
  lemma {:induction false} ProfilePeak(T: real, n: int)
    requires T > 0.0 && n >= 2 && n % 2 == 1
    ensures var vs := ProfileVelocities(T, n);
      |vs| == n && vs[(n - 1) / 2] == PeakVelocity(T)
  {
    var m := (n - 1) / 2;
    assert (n - 1) as real == 2.0 * (m as real);
    assert SampleTime(T, n, m) == T / 2.0;
    assert ProfileVelocities(T, n)[m] == 4.0 * DetectionZoneWidth * (T / 2.0) / (T * T);
  }

  // ---------------------------------------------------------------------
  // Kinematics

  /** Average velocity (m/s), displacement (m), average acceleration (m/s^2). */
  datatype Kinematics = Kinematics(avgVelocity: real, displacement: real, avgAcceleration: real)

  const Zero := Kinematics(0.0, 0.0, 0.0)

  /** Composite Simpson's rule over the first m samples (m odd, >= 3), with
      step h = (t[m-1] - t[0]) / (m - 1). */
  function SimpsonRule(ts: seq<real>, vs: seq<real>, m: nat): real
    requires 3 <= m <= |ts| == |vs| && m % 2 == 1
  {
    var h := (ts[m - 1] - ts[0]) / ((m - 1) as real);
    h / 3.0 * Panels(vs, 0, (m - 1) / 2)
  }

  /** Trapezoid rule over the single interval [t[j], t[j+1]]. */
  function Trapezoid(ts: seq<real>, vs: seq<real>, j: nat): real
    requires j + 1 < |ts| == |vs|
  {
    (vs[j] + vs[j + 1]) * (ts[j + 1] - ts[j]) / 2.0
  }

  /** Displacement from n >= 3 samples: Simpson over all of them when n is
      odd; Simpson over the first n - 1 plus a trapezoid for the last
      interval when n is even. */
  function Displacement(ts: seq<real>, vs: seq<real>): real
    requires 3 <= |ts| == |vs|
  {
    var n := |ts|;
    if n % 2 == 1 then SimpsonRule(ts, vs, n)
    else SimpsonRule(ts, vs, n - 1) + Trapezoid(ts, vs, n - 2)
  }

  /** The kinematics of a sample series; (0, 0, 0) when there are fewer than
      three samples or the time span is not positive. */
  function KinematicsOf(ts: seq<real>, vs: seq<real>): Kinematics
    requires |ts| == |vs|
  {
    var n := |ts|;
    if n < 3 then Zero
    else
      var totalTime := ts[n - 1] - ts[0];
      if totalTime <= 0.0 then Zero
      else
        var d := Displacement(ts, vs);
        Kinematics(d / totalTime, d, (vs[n - 1] - vs[0]) / totalTime)
  }

  /** Predicate for the inputs the integrator treats as degenerate. */
  predicate Degenerate(ts: seq<real>, vs: seq<real>)
    requires |ts| == |vs|
  {
    |ts| < 3 || ts[|ts| - 1] - ts[0] <= 0.0
  }

  /** The Simpson loop of the integrator: accumulates v[0] + v[m-1] plus
      the interior samples weighted 4 (odd index) or 2 (even index). */
  method SimpsonLoop(vs: seq<real>, m: nat) returns (sum: real)
    requires 3 <= m <= |vs| && m % 2 == 1
    ensures sum == Panels(vs, 0, (m - 1) / 2)
  {
    sum := vs[0] + vs[m - 1];
    for i := 1 to m - 1
      invariant sum == vs[0] + vs[m - 1] + InteriorSum(vs, i)
    {
      var coef := if i % 2 == 1 then 4 else 2;
      sum := sum + (coef as real) * vs[i];
    }
    WeightedSumIsPanels(vs, (m - 1) / 2);
  }

  /** The displacement step of the integrator: Simpson's rule over all
      samples when their count is odd; otherwise over all but the last,
      plus the trapezoid over the last interval. */
  method DisplacementLoop(ts: seq<real>, vs: seq<real>) returns (displacement: real)
    requires 3 <= |ts| == |vs|
    ensures displacement == Displacement(ts, vs)
  {
    var n := |ts|;
    if n % 2 == 1 {
      var h := (ts[n - 1] - ts[0]) / ((n - 1) as real);
      var simpsonSum := SimpsonLoop(vs, n);
      displacement := (h / 3.0) * simpsonSum;
    } else {
      var nSimpson := n - 1;
      var hSimpson := (ts[nSimpson - 1] - ts[0]) / ((nSimpson - 1) as real);
      var simpsonSum := SimpsonLoop(vs, nSimpson);
      var displacementSimpson := (hSimpson / 3.0) * simpsonSum;
      var hLast := ts[n - 1] - ts[n - 2];
      var displacementLast := (vs[n - 2] + vs[n - 1]) * hLast / 2.0;
      displacement := displacementSimpson + displacementLast;
    }
  }

  /** The integrator. Degenerate input gives exactly (0, 0, 0); otherwise the
      average velocity times the time span is the displacement and the
      average acceleration is the velocity change over the span. */
  method CalculateKinematics(ts: seq<real>, vs: seq<real>) returns (k: Kinematics)
    requires |ts| == |vs|
    ensures k == KinematicsOf(ts, vs)
    ensures Degenerate(ts, vs) ==> k == Zero
    ensures !Degenerate(ts, vs) ==>
      var totalTime := ts[|ts| - 1] - ts[0];
      k.displacement == Displacement(ts, vs) &&
      k.avgVelocity * totalTime == k.displacement &&
      k.avgAcceleration * totalTime == vs[|vs| - 1] - vs[0]
  {
    var n := |ts|;
    if n < 3 || |vs| < 3 {
      return Zero;
    }
    var totalTime := ts[n - 1] - ts[0];
    if totalTime <= 0.0 {
      return Zero;
    }
    var displacement := DisplacementLoop(ts, vs);
    var avgVelocity := displacement / totalTime;
    var avgAcceleration := (vs[n - 1] - vs[0]) / totalTime;
    k := Kinematics(avgVelocity, displacement, avgAcceleration);
    assert k == KinematicsOf(ts, vs);
    AveragesTimesSpan(ts, vs);
  }

  /** Outside the degenerate cases the averages are the displacement and the
      velocity change divided by the time span. */
  lemma {:induction false} AveragesTimesSpan(ts: seq<real>, vs: seq<real>)
    requires |ts| == |vs| && !Degenerate(ts, vs)
    ensures var k, totalTime := KinematicsOf(ts, vs), ts[|ts| - 1] - ts[0];
      k.displacement == Displacement(ts, vs) &&
      k.avgVelocity * totalTime == k.displacement &&
      k.avgAcceleration * totalTime == vs[|vs| - 1] - vs[0]
  {
    var totalTime := ts[|ts| - 1] - ts[0];
    var d := Displacement(ts, vs);
    assert (d / totalTime) * totalTime == d;
    assert ((vs[|vs| - 1] - vs[0]) / totalTime) * totalTime == vs[|vs| - 1] - vs[0];
  }

  // ---------------------------------------------------------------------
  // Exactness of the integrator

  /** Simpson's rule reproduces the integral of a constant velocity c over
      any sample times: c times the span of the first m samples. */
  lemma {:induction false} SimpsonRuleConstant(ts: seq<real>, vs: seq<real>, m: nat, c: real)
    requires 3 <= m <= |ts| == |vs| && m % 2 == 1
    requires forall j :: 0 <= j < m ==> vs[j] == c
    ensures SimpsonRule(ts, vs, m) == c * (ts[m - 1] - ts[0])
  {
    var k := (m - 1) / 2;
    var kr := k as real;
    ConstantPanels(vs, 0, k, c);
    var span := ts[m - 1] - ts[0];
    var h := span / ((m - 1) as real);
    assert (m - 1) as real == 2.0 * kr;
    assert h * (2.0 * kr) == span;
    calc {
      SimpsonRule(ts, vs, m);
      h / 3.0 * (6.0 * kr * c);
      (h * (2.0 * kr)) * c;
      span * c;
    }
  }

  /** For a constant velocity c and any non-degenerate times (of either
      parity), the displacement is c times the total time, the average
      velocity is c and the average acceleration is 0. */
  lemma {:induction false} ConstantVelocityExact(ts: seq<real>, vs: seq<real>, c: real)
    requires |ts| == |vs| && !Degenerate(ts, vs)
    requires forall j :: 0 <= j < |vs| ==> vs[j] == c
    ensures KinematicsOf(ts, vs) == Kinematics(c, c * (ts[|ts| - 1] - ts[0]), 0.0)
  {
    var n := |ts|;
    var total := ts[n - 1] - ts[0];
    if n % 2 == 1 {
      SimpsonRuleConstant(ts, vs, n, c);
    } else {
      ConstantDisplacementEven(ts, vs, c);
    }
    assert (c * total) / total == c;
    SteadyKinematics(ts, vs, c * total, total);
  }

  /** The even branch on a constant series: Simpson over all but the last
      sample plus the last trapezoid is c times the whole span. */
  lemma {:induction false} ConstantDisplacementEven(ts: seq<real>, vs: seq<real>, c: real)
    requires 4 <= |ts| == |vs| && |ts| % 2 == 0
    requires forall j :: 0 <= j < |vs| ==> vs[j] == c
    ensures Displacement(ts, vs) == c * (ts[|ts| - 1] - ts[0])
  {
    var n := |ts|;
    SimpsonRuleConstant(ts, vs, n - 1, c);
    assert Trapezoid(ts, vs, n - 2) == c * (ts[n - 1] - ts[n - 2]);
  }

  /** Polynomial identity behind the linear case: k panels of width 2h
      starting at t0, on v = a + b t, integrate to a S + b ((t0 + S)^2 - t0^2) / 2
      with S = 2kh. */
  lemma {:induction false} LinearPanelsAlgebra(kr: real, h: real, t0: real, a: real, b: real)
    ensures var span := 2.0 * kr * h;
      h / 3.0 * (6.0 * kr * (a + b * t0) + 6.0 * (b * h) * kr * kr)
      == a * span + b * ((t0 + span) * (t0 + span) - t0 * t0) / 2.0
  {
    var span := 2.0 * kr * h;
    assert h / 3.0 * (6.0 * kr * (a + b * t0)) == span * (a + b * t0);
    assert h / 3.0 * (6.0 * (b * h) * kr * kr) == b * span * span / 2.0;
    assert (t0 + span) * (t0 + span) - t0 * t0 == 2.0 * t0 * span + span * span;
  }

  /** The first m times are equally spaced with step h: ts[j] = ts[j-1] + h. */
  predicate EquallySpaced(ts: seq<real>, m: nat, h: real)
    requires m <= |ts|
  {
    m <= 1 || (EquallySpaced(ts, m - 1, h) && ts[m - 1] == ts[m - 2] + h)
  }

  /** The first m velocities are a + b t at their sample times. */
  predicate LinearInTime(ts: seq<real>, vs: seq<real>, m: nat, a: real, b: real)
    requires m <= |ts| == |vs|
  {
    m == 0 || (LinearInTime(ts, vs, m - 1, a, b) && vs[m - 1] == a + b * ts[m - 1])
  }

  /** Equal steps give the closed form ts[j] = ts[0] + jh. */
  lemma {:induction false} EquallySpacedClosedForm(ts: seq<real>, m: nat, h: real)
    requires m <= |ts| && EquallySpaced(ts, m, h)
    ensures forall j :: 0 <= j < m ==> ts[j] == ts[0] + (j as real) * h
  {
    if m > 1 {
      EquallySpacedClosedForm(ts, m - 1, h);
      assert ts[m - 1] == ts[m - 2] + h;
      assert ts[m - 2] == ts[0] + ((m - 2) as real) * h;
      assert ts[m - 1] == ts[0] + ((m - 1) as real) * h;
      forall j | 0 <= j < m ensures ts[j] == ts[0] + (j as real) * h {
        if j < m - 1 {
          assert ts[j] == ts[0] + (j as real) * h;
        }
      }
    } else if m == 1 {
      assert ts[0] == ts[0] + (0 as real) * h;
    }
  }

  lemma {:induction false} LinearInTimeAt(ts: seq<real>, vs: seq<real>, m: nat, a: real, b: real)
    requires m <= |ts| == |vs| && LinearInTime(ts, vs, m, a, b)
    ensures forall j :: 0 <= j < m ==> vs[j] == a + b * ts[j]
  {
    if m > 0 {
      LinearInTimeAt(ts, vs, m - 1, a, b);
    }
  }

  /** A velocity linear in equally spaced times is linear in the index. */
  lemma {:induction false} LinearInIndex(ts: seq<real>, vs: seq<real>, m: nat, h: real, a: real, b: real)
    requires m <= |ts| == |vs| && EquallySpaced(ts, m, h) && LinearInTime(ts, vs, m, a, b)
    ensures forall j :: 0 <= j < m ==> vs[j] == (a + b * ts[0]) + (b * h) * (j as real)
  {
    EquallySpacedClosedForm(ts, m, h);
    LinearInTimeAt(ts, vs, m, a, b);
    forall j | 0 <= j < m ensures vs[j] == (a + b * ts[0]) + (b * h) * (j as real) {
      LinearAtNode(a, b, ts[0], h, j as real, ts[j], vs[j]);
    }
  }

  /** v = a + b t at the node t = t0 + j h, rewritten in the node index j. */
  lemma {:induction false} LinearAtNode(a: real, b: real, t0: real, h: real, jr: real, t: real, v: real)
    requires t == t0 + jr * h && v == a + b * t
    ensures v == (a + b * t0) + (b * h) * jr
  {
    Distribute(b, t0, jr * h);
  }

  lemma {:induction false} Distribute(b: real, x: real, y: real)
    ensures b * (x + y) == b * x + b * y
  {
  }

  /** Simpson's rule over equally spaced times is exact for a velocity
      linear in time, v = a + b t. */
  lemma {:induction false} SimpsonRuleLinear(ts: seq<real>, vs: seq<real>, m: nat, h: real, a: real, b: real)
    requires 3 <= m <= |ts| == |vs| && m % 2 == 1
    requires EquallySpaced(ts, m, h) && LinearInTime(ts, vs, m, a, b)
    ensures SimpsonRule(ts, vs, m)
         == a * (ts[m - 1] - ts[0]) + b * (ts[m - 1] * ts[m - 1] - ts[0] * ts[0]) / 2.0
  {
    var k := (m - 1) / 2;
    var kr := k as real;
    var t0 := ts[0];
    var span := 2.0 * kr * h;
    assert (m - 1) as real == 2.0 * kr;
    assert ts[m - 1] - t0 == ((m - 1) as real) * h by {
      EquallySpacedClosedForm(ts, m, h);
    }
    var p := 6.0 * kr * (a + b * t0) + 6.0 * (b * h) * kr * kr;
    assert Panels(vs, 0, k) == p by {
      LinearInIndex(ts, vs, m, h, a, b);
      LinearPanels(vs, 0, k, a + b * t0, b * h);
    }
    SimpsonRuleEqualStep(ts, vs, m, h, p);
    assert ts[m - 1] == t0 + span;
    LinearPanelsAlgebra(kr, h, t0, a, b);
  }

  /** The displacement of either parity is exact for a velocity linear in
      time, sampled at equally spaced times: it equals the integral
      a (t1 - t0) + b (t1^2 - t0^2) / 2 over the sampled span [t0, t1]. */
  lemma {:induction false} LinearVelocityExact(ts: seq<real>, vs: seq<real>, h: real, a: real, b: real)
    requires 3 <= |ts| == |vs| && EquallySpaced(ts, |ts|, h) && LinearInTime(ts, vs, |ts|, a, b)
    ensures var n := |ts|;
      Displacement(ts, vs) == a * (ts[n - 1] - ts[0]) + b * (ts[n - 1] * ts[n - 1] - ts[0] * ts[0]) / 2.0
  {
    if |ts| % 2 == 1 {
      SimpsonRuleLinear(ts, vs, |ts|, h, a, b);
    } else {
      LinearVelocityExactEven(ts, vs, h, a, b);
    }
  }

  /** The even case of LinearVelocityExact: Simpson over the first n - 1
      samples plus the trapezoid over the last interval. */
  lemma {:induction false} LinearVelocityExactEven(ts: seq<real>, vs: seq<real>, h: real, a: real, b: real)
    requires 3 <= |ts| == |vs| && |ts| % 2 == 0
    requires EquallySpaced(ts, |ts|, h) && LinearInTime(ts, vs, |ts|, a, b)
    ensures var n := |ts|;
      Displacement(ts, vs) == a * (ts[n - 1] - ts[0]) + b * (ts[n - 1] * ts[n - 1] - ts[0] * ts[0]) / 2.0
  {
    var n := |ts|;
    var r, p, q := ts[0], ts[n - 2], ts[n - 1];
    var simpson, trapezoid := SimpsonRule(ts, vs, n - 1), Trapezoid(ts, vs, n - 2);
    assert Displacement(ts, vs) == simpson + trapezoid;
    SimpsonRuleLinear(ts, vs, n - 1, h, a, b);
    SimpsonPlusTrapezoidLinear(simpson, trapezoid, vs[n - 2], vs[n - 1], a, b, r, p, q);
  }

  /** Even sample count: an exact Simpson part over [r, p] plus the trapezoid
      over [p, q] on v = a + b t give the integral over [r, q]. */
  lemma {:induction false} SimpsonPlusTrapezoidLinear(simpson: real, trapezoid: real, vp: real, vq: real,
                                   a: real, b: real, r: real, p: real, q: real)
    requires simpson == a * (p - r) + b * (p * p - r * r) / 2.0
    requires vp == a + b * p && vq == a + b * q
    requires trapezoid == (vp + vq) * (q - p) / 2.0
    ensures simpson + trapezoid == a * (q - r) + b * (q * q - r * r) / 2.0
  {
    TrapezoidLinear(a, b, p, q);
    IntegralsAdd(a, b, r, p, q);
  }

  /** The integrals of a + b t over [r, p] and [p, q] add up to the one over [r, q]. */
  lemma {:induction false} IntegralsAdd(a: real, b: real, r: real, p: real, q: real)
    ensures a * (p - r) + b * (p * p - r * r) / 2.0 + (a * (q - p) + b * (q * q - p * p) / 2.0)
         == a * (q - r) + b * (q * q - r * r) / 2.0
  {
  }

  /** The trapezoid rule is exact for v = a + b t on [p, q]. */
  lemma {:induction false} TrapezoidLinear(a: real, b: real, p: real, q: real)
    ensures (a + b * p + (a + b * q)) * (q - p) / 2.0 == a * (q - p) + b * (q * q - p * p) / 2.0
  {
    assert (a + b * p + (a + b * q)) * (q - p) == 2.0 * a * (q - p) + b * (q * q - p * p);
  }

  // ---------------------------------------------------------------------
  // The integrator applied to the synthesized profile

  /** The synthesized profile starts and ends at rest, so the average
      acceleration the integrator reports for it is 0. */
  lemma {:induction false} ProfileZeroAcceleration(T: real, n: int)
    requires T > 0.0 && n >= 2
    ensures KinematicsOf(ProfileTimes(T, n), ProfileVelocities(T, n)).avgAcceleration == 0.0
  {
    var ts, vs := ProfileTimes(T, n), ProfileVelocities(T, n);
    assert |ts| == |vs| == n && vs[0] == vs[n - 1] by {
      ProfileVelocityBounds(T, n);
    }
    EqualEndsNoAcceleration(ts, vs);
  }

  /** A series that ends at the velocity it started with has no average
      acceleration (degenerate series have none either). */
  lemma {:induction false} EqualEndsNoAcceleration(ts: seq<real>, vs: seq<real>)
    requires 1 <= |ts| == |vs| && vs[0] == vs[|vs| - 1]
    ensures KinematicsOf(ts, vs).avgAcceleration == 0.0
  {
  }

  /** With n = 4q + 1 samples the i-th sample time is i h with h = T / 4q. */
  lemma {:induction false} QuarterGridTime(T: real, q: nat, j: int)
    requires T > 0.0 && q >= 1
    ensures SampleTime(T, 4 * q + 1, j) == (T / (4.0 * (q as real))) * (j as real)
    ensures 0 <= j <= 2 * q ==> SampleTime(T, 4 * q + 1, j) <= T / 2.0
    ensures 2 * q < j ==> SampleTime(T, 4 * q + 1, j) > T / 2.0
  {
    var qr := q as real;
    var h := T / (4.0 * qr);
    assert ((4 * q + 1 - 1) as real) == 4.0 * qr;
    assert T / 2.0 == h * (2.0 * qr);
    if 0 <= j <= 2 * q {
      assert (j as real) <= 2.0 * qr;
      assert h * (j as real) <= h * (2.0 * qr);
    }
    if 2 * q < j {
      assert (j as real) > 2.0 * qr;
      assert h * (j as real) > h * (2.0 * qr);
    }
  }

  /** On the rising half of a (4q + 1)-sample profile, v[j] = C j with
      C = 4Wh / T^2. */
  lemma {:induction false} QuarterGridRising(T: real, q: nat, j: int)
    requires T > 0.0 && q >= 1 && 0 <= j <= 2 * q
    ensures var h := T / (4.0 * (q as real));
      ProfileVelocities(T, 4 * q + 1)[j] == (4.0 * DetectionZoneWidth * h / (T * T)) * (j as real)
  {
    var h := T / (4.0 * (q as real));
    var t := SampleTime(T, 4 * q + 1, j);
    assert ProfileVelocities(T, 4 * q + 1)[j] == TriangularVelocity(T, t);
    QuarterGridTime(T, q, j);
    RisingVelocity(T, h, j as real, t);
  }

  /** On the rising half, at time t = h j, the velocity is (4Wh / T^2) j. */
  lemma {:induction false} RisingVelocity(T: real, h: real, jr: real, t: real)
    requires T > 0.0 && t == h * jr && t <= T / 2.0
    ensures TriangularVelocity(T, t) == (4.0 * DetectionZoneWidth * h / (T * T)) * jr
  {
    assert TriangularVelocity(T, t) == 4.0 * DetectionZoneWidth * t / (T * T);
    assert 4.0 * DetectionZoneWidth * (h * jr) == (4.0 * DetectionZoneWidth * h) * jr;
  }

  /** On the falling half, v[j] = C (4q - j) = 2qC - C (j - 2q). */
  lemma {:induction false} QuarterGridFalling(T: real, q: nat, j: int)
    requires T > 0.0 && q >= 1 && 2 * q <= j <= 4 * q
    ensures var C := 4.0 * DetectionZoneWidth * (T / (4.0 * (q as real))) / (T * T);
      ProfileVelocities(T, 4 * q + 1)[j] == 2.0 * (q as real) * C + (-C) * ((j - 2 * q) as real)
  {
    if j == 2 * q {
      QuarterGridRising(T, q, j);
    } else {
      var t := SampleTime(T, 4 * q + 1, j);
      assert ProfileVelocities(T, 4 * q + 1)[j] == TriangularVelocity(T, t);
      QuarterGridTime(T, q, j);
      FallingVelocity(T, q, j, t);
    }
  }

  /** On the falling half of the (4q + 1)-sample grid, at time t = h j with
      h = T / 4q, the velocity is 2qC - C (j - 2q) with C = 4Wh / T^2. */
  lemma {:induction false} FallingVelocity(T: real, q: nat, j: int, t: real)
    requires T > 0.0 && q >= 1 && t == (T / (4.0 * (q as real))) * (j as real) && t > T / 2.0
    ensures var C := 4.0 * DetectionZoneWidth * (T / (4.0 * (q as real))) / (T * T);
      TriangularVelocity(T, t) == 2.0 * (q as real) * C + (-C) * ((j - 2 * q) as real)
  {
    var qr := q as real;
    var h := T / (4.0 * qr);
    var C := 4.0 * DetectionZoneWidth * h / (T * T);
    assert T == h * (4.0 * qr);
    var y := 4.0 * qr - j as real;
    assert T - t == h * y;
    assert T * T > 0.0 by {
      PositiveProduct(T, T);
    }
    assert 4.0 * DetectionZoneWidth * (h * y) == (4.0 * DetectionZoneWidth * h) * y;
    DivMulAssoc(4.0 * DetectionZoneWidth * h, y, T * T);
    assert ((j - 2 * q) as real) == (j as real) - 2.0 * qr;
    assert C * y == 2.0 * qr * C + (-C) * ((j - 2 * q) as real);
  }

  lemma {:induction false} PositiveProduct(x: real, y: real)
    requires x > 0.0 && y > 0.0
    ensures x * y > 0.0
  {
  }

  lemma {:induction false} DivMulAssoc(x: real, y: real, z: real)
    requires z != 0.0
    ensures x * y / z == (x / z) * y
  {
  }

  /** The closing algebra: with h = T / 4q and C = 4Wh / T^2,
      (h / 3) * 12 C q^2 = W. */
  lemma {:induction false} QuarterGridAlgebra(T: real, q: nat, h: real, C: real)
    requires T > 0.0 && q >= 1
    requires h == T / (4.0 * (q as real)) && C == 4.0 * DetectionZoneWidth * h / (T * T)
    ensures TentArea(h, C, q) == DetectionZoneWidth
  {
    var qr := q as real;
    assert T == 4.0 * qr * h;
    assert T * T == 16.0 * qr * qr * h * h;
    assert h > 0.0;
    assert C * (16.0 * qr * qr * h * h) == 4.0 * DetectionZoneWidth * h;
    assert C * (4.0 * qr * qr * h) == DetectionZoneWidth;
  }

  /** The rising half of the (4q + 1)-sample profile, nodes 0 .. 2q, is
      linear in the node index with slope C = 4Wh / T^2. */
  lemma {:induction false} RisingHalfLinear(T: real, q: nat, vs: seq<real>, C: real)
    requires T > 0.0 && q >= 1
    requires vs == ProfileVelocities(T, 4 * q + 1)
    requires C == 4.0 * DetectionZoneWidth * (T / (4.0 * (q as real))) / (T * T)
    ensures forall j :: 0 <= j <= 2 * q ==> vs[j] == C * (j as real)
  {
    forall j | 0 <= j <= 2 * q ensures vs[j] == C * (j as real) {
      QuarterGridRising(T, q, j);
    }
  }

  /** The falling half, nodes 2q .. 4q, is linear in the node index with
      slope -C. */
  lemma {:induction false} FallingHalfLinear(T: real, q: nat, vs: seq<real>, C: real)
    requires T > 0.0 && q >= 1
    requires vs == ProfileVelocities(T, 4 * q + 1)
    requires C == 4.0 * DetectionZoneWidth * (T / (4.0 * (q as real))) / (T * T)
    ensures forall j :: 2 * q <= j <= 4 * q ==> vs[j] == 2.0 * (q as real) * C + (-C) * ((j - 2 * q) as real)
  {
    forall j | 2 * q <= j <= 4 * q ensures vs[j] == 2.0 * (q as real) * C + (-C) * ((j - 2 * q) as real) {
      QuarterGridFalling(T, q, j);
    }
  }

  /** The rising half of a tent: nodes 0 .. 2q at C j give panel sum 6 C q^2. */
  lemma {:induction false} RisingPanels(vs: seq<real>, q: nat, C: real)
    requires 2 * q < |vs|
    requires forall j :: 0 <= j <= 2 * q ==> vs[j] == C * (j as real)
    ensures Panels(vs, 0, q) == 6.0 * C * (q as real) * (q as real)
  {
    forall j | 0 <= j <= 2 * q ensures vs[j] == 0.0 + C * (j as real) {
    }
    LinearPanels(vs, 0, q, 0.0, C);
  }

  /** The falling half: nodes 2q .. 4q at 2qC - C (j - 2q) give panel sum 6 C q^2. */
  lemma {:induction false} FallingPanels(vs: seq<real>, q: nat, C: real)
    requires 4 * q < |vs|
    requires forall j :: 2 * q <= j <= 4 * q ==> vs[j] == 2.0 * (q as real) * C + (-C) * ((j - 2 * q) as real)
    ensures Panels(vs, 2 * q, q) == 6.0 * C * (q as real) * (q as real)
  {
    var qr := q as real;
    LinearPanels(vs, 2 * q, q, 2.0 * qr * C, -C);
    HalvesAlgebra(qr, C);
  }

  lemma {:induction false} HalvesAlgebra(qr: real, C: real)
    ensures 6.0 * qr * (2.0 * qr * C) + 6.0 * (-C) * qr * qr == 6.0 * C * qr * qr
  {
  }

  /** The area of the tent of slope C over 4q intervals of width h. */
  function TentArea(h: real, C: real, q: nat): real
  {
    4.0 * h * C * (q as real) * (q as real)
  }

  /** Simpson's rule over m equally spaced samples (step h) is h/3 times
      the panel sum. */
  lemma {:induction false} SimpsonRuleEqualStep(ts: seq<real>, vs: seq<real>, m: nat, h: real, p: real)
    requires 3 <= m <= |ts| == |vs| && m % 2 == 1
    requires ts[m - 1] - ts[0] == ((m - 1) as real) * h
    requires Panels(vs, 0, (m - 1) / 2) == p
    ensures SimpsonRule(ts, vs, m) == h / 3.0 * p
  {
    var d := (m - 1) as real;
    assert (d * h) / d == h;
  }

  /** The panel sum of a tent over 4q + 1 samples, rising as C j to node 2q
      and falling back as 2qC - C (j - 2q), is 12 C q^2. */
  lemma {:induction false} TentPanels(vs: seq<real>, q: nat, C: real)
    requires 4 * q < |vs|
    requires forall j :: 0 <= j <= 2 * q ==> vs[j] == C * (j as real)
    requires forall j :: 2 * q <= j <= 4 * q ==> vs[j] == 2.0 * (q as real) * C + (-C) * ((j - 2 * q) as real)
    ensures Panels(vs, 0, 2 * q) == 12.0 * C * (q as real) * (q as real)
  {
    RisingPanels(vs, q, C);
    FallingPanels(vs, q, C);
    PanelsSplit(vs, 0, q, q);
  }

  /** Simpson's rule over 4q + 1 equally spaced samples (step h) of such a
      tent yields 4 h C q^2, the area under the tent. */
  lemma {:induction false} TentDisplacement(ts: seq<real>, vs: seq<real>, q: nat, h: real, C: real)
    requires q >= 1 && |ts| == |vs| == 4 * q + 1
    requires ts[4 * q] - ts[0] == ((4 * q) as real) * h
    requires forall j :: 0 <= j <= 2 * q ==> vs[j] == C * (j as real)
    requires forall j :: 2 * q <= j <= 4 * q ==> vs[j] == 2.0 * (q as real) * C + (-C) * ((j - 2 * q) as real)
    ensures Displacement(ts, vs) == TentArea(h, C, q)
  {
    var n := 4 * q + 1;
    var qr := q as real;
    TentPanels(vs, q, C);
    assert n % 2 == 1 && (n - 1) / 2 == 2 * q;
    SimpsonRuleEqualStep(ts, vs, n, h, 12.0 * C * qr * qr);
    assert h / 3.0 * (12.0 * C * qr * qr) == TentArea(h, C, q);
  }

  /** Kinematics of a series whose time span is positive and whose first
      and last velocities agree: no average acceleration. */
  lemma {:induction false} SteadyKinematics(ts: seq<real>, vs: seq<real>, d: real, total: real)
    requires 3 <= |ts| == |vs| && total > 0.0
    requires ts[|ts| - 1] - ts[0] == total && Displacement(ts, vs) == d
    requires vs[0] == vs[|vs| - 1]
    ensures KinematicsOf(ts, vs) == Kinematics(d / total, d, 0.0)
  {
  }

  /** On the (4q + 1)-sample grid the nodes are h apart and the profile
      is the tent of slope C = 4Wh / T^2 peaking at node 2q, so Simpson's
      rule yields the tent's area 4 h C q^2. */
  lemma {:induction false} QuarterGridTent(T: real, q: nat, h: real, C: real)
    requires T > 0.0 && q >= 1
    requires h == T / (4.0 * (q as real)) && C == 4.0 * DetectionZoneWidth * h / (T * T)
    ensures Displacement(ProfileTimes(T, 4 * q + 1), ProfileVelocities(T, 4 * q + 1)) == TentArea(h, C, q)
  {
    var ts, vs := ProfileTimes(T, 4 * q + 1), ProfileVelocities(T, 4 * q + 1);
    RisingHalfLinear(T, q, vs, C);
    FallingHalfLinear(T, q, vs, C);
    assert ts[4 * q] - ts[0] == ((4 * q) as real) * h by {
      QuarterGridTime(T, q, 0);
      QuarterGridTime(T, q, 4 * q);
    }
    TentDisplacement(ts, vs, q, h, C);
  }

  /** Simpson's rule over the (4q + 1)-sample profile yields exactly W. */
  lemma {:induction false} QuarterGridDisplacement(T: real, q: nat)
    requires T > 0.0 && q >= 1
    ensures Displacement(ProfileTimes(T, 4 * q + 1), ProfileVelocities(T, 4 * q + 1)) == DetectionZoneWidth
  {
    var h := T / (4.0 * (q as real));
    var C := 4.0 * DetectionZoneWidth * h / (T * T);
    QuarterGridTent(T, q, h, C);
    QuarterGridAlgebra(T, q, h, C);
  }

  /** When the sample count is 4q + 1 the peak of the triangle falls on a
      panel boundary (node 2q), each half is linear, and Simpson's rule
      integrates the synthesized profile exactly: the displacement is the
      zone width W, the average velocity W / T and the average acceleration 0.
      (The default of 11 samples is not of this form: its peak sits mid-panel.) */
  lemma {:induction false} ProfileIntegratesToZoneWidth(T: real, q: nat)
    requires T > 0.0 && q >= 1
    ensures KinematicsOf(ProfileTimes(T, 4 * q + 1), ProfileVelocities(T, 4 * q + 1))
         == Kinematics(DetectionZoneWidth / T, DetectionZoneWidth, 0.0)
  {
    var n := 4 * q + 1;
    var ts, vs := ProfileTimes(T, n), ProfileVelocities(T, n);
    assert Displacement(ts, vs) == DetectionZoneWidth by {
      QuarterGridDisplacement(T, q);
    }
    assert |ts| == |vs| == n && ts[n - 1] - ts[0] == T by {
      ProfileTimesSpan(T, n);
    }
    assert vs[0] == vs[n - 1] by {
      ProfileVelocityBounds(T, n);
    }
    SteadyKinematics(ts, vs, DetectionZoneWidth, T);
  }

  /** The default of 11 samples over T = 2 puts the kink of the triangle at
      node 5, inside a Simpson panel: the rule overshoots the zone width and
      yields 76/75 W. */
  lemma {:induction false} ElevenSampleProfileOvershoots()
    ensures Displacement(ProfileTimes(2.0, 11), ProfileVelocities(2.0, 11)) == 76.0 / 75.0
  {
    var ts, vs := ProfileTimes(2.0, 11), ProfileVelocities(2.0, 11);
    assert ts[0] == 0.0 && ts[10] == 2.0;
    assert vs[0] == 0.0 && vs[1] == 0.2 && vs[2] == 0.4 && vs[3] == 0.6 && vs[4] == 0.8 && vs[5] == 1.0;
    assert vs[6] == 0.8 && vs[7] == 0.6 && vs[8] == 0.4 && vs[9] == 0.2 && vs[10] == 0.0;
    assert Panels(vs, 0, 5) == 15.2;
  }

  /** Ten samples over T = 2: Simpson over the first nine plus the last
      trapezoid undershoots, yielding 242/243 W. */
  lemma {:induction false} TenSampleProfileUndershoots()
    ensures Displacement(ProfileTimes(2.0, 10), ProfileVelocities(2.0, 10)) == 242.0 / 243.0
  {
    var ts, vs := ProfileTimes(2.0, 10), ProfileVelocities(2.0, 10);
    assert ts[0] == 0.0 && ts[8] == 16.0 / 9.0 && ts[9] == 2.0;
    assert vs[0] == 0.0 && vs[1] == 2.0 / 9.0 && vs[2] == 4.0 / 9.0 && vs[3] == 6.0 / 9.0 && vs[4] == 8.0 / 9.0;
    assert vs[5] == 8.0 / 9.0 && vs[6] == 6.0 / 9.0 && vs[7] == 4.0 / 9.0 && vs[8] == 2.0 / 9.0 && vs[9] == 0.0;
    assert Panels(vs, 0, 4) == 118.0 / 9.0;
  }
}
