/**
  Frame-sampling schedules: the duration-bucketed plan of the root detector
  (`calculateSamplingPoints`), the fixed `frameSkip / 30` step of the module
  detector and the frame-index schedule of the root page (`processVideo`).
  Times are seconds; every rate and step is exact in binary, so reals model
  them faithfully (drift from repeated floating-point addition excepted).
*/
module Sampling {

  import opened Pixels

  lemma {:induction false} MulLess(u: real, v: real, w: real)
    requires u < v && w > 0.0
    ensures u * w < v * w
  {
  }

  lemma {:induction false} MulAtMost(u: real, v: real, w: real)
    requires u <= v && w > 0.0
    ensures u * w <= v * w
  {
  }

  /** Number of `k >= 0` with `k * step < d`. */
  function StepsBelow(d: real, step: real): nat
    requires step > 0.0
  {
    if d <= 0.0 then 0
    else
      assert (d / step) * step == d;
      if d / step <= 0.0 then MulAtMost(d / step, 0.0, step); 0
      else Ceil(d / step)
  }

  /** `StepsBelow` counts exactly the multiples of `step` below `d`. */
  lemma {:induction false} StepsBelowSpec(d: real, step: real, k: nat)
    requires step > 0.0
    ensures k < StepsBelow(d, step) <==> k as real * step < d
  {
    if d <= 0.0 {
      MulAtMost(0.0, k as real, step);
    } else {
      var q := d / step;
      assert q * step == d;
      if q <= 0.0 {
        MulAtMost(q, 0.0, step);
      } else if k < Ceil(q) {
        MulLess(k as real, q, step);
      } else {
        MulAtMost(q, k as real, step);
      }
    }
  }

  // ---------------------------------------------------------------------
  // calculateSamplingPoints (detection.js)
  // ---------------------------------------------------------------------

  /** Seconds between two regular sampling points, by video length. */
  function SamplingRate(duration: real): (rate: real)
    ensures rate > 0.0
  {
    if duration < 10.0 then 0.5
    else if duration < 30.0 then 1.0
    else if duration < 60.0 then 2.0
    else if duration < 300.0 then 5.0
    else 10.0
  }

  /** Longer videos are never sampled more densely, and the rate stays in [0.5, 10]. */
  lemma {:induction false} SamplingRateMonotone(d1: real, d2: real)
    requires d1 <= d2
    ensures SamplingRate(d1) <= SamplingRate(d2)
    ensures 0.5 <= SamplingRate(d1) <= 10.0
  {
  }

  /** The regular points `rate, 2 rate, ..., n rate`. */
  function Multiples(rate: real, n: nat): seq<real> {
    seq(n, i => (i + 1) as real * rate)
  }

  lemma {:induction false} MultiplesSnoc(rate: real, n: nat)
    ensures Multiples(rate, n + 1) == Multiples(rate, n) + [(n + 1) as real * rate]
  {
    var a, b := Multiples(rate, n + 1), Multiples(rate, n) + [(n + 1) as real * rate];
    assert |a| == |b|;
    forall i | 0 <= i < |a| ensures a[i] == b[i] {
      if i < n {
        assert b[i] == Multiples(rate, n)[i];
      }
    }
  }

  /** The multiple after `k * step` is `(k + 1) * step`. */
  lemma {:induction false} StepNext(k: nat, step: real)
    ensures k as real * step + step == (k + 1) as real * step
  {
  }

  /** How many multiples `k * rate`, `k >= 1`, lie below `duration`. */
  function RegularCount(duration: real, rate: real): nat
    requires rate > 0.0
  {
    var n := StepsBelow(duration, rate);
    if n == 0 then 0 else n - 1
  }

  lemma {:induction false} RegularCountSpec(duration: real, rate: real, k: nat)
    requires rate > 0.0 && k >= 1
    ensures k <= RegularCount(duration, rate) <==> k as real * rate < duration
  {
    StepsBelowSpec(duration, rate, k);
  }

  /** 0, then the multiples of the rate below the duration. */
  function RegularPlan(duration: real): seq<real> {
    var rate := SamplingRate(duration);
    [0.0] + Multiples(rate, RegularCount(duration, rate))
  }

  /** The sampling plan: the regular points, then `duration - 1` when it is not yet covered. */
  function SamplingPlan(duration: real): (points: seq<real>)
    ensures |points| >= 1 && points[0] == 0.0
  {
    var regular := RegularPlan(duration);
    if duration > 1.0 && regular[|regular| - 1] < duration - 1.0 then regular + [duration - 1.0]
    else regular
  }

  /** The `push` loop of `calculateSamplingPoints`. */
  method CalculateSamplingPoints(duration: real) returns (points: seq<real>)
    ensures points == SamplingPlan(duration)
  {
    points := [0.0];
    var rate := SamplingRate(duration);
    ghost var n := RegularCount(duration, rate);
    ghost var k: nat := 1;
    var t := rate;
    while t < duration
      invariant 1 <= k <= n + 1
      invariant t == k as real * rate
      invariant points == [0.0] + Multiples(rate, k - 1)
      decreases n + 1 - k
    {
      RegularCountSpec(duration, rate, k);
      MultiplesSnoc(rate, k - 1);
      assert [0.0] + Multiples(rate, k) == points + [t];
      points := points + [t];
      StepNext(k, rate);
      t := t + rate;
      k := k + 1;
    }
    RegularCountSpec(duration, rate, k);
    assert k - 1 == n;
    assert points == RegularPlan(duration);
    if duration > 1.0 && points[|points| - 1] < duration - 1.0 {
      points := points + [duration - 1.0];
    }
  }

  /** A video of length 0 or less is sampled only at 0. */
  lemma {:induction false} SamplingPlanNonPositive(duration: real)
    requires duration <= 0.0
    ensures SamplingPlan(duration) == [0.0]
  {
    assert RegularCount(duration, SamplingRate(duration)) == 0;
  }

  /** Every multiple of the rate below the duration is sampled, at its own index. */
  lemma {:induction false} SamplingPlanRegular(duration: real, k: nat)
    requires k >= 1 && k as real * SamplingRate(duration) < duration
    ensures k < |SamplingPlan(duration)|
    ensures SamplingPlan(duration)[k] == k as real * SamplingRate(duration)
  {
    RegularCountSpec(duration, SamplingRate(duration), k);
  }

  lemma {:induction false} RegularPlanFacts(duration: real)
    ensures forall i, j :: 0 <= i < j < |RegularPlan(duration)| ==> RegularPlan(duration)[i] < RegularPlan(duration)[j]
    ensures forall i :: 1 <= i < |RegularPlan(duration)| ==> RegularPlan(duration)[i] < duration
  {
    var rate := SamplingRate(duration);
    var r := RegularPlan(duration);
    forall i, j | 0 <= i < j < |r| ensures r[i] < r[j] {
      MulLess(i as real, j as real, rate);
    }
    forall i | 1 <= i < |r| ensures r[i] < duration {
      RegularCountSpec(duration, rate, i);
    }
  }

  /** The plan is strictly increasing, and every point after the first is below the duration. */
  lemma {:induction false} SamplingPlanIncreasing(duration: real)
    ensures forall i, j :: 0 <= i < j < |SamplingPlan(duration)| ==> SamplingPlan(duration)[i] < SamplingPlan(duration)[j]
    ensures forall i :: 1 <= i < |SamplingPlan(duration)| ==> SamplingPlan(duration)[i] < duration
  {
    RegularPlanFacts(duration);
  }

  /**
    For a video longer than a second the last point is at least `duration - 1`,
    and `duration - 1` is added exactly when the last regular point is below it.
  */
  lemma {:induction false} SamplingPlanCoversEnd(duration: real)
    requires duration > 1.0
    ensures SamplingPlan(duration)[|SamplingPlan(duration)| - 1] >= duration - 1.0
    ensures var regular := RegularPlan(duration);
      (|SamplingPlan(duration)| == |regular| + 1) <==> regular[|regular| - 1] < duration - 1.0
  {
  }

  // ---------------------------------------------------------------------
  // The fixed-step loop of processVideoFrames (js/detection.js)
  // ---------------------------------------------------------------------

  /** `frameSkip / 30`: seconds between two processed frames. */
  function FrameStep(frameSkip: int): real {
    frameSkip as real / 30.0
  }

  /** Number of frames the step loop visits: frame `k` is at `k * step`. */
  function FrameCount(duration: real, frameSkip: int): nat
    requires frameSkip > 0
  {
    StepsBelow(duration, FrameStep(frameSkip))
  }

  /** Frame `k` is visited exactly when its time `k * frameSkip / 30` is below the duration. */
  lemma {:induction false} FrameCountSpec(duration: real, frameSkip: int, k: nat)
    requires frameSkip > 0
    ensures k < FrameCount(duration, frameSkip) <==> k as real * FrameStep(frameSkip) < duration
  {
    StepsBelowSpec(duration, FrameStep(frameSkip), k);
  }

  // ---------------------------------------------------------------------
  // The frame-index schedule of processVideo (app.js)
  // ---------------------------------------------------------------------

  /** `Math.floor(Math.floor(duration * 30) / interval)`. */
  function FramesToProcess(duration: real, interval: int): int
    requires interval >= 1
  {
    (duration * 30.0).Floor / interval
  }

  /** `i * interval / 30`: the time of the `i`-th analysed frame. */
  function AppFrameTime(i: int, interval: int): real {
    (i * interval) as real / 30.0
  }

  lemma {:induction false} MulIntLeft(a: int, b: int, c: nat)
    requires a <= b
    ensures a * c <= b * c
  {
  }

  /** Every analysed frame lies in `[0, duration)`, and frames are `interval / 30` apart. */
  lemma {:induction false} AppFrameTimeInside(duration: real, interval: int, i: int)
    requires interval >= 1 && 0 <= i < FramesToProcess(duration, interval)
    ensures 0.0 <= AppFrameTime(i, interval) < duration
    ensures AppFrameTime(i + 1, interval) - AppFrameTime(i, interval) == interval as real / 30.0
  {
    var f := (duration * 30.0).Floor;
    var n := f / interval;
    assert n * interval <= f;
    MulIntLeft(i + 1, n, interval);
    assert i * interval < f;
    assert (i * interval) as real < duration * 30.0;
    assert (i + 1) * interval == i * interval + interval;
  }

  /** `Math.floor((i / framesToProcess) * 100)`, the percentage shown for frame `i`. */
  function Progress(i: int, n: int): int
    requires n > 0
  {
    ((i as real / n as real) * 100.0).Floor
  }

  /** Inside the loop the percentage stays in [0, 100) and never goes down. */
  lemma {:induction false} ProgressBounds(i: int, j: int, n: int)
    requires 0 <= i <= j < n
    ensures 0 <= Progress(i, n) < 100
    ensures Progress(i, n) <= Progress(j, n)
  {
    var a, b := i as real / n as real, j as real / n as real;
    assert a * n as real == i as real;
    assert b * n as real == j as real;
    assert 0.0 <= a < 1.0 by {
      if a >= 1.0 {
        MulAtMost(1.0, a, n as real);
      }
      if a < 0.0 {
        MulLess(a, 0.0, n as real);
      }
    }
    assert a <= b by {
      if a > b {
        MulLess(b, a, n as real);
      }
    }
    var x, y := a * 100.0, b * 100.0;
    assert 0.0 <= x < 100.0 && x <= y;
    assert x.Floor <= y.Floor;
  }
}
