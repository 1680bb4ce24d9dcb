/**
 * The poison-fog damage timer. While the entity is in the fog, every frame adds
 * the frame time to a timer; once the timer reaches the damage interval the
 * entity takes one point of damage and the timer goes back to zero, so the time
 * by which the timer overshot the interval is lost rather than carried.
 */
module Poison {

  /** The timer after one frame and whether that frame dealt damage. */
  datatype FogStep = FogStep(timer: real, damage: bool)

  /** One frame of `dt` seconds in the fog, starting from timer value `timer`. */
  function FogTick(timer: real, dt: real, interval: real): (s: FogStep)
    ensures s.damage <==> timer + dt >= interval
    ensures s.damage ==> s.timer == 0.0
    ensures !s.damage ==> s.timer == timer + dt
    ensures 0.0 < interval ==> s.timer < interval
  {
    var t := timer + dt;
    if t >= interval then FogStep(0.0, true) else FogStep(t, false)
  }

  /** The timer after a run of frames and the number of damage points dealt in it. */
  datatype FogRun = FogRun(timer: real, hits: nat)

  /** A run of frames in the fog, with frame times `dts`, starting from timer value `timer`. */
  function Exposure(timer: real, dts: seq<real>, interval: real): (r: FogRun)
    ensures r.hits <= |dts|
    decreases |dts|
  {
    if dts == [] then FogRun(timer, 0)
    else
      var s := FogTick(timer, dts[0], interval);
      var rest := Exposure(s.timer, dts[1..], interval);
      FogRun(rest.timer, rest.hits + (if s.damage then 1 else 0))
  }

  function Sum(dts: seq<real>): (r: real)
    decreases |dts|
  {
    if dts == [] then 0.0 else dts[0] + Sum(dts[1..])
  }

  predicate NonNegative(dts: seq<real>) {
    forall i :: 0 <= i < |dts| ==> dts[i] >= 0.0
  }

  /** `n` frames of `dt` seconds each. */
  function Repeat(dt: real, n: nat): (s: seq<real>)
    ensures |s| == n
    ensures forall i :: 0 <= i < n ==> s[i] == dt
  {
    if n == 0 then [] else [dt] + Repeat(dt, n - 1)
  }

  /**
   * No drift in the entity's favour or against it: every damage point stands for
   * at least one full interval of time spent in the fog, and the timer holds no
   * more than the time not yet paid for. The timer stays in [0, interval).
   */
  lemma {:induction false} DamageNeverOutrunsTime(timer: real, dts: seq<real>, interval: real)
    requires 0.0 < interval && 0.0 <= timer
    requires NonNegative(dts)
    ensures var r := Exposure(timer, dts, interval);
      (r.hits as real) * interval + r.timer <= timer + Sum(dts) && 0.0 <= r.timer
    ensures timer < interval ==> Exposure(timer, dts, interval).timer < interval
    decreases |dts|
  {
    if dts != [] {
      var s := FogTick(timer, dts[0], interval);
      assert NonNegative(dts[1..]) by {
        forall i | 0 <= i < |dts[1..]| ensures dts[1..][i] >= 0.0 {
          assert dts[1..][i] == dts[i + 1];
        }
      }
      DamageNeverOutrunsTime(s.timer, dts[1..], interval);
      var rest := Exposure(s.timer, dts[1..], interval);
      if s.damage {
        OneMoreInterval(rest.hits, interval);
      }
    }
  }

  lemma OneMoreInterval(hits: nat, interval: real)
    ensures ((hits + 1) as real) * interval == (hits as real) * interval + interval
  {
  }

  /** Frames split anywhere: the second part starts from the timer the first part left. */
  lemma {:induction false} ExposureAppend(timer: real, a: seq<real>, b: seq<real>, interval: real)
    ensures var ra := Exposure(timer, a, interval);
      var rb := Exposure(ra.timer, b, interval);
      Exposure(timer, a + b, interval) == FogRun(rb.timer, ra.hits + rb.hits)
    decreases |a|
  {
    if a == [] {
      assert a + b == b;
    } else {
      assert (a + b)[1..] == a[1..] + b;
      ExposureAppend(FogTick(timer, a[0], interval).timer, a[1..], b, interval);
    }
  }

  predicate Positive(dts: seq<real>) {
    forall i :: 0 <= i < |dts| ==> dts[i] > 0.0
  }

  /** Positive frame times add up to a positive total. */
  lemma {:induction false} SumPositive(dts: seq<real>)
    requires dts != [] && Positive(dts)
    ensures Sum(dts) > 0.0
    decreases |dts|
  {
    if |dts| > 1 {
      assert dts[1..][0] == dts[1];
      assert Positive(dts[1..]) by {
        forall i | 0 <= i < |dts[1..]| ensures dts[1..][i] > 0.0 {
          assert dts[1..][i] == dts[i + 1];
        }
      }
      SumPositive(dts[1..]);
    }
  }

  /**
   * Frames that take the timer from `timer` exactly up to the interval deal
   * exactly one point, on the last frame, and leave the timer at zero.
   */
  lemma {:induction false} FramesFillingTheInterval(timer: real, dts: seq<real>, interval: real)
    requires dts != [] && Positive(dts) && timer + Sum(dts) == interval
    ensures Exposure(timer, dts, interval) == FogRun(0.0, 1)
    decreases |dts|
  {
    if |dts| == 1 {
      assert dts[1..] == [];
    } else {
      var rest := dts[1..];
      assert rest[0] == dts[1];
      assert Positive(rest) by {
        forall i | 0 <= i < |rest| ensures rest[i] > 0.0 {
          assert rest[i] == dts[i + 1];
        }
      }
      SumPositive(rest);
      FramesFillingTheInterval(timer + dts[0], rest, interval);
    }
  }

  /** `n` frames of `dt` seconds take `n * dt` seconds. */
  lemma {:induction false} SumRepeat(dt: real, n: nat)
    ensures Sum(Repeat(dt, n)) == (n as real) * dt
  {
    if n > 0 {
      assert Repeat(dt, n)[1..] == Repeat(dt, n - 1);
      SumRepeat(dt, n - 1);
      assert (n as real) * dt == ((n - 1) as real) * dt + dt;
    }
  }

  /**
   * Entering the fog and staying for exactly `k` damage intervals, in frames that
   * divide the interval evenly, deals exactly `k` points and leaves the timer at zero.
   */
  lemma {:induction false} WholeIntervalsDealOnePointEach(k: nat, m: nat, dt: real, interval: real)
    requires 0 < m && 0.0 < dt && (m as real) * dt == interval
    ensures Exposure(0.0, Repeat(dt, m * k), interval) == FogRun(0.0, k)
    decreases k
  {
    if k > 0 {
      assert Repeat(dt, m * k) == Repeat(dt, m) + Repeat(dt, m * (k - 1));
      ExposureAppend(0.0, Repeat(dt, m), Repeat(dt, m * (k - 1)), interval);
      SumRepeat(dt, m);
      FramesFillingTheInterval(0.0, Repeat(dt, m), interval);
      WholeIntervalsDealOnePointEach(k - 1, m, dt, interval);
    }
  }

  /**
   * With an interval of one second and frames of 0.4 seconds, the third frame
   * deals the first point and clears the timer; the 0.2 seconds of overshoot are
   * lost, so after five frames (two seconds) only one point has been dealt.
   */
  lemma OvershootIsDiscarded()
    ensures Exposure(0.0, [0.4, 0.4], 1.0) == FogRun(0.8, 0)
    ensures Exposure(0.0, [0.4, 0.4, 0.4], 1.0) == FogRun(0.0, 1)
    ensures Exposure(0.0, [0.4, 0.4, 0.4, 0.4, 0.4], 1.0) == FogRun(0.8, 1)
  {
  }
}
