/** The adaptive delay between the requests of one origin (src/politeness/model.ts). */
module Throttle {

  /** Delays are whole milliseconds in the configuration; the delay in force may be any number. */
  datatype ThrottleConfig = ThrottleConfig(
    enabled: bool,
    startDelayMs: nat,
    minDelayMs: nat,
    maxDelayMs: nat,
    targetConcurrency: nat,
    smoothing: real)
  {
    predicate Valid() {
      minDelayMs <= maxDelayMs && targetConcurrency > 0 && 0.0 < smoothing <= 1.0
    }
  }

  function Min(a: real, b: real): real { if a <= b then a else b }
  function Max(a: real, b: real): real { if a >= b then a else b }
  function Distance(a: real, b: real): real { if a >= b then a - b else b - a }

  function Clamp(value: real, min: real, max: real): real {
    Max(min, Min(max, value))
  }

  /** Math.round: halves go up, for negative numbers too. */
  function Round(x: real): real {
    (x + 0.5).Floor as real
  }

  /** The delay at which the observed latency would keep the wanted number of requests open. */
  function Target(c: ThrottleConfig, latencyMs: real): (t: real)
    requires c.Valid()
    ensures c.minDelayMs as real <= t <= c.maxDelayMs as real
  {
    Clamp(latencyMs / c.targetConcurrency as real, c.minDelayMs as real, c.maxDelayMs as real)
  }

  function AdjustedDelay(c: ThrottleConfig, delayMs: real, latencyMs: real, failed: bool): real
    requires c.Valid()
  {
    var target := Target(c, latencyMs);
    if failed then
      Max(Max(delayMs, target), Min(delayMs * 2.0, c.maxDelayMs as real))
    else
      Round(Clamp(Blend(delayMs, target, c.smoothing), c.minDelayMs as real, c.maxDelayMs as real))
  }

  function Blend(delayMs: real, target: real, smoothing: real): real {
    delayMs * (1.0 - smoothing) + target * smoothing
  }

  lemma RoundWithin(x: real, lo: nat, hi: nat)
    requires lo as real <= x <= hi as real
    ensures lo as real <= Round(x) <= hi as real
    ensures Distance(Round(x), x) <= 0.5
  {
    var n := (x + 0.5).Floor;
    assert n as real <= x + 0.5 < (n + 1) as real;
    assert n + 1 <= lo ==> (n + 1) as real <= lo as real;
    assert hi + 1 <= n ==> (hi + 1) as real <= n as real;
    assert lo as real <= n as real <= hi as real;
  }

  lemma ClampedAndRounded(x: real, lo: nat, hi: nat, centre: real)
    requires lo as real <= centre <= hi as real
    ensures var d := Round(Clamp(x, lo as real, hi as real));
            lo as real <= d <= hi as real && d == d.Floor as real && Distance(d, centre) <= Distance(x, centre) + 0.5
  {
    RoundWithin(Clamp(x, lo as real, hi as real), lo, hi);
  }

  /** A success leaves a whole number of milliseconds inside the configured band. */
  lemma SuccessStaysInBand(c: ThrottleConfig, delayMs: real, latencyMs: real)
    requires c.Valid()
    ensures var d := AdjustedDelay(c, delayMs, latencyMs, false);
            c.minDelayMs as real <= d <= c.maxDelayMs as real && d == d.Floor as real
  {
    ClampedAndRounded(Blend(delayMs, Target(c, latencyMs), c.smoothing), c.minDelayMs, c.maxDelayMs,
                      c.minDelayMs as real);
  }

  /** The target is the share of the latency that falls to each wanted request, as far as the band
      allows. */
  lemma TargetIsShareOfLatency(c: ThrottleConfig, latencyMs: real)
    requires c.Valid()
    ensures var n, t := c.targetConcurrency as real, Target(c, latencyMs);
            && (c.minDelayMs as real * n <= latencyMs <= c.maxDelayMs as real * n ==> t * n == latencyMs)
            && (latencyMs <= c.minDelayMs as real * n ==> t == c.minDelayMs as real)
            && (latencyMs >= c.maxDelayMs as real * n ==> t == c.maxDelayMs as real)
  {
    var n := c.targetConcurrency as real;
    var share := latencyMs / n;
    assert share * n == latencyMs;
    ShareAgainst(share, c.minDelayMs as real, n);
    ShareAgainst(share, c.maxDelayMs as real, n);
  }

  lemma ShareAgainst(share: real, bound: real, n: real)
    requires n > 0.0
    ensures share <= bound <==> share * n <= bound * n
  {
    assert (bound - share) * n == bound * n - share * n;
    assert bound - share >= 0.0 <==> (bound - share) * n >= 0.0;
  }

  /** A success moves the delay towards the target by the share that smoothing says, rounded to the
      nearest millisecond, halves upwards. */
  lemma SuccessIsBlended(c: ThrottleConfig, delayMs: real, latencyMs: real)
    requires c.Valid()
    ensures var blend := delayMs * (1.0 - c.smoothing) + Target(c, latencyMs) * c.smoothing;
            var d := AdjustedDelay(c, delayMs, latencyMs, false);
            c.minDelayMs as real <= blend <= c.maxDelayMs as real ==>
              d == d.Floor as real && d - 0.5 <= blend < d + 0.5
  {
    NearestInside(Blend(delayMs, Target(c, latencyMs), c.smoothing), c.minDelayMs as real, c.maxDelayMs as real);
  }

  lemma NearestInside(x: real, lo: real, hi: real)
    ensures var d := Round(Clamp(x, lo, hi));
            lo <= x <= hi ==> d == d.Floor as real && d - 0.5 <= x < d + 0.5
  {
  }

  /** A failure never shortens the delay, doubles it until the ceiling is reached, and lengthens it
      no further than that or the target asks for. */
  lemma FailureBacksOff(c: ThrottleConfig, delayMs: real, latencyMs: real)
    requires c.Valid() && 0.0 <= delayMs
    ensures var d := AdjustedDelay(c, delayMs, latencyMs, true);
            && delayMs <= d
            && Target(c, latencyMs) <= d
            && (d >= 2.0 * delayMs || d >= c.maxDelayMs as real)
            && (d == delayMs || d == Target(c, latencyMs) || d == 2.0 * delayMs || d == c.maxDelayMs as real)
            && (d > delayMs && d > Target(c, latencyMs) ==> d <= 2.0 * delayMs)
            && (delayMs <= c.maxDelayMs as real ==> d <= c.maxDelayMs as real)
            && (delayMs > c.maxDelayMs as real ==> d == delayMs)
  {
  }

  lemma Scaled(x: real, bound: real, k: real)
    requires -bound <= x <= bound && 0.0 <= k
    ensures -(k * bound) <= x * k <= k * bound
  {
    assert (bound - x) * k >= 0.0;
    assert (bound + x) * k >= 0.0;
  }

  /** What one success leaves of a distance, when the target is within e. */
  function Shrunk(s: real, before: real, e: real): real {
    (1.0 - s) * before + s * e + 0.5
  }

  lemma BlendIsCloser(current: real, target: real, centre: real, e: real, s: real)
    requires 0.0 < s <= 1.0 && Distance(target, centre) <= e
    ensures Distance(Blend(current, target, s), centre) <= (1.0 - s) * Distance(current, centre) + s * e
  {
    var a, b, k := current - centre, target - centre, 1.0 - s;
    var d := Distance(current, centre);
    var near, far := k * d, s * e;
    Scaled(a, d, k);
    Scaled(b, e, s);
    var x, y := a * k, b * s;
    assert Blend(current, target, s) - centre == x + y;
    assert -near <= x <= near && -far <= y <= far;
    assert Distance(Blend(current, target, s), centre) <= near + far;
  }

  lemma BlendedAndRounded(current: real, target: real, lo: nat, hi: nat, s: real, centre: real, e: real)
    requires 0.0 < s <= 1.0 && Distance(target, centre) <= e && lo as real <= centre <= hi as real
    ensures Distance(Round(Clamp(Blend(current, target, s), lo as real, hi as real)), centre)
            <= Shrunk(s, Distance(current, centre), e)
  {
    BlendIsCloser(current, target, centre, e, s);
    ClampedAndRounded(Blend(current, target, s), lo, hi, centre);
  }

  /** One success brings the delay towards every centre the target is near, up to rounding. */
  lemma SuccessContracts(c: ThrottleConfig, delayMs: real, latencyMs: real, centre: real, e: real)
    requires c.Valid() && c.minDelayMs as real <= centre <= c.maxDelayMs as real
    requires Distance(Target(c, latencyMs), centre) <= e
    ensures Distance(AdjustedDelay(c, delayMs, latencyMs, false), centre)
            <= (1.0 - c.smoothing) * Distance(delayMs, centre) + c.smoothing * e + 0.5
  {
    BlendedAndRounded(delayMs, Target(c, latencyMs), c.minDelayMs, c.maxDelayMs, c.smoothing, centre, e);
  }

  function AfterSuccesses(c: ThrottleConfig, start: real, latencies: seq<real>): real
    requires c.Valid()
  {
    if |latencies| == 0 then start
    else AdjustedDelay(c, AfterSuccesses(c, start, latencies[..|latencies| - 1]), latencies[|latencies| - 1], false)
  }

  function Power(x: real, n: nat): real {
    if n == 0 then 1.0 else x * Power(x, n - 1)
  }

  /** What is left of the starting distance, the spread of the targets, and what rounding adds up to. */
  ghost function Remaining(smoothing: real, n: nat, start: real, e: real): real
    requires 0.0 < smoothing
  {
    Power(1.0 - smoothing, n) * start + e + 0.5 / smoothing
  }

  lemma RemainingStep(s: real, n: nat, start: real, e: real, before: real)
    requires 0.0 < s <= 1.0 && before <= Remaining(s, n, start, e)
    ensures (1.0 - s) * before + s * e + 0.5 <= Remaining(s, n + 1, start, e)
  {
    var h, k, p := 0.5 / s, 1.0 - s, Power(1.0 - s, n);
    assert s * h == 0.5;
    assert k * before <= k * (p * start + e + h);
    assert k * (p * start + e + h) == k * p * start + k * e + k * h;
    assert k * e == e - s * e;
    assert k * h == h - s * h;
  }

  lemma NothingElapsed(s: real, start: real, e: real)
    requires 0.0 < s && 0.0 <= e
    ensures start <= Remaining(s, 0, start, e)
  {
    assert 0.5 / s >= 0.0;
    assert Power(1.0 - s, 0) * start == start;
  }

  lemma RemainingAfterSuccess(
      c: ThrottleConfig, delayMs: real, latencyMs: real, centre: real, e: real, n: nat, start: real)
    requires c.Valid() && c.minDelayMs as real <= centre <= c.maxDelayMs as real
    requires Distance(Target(c, latencyMs), centre) <= e
    requires Distance(delayMs, centre) <= Remaining(c.smoothing, n, start, e)
    ensures Distance(AdjustedDelay(c, delayMs, latencyMs, false), centre) <= Remaining(c.smoothing, n + 1, start, e)
  {
    RemainingAfterBlend(delayMs, Target(c, latencyMs), c.minDelayMs, c.maxDelayMs, c.smoothing, centre, e, n, start);
  }

  lemma RemainingAfterBlend(
      current: real, target: real, lo: nat, hi: nat, s: real, centre: real, e: real, n: nat, start: real)
    requires 0.0 < s <= 1.0 && Distance(target, centre) <= e && lo as real <= centre <= hi as real
    requires Distance(current, centre) <= Remaining(s, n, start, e)
    ensures Distance(Round(Clamp(Blend(current, target, s), lo as real, hi as real)), centre) <= Remaining(s, n + 1, start, e)
  {
    BlendedAndRounded(current, target, lo, hi, s, centre, e);
    var after := Round(Clamp(Blend(current, target, s), lo as real, hi as real));
    StillRemaining(s, n, start, e, Distance(current, centre), Distance(after, centre));
  }

  lemma StillRemaining(s: real, n: nat, start: real, e: real, before: real, after: real)
    requires 0.0 < s <= 1.0 && before <= Remaining(s, n, start, e) && after <= Shrunk(s, before, e)
    ensures after <= Remaining(s, n + 1, start, e)
  {
    RemainingStep(s, n, start, e, before);
  }

  /** After any number of successes whose targets lie within e of a centre, the distance to that
      centre is bounded by a geometrically shrinking share of the starting distance, plus e, plus
      1 / (2 smoothing) for rounding. Constant latency is the case e = 0. */
  lemma {:induction false} SuccessesConverge(
      c: ThrottleConfig, start: real, latencies: seq<real>, centre: real, e: real)
    requires c.Valid() && 0.0 <= e && c.minDelayMs as real <= centre <= c.maxDelayMs as real
    requires forall i :: 0 <= i < |latencies| ==> Distance(Target(c, latencies[i]), centre) <= e
    ensures Distance(AfterSuccesses(c, start, latencies), centre)
            <= Remaining(c.smoothing, |latencies|, Distance(start, centre), e)
  {
    if |latencies| == 0 {
      NothingElapsed(c.smoothing, Distance(start, centre), e);
    } else {
      var n := |latencies| - 1;
      SuccessesConverge(c, start, latencies[..n], centre, e);
      RemainingAfterSuccess(c, AfterSuccesses(c, start, latencies[..n]), latencies[n], centre, e, n, Distance(start, centre));
    }
  }
}
