/** What the politeness controller promises one origin, in the terms of its configuration. */
module OriginPacing {
  import opened Prelude
  import opened Runs
  import opened Throttle
  import opened Politeness
  import opened PolitenessTheorems

  // ---------------------------------------------------------------------------------------
  // The bucket

  /** An origin with room and an empty bucket is granted its next request exactly when a whole
      minute's share has passed, 60000 / n milliseconds. */
  lemma EmptyBucketRefills(c: ValidConfig, n: nat, slots: Slots, origin: string, emptied: real, t: real)
    requires c.maxRequestsPerMinute == Some(n) && emptied <= t
    requires origin in slots && slots[origin].tokens == 0.0 && slots[origin].lastRefillAt == emptied
    requires slots[origin].active < c.maxConcurrencyPerOrigin && slots[origin].nextAllowedAt <= t
    ensures Verdict(c, slots, origin, t) <==> n as real * (t - emptied) >= 60000.0
  {
    MinutelyShare(c, n, emptied, t);
    var x := n as real * (t - emptied);
    assert x / 60000.0 >= 1.0 <==> x >= 60000.0;
  }

  /** Reserve and give back, k times at one instant. */
  function Rounds(origin: string, now: real, k: nat): seq<Timed> {
    if k == 0 then []
    else Rounds(origin, now, k - 1) + [Timed(now, TryReserve(origin)), Timed(now, ReleaseReservation(origin))]
  }

  ghost predicate HasSpent(c: ValidConfig, w: World, origin: string, spent: nat) {
    && origin in w.slots
    && var slot := w.slots[origin];
       slot.active == 0 && slot.nextAllowedAt <= w.now && slot.lastRefillAt == w.now &&
       slot.tokens == c.maxConcurrencyPerOrigin as real - spent as real
  }

  lemma OneMoreRound(c: ValidConfig, w: World, origin: string, spent: nat) returns (w': World)
    requires c.UsesRateLimit() && spent < c.maxConcurrencyPerOrigin
    requires HasSpent(c, w, origin, spent) || (origin !in w.slots && spent == 0)
    ensures Reaches(Machine(c), w, [Timed(w.now, TryReserve(origin)), Timed(w.now, ReleaseReservation(origin))], w')
    ensures HasSpent(c, w', origin, spent + 1) && w'.now == w.now
    ensures w'.grants == w.grants + [Grant(origin, w.now)]
  {
    var ask, giveBack := Timed(w.now, TryReserve(origin)), Timed(w.now, ReleaseReservation(origin));
    assert Earned(c, w.now, w.now) == 0.0;
    assert Granted(c, w.slots, ask);
    var mid := Do(c, w, ask).value;
    w' := Do(c, mid, giveBack).value;
    RunTwo(Machine(c), w, ask, mid, giveBack, w');
  }

  lemma RoundsGrow(origin: string, now: real, k: nat)
    ensures Rounds(origin, now, k + 1) ==
            Rounds(origin, now, k) + [Timed(now, TryReserve(origin)), Timed(now, ReleaseReservation(origin))]
  {
  }

  /** A new origin can be granted as many requests at one instant as it may have open. */
  lemma {:induction false} BurstSpendsTheBucket(c: ValidConfig, w: World, origin: string, k: nat) returns (w': World)
    requires c.UsesRateLimit() && origin !in w.slots && k <= c.maxConcurrencyPerOrigin
    ensures Reaches(Machine(c), w, Rounds(origin, w.now, k), w') && w'.now == w.now
    ensures if k == 0 then w' == w else HasSpent(c, w', origin, k)
    ensures |w'.grants| == |w.grants| + k
  {
    if k == 0 {
      w' := w;
    } else {
      var mid := BurstSpendsTheBucket(c, w, origin, k - 1);
      w' := OneMoreRound(c, mid, origin, k - 1);
      RoundsGrow(origin, w.now, k - 1);
      RunsChain(Machine(c), w, Rounds(origin, w.now, k - 1), mid,
                [Timed(w.now, TryReserve(origin)), Timed(w.now, ReleaseReservation(origin))], w');
    }
  }

  /** After such a burst the next request is granted exactly when 60000 / n milliseconds have passed. */
  lemma BurstThenWait(c: ValidConfig, n: nat, w: World, origin: string, t: real) returns (w': World)
    requires c.maxRequestsPerMinute == Some(n) && origin !in w.slots && w.now <= t
    ensures Reaches(Machine(c), w, Rounds(origin, w.now, c.maxConcurrencyPerOrigin), w')
    ensures |w'.grants| == |w.grants| + c.maxConcurrencyPerOrigin
    ensures Granted(c, w'.slots, Timed(t, TryReserve(origin))) <==> n as real * (t - w.now) >= 60000.0
  {
    w' := BurstSpendsTheBucket(c, w, origin, c.maxConcurrencyPerOrigin);
    EmptyBucketRefills(c, n, w'.slots, origin, w.now, t);
  }

  // ---------------------------------------------------------------------------------------
  // Spacing

  lemma {:induction false} NotBeforeLasts(
      c: ValidConfig, w: World, actions: seq<Timed>, w': World, origin: string, since: real, gap: real)
    requires Reaches(Machine(c), w, actions, w') && since <= w.now
    requires origin in w.slots && w.slots[origin].nextAllowedAt >= since + gap
    requires gap <= c.minDelayMs as real || gap <= c.IntervalMs()
    ensures origin in w'.slots && w'.slots[origin].nextAllowedAt >= since + gap
    decreases actions
  {
    if |actions| > 0 {
      var next := Do(c, w, actions[0]).value;
      assert next.slots[origin].nextAllowedAt >= since + gap;
      NotBeforeLasts(c, next, actions[1..], w', origin, since, gap);
    }
  }

  lemma GrantedNotBefore(c: ValidConfig, slots: Slots, origin: string, t: real)
    requires origin in slots && Granted(c, slots, Timed(t, TryReserve(origin)))
    ensures slots[origin].nextAllowedAt <= t && slots[origin].active < c.maxConcurrencyPerOrigin
  {
    assert Refill(c, slots[origin], t).nextAllowedAt == slots[origin].nextAllowedAt;
  }

  lemma AfterTheAnswer(
      c: ValidConfig, w: World, origin: string, outcome: Outcome, answered: real, between: seq<Timed>, w': World)
      returns (next: World)
    requires Reaches(Machine(c), w, [Timed(answered, Release(origin, outcome))] + between, w')
    ensures next.slots == AfterAnswer(c, w.slots, origin, outcome, answered) && next.now == answered
    ensures Reaches(Machine(c), next, between, w')
  {
    var a := Timed(answered, Release(origin, outcome));
    assert ([a] + between)[1..] == between;
    next := Do(c, w, a).value;
  }

  lemma AnswerKeepsBack(c: ValidConfig, slots: Slots, origin: string, outcome: Outcome, answered: real)
    ensures var after := AfterAnswer(c, slots, origin, outcome, answered);
            && origin in after
            && after[origin].nextAllowedAt >= answered + c.minDelayMs as real
            && after[origin].nextAllowedAt >= answered + c.IntervalMs()
            && after[origin].nextAllowedAt >= answered + after[origin].delayMs
  {
  }

  lemma GrantKeepsGap(
      c: ValidConfig, w: World, origin: string, since: real, gap: real, between: seq<Timed>, w': World, granted: real)
    requires Reaches(Machine(c), w, between, w') && since <= w.now
    requires origin in w.slots && w.slots[origin].nextAllowedAt >= since + gap
    requires gap <= c.minDelayMs as real || gap <= c.IntervalMs()
    requires w'.now <= granted && Granted(c, w'.slots, Timed(granted, TryReserve(origin)))
    ensures granted >= since + gap
  {
    NotBeforeLasts(c, w, between, w', origin, since, gap);
    GrantedNotBefore(c, w'.slots, origin, granted);
  }

  /** Whatever happens in between, the next grant of an origin comes no sooner after an answer than
      the configured delay, and no sooner than 60000 / n milliseconds. */
  lemma GrantKeepsItsDistance(
      c: ValidConfig, w: World, origin: string, outcome: Outcome, answered: real, between: seq<Timed>, w': World, granted: real)
    requires Reaches(Machine(c), w, [Timed(answered, Release(origin, outcome))] + between, w')
    requires w'.now <= granted && Granted(c, w'.slots, Timed(granted, TryReserve(origin)))
    ensures granted >= answered + c.minDelayMs as real
    ensures c.maxRequestsPerMinute.Some? ==> granted >= answered + 60000.0 / c.maxRequestsPerMinute.value as real
  {
    var next := AfterTheAnswer(c, w, origin, outcome, answered, between, w');
    AnswerKeepsBack(c, w.slots, origin, outcome, answered);
    GrantKeepsGap(c, next, origin, answered, c.minDelayMs as real, between, w', granted);
    GrantKeepsGap(c, next, origin, answered, c.IntervalMs(), between, w', granted);
  }

  /** Which answers count as failures. */
  ghost predicate Overloaded(outcome: Outcome) {
    || outcome.requestFailed
    || outcome.statusCode == 429
    || outcome.statusCode == 500
    || (502 <= outcome.statusCode <= 504)
  }

  /** The origin is granted nothing before since + delay, and every answer delays it as long again. */
  ghost predicate HeldBack(w: World, origin: string, since: real, delay: real) {
    origin in w.slots && w.slots[origin].nextAllowedAt >= since + delay && w.slots[origin].delayMs >= delay
  }

  lemma {:induction false} HeldBackLasts(
      c: ValidConfig, w: World, actions: seq<Timed>, w': World, origin: string, since: real, delay: real)
    requires Reaches(Machine(c), w, actions, w') && since <= w.now && HeldBack(w, origin, since, delay)
    requires c.throttle.enabled ==>
               forall i :: 0 <= i < |actions| ==> actions[i].call.Release? ==> actions[i].call.origin != origin
    ensures HeldBack(w', origin, since, delay)
    decreases actions
  {
    if |actions| > 0 {
      var next := Do(c, w, actions[0]).value;
      assert HeldBack(next, origin, since, delay);
      HeldBackLasts(c, next, actions[1..], w', origin, since, delay);
    }
  }

  /** A robots delay holds for all that follows, up to the next answer when the delay adapts. */
  lemma RobotsDelayIsKept(
      c: ValidConfig, w: World, origin: string, delay: real, told: real, between: seq<Timed>, w': World, granted: real)
    requires delay > 0.0 && Reaches(Machine(c), w, [Timed(told, ApplyRobotsDelay(origin, delay))] + between, w')
    requires c.throttle.enabled ==>
               forall i :: 0 <= i < |between| ==> between[i].call.Release? ==> between[i].call.origin != origin
    requires w'.now <= granted && Granted(c, w'.slots, Timed(granted, TryReserve(origin)))
    ensures granted >= told + delay
  {
    var a := Timed(told, ApplyRobotsDelay(origin, delay));
    assert ([a] + between)[1..] == between;
    HeldBackLasts(c, Do(c, w, a).value, between, w', origin, told, delay);
    GrantedNotBefore(c, w'.slots, origin, granted);
  }

  /** Without a rate limit, an answer leaves a robots delay in force exactly when one of the delays
      that it sets reaches as far. */
  lemma AnswerKeepsRobotsDelayIff(
      c: ValidConfig, slots: Slots, origin: string, delay: real, told: real, outcome: Outcome, answered: real)
    requires c.maxRequestsPerMinute.None? && delay > 0.0 && told <= answered < told + delay
    requires origin in slots && 0 < slots[origin].active <= c.maxConcurrencyPerOrigin
    ensures var after := AfterAnswer(c, AfterRobotsDelay(c, slots, origin, delay, told), origin, outcome, answered);
            (forall t :: answered <= t < told + delay ==> !Verdict(c, after, origin, t)) <==>
              told + delay <= answered + c.minDelayMs as real || told + delay <= answered + after[origin].delayMs
  {
    var before := AfterRobotsDelay(c, slots, origin, delay, told);
    var after := AfterAnswer(c, before, origin, outcome, answered);
    var kept := Max(c.minDelayMs as real, after[origin].delayMs);
    forall t | answered <= t
      ensures Verdict(c, after, origin, t) <==> t >= answered + kept
    {
      NoLongerThanItMust(c, before, origin, outcome, answered, t);
    }
    if answered + kept < told + delay {
      var t := Max(answered, answered + kept);
      assert Verdict(c, after, origin, t);
    }
  }

  /** A robots delay above the ceiling of the adapting delay does not survive the next success. */
  lemma SuccessForgetsRobotsDelay(c: ValidConfig, slots: Slots, origin: string, delay: real, told: real, outcome: Outcome)
    requires c.maxRequestsPerMinute.None? && c.throttle.enabled && !Overloaded(outcome)
    requires delay > c.throttle.maxDelayMs as real && delay > c.minDelayMs as real
    requires origin in slots && 0 < slots[origin].active <= c.maxConcurrencyPerOrigin
    ensures var after := AfterAnswer(c, AfterRobotsDelay(c, slots, origin, delay, told), origin, outcome, told);
            var t := told + Max(c.throttle.maxDelayMs as real, c.minDelayMs as real);
            t < told + delay && Verdict(c, after, origin, t)
  {
    var before := AfterRobotsDelay(c, slots, origin, delay, told);
    SuccessStaysInBand(c.throttle, before[origin].delayMs, outcome.latencyMs);
    NoLongerThanItMust(c, before, origin, outcome, told, told + Max(c.throttle.maxDelayMs as real, c.minDelayMs as real));
  }

  /** The delay in force after an answer holds in the same way. */
  lemma DelayInForceIsKept(
      c: ValidConfig, w: World, origin: string, outcome: Outcome, answered: real, between: seq<Timed>, w': World, granted: real)
    requires Reaches(Machine(c), w, [Timed(answered, Release(origin, outcome))] + between, w')
    requires c.throttle.enabled ==>
               forall i :: 0 <= i < |between| ==> between[i].call.Release? ==> between[i].call.origin != origin
    requires w'.now <= granted && Granted(c, w'.slots, Timed(granted, TryReserve(origin)))
    ensures granted >= answered + AfterAnswer(c, w.slots, origin, outcome, answered)[origin].delayMs
  {
    var next := AfterTheAnswer(c, w, origin, outcome, answered, between, w');
    AnswerKeepsBack(c, w.slots, origin, outcome, answered);
    HeldBackLasts(c, next, between, w', origin, answered, next.slots[origin].delayMs);
    GrantedNotBefore(c, w'.slots, origin, granted);
  }

  /** Without a rate limit an origin with room, left alone after an answer, is granted its next
      request exactly when both the configured delay and the delay in force have passed. */
  lemma NoLongerThanItMust(c: ValidConfig, slots: Slots, origin: string, outcome: Outcome, answered: real, t: real)
    requires c.maxRequestsPerMinute.None? && answered <= t
    requires origin in slots && 0 < slots[origin].active <= c.maxConcurrencyPerOrigin
    ensures var after := AfterAnswer(c, slots, origin, outcome, answered);
            Verdict(c, after, origin, t) <==>
              t >= answered + c.minDelayMs as real && t >= answered + after[origin].delayMs
  {
  }

  /** A new origin is granted its first request at once, and starts out with the configured delay. */
  lemma FirstRequestAtOnce(c: ValidConfig, slots: Slots, origin: string, now: real)
    requires origin !in slots
    ensures Verdict(c, slots, origin, now)
    ensures var slot := AfterReserve(c, slots, origin, now)[origin];
            && slot.active == 1 && slot.requests == slot.failures == 0
            && slot.responseTimeTotalMs == slot.latencyTotalMs == 0.0
            && slot.delayMs == c.throttle.startDelayMs as real
            && (c.UsesRateLimit() ==> slot.tokens == c.maxConcurrencyPerOrigin as real - 1.0)
  {
    if c.UsesRateLimit() {
      assert Earned(c, now, now) == 0.0;
    }
  }

  // ---------------------------------------------------------------------------------------
  // The delay adapts

  ghost predicate IsLonger(c: ThrottleConfig, was: real, delay: real) {
    && was <= delay
    && (delay >= 2.0 * was || delay >= c.maxDelayMs as real)
    && (was <= c.maxDelayMs as real ==> delay <= c.maxDelayMs as real)
    && (was > c.maxDelayMs as real ==> delay == was)
  }

  /** A failed or overloaded answer is counted and never shortens the delay; any other brings it
      into the configured band; with adapting switched off the delay stays. */
  lemma AnswerAdaptsDelay(c: ValidConfig, slots: Slots, origin: string, outcome: Outcome, now: real)
    requires origin in slots && 0.0 <= slots[origin].delayMs
    ensures var was, slot := slots[origin], AfterAnswer(c, slots, origin, outcome, now)[origin];
            && slot.requests == was.requests + 1
            && slot.responseTimeTotalMs == was.responseTimeTotalMs + outcome.responseTimeMs
            && slot.latencyTotalMs == was.latencyTotalMs + outcome.latencyMs
            && (Overloaded(outcome) ==> slot.failures == was.failures + 1)
            && (!Overloaded(outcome) ==> slot.failures == was.failures)
            && (!c.throttle.enabled ==> slot.delayMs == was.delayMs)
            && (c.throttle.enabled && Overloaded(outcome) ==> IsLonger(c.throttle, was.delayMs, slot.delayMs))
            && (c.throttle.enabled && !Overloaded(outcome) ==>
                  c.throttle.minDelayMs as real <= slot.delayMs <= c.throttle.maxDelayMs as real)
  {
    if Overloaded(outcome) {
      FailureBacksOff(c.throttle, slots[origin].delayMs, outcome.latencyMs);
    } else {
      SuccessStaysInBand(c.throttle, slots[origin].delayMs, outcome.latencyMs);
    }
  }
}
