/** The per-origin admission of requests: a bounded number open at once, spacing after each answer,
    and a token bucket (src/politeness/index.ts). Each call reads the clock once. */
module Politeness {
  import opened Prelude
  import opened Throttle

  datatype Config = Config(
    maxConcurrencyPerOrigin: nat,
    maxRequestsPerMinute: Option<nat>,
    minDelayMs: nat,
    throttle: ThrottleConfig)
  {
    predicate Valid() {
      && maxConcurrencyPerOrigin > 0
      && (maxRequestsPerMinute.Some? ==> maxRequestsPerMinute.value > 0)
      && throttle.Valid()
    }

    predicate UsesRateLimit() {
      maxRequestsPerMinute.Some?
    }

    function Capacity(): real {
      if maxConcurrencyPerOrigin >= 1 then maxConcurrencyPerOrigin as real else 1.0
    }

    function IntervalMs(): (i: real)
      requires Valid()
      ensures i >= 0.0 && (UsesRateLimit() ==> i > 0.0)
    {
      if maxRequestsPerMinute.None? then 0.0 else 60000.0 / maxRequestsPerMinute.value as real
    }
  }

  datatype Slot = Slot(
    active: nat,
    delayMs: real,
    nextAllowedAt: real,
    requests: nat,
    failures: nat,
    responseTimeTotalMs: real,
    latencyTotalMs: real,
    tokens: real,
    lastRefillAt: real)

  type Slots = map<string, Slot>

  datatype Outcome = Outcome(requestFailed: bool, statusCode: int, responseTimeMs: real, latencyMs: real)

  function IsFailure(outcome: Outcome): bool {
    outcome.requestFailed || outcome.statusCode in {429, 500, 502, 503, 504}
  }

  function FreshSlot(c: Config, now: real): Slot {
    Slot(0, c.throttle.startDelayMs as real, now, 0, 0, 0.0, 0.0, c.Capacity(), now)
  }

  function SlotOf(c: Config, slots: Slots, origin: string, now: real): Slot {
    if origin in slots then slots[origin] else FreshSlot(c, now)
  }

  /** Tokens that time has earned, per millisecond of it. */
  function Earned(c: Config, from: real, to: real): (e: real)
    requires c.Valid() && c.UsesRateLimit()
    ensures from <= to ==> e >= 0.0
  {
    (to - from) / c.IntervalMs()
  }

  function Refill(c: Config, slot: Slot, now: real): Slot
    requires c.Valid()
  {
    if !c.UsesRateLimit() then slot
    else slot.(lastRefillAt := now, tokens := Min(c.Capacity(), slot.tokens + Earned(c, slot.lastRefillAt, now)))
  }

  function EligibleAt(c: Config, slot: Slot, now: real): real
    requires c.Valid()
  {
    if !c.UsesRateLimit() || slot.tokens >= 1.0 then slot.nextAllowedAt
    else Max(slot.nextAllowedAt, now + (1.0 - slot.tokens) * c.IntervalMs())
  }

  /** What tryReserve decides about a slot whose tokens are up to date. */
  predicate Admits(c: Config, slot: Slot, now: real)
    requires c.Valid()
  {
    && slot.active < c.maxConcurrencyPerOrigin
    && EligibleAt(c, slot, now) <= now
    && (c.UsesRateLimit() ==> slot.tokens >= 1.0)
  }

  function Verdict(c: Config, slots: Slots, origin: string, now: real): bool
    requires c.Valid()
  {
    Admits(c, Refill(c, SlotOf(c, slots, origin, now), now), now)
  }

  function AfterReserve(c: Config, slots: Slots, origin: string, now: real): Slots
    requires c.Valid()
  {
    var slot := Refill(c, SlotOf(c, slots, origin, now), now);
    slots[origin :=
      if !Admits(c, slot, now) then slot
      else slot.(active := slot.active + 1,
                 tokens := if c.UsesRateLimit() then slot.tokens - 1.0 else slot.tokens)]
  }

  function OneLess(active: nat): nat {
    if active == 0 then 0 else active - 1
  }

  function AfterReturn(c: Config, slots: Slots, origin: string, now: real): Slots {
    var slot := SlotOf(c, slots, origin, now);
    slots[origin := slot.(active := OneLess(slot.active))]
  }

  function AfterRobotsDelay(c: Config, slots: Slots, origin: string, delay: real, now: real): Slots {
    if delay <= 0.0 then slots else
      var slot := SlotOf(c, slots, origin, now);
      slots[origin := slot.(delayMs := Max(slot.delayMs, delay), nextAllowedAt := Max(slot.nextAllowedAt, now + delay))]
  }

  function AfterAnswer(c: Config, slots: Slots, origin: string, outcome: Outcome, now: real): Slots
    requires c.Valid()
  {
    var slot := SlotOf(c, slots, origin, now);
    var failed := IsFailure(outcome);
    var delay := if c.throttle.enabled then AdjustedDelay(c.throttle, slot.delayMs, outcome.latencyMs, failed)
                 else slot.delayMs;
    slots[origin := slot.(
      active := OneLess(slot.active),
      requests := slot.requests + 1,
      responseTimeTotalMs := slot.responseTimeTotalMs + outcome.responseTimeMs,
      latencyTotalMs := slot.latencyTotalMs + outcome.latencyMs,
      failures := slot.failures + if failed then 1 else 0,
      delayMs := delay,
      nextAllowedAt := now + Max(Max(c.minDelayMs as real, c.IntervalMs()), delay))]
  }

  function AfterPoll(c: Config, slots: Slots, now: real): Slots
    requires c.Valid()
  {
    map o | o in slots :: if slots[o].active >= c.maxConcurrencyPerOrigin then slots[o] else Refill(c, slots[o], now)
  }

  class PolitenessController {
    const config: Config
    var slots: Slots

    constructor (config: Config)
      requires config.Valid()
      ensures this.config == config && slots == map[]
    {
      this.config, slots := config, map[];
    }

    method TryReserve(origin: string, now: real) returns (granted: bool)
      requires config.Valid()
      modifies this
      ensures granted == Verdict(config, old(slots), origin, now)
      ensures slots == AfterReserve(config, old(slots), origin, now)
    {
      var slot := TakeSlot(origin, now);
      slot := Refill(config, slot, now);
      slots := slots[origin := slot];
      if slot.active >= config.maxConcurrencyPerOrigin {
        return false;
      }
      if now < EligibleAt(config, slot, now) {
        return false;
      }
      if config.UsesRateLimit() && slot.tokens < 1.0 {
        return false;
      }
      slot := slot.(active := slot.active + 1);
      if config.UsesRateLimit() {
        slot := slot.(tokens := slot.tokens - 1.0);
      }
      slots := slots[origin := slot];
      return true;
    }

    method TakeSlot(origin: string, now: real) returns (slot: Slot)
      modifies this
      ensures slot == SlotOf(config, old(slots), origin, now)
      ensures slots == old(slots)[origin := slot]
    {
      if origin in slots {
        return slots[origin];
      }
      slot := FreshSlot(config, now);
      slots := slots[origin := slot];
    }

    method ReleaseReservation(origin: string, now: real)
      modifies this
      ensures slots == AfterReturn(config, old(slots), origin, now)
    {
      var slot := TakeSlot(origin, now);
      slots := slots[origin := slot.(active := OneLess(slot.active))];
    }

    /** The time returned is how long the caller then sleeps. */
    method ApplyRobotsDelay(origin: string, minimumDelayMs: real, now: real) returns (wait: real)
      modifies this
      ensures slots == AfterRobotsDelay(config, old(slots), origin, minimumDelayMs, now)
      ensures wait >= minimumDelayMs && wait >= 0.0
      ensures minimumDelayMs <= 0.0 ==> wait == 0.0 && slots == old(slots)
      ensures minimumDelayMs > 0.0 ==> origin in slots && now + wait == slots[origin].nextAllowedAt
    {
      if minimumDelayMs <= 0.0 {
        return 0.0;
      }
      var slot := TakeSlot(origin, now);
      slot := slot.(delayMs := Max(slot.delayMs, minimumDelayMs));
      slot := slot.(nextAllowedAt := Max(slot.nextAllowedAt, now + minimumDelayMs));
      slots := slots[origin := slot];
      wait := Max(0.0, slot.nextAllowedAt - now);
    }

    method Release(origin: string, outcome: Outcome, now: real)
      requires config.Valid()
      modifies this
      ensures slots == AfterAnswer(config, old(slots), origin, outcome, now)
    {
      var slot := TakeSlot(origin, now);
      slot := slot.(active := OneLess(slot.active), requests := slot.requests + 1,
                    responseTimeTotalMs := slot.responseTimeTotalMs + outcome.responseTimeMs,
                    latencyTotalMs := slot.latencyTotalMs + outcome.latencyMs);
      var failed := IsFailure(outcome);
      if failed {
        slot := slot.(failures := slot.failures + 1);
      }
      if config.throttle.enabled {
        slot := slot.(delayMs := AdjustedDelay(config.throttle, slot.delayMs, outcome.latencyMs, failed));
      }
      slot := slot.(nextAllowedAt := now + Max(Max(config.minDelayMs as real, config.IntervalMs()), slot.delayMs));
      slots := slots[origin := slot];
    }

    /** The least eligibility time among the origins that have room. */
    method NextEligibleAt(now: real) returns (next: Option<real>)
      requires config.Valid()
      modifies this
      ensures slots == AfterPoll(config, old(slots), now)
      ensures IsEarliest(Openings(config, slots, now), slots.Keys, next)
    {
      ghost var was := slots;
      var rest := slots.Keys;
      next := None;
      while rest != {}
        invariant rest <= slots.Keys == was.Keys
        invariant slots == PartlyPolled(config, was, rest, now)
        invariant IsEarliest(Openings(config, AfterPoll(config, was, now), now), slots.Keys - rest, next)
        decreases |rest|
      {
        var o :| o in rest;
        PollOne(config, was, rest, o, now, next);
        rest := rest - {o};
        if slots[o].active < config.maxConcurrencyPerOrigin {
          slots := slots[o := Refill(config, slots[o], now)];
          var eligible := EligibleAt(config, slots[o], now);
          if next.None? || eligible < next.value {
            next := Some(eligible);
          }
        }
      }
    }
  }

  ghost function PartlyPolled(c: Config, slots: Slots, rest: set<string>, now: real): Slots
    requires c.Valid()
  {
    map o | o in slots :: if o in rest then slots[o] else AfterPoll(c, slots, now)[o]
  }

  lemma PollOne(c: Config, slots: Slots, rest: set<string>, o: string, now: real, next: Option<real>)
    requires c.Valid() && rest <= slots.Keys && o in rest
    requires IsEarliest(Openings(c, AfterPoll(c, slots, now), now), slots.Keys - rest, next)
    ensures var part := PartlyPolled(c, slots, rest, now);
            var times := Openings(c, AfterPoll(c, slots, now), now);
            var done := slots.Keys - (rest - {o});
            && o in part
            && if part[o].active >= c.maxConcurrencyPerOrigin then
                 PartlyPolled(c, slots, rest - {o}, now) == part && IsEarliest(times, done, next)
               else
                 var slot := Refill(c, part[o], now);
                 var t := EligibleAt(c, slot, now);
                 PartlyPolled(c, slots, rest - {o}, now) == part[o := slot] &&
                 IsEarliest(times, done, if next.None? || t < next.value then Some(t) else next)
  {
    EarliestGrows(Openings(c, AfterPoll(c, slots, now), now), slots.Keys - rest, o, next);
    assert slots.Keys - (rest - {o}) == slots.Keys - rest + {o};
  }

  /** When a known origin next takes a request; none while it is full. */
  function Openings(c: Config, slots: Slots, now: real): map<string, real>
    requires c.Valid()
  {
    map o | o in slots && slots[o].active < c.maxConcurrencyPerOrigin :: EligibleAt(c, slots[o], now)
  }

  /** next is the least of the times of the origins given, none when they have none. */
  ghost predicate IsEarliest(times: map<string, real>, origins: set<string>, next: Option<real>) {
    match next
    case None => times.Keys !! origins
    case Some(t) => (exists o :: o in origins && o in times && times[o] == t) &&
                    (forall o :: o in origins && o in times ==> t <= times[o])
  }

  lemma EarliestGrows(times: map<string, real>, origins: set<string>, origin: string, next: Option<real>)
    requires IsEarliest(times, origins, next)
    ensures origin !in times ==> IsEarliest(times, origins + {origin}, next)
    ensures origin in times ==>
              var t := times[origin];
              IsEarliest(times, origins + {origin}, if next.None? || t < next.value then Some(t) else next)
  {
    if next.Some? {
      var o :| o in origins && o in times && times[o] == next.value;
      assert o in origins + {origin};
    }
    assert origin in origins + {origin};
  }
}
