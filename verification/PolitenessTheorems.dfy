/** What the politeness controller guarantees over every run of its calls. */
module PolitenessTheorems {
  import opened Prelude
  import opened Runs
  import opened Throttle
  import opened Politeness

  datatype Call =
    | TryReserve(origin: string)
    | ReleaseReservation(origin: string)
    | ApplyRobotsDelay(origin: string, delay: real)
    | Release(origin: string, outcome: Outcome)
    | NextEligibleAt

  /** A call and the clock when it is made. */
  datatype Timed = Timed(at: real, call: Call)

  datatype Grant = Grant(origin: string, at: real)

  datatype World = World(slots: Slots, now: real, grants: seq<Grant>)

  type ValidConfig = c: Config | c.Valid() witness Config(1, None, 0, ThrottleConfig(false, 0, 0, 0, 1, 1.0))

  function SlotsAfter(c: ValidConfig, slots: Slots, a: Timed): Slots {
    match a.call
    case TryReserve(o) => AfterReserve(c, slots, o, a.at)
    case ReleaseReservation(o) => AfterReturn(c, slots, o, a.at)
    case ApplyRobotsDelay(o, d) => AfterRobotsDelay(c, slots, o, d, a.at)
    case Release(o, outcome) => AfterAnswer(c, slots, o, outcome, a.at)
    case NextEligibleAt => AfterPoll(c, slots, a.at)
  }

  predicate Granted(c: ValidConfig, slots: Slots, a: Timed) {
    a.call.TryReserve? && Verdict(c, slots, a.call.origin, a.at)
  }

  /** Any call at any time the clock can show. */
  function Do(c: ValidConfig, w: World, a: Timed): Option<World> {
    if a.at < w.now then None else
      Some(World(SlotsAfter(c, w.slots, a), a.at,
                 if Granted(c, w.slots, a) then w.grants + [Grant(a.call.origin, a.at)] else w.grants))
  }

  ghost function Machine(c: ValidConfig): (World, Timed) -> Option<World> {
    (w: World, a: Timed) => Do(c, w, a)
  }

  ghost predicate SlotInv(c: ValidConfig, slot: Slot, now: real) {
    0.0 <= slot.tokens <= c.Capacity() && slot.active <= c.maxConcurrencyPerOrigin && slot.lastRefillAt <= now
  }

  ghost predicate Inv(c: ValidConfig, w: World) {
    && (forall o :: o in w.slots ==> SlotInv(c, w.slots[o], w.now))
    && (forall i :: 0 <= i < |w.grants| ==> w.grants[i].at <= w.now)
  }

  lemma RefillKeepsInv(c: ValidConfig, slot: Slot, before: real, now: real)
    requires SlotInv(c, slot, before) && before <= now
    ensures SlotInv(c, Refill(c, slot, now), now)
  {
  }

  /** Tokens stay within [0, capacity] and no origin has more open than it may. */
  lemma StepKeepsInv(c: ValidConfig, w: World, a: Timed)
    requires Inv(c, w) && Do(c, w, a).Some?
    ensures Inv(c, Do(c, w, a).value)
  {
    var w' := Do(c, w, a).value;
    forall o | o in w'.slots
      ensures SlotInv(c, w'.slots[o], w'.now)
    {
      if o in w.slots {
        RefillKeepsInv(c, w.slots[o], w.now, a.at);
      }
      RefillKeepsInv(c, FreshSlot(c, a.at), a.at, a.at);
    }
  }

  lemma {:induction false} RunKeepsInv(c: ValidConfig, w: World, actions: seq<Timed>, w': World)
    requires Inv(c, w) && Reaches(Machine(c), w, actions, w')
    ensures Inv(c, w') && w.now <= w'.now
    decreases actions
  {
    if |actions| > 0 {
      StepKeepsInv(c, w, actions[0]);
      RunKeepsInv(c, Do(c, w, actions[0]).value, actions[1..], w');
    }
  }

  /** The requests that are open: granted, and neither given back nor answered. */
  function OpenAfter(c: ValidConfig, slots: Slots, open: multiset<string>, a: Timed): multiset<string> {
    if Granted(c, slots, a) then open + multiset{a.call.origin}
    else if a.call.ReleaseReservation? || a.call.Release? then open - multiset{a.call.origin}
    else open
  }

  function OpenAfterAll(c: ValidConfig, w: World, open: multiset<string>, actions: seq<Timed>): multiset<string>
    decreases actions
  {
    if |actions| == 0 || Do(c, w, actions[0]).None? then open
    else OpenAfterAll(c, Do(c, w, actions[0]).value, OpenAfter(c, w.slots, open, actions[0]), actions[1..])
  }

  function ActiveOf(slots: Slots, origin: string): nat {
    if origin in slots then slots[origin].active else 0
  }

  lemma StepCountsOpen(c: ValidConfig, w: World, open: multiset<string>, a: Timed, origin: string)
    requires Do(c, w, a).Some? && open[origin] == ActiveOf(w.slots, origin)
    ensures OpenAfter(c, w.slots, open, a)[origin] == ActiveOf(Do(c, w, a).value.slots, origin)
  {
    match a.call {
      case TryReserve(o) => ActiveAfterReserve(c, w.slots, o, a.at, origin);
      case ReleaseReservation(o) =>
      case ApplyRobotsDelay(o, d) =>
      case Release(o, outcome) => ActiveAfterAnswer(c, w.slots, o, outcome, a.at, origin);
      case NextEligibleAt => ActiveAfterPoll(c, w.slots, a.at, origin);
    }
  }

  lemma ActiveAfterReserve(c: ValidConfig, slots: Slots, o: string, now: real, origin: string)
    ensures ActiveOf(AfterReserve(c, slots, o, now), origin) ==
            ActiveOf(slots, origin) + if o == origin && Verdict(c, slots, o, now) then 1 else 0
  {
  }

  lemma ActiveAfterAnswer(c: ValidConfig, slots: Slots, o: string, outcome: Outcome, now: real, origin: string)
    ensures ActiveOf(AfterAnswer(c, slots, o, outcome, now), origin) ==
            if o == origin then OneLess(ActiveOf(slots, origin)) else ActiveOf(slots, origin)
  {
  }

  lemma ActiveAfterPoll(c: ValidConfig, slots: Slots, now: real, origin: string)
    ensures ActiveOf(AfterPoll(c, slots, now), origin) == ActiveOf(slots, origin)
  {
  }

  /** In every run the active count of an origin is the number of its requests that are open, and
      that number is within the limit. */
  lemma {:induction false} ActiveIsOpen(
      c: ValidConfig, w: World, open: multiset<string>, actions: seq<Timed>, w': World, origin: string)
    requires Inv(c, w) && Reaches(Machine(c), w, actions, w') && open[origin] == ActiveOf(w.slots, origin)
    ensures OpenAfterAll(c, w, open, actions)[origin] == ActiveOf(w'.slots, origin)
    ensures OpenAfterAll(c, w, open, actions)[origin] <= c.maxConcurrencyPerOrigin
    decreases actions
  {
    if |actions| > 0 {
      StepKeepsInv(c, w, actions[0]);
      StepCountsOpen(c, w, open, actions[0], origin);
      ActiveIsOpen(c, Do(c, w, actions[0]).value, OpenAfter(c, w.slots, open, actions[0]), actions[1..], w', origin);
    }
  }

  // ---------------------------------------------------------------------------------------
  // The rate bound

  /** How many grants of an origin fall into the window from s to t, both ends included. */
  ghost function InWindow(grants: seq<Grant>, origin: string, s: real, t: real): nat {
    if |grants| == 0 then 0 else
      var last := grants[|grants| - 1];
      InWindow(grants[..|grants| - 1], origin, s, t) +
      if last.origin == origin && s <= last.at <= t then 1 else 0
  }

  /** The tokens an origin would have if it were asked now; one never asked has its whole capacity. */
  ghost function Credit(c: ValidConfig, w: World, origin: string): real {
    Refill(c, SlotOf(c, w.slots, origin, w.now), w.now).tokens
  }

  lemma EarnedAdds(c: ValidConfig, a: real, b: real, d: real)
    requires c.UsesRateLimit()
    ensures Earned(c, a, b) + Earned(c, b, d) == Earned(c, a, d)
  {
    var i := c.IntervalMs();
    assert (b - a) / i + (d - b) / i == (d - a) / i;
  }

  lemma RefillTwice(c: ValidConfig, slot: Slot, a: real, b: real)
    requires SlotInv(c, slot, a) && a <= b
    ensures Refill(c, Refill(c, slot, a), b) == Refill(c, slot, b)
    ensures c.UsesRateLimit() ==> Refill(c, slot, b).tokens <= Refill(c, slot, a).tokens + Earned(c, a, b)
  {
    if c.UsesRateLimit() {
      EarnedAdds(c, slot.lastRefillAt, a, b);
    }
  }

  /** Every grant is paid for: what it takes from the credit, only time gives back. */
  lemma GrantsArePaidFor(c: ValidConfig, w: World, a: Timed, origin: string)
    requires c.UsesRateLimit() && Inv(c, w) && Do(c, w, a).Some?
    ensures var w' := Do(c, w, a).value;
            Credit(c, w', origin) + (if Granted(c, w.slots, a) && a.call.origin == origin then 1.0 else 0.0)
            <= Credit(c, w, origin) + Earned(c, w.now, w'.now)
  {
    var w' := Do(c, w, a).value;
    if origin in w.slots {
      var slot := w.slots[origin];
      RefillTwice(c, slot, w.now, a.at);
      RefillKeepsInv(c, slot, w.now, a.at);
      RefillTwice(c, Refill(c, slot, a.at), a.at, a.at);
    }
  }

  ghost predicate Bounded(c: ValidConfig, w: World, origin: string, s: real, t: real)
    requires c.UsesRateLimit()
  {
    && (s <= t ==> InWindow(w.grants, origin, s, t) as real <= c.Capacity() + Earned(c, s, t))
    && (s <= w.now ==>
          InWindow(w.grants, origin, s, w.now) as real + Credit(c, w, origin) <= c.Capacity() + Earned(c, s, w.now))
  }

  lemma {:induction false} WindowPast(grants: seq<Grant>, origin: string, s: real, now: real, t: real)
    requires forall i :: 0 <= i < |grants| ==> grants[i].at <= now
    ensures now <= t ==> InWindow(grants, origin, s, t) == InWindow(grants, origin, s, now)
    ensures now < s ==> InWindow(grants, origin, s, t) == 0
  {
    if |grants| > 0 {
      WindowPast(grants[..|grants| - 1], origin, s, now, t);
    }
  }

  lemma GrantCounts(grants: seq<Grant>, g: Grant, origin: string, s: real, t: real)
    ensures InWindow(grants + [g], origin, s, t)
            == InWindow(grants, origin, s, t) + if g.origin == origin && s <= g.at <= t then 1 else 0
  {
    assert (grants + [g])[..|grants|] == grants;
  }

  lemma CreditInRange(c: ValidConfig, w: World, origin: string)
    requires Inv(c, w)
    ensures 0.0 <= Credit(c, w, origin) <= c.Capacity()
  {
    if origin in w.slots {
      RefillKeepsInv(c, w.slots[origin], w.now, w.now);
    } else {
      RefillKeepsInv(c, FreshSlot(c, w.now), w.now, w.now);
    }
  }

  lemma BoundedUpToNow(c: ValidConfig, w: World, a: Timed, origin: string, s: real, t: real)
    requires c.UsesRateLimit() && Inv(c, w) && Do(c, w, a).Some? && Bounded(c, w, origin, s, t)
    requires s <= a.at
    ensures var w' := Do(c, w, a).value;
            InWindow(w'.grants, origin, s, w'.now) as real + Credit(c, w', origin) <= c.Capacity() + Earned(c, s, w'.now)
  {
    var w' := Do(c, w, a).value;
    StepKeepsInv(c, w, a);
    GrantsArePaidFor(c, w, a, origin);
    WindowPast(w.grants, origin, s, w.now, w'.now);
    CreditInRange(c, w, origin);
    CreditInRange(c, w', origin);
    if a.call.TryReserve? {
      GrantCounts(w.grants, Grant(a.call.origin, a.at), origin, s, w'.now);
    }
    if s <= w.now {
      EarnedAdds(c, s, w.now, w'.now);
    } else {
      EarnedAdds(c, w.now, s, w'.now);
      CreditAfterGrant(c, w, a, origin);
    }
  }

  lemma CreditAfterGrant(c: ValidConfig, w: World, a: Timed, origin: string)
    requires c.UsesRateLimit() && Inv(c, w) && Do(c, w, a).Some?
    ensures Credit(c, Do(c, w, a).value, origin)
            + (if Granted(c, w.slots, a) && a.call.origin == origin then 1.0 else 0.0) <= c.Capacity()
  {
    var w' := Do(c, w, a).value;
    StepKeepsInv(c, w, a);
    CreditInRange(c, w', origin);
    if origin in w.slots {
      RefillKeepsInv(c, w.slots[origin], w.now, a.at);
    }
  }

  lemma StepKeepsBounded(c: ValidConfig, w: World, a: Timed, origin: string, s: real, t: real)
    requires c.UsesRateLimit() && Inv(c, w) && Do(c, w, a).Some? && Bounded(c, w, origin, s, t)
    ensures Bounded(c, Do(c, w, a).value, origin, s, t)
  {
    var w' := Do(c, w, a).value;
    StepKeepsInv(c, w, a);
    CreditInRange(c, w', origin);
    if s <= w'.now {
      BoundedUpToNow(c, w, a, origin, s, t);
    }
    if s <= t {
      if a.call.TryReserve? {
        GrantCounts(w.grants, Grant(a.call.origin, a.at), origin, s, t);
      }
      if w'.now <= t {
        WindowPast(w'.grants, origin, s, w'.now, t);
        EarnedAdds(c, s, w'.now, t);
      }
    }
  }

  lemma {:induction false} RunKeepsBounded(
      c: ValidConfig, w: World, actions: seq<Timed>, w': World, origin: string, s: real, t: real)
    requires c.UsesRateLimit() && Inv(c, w) && Reaches(Machine(c), w, actions, w') && Bounded(c, w, origin, s, t)
    ensures Bounded(c, w', origin, s, t)
    decreases actions
  {
    if |actions| > 0 {
      StepKeepsInv(c, w, actions[0]);
      StepKeepsBounded(c, w, actions[0], origin, s, t);
      RunKeepsBounded(c, Do(c, w, actions[0]).value, actions[1..], w', origin, s, t);
    }
  }

  function Start(now: real): World {
    World(map[], now, [])
  }

  lemma MinutelyShare(c: ValidConfig, n: nat, from: real, to: real)
    requires c.maxRequestsPerMinute == Some(n)
    ensures Earned(c, from, to) == n as real * (to - from) / 60000.0
  {
    var x, e := to - from, Earned(c, from, to);
    assert e * (60000.0 / n as real) == x;
    assert 60000.0 / n as real * n as real == 60000.0;
    assert e * 60000.0 == x * n as real;
  }

  /** In every run and every window of time, an origin that may have m requests open and is limited
      to n requests a minute is granted at most m plus n a minute. */
  lemma RateBound(
      c: ValidConfig, n: nat, start: real, actions: seq<Timed>, w: World, origin: string, s: real, t: real)
    requires c.maxRequestsPerMinute == Some(n) && Reaches(Machine(c), Start(start), actions, w) && s <= t
    ensures InWindow(w.grants, origin, s, t) as real
            <= c.maxConcurrencyPerOrigin as real + n as real * (t - s) / 60000.0
  {
    assert Earned(c, s, t) >= 0.0;
    if s <= start {
      assert Earned(c, s, start) >= 0.0;
    }
    CreditInRange(c, Start(start), origin);
    RunKeepsBounded(c, Start(start), actions, w, origin, s, t);
    MinutelyShare(c, n, s, t);
  }

  // ---------------------------------------------------------------------------------------
  // Eligibility is exact

  /** Left alone, a slot takes a request at exactly the times from its eligibility on. */
  lemma EligibilityIsExact(c: ValidConfig, slot: Slot, now: real, t: real)
    requires SlotInv(c, slot, now) && now <= t
    ensures Admits(c, Refill(c, slot, t), t) <==>
              slot.active < c.maxConcurrencyPerOrigin && EligibleAt(c, Refill(c, slot, now), now) <= t
  {
    if c.UsesRateLimit() {
      var polled := Refill(c, slot, now);
      RefillTwice(c, slot, now, t);
      RefillKeepsInv(c, slot, now, now);
      var i, e := c.IntervalMs(), Earned(c, now, t);
      assert e * i == t - now;
      TokenIsWhole(polled.tokens, e, i, now, t, c.Capacity());
    }
  }

  lemma TokenIsWhole(tokens: real, earned: real, interval: real, now: real, t: real, capacity: real)
    requires capacity >= 1.0 && interval > 0.0 && earned * interval == t - now
    ensures Min(capacity, tokens + earned) >= 1.0 <==> now + (1.0 - tokens) * interval <= t
  {
    var missing := 1.0 - tokens;
    assert (earned - missing) * interval == (t - now) - missing * interval;
    assert earned >= missing <==> (earned - missing) * interval >= 0.0;
  }

  /** A crawler that sleeps until nextEligibleAt misses nothing and wakes no sooner than it must:
      if nothing else happens, some known origin takes a request at exactly the times from then on. */
  lemma SleepIsExact(c: ValidConfig, w: World, next: Option<real>, t: real)
    requires Inv(c, w) && w.now <= t
    requires var polled := AfterPoll(c, w.slots, w.now); IsEarliest(Openings(c, polled, w.now), polled.Keys, next)
    ensures (exists o :: o in w.slots && Verdict(c, w.slots, o, t)) <==> next.Some? && next.value <= t
  {
    var polled := AfterPoll(c, w.slots, w.now);
    var times := Openings(c, polled, w.now);
    forall o | o in w.slots
      ensures Verdict(c, w.slots, o, t) <==> o in times && times[o] <= t
    {
      EligibilityIsExact(c, w.slots[o], w.now, t);
    }
    if next.Some? && next.value <= t {
      var o :| o in polled.Keys && o in times && times[o] == next.value;
      assert o in w.slots && Verdict(c, w.slots, o, t);
    }
  }

  // ---------------------------------------------------------------------------------------
  // Questions leave no trace

  /** Two controllers no call can tell apart: they differ only in when they last counted tokens. */
  ghost predicate Alike(c: ValidConfig, w: World, v: World) {
    && v.now <= w.now
    && w.grants == v.grants
    && w.slots.Keys == v.slots.Keys
    && forall o :: o in w.slots ==> Refill(c, w.slots[o], w.now) == Refill(c, v.slots[o], w.now)
  }

  lemma AlikeLater(c: ValidConfig, w: World, v: World, o: string, t: real)
    requires Inv(c, w) && Inv(c, v) && Alike(c, w, v) && w.now <= t && o in w.slots
    ensures Refill(c, w.slots[o], t) == Refill(c, v.slots[o], t)
  {
    RefillTwice(c, w.slots[o], w.now, t);
    RefillTwice(c, v.slots[o], w.now, t);
  }

  lemma AlikeSlots(c: ValidConfig, w: World, v: World, o: string)
    requires Alike(c, w, v) && o in w.slots
    ensures w.slots[o].(tokens := 0.0, lastRefillAt := 0.0) == v.slots[o].(tokens := 0.0, lastRefillAt := 0.0)
  {
    var a, b := Refill(c, w.slots[o], w.now), Refill(c, v.slots[o], w.now);
    assert a.(tokens := 0.0, lastRefillAt := 0.0) == w.slots[o].(tokens := 0.0, lastRefillAt := 0.0);
    assert b.(tokens := 0.0, lastRefillAt := 0.0) == v.slots[o].(tokens := 0.0, lastRefillAt := 0.0);
  }

  lemma AlikeVerdicts(c: ValidConfig, w: World, v: World, a: Timed)
    requires Inv(c, w) && Inv(c, v) && Alike(c, w, v) && w.now <= a.at
    ensures Granted(c, w.slots, a) == Granted(c, v.slots, a)
  {
    if a.call.TryReserve? && a.call.origin in w.slots {
      AlikeLater(c, w, v, a.call.origin, a.at);
    }
  }

  /** Refilling looks at the tokens alone, and editing the rest of a slot leaves them alone. */
  lemma EditKeepsAlike(c: ValidConfig, x: Slot, y: Slot, edited: Slot, t: real)
    requires Refill(c, x, t) == Refill(c, y, t) && edited.tokens == x.tokens && edited.lastRefillAt == x.lastRefillAt
    ensures Refill(c, edited, t) == Refill(c, edited.(tokens := y.tokens, lastRefillAt := y.lastRefillAt), t)
  {
    assert c.UsesRateLimit() ==> Refill(c, x, t).tokens == Refill(c, y, t).tokens;
    assert !c.UsesRateLimit() ==> x == y;
  }

  lemma AlikeAtOther(c: ValidConfig, w: World, v: World, a: Timed, o: string)
    requires Inv(c, w) && Inv(c, v) && Alike(c, w, v) && w.now <= a.at && o in w.slots
    requires a.call.NextEligibleAt? || o != a.call.origin
    ensures o in SlotsAfter(c, v.slots, a)
    ensures Refill(c, SlotsAfter(c, w.slots, a)[o], a.at) == Refill(c, SlotsAfter(c, v.slots, a)[o], a.at)
  {
    AlikeLater(c, w, v, o, a.at);
    AlikeSlots(c, w, v, o);
    RefillTwice(c, w.slots[o], a.at, a.at);
    RefillTwice(c, v.slots[o], a.at, a.at);
  }

  lemma AlikeAt(c: ValidConfig, w: World, v: World, a: Timed)
    requires Inv(c, w) && Inv(c, v) && Alike(c, w, v) && w.now <= a.at
    requires !a.call.NextEligibleAt? && a.call.origin in w.slots
    ensures var o := a.call.origin;
            Refill(c, SlotsAfter(c, w.slots, a)[o], a.at) == Refill(c, SlotsAfter(c, v.slots, a)[o], a.at)
  {
    var o := a.call.origin;
    var x, y := w.slots[o], v.slots[o];
    AlikeLater(c, w, v, o, a.at);
    if !a.call.TryReserve? {
      AlikeSlots(c, w, v, o);
      var edited := SlotsAfter(c, w.slots, a)[o];
      EditKeepsAlike(c, x, y, edited, a.at);
      assert SlotsAfter(c, v.slots, a)[o] == edited.(tokens := y.tokens, lastRefillAt := y.lastRefillAt) by {
        assert y == x.(tokens := y.tokens, lastRefillAt := y.lastRefillAt);
      }
    }
  }

  lemma AlikeStep(c: ValidConfig, w: World, v: World, a: Timed)
    requires Inv(c, w) && Inv(c, v) && Alike(c, w, v) && Do(c, w, a).Some?
    ensures Do(c, v, a).Some? && Alike(c, Do(c, w, a).value, Do(c, v, a).value)
    ensures Granted(c, w.slots, a) == Granted(c, v.slots, a)
  {
    AlikeVerdicts(c, w, v, a);
    forall o | o in SlotsAfter(c, w.slots, a)
      ensures Refill(c, SlotsAfter(c, w.slots, a)[o], a.at) == Refill(c, SlotsAfter(c, v.slots, a)[o], a.at)
    {
      if o in w.slots {
        if a.call.NextEligibleAt? || o != a.call.origin {
          AlikeAtOther(c, w, v, a, o);
        } else {
          AlikeAt(c, w, v, a);
        }
      }
    }
    assert SlotsAfter(c, w.slots, a).Keys == SlotsAfter(c, v.slots, a).Keys;
  }

  /** A reservation that is refused and a look at the next eligible time. */
  predicate IsQuestion(c: ValidConfig, w: World, a: Timed) {
    a.call.NextEligibleAt? || (a.call.TryReserve? && !Granted(c, w.slots, a))
  }

  lemma QuestionLeavesAlike(c: ValidConfig, w: World, a: Timed)
    requires Inv(c, w) && IsQuestion(c, w, a) && Do(c, w, a).Some?
    ensures Alike(c, Do(c, w, a).value, w)
  {
    var w' := Do(c, w, a).value;
    forall o | o in w'.slots
      ensures Refill(c, w'.slots[o], a.at) == Refill(c, w.slots[o], a.at)
    {
      RefillTwice(c, w.slots[o], a.at, a.at);
    }
  }

  lemma {:induction false} AlikeRuns(c: ValidConfig, w: World, v: World, actions: seq<Timed>, w': World) returns (v': World)
    requires Inv(c, w) && Inv(c, v) && Alike(c, w, v) && Reaches(Machine(c), w, actions, w')
    ensures Reaches(Machine(c), v, actions, v') && Alike(c, w', v')
    decreases actions
  {
    if |actions| == 0 {
      v' := v;
    } else {
      AlikeStep(c, w, v, actions[0]);
      StepKeepsInv(c, w, actions[0]);
      StepKeepsInv(c, v, actions[0]);
      v' := AlikeRuns(c, Do(c, w, actions[0]).value, Do(c, v, actions[0]).value, actions[1..], w');
    }
  }

  /** Leaving a question out of a run changes none of the grants that follow. So scanning any number
      of refused candidates cannot change the verdict on the next one. */
  lemma QuestionsLeaveNoTrace(c: ValidConfig, w: World, a: Timed, actions: seq<Timed>, w': World) returns (v': World)
    requires Inv(c, w) && IsQuestion(c, w, a) && Reaches(Machine(c), w, [a] + actions, w')
    ensures Reaches(Machine(c), w, actions, v')
    ensures v'.grants == w'.grants && Alike(c, w', v')
  {
    assert ([a] + actions)[1..] == actions;
    QuestionLeavesAlike(c, w, a);
    StepKeepsInv(c, w, a);
    v' := AlikeRuns(c, Do(c, w, a).value, w, actions, w');
  }

  /** Offer candidates one after the other until one is taken, as leaseNext does. */
  function FirstTaken(c: ValidConfig, slots: Slots, origins: seq<string>, now: real): (r: Option<nat>)
    ensures r.Some? ==> r.value < |origins|
    decreases origins
  {
    if |origins| == 0 then None
    else if Verdict(c, slots, origins[0], now) then Some(0)
    else
      match FirstTaken(c, AfterReserve(c, slots, origins[0], now), origins[1..], now)
      case None => None
      case Some(k) => Some(k + 1)
  }

  lemma RefusalKeepsVerdict(c: ValidConfig, w: World, refused: string, o: string)
    requires Inv(c, w) && !Verdict(c, w.slots, refused, w.now)
    ensures Verdict(c, AfterReserve(c, w.slots, refused, w.now), o, w.now) == Verdict(c, w.slots, o, w.now)
    ensures Inv(c, World(AfterReserve(c, w.slots, refused, w.now), w.now, w.grants))
  {
    var a, b := Timed(w.now, TryReserve(refused)), Timed(w.now, TryReserve(o));
    var next := World(AfterReserve(c, w.slots, refused, w.now), w.now, w.grants);
    assert Do(c, w, a) == Some(next);
    StepKeepsInv(c, w, a);
    QuestionLeavesAlike(c, w, a);
    AlikeStep(c, next, w, b);
  }

  /** The candidate taken is the first that the controller would have admitted before any was
      offered: a scan may treat acceptance as a fixed property of the origin. */
  lemma {:induction false} ScanSeesFixedVerdicts(c: ValidConfig, w: World, origins: seq<string>)
    requires Inv(c, w)
    ensures match FirstTaken(c, w.slots, origins, w.now)
            case None => forall k :: 0 <= k < |origins| ==> !Verdict(c, w.slots, origins[k], w.now)
            case Some(n) => Verdict(c, w.slots, origins[n], w.now) &&
                            forall k :: 0 <= k < n ==> !Verdict(c, w.slots, origins[k], w.now)
    decreases origins
  {
    if |origins| > 0 && !Verdict(c, w.slots, origins[0], w.now) {
      var next := World(AfterReserve(c, w.slots, origins[0], w.now), w.now, w.grants);
      RefusalKeepsVerdict(c, w, origins[0], origins[0]);
      ScanSeesFixedVerdicts(c, next, origins[1..]);
      forall k | 1 <= k < |origins|
        ensures Verdict(c, next.slots, origins[1..][k - 1], w.now) == Verdict(c, w.slots, origins[k], w.now)
      {
        RefusalKeepsVerdict(c, w, origins[0], origins[k]);
      }
    }
  }
}
