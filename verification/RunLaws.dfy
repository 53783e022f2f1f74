/** What ends the leasing of a run, and the run itself, in terms of the calls made. */
module RunLaws {
  import opened Prelude
  import opened Runs
  import opened RunControl

  // ---------------------------------------------------------------------------------------
  // Stops

  /** The stops after which nothing more is leased: failures, cancellations, and the limits on what has
      been fetched, for how long and how much. */
  ghost predicate EndsLeasing(stop: Stop) {
    || stop.Fatal? || stop.Cancelled?
    || stop == LimitReached(MaxFetchedResources) || stop == LimitReached(MaxRunTime) || stop == LimitReached(MaxDownloadedBytes)
  }

  lemma SoftStops(stop: Stop)
    ensures EndsLeasing(stop) <==> Priority(stop) >= 2
    ensures stop.Cancelled? <==> Priority(stop) == 3
    ensures stop.Fatal? <==> Priority(stop) == 4
    ensures stop.FrontierEmpty? <==> Priority(stop) == 0
  {
    if stop.LimitReached? {
      SoftLimits(stop.limit);
    }
  }

  lemma SoftLimits(limit: Limit)
    ensures IsSoft(limit) <==> limit != MaxFetchedResources && limit != MaxRunTime && limit != MaxDownloadedBytes
  {
    match limit {
      case MaxScheduledRequests => case MaxQueueSize => case MaxSitemapFiles =>
      case MaxSitemapEntries => case MaxSitemapIndexDepth => case MaxRenderedPages =>
      case MaxFetchedResources => case MaxRunTime => case MaxDownloadedBytes =>
    }
  }

  lemma JoinedEndsLeasing(c: Control, stops: seq<Stop>)
    requires Joined(c.stop, stops)
    ensures MayLease(c) <==> forall s :: s in stops ==> !EndsLeasing(s)
  {
    forall s: Stop ensures EndsLeasing(s) <==> Priority(s) >= 2 {
      SoftStops(s);
    }
    if c.stop.Some? {
      assert c.stop.value in stops;
    }
  }

  /** In every run, more may be leased exactly when no stop that ends leasing was ever given. */
  lemma LeasingIff(limits: Limits, startedMs: int, calls: seq<Call>, w: World)
    requires Reaches(Machine(limits), World(Fresh(startedMs), []), calls, w)
    ensures MayLease(w.control) <==> forall s :: s in w.stops ==> !EndsLeasing(s)
  {
    StopIsTheWinner(limits, startedMs, calls, w);
    JoinedEndsLeasing(w.control, w.stops);
  }

  /** What a run that was given these stops ends for. */
  ghost predicate EndsFor(reason: StopReason, stops: seq<Stop>) {
    match reason
    case FatalError => exists s :: s in stops && s.Fatal?
    case Aborted => (exists s :: s in stops && s.Cancelled?) && forall s :: s in stops ==> !s.Fatal?
    case LimitWasReached =>
      (exists s :: s in stops && s.LimitReached?) && forall s :: s in stops ==> s.LimitReached? || s.FrontierEmpty?
    case FrontierIsEmpty => forall s :: s in stops ==> s.FrontierEmpty?
  }

  lemma JoinedReason(stop: Option<Stop>, stops: seq<Stop>)
    requires Joined(stop, stops)
    ensures EndsFor(ReasonOf(stop), stops)
  {
    forall s: Stop
      ensures s.Fatal? <==> Priority(s) == 4
      ensures s.Cancelled? <==> Priority(s) == 3
      ensures s.FrontierEmpty? <==> Priority(s) == 0
    {
      SoftStops(s);
    }
    if stop.Some? {
      assert stop.value in stops;
    }
  }

  /** In every run the reason is failure if there was one, else cancellation, else a limit, else that
      the frontier is empty. */
  lemma ReasonIs(limits: Limits, startedMs: int, calls: seq<Call>, w: World, reason: StopReason)
    requires Reaches(Machine(limits), World(Fresh(startedMs), []), calls, w)
    ensures ReasonOf(w.control.stop) == reason <==> EndsFor(reason, w.stops)
  {
    StopIsTheWinner(limits, startedMs, calls, w);
    JoinedReason(w.control.stop, w.stops);
  }

  // ---------------------------------------------------------------------------------------
  // Limits

  function Fetches(calls: seq<Call>): nat {
    if |calls| == 0 then 0
    else Fetches(calls[..|calls| - 1]) + if calls[|calls| - 1].RecordFetched? then 1 else 0
  }

  function Bytes(calls: seq<Call>): nat {
    if |calls| == 0 then 0
    else Bytes(calls[..|calls| - 1]) + if calls[|calls| - 1].RecordFetched? then calls[|calls| - 1].received else 0
  }

  function Attempts(calls: seq<Call>): nat {
    if |calls| == 0 then 0
    else Attempts(calls[..|calls| - 1]) + if calls[|calls| - 1].BeginRequest? then 1 else 0
  }

  /** The counters that noting a limit leaves alone. */
  ghost predicate SameCounters(c: Control, d: Control) {
    && c.fetched == d.fetched && c.bytes == d.bytes && c.startedMs == d.startedMs
    && c.attempted == d.attempted && c.active == d.active && c.peak == d.peak
  }

  lemma {:induction false} NotesKeepCounters(c: Control, due: seq<Limit>)
    ensures SameCounters(c, NoteAll(c, due))
    decreases due
  {
    if |due| > 0 {
      NotesKeepCounters(NoteLimit(c, due[0]), due[1..]);
    }
  }

  lemma StepCounts(limits: Limits, c: Control, call: Call)
    requires Do(limits, c, call).Some?
    ensures var d := Do(limits, c, call).value;
            && d.fetched == c.fetched + (if call.RecordFetched? then 1 else 0)
            && d.bytes == c.bytes + (if call.RecordFetched? then call.received else 0)
            && d.attempted == c.attempted + (if call.BeginRequest? then 1 else 0)
            && d.startedMs == c.startedMs
            && (c.active <= c.peak ==> d.active <= d.peak)
            && (d.peak == c.peak || d.peak == d.active > c.peak)
  {
    match call {
      case RecordFetched(received, now) =>
        var d := c.(fetched := c.fetched + 1, bytes := c.bytes + received);
        NotesKeepCounters(d, Due(d, limits, now));
      case ShouldLeaseMore(now) => NotesKeepCounters(c, Due(c, limits, now));
      case _ =>
    }
  }

  lemma StartCounts(calls: seq<Call>, c: Call)
    ensures Fetches([c] + calls) == Fetches(calls) + if c.RecordFetched? then 1 else 0
    ensures Bytes([c] + calls) == Bytes(calls) + if c.RecordFetched? then c.received else 0
    ensures Attempts([c] + calls) == Attempts(calls) + if c.BeginRequest? then 1 else 0
  {
    if |calls| > 0 {
      StartCounts(calls[..|calls| - 1], c);
      assert ([c] + calls)[..|calls|] == [c] + calls[..|calls| - 1];
    } else {
      assert [c] + calls == [c] && [c][..0] == [];
    }
  }

  /** In every run the counters are the sums over the calls made. */
  lemma {:induction false} CountersAreSums(limits: Limits, w: World, calls: seq<Call>, w': World)
    requires Reaches(Machine(limits), w, calls, w')
    ensures w'.control.fetched == w.control.fetched + Fetches(calls)
    ensures w'.control.bytes == w.control.bytes + Bytes(calls)
    ensures w'.control.attempted == w.control.attempted + Attempts(calls)
    ensures w'.control.startedMs == w.control.startedMs
    decreases calls
  {
    if |calls| > 0 {
      StepCounts(limits, w.control, calls[0]);
      CountersAreSums(limits, Step(limits, w, calls[0]).value, calls[1..], w');
      StartCounts(calls[1..], calls[0]);
      assert calls == [calls[0]] + calls[1..];
    }
  }

  /** The most requests that are open at once in the course of the calls. */
  ghost function MostOpen(limits: Limits, w: World, calls: seq<Call>): nat
    decreases calls
  {
    if |calls| == 0 || Step(limits, w, calls[0]).None? then w.control.active
    else
      var rest := MostOpen(limits, Step(limits, w, calls[0]).value, calls[1..]);
      if rest >= w.control.active then rest else w.control.active
  }

  lemma {:induction false} PeakIsMostOpen(limits: Limits, w: World, calls: seq<Call>, w': World)
    requires Reaches(Machine(limits), w, calls, w') && w.control.active <= w.control.peak
    ensures var most := MostOpen(limits, w, calls);
            w'.control.peak == if most >= w.control.peak then most else w.control.peak
    decreases calls
  {
    if |calls| > 0 {
      var next := Step(limits, w, calls[0]).value;
      StepCounts(limits, w.control, calls[0]);
      PeakIsMostOpen(limits, next, calls[1..], w');
      MostOpenAtLeast(limits, next, calls[1..]);
    }
  }

  lemma MostOpenAtLeast(limits: Limits, w: World, calls: seq<Call>)
    ensures MostOpen(limits, w, calls) >= w.control.active
  {
  }

  lemma DueIff(c: Control, limits: Limits, now: int)
    ensures (forall s :: s in AsStops(Due(c, limits, now)) ==> !EndsLeasing(s)) <==>
              c.fetched < limits.maxFetchedResources && now - c.startedMs < limits.maxRunTimeMs && c.bytes < limits.maxDownloadedBytes
  {
    var due := Due(c, limits, now);
    InStops(due, MaxFetchedResources);
    InStops(due, MaxRunTime);
    InStops(due, MaxDownloadedBytes);
    forall s | s in AsStops(due) ensures s.LimitReached? && s.limit in due {
      var i :| 0 <= i < |due| && AsStops(due)[i] == s;
    }
  }

  /** A run that asks whether to go on is told so exactly when nothing has stopped its leasing, and the
      resources it fetched, their bytes and the time it took are each below their limits. */
  lemma LeasesUnderLimits(limits: Limits, startedMs: int, calls: seq<Call>, w: World, now: int)
    requires Reaches(Machine(limits), World(Fresh(startedMs), []), calls, w)
    ensures Step(limits, w, ShouldLeaseMore(now)).Some?
    ensures MayLease(Step(limits, w, ShouldLeaseMore(now)).value.control) <==>
              && (forall s :: s in w.stops ==> !EndsLeasing(s))
              && Fetches(calls) < limits.maxFetchedResources
              && Bytes(calls) < limits.maxDownloadedBytes
              && now - startedMs < limits.maxRunTimeMs
  {
    var ask := ShouldLeaseMore(now);
    var w' := Step(limits, w, ask).value;
    RunSnoc(Machine(limits), World(Fresh(startedMs), []), calls, w, ask, w');
    LeasingIff(limits, startedMs, calls + [ask], w');
    CountersAreSums(limits, World(Fresh(startedMs), []), calls, w);
    DueIff(w.control, limits, now);
    assert forall s :: s in w'.stops <==> s in w.stops || s in AsStops(Due(w.control, limits, now));
  }

  // ---------------------------------------------------------------------------------------
  // What the observer is told

  /** A limit is reported once it is among the stops, and told the first time if someone observes. */
  ghost predicate ReportsLimits(w: World) {
    forall l :: l in w.control.reported <==> LimitReached(l) in w.stops
  }

  lemma {:induction false} NotesReport(c: Control, due: seq<Limit>, l: Limit)
    ensures l in NoteAll(c, due).reported <==> l in c.reported || l in due
    ensures c.observed ==> (l in NoteAll(c, due).announced <==> l in c.announced || (l in due && l !in c.reported))
    ensures NoteAll(c, due).observed == c.observed
    decreases due
  {
    if |due| > 0 {
      NotesReport(NoteLimit(c, due[0]), due[1..], l);
      assert l in due <==> l == due[0] || l in due[1..];
    }
  }

  lemma InStops(due: seq<Limit>, l: Limit)
    ensures LimitReached(l) in AsStops(due) <==> l in due
  {
    if l in due {
      var i :| 0 <= i < |due| && due[i] == l;
      assert AsStops(due)[i] == LimitReached(l);
    }
  }

  ghost predicate Reports(c: Control, c': Control, told: bool, l: Limit) {
    && (l in c'.reported <==> l in c.reported || told)
    && (c.observed ==> c'.observed)
    && (c.observed ==> (l in c'.announced <==> l in c.announced || (told && l !in c.reported)))
  }

  lemma CallReports(limits: Limits, c: Control, call: Call, l: Limit)
    requires Do(limits, c, call).Some?
    ensures Reports(c, Do(limits, c, call).value, LimitReached(l) in StopsOf(limits, c, call), l)
  {
    match call {
      case RecordFetched(received, now) =>
        var d := c.(fetched := c.fetched + 1, bytes := c.bytes + received);
        NotesReport(d, Due(d, limits, now), l);
        InStops(Due(d, limits, now), l);
      case ShouldLeaseMore(now) =>
        NotesReport(c, Due(c, limits, now), l);
        InStops(Due(c, limits, now), l);
      case NoteOne(limit) => NotesReport(c, [limit], l);
      case _ =>
    }
  }

  lemma StepReports(limits: Limits, w: World, call: Call, l: Limit)
    requires Step(limits, w, call).Some?
    ensures Reports(w.control, Step(limits, w, call).value.control, LimitReached(l) in StopsOf(limits, w.control, call), l)
  {
    CallReports(limits, w.control, call, l);
  }

  /** An observer that is there from some point on is told of exactly the limits that are reached from
      then on and were not before. */
  lemma {:induction false} ObserverIsTold(limits: Limits, w: World, calls: seq<Call>, w': World, l: Limit)
    requires Reaches(Machine(limits), w, calls, w') && ReportsLimits(w) && w.control.observed
    ensures ReportsLimits(w')
    ensures l in w'.control.announced <==>
              l in w.control.announced || (LimitReached(l) in w'.stops && LimitReached(l) !in w.stops)
    decreases calls
  {
    if |calls| > 0 {
      var next := Step(limits, w, calls[0]).value;
      forall k ensures k in next.control.reported <==> LimitReached(k) in next.stops {
        StepReports(limits, w, calls[0], k);
      }
      StepReports(limits, w, calls[0], l);
      ObserverIsTold(limits, next, calls[1..], w', l);
      if LimitReached(l) in next.stops {
        StopsStay(limits, next, calls[1..], w', LimitReached(l));
      }
    }
  }

  lemma {:induction false} StopsStay(limits: Limits, w: World, calls: seq<Call>, w': World, stop: Stop)
    requires Reaches(Machine(limits), w, calls, w') && stop in w.stops
    ensures stop in w'.stops
    decreases calls
  {
    if |calls| > 0 {
      StopsStay(limits, Step(limits, w, calls[0]).value, calls[1..], w', stop);
    }
  }

  // ---------------------------------------------------------------------------------------
  // Phases

  /** Where a call that stops something leads from. */
  ghost function Stopped(phase: Phase): Phase {
    if phase == Running then Stopping else phase
  }

  lemma {:induction false} NotesStop(c: Control, due: seq<Limit>)
    ensures NoteAll(c, due).phase == if due == [] then c.phase else Stopped(c.phase)
    decreases due
  {
    if |due| > 0 {
      NotesStop(NoteLimit(c, due[0]), due[1..]);
    }
  }

  /** A run is initialised and started in that order and once; stops take it from running to stopping,
      draining comes after either, finalising at any time until it is closed. */
  lemma PhaseAfter(limits: Limits, c: Control, call: Call)
    ensures Do(limits, c, call).None? <==>
              (call.BeginInitialization? && c.phase != Created) || (call.BeginRunning? && c.phase != Initializing)
    ensures Do(limits, c, call).Some? ==>
              Do(limits, c, call).value.phase ==
                match call
                case BeginInitialization => Initializing
                case BeginRunning => Running
                case BeginDraining => if c.phase in {Running, Stopping} then Draining else c.phase
                case BeginFinalization => if c.phase == Closed then Closed else Finalizing
                case Close => Closed
                case _ => if StopsOf(limits, c, call) == [] || call.CompleteFrontier? then c.phase else Stopped(c.phase)
  {
    match call {
      case RecordFetched(received, now) =>
        var d := c.(fetched := c.fetched + 1, bytes := c.bytes + received);
        NotesStop(d, Due(d, limits, now));
      case ShouldLeaseMore(now) => NotesStop(c, Due(c, limits, now));
      case _ =>
    }
  }
}
