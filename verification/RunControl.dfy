/** Why and when a run stops (src/runtime/run-controller.ts). */
module RunControl {
  import opened Prelude
  import opened Runs

  datatype Limit =
    | MaxScheduledRequests | MaxFetchedResources | MaxRunTime | MaxDownloadedBytes | MaxQueueSize
    | MaxSitemapFiles | MaxSitemapEntries | MaxSitemapIndexDepth | MaxRenderedPages

  datatype Stop = FrontierEmpty | LimitReached(limit: Limit) | Cancelled(reason: string) | Fatal(error: string)

  datatype StopReason = FrontierIsEmpty | LimitWasReached | Aborted | FatalError

  datatype Phase = Created | Initializing | Running | Stopping | Draining | Finalizing | Closed

  datatype Limits = Limits(maxFetchedResources: nat, maxRunTimeMs: int, maxDownloadedBytes: nat)

  predicate IsSoft(limit: Limit) {
    limit in {MaxScheduledRequests, MaxQueueSize, MaxSitemapFiles, MaxSitemapEntries, MaxSitemapIndexDepth, MaxRenderedPages}
  }

  function Priority(stop: Stop): nat {
    match stop
    case Fatal(_) => 4
    case Cancelled(_) => 3
    case LimitReached(limit) => if IsSoft(limit) then 1 else 2
    case FrontierEmpty => 0
  }

  function ReasonOf(stop: Option<Stop>): StopReason {
    if stop.None? || stop.value.FrontierEmpty? then FrontierIsEmpty
    else if stop.value.LimitReached? then LimitWasReached
    else if stop.value.Cancelled? then Aborted
    else FatalError
  }

  /** announced lists the limits that the observer was told of. */
  datatype Control = Control(
    phase: Phase,
    stop: Option<Stop>,
    aborted: Option<Stop>,
    reported: set<Limit>,
    announced: seq<Limit>,
    observed: bool,
    active: nat,
    attempted: nat,
    peak: nat,
    fetched: nat,
    bytes: nat,
    startedMs: int)

  function Fresh(startedMs: int): Control {
    Control(Created, None, None, {}, [], false, 0, 0, 0, 0, 0, startedMs)
  }

  function SetStop(c: Control, stop: Stop, abortActive: bool): Control {
    c.(stop := if c.stop.None? || stop.Fatal? || Priority(stop) > Priority(c.stop.value) then Some(stop) else c.stop,
       phase := if c.phase.Running? then Stopping else c.phase,
       aborted := if abortActive && c.aborted.None? then Some(stop) else c.aborted)
  }

  function NoteLimit(c: Control, limit: Limit): Control {
    var c' := SetStop(c, LimitReached(limit), false);
    if limit in c'.reported then c'
    else c'.(reported := c'.reported + {limit}, announced := if c'.observed then c'.announced + [limit] else c'.announced)
  }

  /** The limits that are reached by now, in the order in which they are looked at. */
  function Due(c: Control, limits: Limits, now: int): seq<Limit> {
    (if c.fetched >= limits.maxFetchedResources then [MaxFetchedResources] else []) +
    (if now - c.startedMs >= limits.maxRunTimeMs then [MaxRunTime] else []) +
    (if c.bytes >= limits.maxDownloadedBytes then [MaxDownloadedBytes] else [])
  }

  function NoteAll(c: Control, due: seq<Limit>): Control
    decreases due
  {
    if |due| == 0 then c else NoteAll(NoteLimit(c, due[0]), due[1..])
  }

  function Refresh(c: Control, limits: Limits, now: int): Control {
    NoteAll(c, Due(c, limits, now))
  }

  predicate MayLease(c: Control) {
    match c.stop
    case None => true
    case Some(FrontierEmpty) => true
    case Some(LimitReached(limit)) => IsSoft(limit)
    case Some(_) => false
  }

  datatype Call =
    | BeginInitialization | BeginRunning | BeginDraining | BeginFinalization | Close
    | Cancel(reason: string) | Fail(error: string) | NoteOne(limit: Limit) | ObserveLimits | CompleteFrontier
    | BeginRequest | FinishRequest | RecordFetched(received: nat, now: int) | ShouldLeaseMore(now: int)

  /** None when the call throws. */
  function Do(limits: Limits, c: Control, call: Call): Option<Control> {
    match call
    case BeginInitialization => if c.phase.Created? then Some(c.(phase := Initializing)) else None
    case BeginRunning => if c.phase.Initializing? then Some(c.(phase := Running)) else None
    case BeginDraining => Some(if c.phase.Running? || c.phase.Stopping? then c.(phase := Draining) else c)
    case BeginFinalization => Some(if c.phase.Closed? then c else c.(phase := Finalizing))
    case Close => Some(c.(phase := Closed))
    case Cancel(reason) => Some(SetStop(c, Cancelled(reason), true))
    case Fail(error) => Some(SetStop(c, Fatal(error), true))
    case NoteOne(limit) => Some(NoteLimit(c, limit))
    case ObserveLimits => Some(c.(observed := true))
    case CompleteFrontier => Some(if c.stop.None? then c.(stop := Some(FrontierEmpty)) else c)
    case BeginRequest =>
      Some(c.(active := c.active + 1, attempted := c.attempted + 1, peak := if c.peak >= c.active + 1 then c.peak else c.active + 1))
    case FinishRequest => Some(c.(active := if c.active == 0 then 0 else c.active - 1))
    case RecordFetched(received, now) =>
      Some(Refresh(c.(fetched := c.fetched + 1, bytes := c.bytes + received), limits, now))
    case ShouldLeaseMore(now) => Some(Refresh(c, limits, now))
  }

  class RunController {
    const limits: Limits
    var phaseValue: Phase
    var stopValue: Option<Stop>
    var abortReason: Option<Stop>
    var reportedLimits: set<Limit>
    var announced: seq<Limit>
    var observed: bool
    var activeRequests: nat
    var requestsAttempted: nat
    var peakConcurrency: nat
    var requestsFetched: nat
    var bytesDownloaded: nat
    var startedMs: int

    function State(): Control
      reads this
    {
      Control(phaseValue, stopValue, abortReason, reportedLimits, announced, observed, activeRequests,
              requestsAttempted, peakConcurrency, requestsFetched, bytesDownloaded, startedMs)
    }

    constructor (limits: Limits, startedMs: int)
      ensures this.limits == limits && State() == Fresh(startedMs)
    {
      this.limits := limits;
      phaseValue, stopValue, abortReason := Created, None, None;
      reportedLimits, announced, observed := {}, [], false;
      activeRequests, requestsAttempted, peakConcurrency, requestsFetched, bytesDownloaded := 0, 0, 0, 0, 0;
      this.startedMs := startedMs;
    }

    /** False when the phase is not the one expected: the source throws, nothing has changed. */
    method Transition(expected: Phase, next: Phase) returns (ok: bool)
      modifies this
      ensures ok <==> old(phaseValue) == expected
      ensures State() == old(State()).(phase := if ok then next else old(phaseValue))
    {
      ok := phaseValue == expected;
      if ok {
        phaseValue := next;
      }
    }

    method BeginDraining()
      modifies this
      ensures Some(State()) == Do(limits, old(State()), Call.BeginDraining)
    {
      if phaseValue.Running? || phaseValue.Stopping? {
        phaseValue := Draining;
      }
    }

    method BeginFinalization()
      modifies this
      ensures Some(State()) == Do(limits, old(State()), Call.BeginFinalization)
    {
      if !phaseValue.Closed? {
        phaseValue := Finalizing;
      }
    }

    method RecordStop(stop: Stop, abortActive: bool)
      modifies this
      ensures State() == SetStop(old(State()), stop, abortActive)
    {
      if stopValue.None? || stop.Fatal? || Priority(stop) > Priority(stopValue.value) {
        stopValue := Some(stop);
      }
      if phaseValue.Running? {
        phaseValue := Stopping;
      }
      if abortActive && abortReason.None? {
        abortReason := Some(stop);
      }
    }

    method NoteLimit(limit: Limit)
      modifies this
      ensures Some(State()) == Do(limits, old(State()), NoteOne(limit))
    {
      RecordStop(LimitReached(limit), false);
      if limit !in reportedLimits {
        reportedLimits := reportedLimits + {limit};
        if observed {
          announced := announced + [limit];
        }
      }
    }

    method CompleteFrontier()
      modifies this
      ensures Some(State()) == Do(limits, old(State()), Call.CompleteFrontier)
    {
      if stopValue.None? {
        stopValue := Some(FrontierEmpty);
      }
    }

    method BeginRequest()
      modifies this
      ensures Some(State()) == Do(limits, old(State()), Call.BeginRequest)
    {
      activeRequests := activeRequests + 1;
      requestsAttempted := requestsAttempted + 1;
      if peakConcurrency < activeRequests {
        peakConcurrency := activeRequests;
      }
    }

    method FinishRequest()
      modifies this
      ensures Some(State()) == Do(limits, old(State()), Call.FinishRequest)
    {
      if activeRequests > 0 {
        activeRequests := activeRequests - 1;
      }
    }

    method RecordFetched(received: nat, now: int)
      modifies this
      ensures Some(State()) == Do(limits, old(State()), Call.RecordFetched(received, now))
    {
      requestsFetched := requestsFetched + 1;
      bytesDownloaded := bytesDownloaded + received;
      RefreshLimits(now);
    }

    method RefreshLimits(now: int)
      modifies this
      ensures State() == Refresh(old(State()), limits, now)
    {
      ghost var was := State();
      if requestsFetched >= limits.maxFetchedResources {
        NoteLimit(MaxFetchedResources);
      }
      ghost var one := State();
      if now - startedMs >= limits.maxRunTimeMs {
        NoteLimit(MaxRunTime);
      }
      ghost var two := State();
      if bytesDownloaded >= limits.maxDownloadedBytes {
        NoteLimit(MaxDownloadedBytes);
      }
      InThreeParts(was, limits, now, one, two, State());
    }

    method ShouldLeaseMore(now: int) returns (more: bool)
      modifies this
      ensures Some(State()) == Do(limits, old(State()), Call.ShouldLeaseMore(now))
      ensures more == MayLease(State())
    {
      RefreshLimits(now);
      if stopValue.None? || stopValue.value.FrontierEmpty? {
        return true;
      }
      if stopValue.value.Cancelled? || stopValue.value.Fatal? {
        return false;
      }
      return IsSoft(stopValue.value.limit);
    }
  }

  lemma {:induction false} NoteBoth(c: Control, first: seq<Limit>, second: seq<Limit>)
    ensures NoteAll(c, first + second) == NoteAll(NoteAll(c, first), second)
    decreases first
  {
    if |first| == 0 {
      assert first + second == second;
    } else {
      assert (first + second)[1..] == first[1..] + second;
      NoteBoth(NoteLimit(c, first[0]), first[1..], second);
    }
  }

  lemma InThreeParts(c: Control, limits: Limits, now: int, one: Control, two: Control, three: Control)
    requires one == if c.fetched >= limits.maxFetchedResources then NoteLimit(c, MaxFetchedResources) else c
    requires two == if now - c.startedMs >= limits.maxRunTimeMs then NoteLimit(one, MaxRunTime) else one
    requires three == if c.bytes >= limits.maxDownloadedBytes then NoteLimit(two, MaxDownloadedBytes) else two
    ensures three == Refresh(c, limits, now)
  {
    var a := if c.fetched >= limits.maxFetchedResources then [MaxFetchedResources] else [];
    var b := if now - c.startedMs >= limits.maxRunTimeMs then [MaxRunTime] else [];
    var d := if c.bytes >= limits.maxDownloadedBytes then [MaxDownloadedBytes] else [];
    NoteBoth(c, a + b, d);
    NoteBoth(c, a, b);
    assert NoteAll(c, a) == one && NoteAll(one, b) == two && NoteAll(two, d) == three;
  }

  // ---------------------------------------------------------------------------------------
  // Stops are a join

  /** The run with every stop it was given, in order. */
  datatype World = World(control: Control, stops: seq<Stop>)

  function StopsOf(limits: Limits, c: Control, call: Call): seq<Stop> {
    match call
    case Cancel(reason) => [Cancelled(reason)]
    case Fail(error) => [Fatal(error)]
    case NoteOne(limit) => [LimitReached(limit)]
    case CompleteFrontier => [FrontierEmpty]
    case RecordFetched(received, now) =>
      AsStops(Due(c.(fetched := c.fetched + 1, bytes := c.bytes + received), limits, now))
    case ShouldLeaseMore(now) => AsStops(Due(c, limits, now))
    case _ => []
  }

  function AsStops(due: seq<Limit>): (stops: seq<Stop>)
    ensures |stops| == |due|
  {
    seq(|due|, i requires 0 <= i < |due| => LimitReached(due[i]))
  }

  function Step(limits: Limits, w: World, call: Call): Option<World> {
    match Do(limits, w.control, call)
    case None => None
    case Some(c) => Some(World(c, w.stops + StopsOf(limits, w.control, call)))
  }

  ghost function Machine(limits: Limits): (World, Call) -> Option<World> {
    (w: World, call: Call) => Step(limits, w, call)
  }

  /** Any fatal stop beats all others and the latest of them stays; otherwise the first stop of the
      highest priority stays. */
  ghost predicate Wins(stops: seq<Stop>, i: nat)
    requires i < |stops|
  {
    && (forall k :: 0 <= k < |stops| ==> Priority(stops[k]) <= Priority(stops[i]))
    && (stops[i].Fatal? ==> forall k :: i < k < |stops| ==> !stops[k].Fatal?)
    && (!stops[i].Fatal? ==> forall k :: 0 <= k < i ==> Priority(stops[k]) < Priority(stops[i]))
  }

  ghost predicate Joined(stop: Option<Stop>, stops: seq<Stop>) {
    match stop
    case None => stops == []
    case Some(s) => exists i :: 0 <= i < |stops| && s == stops[i] && Wins(stops, i)
  }

  function After(stop: Option<Stop>, s: Stop): Option<Stop> {
    if stop.None? || s.Fatal? || Priority(s) > Priority(stop.value) then Some(s) else stop
  }

  lemma JoinOne(stop: Option<Stop>, stops: seq<Stop>, s: Stop)
    requires Joined(stop, stops)
    ensures Joined(After(stop, s), stops + [s])
  {
    var stops' := stops + [s];
    if After(stop, s) == Some(s) && (stop.None? || s.Fatal? || Priority(s) > Priority(stop.value)) {
      assert stops'[|stops|] == s && Wins(stops', |stops|);
    } else {
      var i :| 0 <= i < |stops| && stop.value == stops[i] && Wins(stops, i);
      assert stops'[i] == stops[i] && Wins(stops', i);
    }
  }

  function AfterAll(stop: Option<Stop>, more: seq<Stop>): Option<Stop>
    decreases more
  {
    if |more| == 0 then stop else AfterAll(After(stop, more[0]), more[1..])
  }

  lemma {:induction false} JoinAll(stop: Option<Stop>, stops: seq<Stop>, more: seq<Stop>)
    requires Joined(stop, stops)
    ensures Joined(AfterAll(stop, more), stops + more)
    decreases more
  {
    if |more| > 0 {
      JoinOne(stop, stops, more[0]);
      JoinAll(After(stop, more[0]), stops + [more[0]], more[1..]);
      assert stops + more == stops + [more[0]] + more[1..];
    } else {
      assert stops + more == stops;
    }
  }

  lemma {:induction false} NotesFold(c: Control, due: seq<Limit>)
    ensures NoteAll(c, due).stop == AfterAll(c.stop, AsStops(due))
    decreases due
  {
    if |due| > 0 {
      NotesFold(NoteLimit(c, due[0]), due[1..]);
      assert AsStops(due)[1..] == AsStops(due[1..]);
    }
  }

  lemma StepFolds(limits: Limits, c: Control, call: Call)
    requires Do(limits, c, call).Some?
    ensures Do(limits, c, call).value.stop == AfterAll(c.stop, StopsOf(limits, c, call))
  {
    match call {
      case RecordFetched(received, now) =>
        var d := c.(fetched := c.fetched + 1, bytes := c.bytes + received);
        NotesFold(d, Due(d, limits, now));
      case ShouldLeaseMore(now) => NotesFold(c, Due(c, limits, now));
      case _ =>
    }
  }

  ghost predicate StopsRequests(stops: seq<Stop>) {
    exists s :: s in stops && (s.Cancelled? || s.Fatal?)
  }

  /** No limit is announced twice, and none that is not reported. */
  ghost predicate AnnouncesOnce(c: Control) {
    && (forall i, j :: 0 <= i < j < |c.announced| ==> c.announced[i] != c.announced[j])
    && (forall l :: l in c.announced ==> l in c.reported)
  }

  ghost predicate Inv(w: World) {
    && Joined(w.control.stop, w.stops)
    && (w.control.aborted.Some? <==> StopsRequests(w.stops))
    && AnnouncesOnce(w.control)
  }

  lemma {:induction false} NotesAnnounceOnce(c: Control, due: seq<Limit>)
    requires AnnouncesOnce(c)
    ensures AnnouncesOnce(NoteAll(c, due)) && NoteAll(c, due).aborted == c.aborted
    decreases due
  {
    if |due| > 0 {
      NotesAnnounceOnce(NoteLimit(c, due[0]), due[1..]);
    }
  }

  lemma StopsAddUp(stops: seq<Stop>, more: seq<Stop>)
    ensures StopsRequests(stops + more) <==> StopsRequests(stops) || StopsRequests(more)
  {
    assert forall s :: s in stops + more <==> s in stops || s in more;
  }

  lemma LimitsStopNoRequest(due: seq<Limit>)
    ensures !StopsRequests(AsStops(due))
  {
    forall s | s in AsStops(due) ensures s.LimitReached? {
      var i :| 0 <= i < |due| && AsStops(due)[i] == s;
    }
  }

  lemma StepAborts(limits: Limits, w: World, call: Call)
    requires AnnouncesOnce(w.control) && Step(limits, w, call).Some?
    ensures var w' := Step(limits, w, call).value;
            w'.control.aborted.Some? <==> w.control.aborted.Some? || StopsRequests(StopsOf(limits, w.control, call))
  {
    match call {
      case Cancel(reason) => assert Cancelled(reason) in StopsOf(limits, w.control, call);
      case Fail(error) => assert Fatal(error) in StopsOf(limits, w.control, call);
      case RecordFetched(received, now) =>
        var c := w.control.(fetched := w.control.fetched + 1, bytes := w.control.bytes + received);
        NotesAnnounceOnce(c, Due(c, limits, now));
        LimitsStopNoRequest(Due(c, limits, now));
      case ShouldLeaseMore(now) =>
        NotesAnnounceOnce(w.control, Due(w.control, limits, now));
        LimitsStopNoRequest(Due(w.control, limits, now));
      case _ =>
    }
  }

  lemma StepAnnounces(limits: Limits, c: Control, call: Call)
    requires AnnouncesOnce(c) && Do(limits, c, call).Some?
    ensures AnnouncesOnce(Do(limits, c, call).value)
  {
    match call {
      case RecordFetched(received, now) =>
        var d := c.(fetched := c.fetched + 1, bytes := c.bytes + received);
        NotesAnnounceOnce(d, Due(d, limits, now));
      case ShouldLeaseMore(now) => NotesAnnounceOnce(c, Due(c, limits, now));
      case _ =>
    }
  }

  lemma StepKeepsInv(limits: Limits, w: World, call: Call)
    requires Inv(w) && Step(limits, w, call).Some?
    ensures Inv(Step(limits, w, call).value)
  {
    StepFolds(limits, w.control, call);
    JoinAll(w.control.stop, w.stops, StopsOf(limits, w.control, call));
    StepAborts(limits, w, call);
    StopsAddUp(w.stops, StopsOf(limits, w.control, call));
    StepAnnounces(limits, w.control, call);
  }

  lemma {:induction false} RunKeepsInv(limits: Limits, w: World, calls: seq<Call>, w': World)
    requires Inv(w) && Reaches(Machine(limits), w, calls, w')
    ensures Inv(w')
    decreases calls
  {
    if |calls| > 0 {
      StepKeepsInv(limits, w, calls[0]);
      RunKeepsInv(limits, Step(limits, w, calls[0]).value, calls[1..], w');
    }
  }

  /** In every run the recorded stop is the winner among all stops given, a request in flight is
      aborted exactly when a cancellation or a fatal error occurred, and no limit is announced twice. */
  lemma StopIsTheWinner(limits: Limits, startedMs: int, calls: seq<Call>, w: World)
    requires Reaches(Machine(limits), World(Fresh(startedMs), []), calls, w)
    ensures Joined(w.control.stop, w.stops)
    ensures w.control.aborted.Some? <==> StopsRequests(w.stops)
    ensures forall i, j :: 0 <= i < j < |w.control.announced| ==> w.control.announced[i] != w.control.announced[j]
  {
    RunKeepsInv(limits, World(Fresh(startedMs), []), calls, w);
  }

  lemma SamePriority(stop: Option<Stop>, stops: seq<Stop>, other: Option<Stop>, others: seq<Stop>)
    requires Joined(stop, stops) && Joined(other, others)
    requires forall s :: s in stops <==> s in others
    ensures stop.Some? <==> other.Some?
    ensures stop.Some? ==> Priority(stop.value) == Priority(other.value)
  {
    assert stops != [] ==> stops[0] in others;
    assert others != [] ==> others[0] in stops;
    if stop.Some? {
      assert stop.value in stops;
      assert stop.value in others;
      var i :| 0 <= i < |others| && others[i] == stop.value;
      assert other.value in others && other.value in stops;
      var j :| 0 <= j < |stops| && stops[j] == other.value;
    }
  }

  /** Two runs that were given the same stops, in any order and any number of times, end for the
      same reason and agree on whether more may be leased. */
  lemma ReasonIgnoresOrder(limits: Limits, startedMs: int, calls: seq<Call>, w: World, calls': seq<Call>, w': World)
    requires Reaches(Machine(limits), World(Fresh(startedMs), []), calls, w)
    requires Reaches(Machine(limits), World(Fresh(startedMs), []), calls', w')
    requires forall s :: s in w.stops <==> s in w'.stops
    ensures ReasonOf(w.control.stop) == ReasonOf(w'.control.stop)
    ensures MayLease(w.control) == MayLease(w'.control)
  {
    StopIsTheWinner(limits, startedMs, calls, w);
    StopIsTheWinner(limits, startedMs, calls', w');
    SamePriority(w.control.stop, w.stops, w'.control.stop, w'.stops);
  }

  // ---------------------------------------------------------------------------------------
  // What only goes one way

  function Rank(phase: Phase): nat {
    match phase
    case Created => 0
    case Initializing => 1
    case Running => 2
    case Stopping => 3
    case Draining => 4
    case Finalizing => 5
    case Closed => 6
  }

  lemma {:induction false} NotesForbidLeasing(c: Control, due: seq<Limit>)
    requires !MayLease(c)
    ensures !MayLease(NoteAll(c, due))
    decreases due
  {
    if |due| > 0 {
      NotesForbidLeasing(NoteLimit(c, due[0]), due[1..]);
    }
  }

  lemma {:induction false} NotesRaisePhase(c: Control, due: seq<Limit>)
    ensures Rank(c.phase) <= Rank(NoteAll(c, due).phase)
    decreases due
  {
    if |due| > 0 {
      NotesRaisePhase(NoteLimit(c, due[0]), due[1..]);
    }
  }

  lemma StepRaisesPhase(limits: Limits, c: Control, call: Call)
    requires Do(limits, c, call).Some?
    ensures Rank(c.phase) <= Rank(Do(limits, c, call).value.phase)
  {
    match call {
      case RecordFetched(received, now) =>
        var d := c.(fetched := c.fetched + 1, bytes := c.bytes + received);
        NotesRaisePhase(d, Due(d, limits, now));
      case ShouldLeaseMore(now) => NotesRaisePhase(c, Due(c, limits, now));
      case _ =>
    }
  }

  lemma StepForbidsLeasing(limits: Limits, c: Control, call: Call)
    requires Do(limits, c, call).Some? && !MayLease(c)
    ensures !MayLease(Do(limits, c, call).value)
  {
    match call {
      case RecordFetched(received, now) =>
        var d := c.(fetched := c.fetched + 1, bytes := c.bytes + received);
        NotesForbidLeasing(d, Due(d, limits, now));
      case ShouldLeaseMore(now) => NotesForbidLeasing(c, Due(c, limits, now));
      case _ =>
    }
  }

  /** The phase never falls back, and once leasing is refused it is refused for good. */
  lemma {:induction false} RunsGoOneWay(limits: Limits, w: World, calls: seq<Call>, w': World)
    requires Reaches(Machine(limits), w, calls, w')
    ensures Rank(w.control.phase) <= Rank(w'.control.phase)
    ensures !MayLease(w.control) ==> !MayLease(w'.control)
    decreases calls
  {
    if |calls| > 0 {
      StepRaisesPhase(limits, w.control, calls[0]);
      if !MayLease(w.control) {
        StepForbidsLeasing(limits, w.control, calls[0]);
      }
      RunsGoOneWay(limits, Step(limits, w, calls[0]).value, calls[1..], w');
    }
  }
}
