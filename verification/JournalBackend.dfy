/** The journal frontier backend: queue, leases and log tied together, and the enqueuer in front
    of them (src/frontier/backends/journal-backend.ts, src/frontier/enqueuer.ts). Every call that
    nothing interrupts is a run of the transition system, so what is proved of all runs holds of
    these objects. */
module JournalBackend {
  import opened Prelude
  import opened Requests
  import opened JournalRecords
  import opened JournalValidation
  import opened Recovery
  import opened FrontierState
  import opened JournalQueue
  import opened LeaseManager
  import opened FrontierProtocol
  import opened FrontierTheorems
  import opened Runs

  datatype Limits = Limits(maxDepth: int, maxQueueSize: int)

  /** A link to enqueue whose URL is normalised already. */
  datatype Input = Input(uniqueKey: string, origin: string, source: Source, seedUrl: string, depth: int)

  datatype EnqueueResult =
    | EnqueuedNew(request: Request)
    | AlreadySeen(existing: Request)
    | MaxDepthExceeded
    | MaxQueueSizeExceeded
    | AppendFailed

  datatype Snapshot = Snapshot(resumedRequests: nat, recoveredLeases: nat, deferredLeases: nat)

  function CreateRequest(runId: string, input: Input, now: Instant): Request {
    Request(RequestId(runId, input.uniqueKey), input.uniqueKey, input.origin, input.source, input.seedUrl, input.depth,
            PriorityForSource(input.source), now)
  }

  // ---------------------------------------------------------------------------------------
  // Single steps, spelled out

  lemma StepTake(c: Config, l: Live, i: nat)
    requires i < |l.queues.Promote(l.now, c.order).queue|
    ensures var p := l.queues.Promote(l.now, c.order);
            Machine(c)(l, Take(i)) == Some(l.(queues := p.Take(i), taken := l.taken + {p.queue[i]}))
  {
    MachineSteps(c, l, Take(i));
  }

  lemma StepWrite(c: Config, l: Live)
    requires l.transition.Some? && !l.transition.value.written
    ensures Machine(c)(l, TransitionWrite) ==
            Some(l.(log := FrontierProtocol.Append(l.log, l.transition.value.entry),
                    transition := Some(l.transition.value.(written := true))))
  {
    MachineSteps(c, l, TransitionWrite);
  }

  lemma StepFinish(c: Config, l: Live)
    requires l.transition.Some? && l.transition.value.written
    ensures Machine(c)(l, TransitionFinish) == Some(FinishTransition(l))
  {
    MachineSteps(c, l, TransitionFinish);
  }

  lemma StepLeaseStart(c: Config, l: Live, r: Request)
    requires l.transition.None? && r in l.taken
    ensures var given := NewLease(c, r, l.now);
            Machine(c)(l, LeaseStart(r)) ==
            Some(l.(transition := Some(Transition(given, Leased(r.id, given.leaseId, given.expiresAt, l.now), false))))
  {
    MachineSteps(c, l, LeaseStart(r));
  }

  ghost function Granted(c: Config, l: Live, i: nat): Live
    requires i < |l.queues.Promote(l.now, c.order).queue|
  {
    var p := l.queues.Promote(l.now, c.order);
    var r := p.queue[i];
    var given := NewLease(c, r, l.now);
    l.(queues := p.Take(i), active := l.active[r.id := given],
       log := FrontierProtocol.Append(l.log, Leased(r.id, given.leaseId, given.expiresAt, l.now)),
       orphans := l.orphans - {r.id},
       reclaimed := if r.id in l.orphans then l.reclaimed + {r.id} else l.reclaimed)
  }

  lemma GrantRun(c: Config, l: Live, i: nat)
    requires l.transition.None? && l.taken == {}
    requires i < |l.queues.Promote(l.now, c.order).queue|
    ensures var r := l.queues.Promote(l.now, c.order).queue[i];
            Run(c, l, [Take(i), LeaseStart(r), TransitionWrite, TransitionFinish], Granted(c, l, i))
  {
    var p := l.queues.Promote(l.now, c.order);
    var r := p.queue[i];
    StepTake(c, l, i);
    var l1 := l.(queues := p.Take(i), taken := {r});
    assert l.taken + {r} == {r};
    StepLeaseStart(c, l1, r);
    var given := NewLease(c, r, l.now);
    var l2 := l1.(transition := Some(Transition(given, Leased(r.id, given.leaseId, given.expiresAt, l.now), false)));
    StepWrite(c, l2);
    var l3 := l2.(log := FrontierProtocol.Append(l.log, l2.transition.value.entry),
                  transition := Some(l2.transition.value.(written := true)));
    StepFinish(c, l3);
    assert {r} - {r} == {};
    RunFour(Machine(c), l, Take(i), l1, LeaseStart(r), l2, TransitionWrite, l3, TransitionFinish, Granted(c, l, i));
  }

  lemma RefusedGrantRun(c: Config, l: Live, i: nat)
    requires l.transition.None? && l.taken == {} && l.requeuing == {}
    requires i < |l.queues.Promote(l.now, c.order).queue|
    ensures var p := l.queues.Promote(l.now, c.order);
            Run(c, l, [Take(i), LeaseStart(p.queue[i]), TransitionFail, Requeue(p.queue[i])],
                l.(queues := p.Take(i).Requeue(p.queue[i], c.order)))
  {
    var p := l.queues.Promote(l.now, c.order);
    var r := p.queue[i];
    StepTake(c, l, i);
    var l1 := l.(queues := p.Take(i), taken := {r});
    assert l.taken + {r} == {r};
    StepLeaseStart(c, l1, r);
    var given := NewLease(c, r, l.now);
    var l2 := l1.(transition := Some(Transition(given, Leased(r.id, given.leaseId, given.expiresAt, l.now), false)));
    var l3 := l1.(taken := {}, requeuing := {r});
    assert {r} - {r} == {} && l.requeuing + {r} == {r};
    MachineSteps(c, l2, TransitionFail);
    MachineSteps(c, l3, Requeue(r));
    RunFour(Machine(c), l, Take(i), l1, LeaseStart(r), l2, TransitionFail, l3, Requeue(r),
            l.(queues := p.Take(i).Requeue(r, c.order)));
  }

  lemma RenewRun(c: Config, l: Live, lease: Lease)
    requires l.transition.None? && Issued(l, lease)
    ensures var longer := lease.(expiresAt := l.now + c.leaseDuration);
            Run(c, l, [RenewStart(lease), TransitionWrite, TransitionFinish],
                l.(active := l.active[lease.request.id := longer],
                   log := FrontierProtocol.Append(l.log, Renewed(lease.request.id, lease.leaseId, longer.expiresAt, l.now))))
  {
    var longer := lease.(expiresAt := l.now + c.leaseDuration);
    var e := Renewed(lease.request.id, lease.leaseId, longer.expiresAt, l.now);
    MachineSteps(c, l, RenewStart(lease));
    var l1 := l.(transition := Some(Transition(longer, e, false)));
    StepWrite(c, l1);
    var l2 := l.(log := FrontierProtocol.Append(l.log, e), transition := Some(Transition(longer, e, true)));
    StepFinish(c, l2);
    RunThree(Machine(c), l, RenewStart(lease), l1, TransitionWrite, l2, TransitionFinish, FinishTransition(l2));
  }

  lemma ReleaseRun(c: Config, l: Live, lease: Lease, reason: Option<string>)
    requires l.transition.None? && l.requeuing == {} && Issued(l, lease)
    ensures Run(c, l, [ReleaseStart(lease, reason), TransitionWrite, TransitionFinish, Requeue(lease.request)],
                l.(queues := l.queues.Requeue(lease.request, c.order),
                   active := l.active - {lease.request.id},
                   log := FrontierProtocol.Append(l.log, Released(lease.request.id, lease.leaseId, reason, l.now))))
  {
    var r, e := lease.request, Released(lease.request.id, lease.leaseId, reason, l.now);
    MachineSteps(c, l, ReleaseStart(lease, reason));
    var l1 := l.(transition := Some(Transition(lease, e, false)));
    StepWrite(c, l1);
    var l2 := l.(log := FrontierProtocol.Append(l.log, e), transition := Some(Transition(lease, e, true)));
    StepFinish(c, l2);
    var l3 := l.(log := l2.log, active := l.active - {r.id}, requeuing := {r});
    assert l.requeuing + {r} == {r} && {r} - {r} == {};
    MachineSteps(c, l3, Requeue(r));
    RunFour(Machine(c), l, ReleaseStart(lease, reason), l1, TransitionWrite, l2, TransitionFinish, l3, Requeue(r),
            l3.(queues := l.queues.Requeue(r, c.order), requeuing := {}));
  }

  lemma FinishRun(c: Config, l: Live, lease: Lease, state: Terminal, reason: Option<string>)
    requires l.transition.None? && Issued(l, lease)
    ensures Run(c, l, [FinishStart(lease, state, reason), TransitionWrite, TransitionFinish],
                l.(active := l.active - {lease.request.id},
                   log := FrontierProtocol.Append(l.log, Finished(lease.request.id, lease.leaseId, state, reason, l.now))))
  {
    var e := Finished(lease.request.id, lease.leaseId, state, reason, l.now);
    MachineSteps(c, l, FinishStart(lease, state, reason));
    var l1 := l.(transition := Some(Transition(lease, e, false)));
    StepWrite(c, l1);
    var l2 := l.(log := FrontierProtocol.Append(l.log, e), transition := Some(Transition(lease, e, true)));
    StepFinish(c, l2);
    RunThree(Machine(c), l, FinishStart(lease, state, reason), l1, TransitionWrite, l2, TransitionFinish, FinishTransition(l2));
  }

  lemma EnqueueRun(c: Config, l: Live, r: Request)
    requires l.enqueuing.None? && r.uniqueKey !in l.queues.known.entries && r.id.uniqueKey == r.uniqueKey
    ensures Run(c, l, [EnqueueStart(r), EnqueueWrite, EnqueueFinish],
                l.(queues := l.queues.AddPending(r, c.order),
                   log := FrontierProtocol.Append(l.log, Enqueued(r, l.now))))
  {
    var e := Enqueued(r, l.now);
    var l1 := l.(enqueuing := Some(Admission(r, e, false)));
    var l2 := l.(log := FrontierProtocol.Append(l.log, e), enqueuing := Some(Admission(r, e, true)));
    var l3 := l2.(queues := l.queues.AddPending(r, c.order), enqueuing := None);
    MachineSteps(c, l, EnqueueStart(r));
    MachineSteps(c, l1, EnqueueWrite);
    MachineSteps(c, l2, EnqueueFinish);
    RunThree(Machine(c), l, EnqueueStart(r), l1, EnqueueWrite, l2, EnqueueFinish, l3);
  }

  // ---------------------------------------------------------------------------------------

  class JournalFrontierBackend {
    const state: FrontierState
    const journal: FrontierJournal
    const leases: FrontierLeaseManager
    const config: Config
    const limits: Limits
    const runId: string
    const resumeEnabled: bool
    ghost var orphans: set<RequestId>
    ghost var reclaimed: set<RequestId>

    predicate Valid()
      reads this, state, journal, leases
    {
      && leases.journal == journal && leases.config == config && state.order == config.order
      && journal.Idle()
    }

    ghost function View(now: Instant): Live
      reads this, state, journal, leases
    {
      Live(now, state.View(), leases.active, {}, {}, None, None, journal.file, orphans, reclaimed)
    }

    constructor (runId: string, config: Config, limits: Limits, resumeEnabled: bool, t: Instant)
      ensures Valid() && View(t) == Start(t) && !journal.closing
      ensures fresh(state) && fresh(journal) && fresh(leases)
      ensures this.config == config && this.limits == limits && this.runId == runId
      ensures this.resumeEnabled == resumeEnabled
    {
      this.runId, this.config, this.limits, this.resumeEnabled := runId, config, limits, resumeEnabled;
      orphans, reclaimed := {}, {};
      var j := new FrontierJournal();
      journal := j;
      leases := new FrontierLeaseManager(config, j);
      state := new FrontierState(config.order);
    }

    method RememberEach(requests: seq<Request>)
      modifies state
      ensures state.View() == RememberAll(old(state.View()), requests)
    {
      for i := 0 to |requests|
        invariant state.View() == RememberAll(old(state.View()), requests[..i])
      {
        assert requests[..i + 1][..i] == requests[..i];
        state.Remember(requests[i]);
      }
      assert requests[..|requests|] == requests;
    }

    method QueueEach(pending: seq<Request>)
      modifies state
      ensures state.View() == AddAllPending(old(state.View()), pending, state.order)
    {
      for i := 0 to |pending|
        invariant state.View() == AddAllPending(old(state.View()), pending[..i], state.order)
      {
        assert pending[..i + 1][..i] == pending[..i];
        state.AddPending(pending[i]);
      }
      assert pending[..|pending|] == pending;
    }

    method DeferEach(deferred: seq<Deferred>)
      modifies state
      ensures state.View() == AddAllDeferred(old(state.View()), deferred)
    {
      for i := 0 to |deferred|
        invariant state.View() == AddAllDeferred(old(state.View()), deferred[..i])
      {
        assert deferred[..i + 1][..i] == deferred[..i];
        state.AddDeferred(deferred[i]);
      }
      assert deferred[..|deferred|] == deferred;
    }

    /** Loading refuses a journal that does not validate; otherwise a resuming process takes up
        exactly where the transition system restarts, and one that does not resume starts with
        nothing known but goes on with the journal it found. */
    method Init(records: seq<Record>, now: Instant) returns (ok: bool, snapshot: Snapshot)
      requires Valid() && View(now) == Start(now) && journal.View() == Loaded([])
      modifies this, state, journal, leases
      ensures ok <==> ValidJournal(records)
      ensures ok ==> Valid()
      ensures !ok ==> View(now) == old(View(now))
      ensures ok && resumeEnabled ==>
                && View(now) == Restart(config, records, now)
                && var r := Recover(Entries(records), now);
                   snapshot == Snapshot(|r.pending| + |r.deferred|, r.recoveredLeases, |r.deferred|)
      ensures ok ==> journal.View() == Loaded(records)
      ensures ok && !resumeEnabled ==> View(now) == Start(now).(log := records) && snapshot == Snapshot(0, 0, 0)
    {
      snapshot := Snapshot(0, 0, 0);
      ok := journal.Load(records);
      if !ok {
        return;
      }
      if |records| > 0 {
        assert Linked(records, |records| - 1);
      }
      if !resumeEnabled {
        return;
      }
      var recovered := RecoverFrontier(records, now);
      RememberEach(recovered.requests);
      QueueEach(recovered.pending);
      DeferEach(recovered.deferred);
      orphans, reclaimed := OpenLeases(Entries(records)), {};
      snapshot := Snapshot(|recovered.pending| + |recovered.deferred|, recovered.recoveredLeases, |recovered.deferred|);
    }

    /** A known key is reported with the request that has it; the limits are tested in the order
        depth, size; a new request is logged, then queued. */
    method Enqueue(input: Input, now: Instant, written: bool) returns (result: EnqueueResult, ghost steps: seq<Step>)
      requires Valid()
      modifies this, state, journal, leases
      ensures Valid()
      ensures Run(config, old(View(now)), steps, View(now))
      ensures result.EnqueuedNew? <==>
                && input.uniqueKey !in old(state.requestsByKey.entries)
                && input.depth <= limits.maxDepth
                && old(state.View().Size()) < limits.maxQueueSize
                && written && !old(journal.closing)
      ensures result.EnqueuedNew? ==>
                var r := result.request;
                && r.id == RequestId(runId, input.uniqueKey) && r.uniqueKey == input.uniqueKey && r.origin == input.origin
                && r.source == input.source && r.seedUrl == input.seedUrl && r.depth == input.depth && r.createdAt == now
                && r.priority == PriorityForSource(input.source)
      ensures result.EnqueuedNew? ==>
                && result.request == CreateRequest(runId, input, now) && |steps| == 3
                && state.View() == old(state.View()).AddPending(result.request, state.order)
                && Entries(journal.file) == old(Entries(journal.file)) + [Enqueued(result.request, now)]
      ensures result.AlreadySeen? <==> input.uniqueKey in old(state.requestsByKey.entries)
      ensures result.AlreadySeen? ==> result.existing == old(state.requestsByKey.entries)[input.uniqueKey]
      ensures result.MaxDepthExceeded? <==>
                input.uniqueKey !in old(state.requestsByKey.entries) && input.depth > limits.maxDepth
      ensures !result.EnqueuedNew? ==> View(now) == old(View(now))
    {
      steps := [];
      var existing := state.requestsByKey.Get(input.uniqueKey);
      if existing.Some? {
        return AlreadySeen(existing.value), [];
      }
      if input.depth > limits.maxDepth {
        return MaxDepthExceeded, [];
      }
      if |state.queue| + |state.deferred| >= limits.maxQueueSize {
        return MaxQueueSizeExceeded, [];
      }
      var request := CreateRequest(runId, input, now);
      ghost var before := View(now);
      var ok := journal.AppendAlone(Enqueued(request, now), written);
      if !ok {
        return AppendFailed, [];
      }
      state.AddPending(request);
      EnqueueRun(config, before, request);
      return EnqueuedNew(request), [EnqueueStart(request), EnqueueWrite, EnqueueFinish];
    }

    /** One input after the other; the first record that cannot be written ends the call, and what
        was enqueued before it stays enqueued. */
    method EnqueueMany(inputs: seq<Input>, now: Instant, written: seq<bool>)
      returns (ok: bool, results: seq<EnqueueResult>, ghost steps: seq<Step>)
      requires Valid() && |written| == |inputs|
      modifies this, state, journal, leases
      ensures Valid()
      ensures Run(config, old(View(now)), steps, View(now))
      ensures |results| <= |inputs|
      ensures forall i :: 0 <= i < |results| - 1 ==> !results[i].AppendFailed?
      ensures ok <==> |results| == |inputs| && forall r :: r in results ==> !r.AppendFailed?
      ensures forall r :: r in results && r.EnqueuedNew? ==> r.request.uniqueKey in state.requestsByKey.entries
    {
      results, steps := [], [];
      for i := 0 to |inputs|
        invariant Valid() && |results| == i
        invariant forall r :: r in results && r.EnqueuedNew? ==> r.request.uniqueKey in state.requestsByKey.entries
        invariant forall r :: r in results ==> !r.AppendFailed?
        invariant Run(config, old(View(now)), steps, View(now))
      {
        ghost var before := View(now);
        var result;
        ghost var more;
        result, more := Enqueue(inputs[i], now, written[i]);
        RunsChain(Machine(config), old(View(now)), steps, before, more, View(now));
        results, steps := results + [result], steps + more;
        if result.AppendFailed? {
          return false, results, steps;
        }
      }
      return true, results, steps;
    }

    /** Leases the request that takeNext selects. When the record cannot be written the request
        goes back to the queue and its reservation has to be released. */
    method LeaseNext(accepts: Request -> bool, now: Instant, written: bool)
      returns (lease: Option<Lease>, releaseReservation: Option<Request>, ghost choice: Option<nat>, ghost steps: seq<Step>)
      requires Valid()
      modifies this, state, journal, leases
      ensures Valid()
      ensures Run(config, old(View(now)), steps, View(now))
      ensures var promoted := old(View(now)).queues.Promote(now, config.order);
              && Selects(promoted.queue, config.order, accepts, choice)
              && (lease.Some? <==> choice.Some? && written && !old(journal.closing))
              && (lease.Some? ==> lease == Some(NewLease(config, promoted.queue[choice.value], now))
                                  && View(now) == Granted(config, old(View(now)), choice.value))
              && (lease.None? && choice.Some? ==>
                    && releaseReservation == Some(promoted.queue[choice.value])
                    && View(now) == old(View(now)).(queues := promoted.Take(choice.value).Requeue(promoted.queue[choice.value], config.order)))
              && (choice.None? ==> View(now) == old(View(now)).(queues := promoted))
              && (releaseReservation.Some? <==> lease.None? && choice.Some?)
      ensures lease.Some? ==>
                && lease.value.leaseId == LeaseId(lease.value.request.id, now)
                && lease.value.leasedAt == now && lease.value.expiresAt == now + config.leaseDuration
                && Entries(journal.file) == old(Entries(journal.file)) +
                     [Leased(lease.value.request.id, lease.value.leaseId, now + config.leaseDuration, now)]
    {
      ghost var before := View(now);
      var request;
      request, choice := state.TakeNext(accepts, now);
      if request.None? {
        assert Machine(config)(before, Promote) == Some(View(now));
        assert Reaches(Machine(config), View(now), [], View(now));
        RunCons(Machine(config), before, Promote, View(now), [], View(now));
        return None, None, None, [Promote] + [];
      }
      lease := leases.Lease(request.value, now, written);
      if lease.None? {
        state.Requeue(request.value);
        releaseReservation := request;
        RefusedGrantRun(config, before, choice.value);
        steps := [Take(choice.value), LeaseStart(request.value), TransitionFail, Requeue(request.value)];
        return;
      }
      releaseReservation := None;
      if request.value.id in orphans {
        reclaimed := reclaimed + {request.value.id};
      }
      orphans := orphans - {request.value.id};
      GrantRun(config, before, choice.value);
      steps := [Take(choice.value), LeaseStart(request.value), TransitionWrite, TransitionFinish];
    }

    /** A handle that still names the remembered lease must be the one that was given out. */
    predicate GivenOut(lease: Lease)
      reads this, leases
    {
      leases.Honoured(lease) ==> leases.active[lease.request.id].request == lease.request
    }

    method RenewLease(lease: Lease, now: Instant, written: bool) returns (renewed: Option<Lease>, ghost steps: seq<Step>)
      requires Valid() && GivenOut(lease)
      modifies this, state, journal, leases
      ensures Valid()
      ensures Run(config, old(View(now)), steps, View(now))
      ensures renewed.Some? <==> old(leases.Honoured(lease)) && written && !old(journal.closing)
      ensures renewed.Some? ==> renewed == Some(lease.(expiresAt := now + config.leaseDuration))
                                && steps == [RenewStart(lease), TransitionWrite, TransitionFinish]
      ensures renewed.Some? ==>
                Entries(journal.file) == old(Entries(journal.file)) +
                  [Renewed(lease.request.id, lease.leaseId, now + config.leaseDuration, now)]
      ensures renewed.None? ==> View(now) == old(View(now))
    {
      ghost var before := View(now);
      renewed := leases.Renew(lease, now, written);
      if renewed.None? {
        return None, [];
      }
      RenewRun(config, before, lease);
      steps := [RenewStart(lease), TransitionWrite, TransitionFinish];
    }

    method Release(lease: Lease, reason: Option<string>, now: Instant, written: bool) returns (ok: bool, ghost steps: seq<Step>)
      requires Valid() && GivenOut(lease)
      modifies this, state, journal, leases
      ensures Valid()
      ensures Run(config, old(View(now)), steps, View(now))
      ensures ok <==> old(leases.Honoured(lease)) && written && !old(journal.closing)
      ensures ok ==> steps == [ReleaseStart(lease, reason), TransitionWrite, TransitionFinish, Requeue(lease.request)]
      ensures !ok ==> View(now) == old(View(now))
    {
      ghost var before := View(now);
      ok := leases.Release(lease, reason, now, written);
      if !ok {
        return false, [];
      }
      state.Requeue(lease.request);
      ReleaseRun(config, before, lease, reason);
      steps := [ReleaseStart(lease, reason), TransitionWrite, TransitionFinish, Requeue(lease.request)];
    }

    /** markHandled, markFailed, markSkipped and markCancelled. */
    method Mark(lease: Lease, terminal: Terminal, reason: Option<string>, now: Instant, written: bool)
      returns (ok: bool, ghost steps: seq<Step>)
      requires Valid() && GivenOut(lease)
      modifies this, state, journal, leases
      ensures Valid()
      ensures Run(config, old(View(now)), steps, View(now))
      ensures ok <==> old(leases.Honoured(lease)) && written && !old(journal.closing)
      ensures ok ==> steps == [FinishStart(lease, terminal, reason), TransitionWrite, TransitionFinish]
      ensures !ok ==> View(now) == old(View(now))
    {
      ghost var before := View(now);
      ok := leases.Finish(lease, terminal, reason, now, written);
      if !ok {
        return false, [];
      }
      FinishRun(config, before, lease, terminal, reason);
      steps := [FinishStart(lease, terminal, reason), TransitionWrite, TransitionFinish];
    }

    /** What the backend still has to do: everything waiting, deferred or leased. */
    function OutstandingCount(): (n: nat)
      reads this, state, leases
      ensures n == 0 <==> state.queue == [] && state.deferred == [] && leases.active.Keys == {}
    {
      assert |leases.active| == |leases.active.Keys|;
      |state.queue| + |state.deferred| + |leases.active|
    }
  }
}
