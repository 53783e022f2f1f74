/** What holds in every reachable state of the journal frontier, over any number of crashes. */
module FrontierTheorems {
  import opened Prelude
  import opened Requests
  import opened JournalRecords
  import opened JournalValidation
  import opened Recovery
  import opened FrontierState
  import opened FrontierView
  import opened FrontierProtocol
  import opened Runs

  function Machine(c: Config): (Live, Step) -> Option<Live> {
    (l: Live, s: Step) => if CanDo(c, l, s) then Some(Do(c, l, s)) else None
  }

  ghost predicate Run(c: Config, l: Live, steps: seq<Step>, l': Live) {
    Reaches(Machine(c), l, steps, l')
  }

  lemma MachineSteps(c: Config, l: Live, s: Step)
    requires CanDo(c, l, s)
    ensures Machine(c)(l, s) == Some(Do(c, l, s))
  {
  }

  /** Steps that only begin or give up an operation. */
  predicate IsPreparation(s: Step) {
    s.EnqueueStart? || s.EnqueueFail? || s.LeaseStart? || s.RenewStart? || s.ReleaseStart? || s.FinishStart?
  }

  lemma PreparationKeepsStructure(c: Config, l: Live, s: Step)
    requires Structure(l) && CanDo(c, l, s) && IsPreparation(s)
    ensures var l' := Do(c, l, s);
            Structure(l') && ViewOf(l') == ViewOf(l) && l'.log == l.log && l'.now == l.now
  {
    assert Do(c, l, s).queues == l.queues;
    assert Settled(Do(c, l, s)) == Settled(l);
  }

  lemma QueueStepKeepsView(c: Config, l: Live, s: Step)
    requires Structure(l) && CanDo(c, l, s) && (s.EnqueueFinish? || s.TransitionFail? || s.Requeue?)
    ensures var l' := Do(c, l, s);
            Structure(l') && ViewOf(l') == ViewOf(l) && l'.log == l.log && l'.now == l.now
  {
    if s.EnqueueFinish? {
      EnqueueFinishKeepsStructure(c, l);
      EnqueueFinishSettles(c, l);
    } else if s.TransitionFail? {
      TransitionFailKeepsStructure(c, l);
      TransitionFailSettles(c, l);
    } else {
      RequeueKeepsStructure(c, l, s.request);
      RequeueSettles(c, l, s.request);
    }
  }

  lemma TakeStep(c: Config, l: Live, index: nat)
    requires Inv(l) && CanDo(c, l, Take(index))
    ensures Inv(Do(c, l, Take(index)))
  {
    var promoted, l' := Do(c, l, Promote), Do(c, l, Take(index));
    PromoteStep(c, l);
    TakenFromQueue(promoted, index);
    assert l' == promoted.(queues := l'.queues, taken := l'.taken);
    SameStory(promoted, l');
  }

  lemma StepKeepsInv(c: Config, l: Live, s: Step)
    requires Inv(l) && CanDo(c, l, s)
    ensures Inv(Do(c, l, s))
  {
    if IsPreparation(s) {
      PreparationKeepsStructure(c, l, s);
      SameStory(l, Do(c, l, s));
    } else if s.EnqueueFinish? || s.TransitionFail? || s.Requeue? {
      QueueStepKeepsView(c, l, s);
      SameStory(l, Do(c, l, s));
    } else {
      match s
      case Tick(t) => TickStep(c, l, t);
      case EnqueueWrite => EnqueueWriteStep(c, l);
      case Promote => PromoteStep(c, l);
      case Take(index) => TakeStep(c, l, index);
      case TransitionWrite => TransitionWriteStep(c, l);
      case TransitionFinish => TransitionFinishStep(c, l);
      case Crash(t) => CrashStep(c, l, t);
    }
  }

  lemma TickStep(c: Config, l: Live, t: Instant)
    requires Inv(l) && CanDo(c, l, Tick(t))
    ensures Inv(Do(c, l, Tick(t)))
  {
    TickView(l, t);
    TimePasses(ViewOf(l), TrackAll(Entries(l.log)), l.now, t);
  }

  lemma TickView(l: Live, t: Instant)
    requires Structure(l)
    ensures var l' := l.(now := t); Structure(l') && ViewOf(l') == ViewOf(l)
  {
    assert Settled(l.(now := t)) == Settled(l);
  }

  lemma {:induction false} RunKeepsInv(c: Config, l: Live, steps: seq<Step>, l': Live)
    requires Inv(l) && Run(c, l, steps, l')
    ensures Inv(l')
    decreases steps
  {
    if |steps| > 0 {
      StepKeepsInv(c, l, steps[0]);
      RunKeepsInv(c, Do(c, l, steps[0]), steps[1..], l');
    }
  }

  lemma StartInv(t: Instant)
    ensures Inv(Start(t))
  {
    var l := Start(t);
    assert Ids({}) == {};
    assert ViewOf(l).known == [] && ViewOf(l).held.Keys == {};
  }

  // ---------------------------------------------------------------------------------------
  // Crash refinement

  /** Replaying the log after a crash at any later time gives what the process had: at every
      point of every run, whatever is in progress, a written record counts as done. */
  lemma CrashRefinement(c: Config, t0: Instant, steps: seq<Step>, l: Live, t: Instant)
    requires Run(c, Start(t0), steps, l) && l.now <= t
    ensures l.queues.known.Valid()
    ensures RecoveredIs(ViewOf(l), Recover(Entries(l.log), t), t)
  {
    StartInv(t0);
    RunKeepsInv(c, Start(t0), steps, l);
    RecoveryYieldsView(ViewOf(l), Entries(l.log), l.now, t);
  }

  ghost predicate NothingWritten(l: Live) {
    && (l.enqueuing.Some? ==> !l.enqueuing.value.written)
    && (l.transition.Some? ==> !l.transition.value.written)
  }

  /** The same in terms of the objects, between a record's writing and the next: remembered
      requests in their order; pending are those queued, on their way to a lease or back from
      one, and those whose lease has run out; deferred are the leases that still run. */
  lemma CrashRefinementOfObjects(c: Config, t0: Instant, steps: seq<Step>, l: Live, t: Instant)
    requires Run(c, Start(t0), steps, l) && l.now <= t && NothingWritten(l)
    ensures l.queues.known.Valid()
    ensures Recover(Entries(l.log), t).requests == l.queues.known.Values()
    ensures forall r :: r in Recover(Entries(l.log), t).pending <==>
              || r in l.queues.queue || r in l.taken || r in l.requeuing
              || (r.id in l.active && l.active[r.id].request == r && l.active[r.id].expiresAt <= t)
              || (exists d :: d in l.queues.deferred && d.request == r && d.expiresAt <= t)
    ensures forall d :: d in Recover(Entries(l.log), t).deferred <==>
              && d.expiresAt > t
              && (|| d in l.queues.deferred
                  || (d.request.id in l.active && l.active[d.request.id].request == d.request
                      && l.active[d.request.id].expiresAt == d.expiresAt))
  {
    CrashRefinement(c, t0, steps, l, t);
    StartInv(t0);
    RunKeepsInv(c, Start(t0), steps, l);
    var v, rec := Settled(l), Recover(Entries(l.log), t);
    assert ViewOf(l) == v;
    KnownIds(l.queues.known);
    forall r
      ensures r in rec.pending <==>
              || r in l.queues.queue || r in l.taken || r in l.requeuing
              || (r.id in l.active && l.active[r.id].request == r && l.active[r.id].expiresAt <= t)
              || (exists d :: d in l.queues.deferred && d.request == r && d.expiresAt <= t)
    {
      assert r in rec.pending <==> ShouldBePending(v, r, t);
      WaitingPlaces(l, r);
      HeldPlaces(l, r, t);
    }
    forall d
      ensures d in rec.deferred <==>
              && d.expiresAt > t
              && (|| d in l.queues.deferred
                  || (d.request.id in l.active && l.active[d.request.id].request == d.request
                      && l.active[d.request.id].expiresAt == d.expiresAt))
    {
      assert d in rec.deferred <==> ShouldBeDeferred(v, d, t);
      DeferredPlaces(l, d);
    }
  }

  lemma WaitingPlaces(l: Live, r: Request)
    requires Structure(l)
    ensures r in l.queues.known.Values() && r.id in Settled(l).idle <==>
              r in l.queues.queue || r in l.taken || r in l.requeuing
  {
    KnownIds(l.queues.known);
    if r in l.queues.queue {
      assert IdOf(r) in KeysOf(l.queues.queue, IdOf);
    }
  }

  lemma HeldPlaces(l: Live, r: Request, t: Instant)
    requires Structure(l)
    ensures r in l.queues.known.Values() && r.id in Settled(l).held && Settled(l).held[r.id].expiresAt <= t <==>
              || (r.id in l.active && l.active[r.id].request == r && l.active[r.id].expiresAt <= t)
              || (exists d :: d in l.queues.deferred && d.request == r && d.expiresAt <= t)
  {
    KnownIds(l.queues.known);
    forall d | d in l.queues.deferred ensures ExpiryIn(l.queues.deferred, d.request.id) == d.expiresAt {
      ExpiryFound(l.queues.deferred, d);
    }
    if r in l.queues.known.Values() && r.id in KeysOf(l.queues.deferred, DeferredId) {
      var d :| d in l.queues.deferred && DeferredId(d) == r.id;
      assert d.request == r;
    }
    if d :| d in l.queues.deferred && d.request == r && d.expiresAt <= t {
      assert DeferredId(d) in KeysOf(l.queues.deferred, DeferredId);
    }
  }

  lemma DeferredPlaces(l: Live, d: Deferred)
    requires Structure(l)
    ensures (d.request in l.queues.known.Values() && d.request.id in Settled(l).held
             && Settled(l).held[d.request.id].expiresAt == d.expiresAt) <==>
              || d in l.queues.deferred
              || (d.request.id in l.active && l.active[d.request.id].request == d.request
                  && l.active[d.request.id].expiresAt == d.expiresAt)
  {
    KnownIds(l.queues.known);
    var id := d.request.id;
    if d in l.queues.deferred {
      ExpiryFound(l.queues.deferred, d);
      assert DeferredId(d) in KeysOf(l.queues.deferred, DeferredId);
    }
    if d.request in l.queues.known.Values() && id in KeysOf(l.queues.deferred, DeferredId) {
      var x :| x in l.queues.deferred && DeferredId(x) == id;
      ExpiryFound(l.queues.deferred, x);
      assert x.request == d.request;
    }
  }

  // ---------------------------------------------------------------------------------------
  // Which journals validate

  /** Over any number of lives a journal is accepted exactly while no orphan, a request whose
      lease a dead process left open, has been leased again. */
  lemma JournalValidIffNoOrphanLeased(c: Config, t0: Instant, steps: seq<Step>, l: Live)
    requires Run(c, Start(t0), steps, l)
    ensures l.queues.known.Valid()
    ensures ValidJournal(l.log) <==> ViewOf(l).reclaimed == {}
  {
    StartInv(t0);
    RunKeepsInv(c, Start(t0), steps, l);
    ValidIffNothingReclaimed(ViewOf(l), Entries(l.log));
  }

  ghost predicate OneLife(steps: seq<Step>) {
    forall i :: 0 <= i < |steps| ==> !steps[i].Crash?
  }

  lemma {:induction false} NoCrashNoOrphans(c: Config, l: Live, steps: seq<Step>, l': Live)
    requires Run(c, l, steps, l') && OneLife(steps) && l.orphans == {} && l.reclaimed == {}
    ensures l'.orphans == {} && l'.reclaimed == {}
    decreases steps
  {
    if |steps| > 0 {
      assert !steps[0].Crash?;
      NoCrashNoOrphans(c, Do(c, l, steps[0]), steps[1..], l');
    }
  }

  /** Everything one process writes validates. */
  lemma OneLifeValidates(c: Config, t0: Instant, steps: seq<Step>, l: Live)
    requires Run(c, Start(t0), steps, l) && OneLife(steps)
    ensures ValidJournal(l.log)
  {
    NoCrashNoOrphans(c, Start(t0), steps, l);
    JournalValidIffNoOrphanLeased(c, t0, steps, l);
  }

  /** The writes that spoil a journal: the lease record of an orphan, and no other. */
  lemma WriteKeepsValidIffNotOrphan(c: Config, l: Live)
    requires Inv(l) && CanDo(c, l, TransitionWrite) && ValidJournal(l.log)
    ensures ValidJournal(Do(c, l, TransitionWrite).log) <==>
              !(l.transition.value.entry.Leased? && l.transition.value.lease.request.id in ViewOf(l).orphans)
  {
    var l', e := Do(c, l, TransitionWrite), l.transition.value.entry;
    TransitionWriteStep(c, l);
    ValidIffNothingReclaimed(ViewOf(l), Entries(l.log));
    ValidIffNothingReclaimed(ViewOf(l'), Entries(l'.log));
    assert ViewOf(l') == Apply(ViewOf(l), e);
  }

  lemma EnqueueWriteKeepsValid(c: Config, l: Live)
    requires Inv(l) && CanDo(c, l, EnqueueWrite) && ValidJournal(l.log)
    ensures ValidJournal(Do(c, l, EnqueueWrite).log)
  {
    var l', e := Do(c, l, EnqueueWrite), l.enqueuing.value.entry;
    EnqueueWriteStep(c, l);
    NewIdIsNowhere(l);
    ValidIffNothingReclaimed(ViewOf(l), Entries(l.log));
    ValidIffNothingReclaimed(ViewOf(l'), Entries(l'.log));
    if l.transition.Some? {
      AdmissionCommutes(Settled(l), e, l.transition.value.entry);
    }
    assert ViewOf(l') == Apply(ViewOf(l), e);
  }

  /** A resumed process finds an expired lease's request in its queue, marked as an orphan. */
  lemma ExpiredLeaseIsRequeuedSilently(c: Config, l: Live, r: Request, t: Instant)
    requires Inv(l) && NothingWritten(l) && CanDo(c, l, Crash(t))
    requires r.id in l.active && l.active[r.id].request == r && l.active[r.id].expiresAt <= t
    ensures r in Restart(c, l.log, t).queues.queue && r.id in Restart(c, l.log, t).orphans
  {
    var l', m := Restart(c, l.log, t), TrackAll(Entries(l.log));
    assert Do(c, l, Crash(t)) == l';
    ActiveIsTracked(l, r);
    CrashStep(c, l, t);
    QueuedAfterRestart(c, l, r, t);
  }

  lemma ActiveIsTracked(l: Live, r: Request)
    requires Inv(l) && NothingWritten(l) && r.id in l.active && l.active[r.id].request == r
    ensures var m := TrackAll(Entries(l.log)).entries;
            r.id in m && m[r.id] == Tracked(r, false, Some(l.active[r.id].expiresAt))
    ensures r in ViewOf(l).known
  {
    var v, m := Settled(l), TrackAll(Entries(l.log));
    assert ViewOf(l) == v;
    KnownIds(l.queues.known);
    assert IdOf(r) in KeysOf(v.known, IdOf);
    KnownIffTracked(v, m, r.id);
    assert StatusAgrees(v, m.entries[r.id], r.id, l.now);
    TrackedInstances(v, m, m.Values(), l.now, r);
  }

  lemma QueuedAfterRestart(c: Config, l: Live, r: Request, t: Instant)
    requires var l', m := Restart(c, l.log, t), TrackAll(Entries(l.log)).entries;
             && Structure(l') && ViewOf(l') == Restarted(Entries(l.log), t)
             && r.id in m && Ready(m[r.id], t) && r in ViewOf(l').known
    ensures r in Restart(c, l.log, t).queues.queue
  {
    var l' := Restart(c, l.log, t);
    assert r.id in Settled(l').idle;
    WaitingPlaces(l', r);
  }

  /** Whatever process dies holding a lease that runs out: once a successor leases the request
      again, no third process can load the journal. */
  lemma AbandonedLeaseSpoilsJournal(c: Config, l: Live, r: Request, t: Instant) returns (steps: seq<Step>, spoilt: Live)
    requires Inv(l) && NothingWritten(l) && CanDo(c, l, Crash(t))
    requires r.id in l.active && l.active[r.id].request == r && l.active[r.id].expiresAt <= t
    ensures Run(c, l, steps, spoilt)
    ensures |steps| == 4 && steps[0] == Crash(t) && steps[2] == LeaseStart(r) && steps[3] == TransitionWrite
    ensures !ValidJournal(spoilt.log) && forall later :: !CanDo(c, spoilt, Crash(later))
  {
    var l1 := Do(c, l, Crash(t));
    MachineSteps(c, l, Crash(t));
    StepKeepsInv(c, l, Crash(t));
    ExpiredLeaseIsRequeuedSilently(c, l, r, t);
    var l2, i := TakeThis(c, l1, r);
    spoilt := LeaseOrphan(c, l2, r);
    var rest := [LeaseStart(r), TransitionWrite];
    RunCons(Machine(c), l1, Take(i), l2, rest, spoilt);
    RunCons(Machine(c), l, Crash(t), l1, [Take(i)] + rest, spoilt);
    steps := [Crash(t)] + ([Take(i)] + rest);
  }

  /** Any queued request can be the next one taken. */
  lemma TakeThis(c: Config, l: Live, r: Request) returns (l': Live, index: nat)
    requires Inv(l) && r in l.queues.queue
    ensures CanDo(c, l, Take(index)) && Machine(c)(l, Take(index)) == Some(l') && Inv(l')
    ensures r in l'.taken
    ensures l' == l.(queues := l'.queues, taken := l'.taken)
  {
    var promoted := l.queues.Promote(l.now, c.order).queue;
    assert r in promoted;
    index :| 0 <= index < |promoted| && promoted[index] == r;
    MachineSteps(c, l, Take(index));
    StepKeepsInv(c, l, Take(index));
    l' := Do(c, l, Take(index));
  }

  lemma LeaseOrphan(c: Config, l: Live, r: Request) returns (spoilt: Live)
    requires Inv(l) && l.transition.None? && l.enqueuing.None? && ValidJournal(l.log)
    requires r in l.taken && r.id in l.orphans
    ensures Run(c, l, [LeaseStart(r), TransitionWrite], spoilt)
    ensures !ValidJournal(spoilt.log) && forall later :: !CanDo(c, spoilt, Crash(later))
  {
    var mid := LeaseBegun(c, l, r);
    spoilt := SpoilingWrite(c, mid);
    RunTwo(Machine(c), l, LeaseStart(r), mid, TransitionWrite, spoilt);
  }

  lemma SpoilingWrite(c: Config, mid: Live) returns (spoilt: Live)
    requires Inv(mid) && ValidJournal(mid.log) && CanDo(c, mid, TransitionWrite)
    requires mid.transition.value.entry.Leased? && mid.transition.value.lease.request.id in ViewOf(mid).orphans
    ensures Machine(c)(mid, TransitionWrite) == Some(spoilt)
    ensures !ValidJournal(spoilt.log) && forall later :: !CanDo(c, spoilt, Crash(later))
  {
    spoilt := Do(c, mid, TransitionWrite);
    MachineSteps(c, mid, TransitionWrite);
    WriteKeepsValidIffNotOrphan(c, mid);
    TransitionWriteStep(c, mid);
    CannotResume(c, spoilt);
  }

  lemma CannotResume(c: Config, l: Live)
    requires Chained(l.log) && !ValidJournal(l.log)
    ensures forall later :: !CanDo(c, l, Crash(later))
  {
  }

  lemma LeaseBegun(c: Config, l: Live, r: Request) returns (mid: Live)
    requires Inv(l) && l.transition.None? && l.enqueuing.None? && r in l.taken
    ensures Machine(c)(l, LeaseStart(r)) == Some(mid) && Inv(mid) && mid.log == l.log
    ensures mid.transition.Some? && !mid.transition.value.written
    ensures mid.transition.value.entry.Leased? && mid.transition.value.lease.request == r
    ensures ViewOf(mid).orphans == l.orphans
  {
    mid := Do(c, l, LeaseStart(r));
    MachineSteps(c, l, LeaseStart(r));
    StepKeepsInv(c, l, LeaseStart(r));
    assert ViewOf(mid).orphans == l.orphans;
  }

  // ---------------------------------------------------------------------------------------
  // Single owner, conservation, finality

  ghost predicate InOnePlaceOrFinished(l: Live, r: Request) {
    var q, d, a, t, b := r in l.queues.queue, DeferredOnly(l, r), r.id in l.active, r in l.taken, r in l.requeuing;
    && !(q && d) && !(q && a) && !(q && t) && !(q && b) && !(d && a)
    && !(d && t) && !(d && b) && !(a && t) && !(a && b) && !(t && b)
    && (FinishedIn(l, r.id) <==> !(q || d || a || t || b))
  }

  lemma EachHasItsPlace(l: Live, r: Request)
    requires Inv(l) && Has(l.queues.known, r) && NothingWritten(l)
    ensures InOnePlaceOrFinished(l, r)
  {
    KnownIds(l.queues.known);
    var v, m := Settled(l), TrackAll(Entries(l.log));
    assert ViewOf(l) == v;
    WaitingPlaces(l, r);
    assert IdOf(r) in KeysOf(v.known, IdOf);
    KnownIffTracked(v, m, r.id);
    assert StatusAgrees(v, m.entries[r.id], r.id, l.now);
    assert DeferredOnly(l, r) <==> r.id in KeysOf(l.queues.deferred, DeferredId);
    assert r in l.queues.queue ==> IdOf(r) in KeysOf(l.queues.queue, IdOf);
    assert r in l.taken ==> r.id in Ids(l.taken);
    assert r in l.requeuing ==> r.id in Ids(l.requeuing);
  }

  /** An unfinished request is in exactly one place; one that is nowhere has its terminal record. */
  lemma OnePlaceOrFinished(c: Config, t0: Instant, steps: seq<Step>, l: Live, r: Request)
    requires Run(c, Start(t0), steps, l) && Has(l.queues.known, r) && NothingWritten(l)
    ensures InOnePlaceOrFinished(l, r)
  {
    StartInv(t0);
    RunKeepsInv(c, Start(t0), steps, l);
    EachHasItsPlace(l, r);
  }

  ghost predicate DeferredOnly(l: Live, r: Request) {
    exists d :: d in l.queues.deferred && DeferredId(d) == r.id
  }

  ghost predicate FinishedIn(l: Live, id: RequestId) {
    var m := TrackAll(Entries(l.log)).entries;
    id in m && m[id].terminal
  }

  lemma FinishedStaysFinishedOnAppend(l: Live, v: View, e: Entry, id: RequestId)
    requires Chained(l.log) && ViewOk(v) && Legal(v, e) && FinishedIn(l, id)
    requires RecoveryAgrees(v, TrackAll(Entries(l.log)), l.now)
    ensures FinishedIn(l.(log := Append(l.log, e)), id)
  {
    var es := Entries(l.log);
    ChainedAppend(l.log, BuildRecord(e, |l.log| + 1, LastChecksum(l.log)));
    TrackAppend(es, e);
    assert StatusAgrees(v, TrackAll(es).entries[id], id, l.now);
    KnownIffTracked(v, TrackAll(es), id);
    assert Subject(e) != id;
  }

  lemma StepKeepsFinished(c: Config, l: Live, s: Step, id: RequestId)
    requires Inv(l) && CanDo(c, l, s) && FinishedIn(l, id)
    ensures FinishedIn(Do(c, l, s), id)
  {
    if s.EnqueueWrite? {
      EnqueueIsLegal(c, l);
      FinishedStaysFinishedOnAppend(l, ViewOf(l), l.enqueuing.value.entry, id);
    } else if s.TransitionWrite? {
      TransitionIsLegal(l);
      FinishedStaysFinishedOnAppend(l, ViewOf(l), l.transition.value.entry, id);
    } else {
      OnlyWritesWrite(c, l, s);
    }
  }

  lemma OnlyWritesWrite(c: Config, l: Live, s: Step)
    requires CanDo(c, l, s) && !s.EnqueueWrite? && !s.TransitionWrite?
    ensures Do(c, l, s).log == l.log
  {
  }

  /** Leases are remembered and forgotten at the end of a change of lease alone; one that is begun is
      about a lease of this very moment or one that is honoured. */
  lemma OnlyFinishActivates(c: Config, l: Live, s: Step)
    requires CanDo(c, l, s) && !s.TransitionFinish? && !s.Crash?
    ensures Do(c, l, s).active == l.active && l.now <= Do(c, l, s).now
    ensures var t, t' := l.transition, Do(c, l, s).transition;
            || t'.None?
            || (t.Some? && t'.value.lease == t.value.lease)
            || (s.LeaseStart? && t'.value.lease == NewLease(c, s.request, l.now))
            || exists x :: Honours(l, x) && t'.value.lease.leaseId == x.leaseId && t'.value.lease.request == x.request
  {
    if s.RenewStart? || s.ReleaseStart? || s.FinishStart? {
      assert Honours(l, s.lease);
    }
  }

  lemma EnqueueIsLegal(c: Config, l: Live)
    requires Structure(l) && CanDo(c, l, EnqueueWrite)
    ensures Legal(ViewOf(l), l.enqueuing.value.entry)
  {
    EnqueueWriteView(c, l);
    SetNew(l.queues.known, l.enqueuing.value.request);
  }

  lemma TransitionIsLegal(l: Live)
    requires Structure(l) && l.transition.Some? && !l.transition.value.written
    ensures Legal(ViewOf(l), l.transition.value.entry)
  {
    var r := l.transition.value.lease.request;
    assert r in l.taken ==> r.id in Ids(l.taken);
  }

  /** Finished is final, across every later step and every later life. */
  lemma {:induction false} FinishedIsFinal(c: Config, l: Live, steps: seq<Step>, l': Live, id: RequestId)
    requires Inv(l) && Run(c, l, steps, l') && FinishedIn(l, id)
    ensures FinishedIn(l', id)
    decreases steps
  {
    if |steps| > 0 {
      StepKeepsInv(c, l, steps[0]);
      StepKeepsFinished(c, l, steps[0], id);
      FinishedIsFinal(c, Do(c, l, steps[0]), steps[1..], l', id);
    }
  }

  // ---------------------------------------------------------------------------------------
  // Fencing

  /** Nobody holds the lease, nobody is being given it, and its millisecond is over. */
  ghost predicate Over(l: Live, lease: Lease) {
    && lease.leaseId.requestId == lease.request.id
    && !Honours(l, lease)
    && (l.transition.Some? ==> l.transition.value.lease.leaseId != lease.leaseId)
    && lease.leaseId.leasedAt < l.now
  }

  lemma StepKeepsOver(c: Config, l: Live, s: Step, lease: Lease)
    requires Structure(l) && CanDo(c, l, s) && Over(l, lease)
    ensures Over(Do(c, l, s), lease)
  {
    if s.TransitionFinish? {
      FinishKeepsOver(l, lease);
    } else if !s.Crash? {
      OnlyFinishActivates(c, l, s);
    }
  }

  lemma FinishKeepsOver(l: Live, lease: Lease)
    requires Structure(l) && l.transition.Some? && Over(l, lease)
    ensures Over(FinishTransition(l), lease)
  {
  }

  /** A lease that is over is refused by every renewal, release and completion ever after. */
  lemma {:induction false} StaleLeasesAreRefused(c: Config, l: Live, steps: seq<Step>, l': Live, lease: Lease)
    requires Inv(l) && Run(c, l, steps, l') && Over(l, lease)
    ensures !Honours(l', lease)
    ensures !CanDo(c, l', RenewStart(lease))
    ensures forall reason :: !CanDo(c, l', ReleaseStart(lease, reason))
    ensures forall state, reason :: !CanDo(c, l', FinishStart(lease, state, reason))
    decreases steps
  {
    if |steps| > 0 {
      StepKeepsInv(c, l, steps[0]);
      StepKeepsOver(c, l, steps[0], lease);
      StaleLeasesAreRefused(c, Do(c, l, steps[0]), steps[1..], l', lease);
    }
  }

  /** Release and completion end a lease once the clock has moved past its grant. */
  lemma EndedLeaseIsOver(c: Config, l: Live, t: Instant)
    requires Inv(l) && CanDo(c, l, TransitionFinish)
    requires l.transition.value.entry.Released? || l.transition.value.entry.Finished?
    requires l.now <= t && l.transition.value.lease.leaseId.leasedAt < t
    ensures Over(Do(c, Do(c, l, TransitionFinish), Tick(t)), l.transition.value.lease)
  {
  }

  lemma CrashEndsLeases(c: Config, l: Live, t: Instant, lease: Lease)
    requires Inv(l) && CanDo(c, l, Crash(t))
    requires lease.leaseId.requestId == lease.request.id && lease.leaseId.leasedAt < t
    ensures Over(Do(c, l, Crash(t)), lease)
  {
  }

  /** Without the clock's advance the handle of a released lease works again: lease, release and
      lease once more, all in one millisecond. */
  lemma SameMillisecondRevivesLease(c: Config, l: Live, r: Request)
    returns (stale: Lease, released: Live, again: Live, first: seq<Step>, second: seq<Step>)
    requires Inv(l) && l.transition.None? && r in l.taken
    ensures Run(c, l, first, released) && !Honours(released, stale) && stale.request == r
    ensures Run(c, released, second, again) && Honours(again, stale) && again.now == l.now
  {
    stale := NewLease(c, r, l.now);
    var given, s1 := Give(c, l, r);
    var s2;
    released, s2 := TakeBack(c, given, stale);
    RunsChain(Machine(c), l, s1, given, s2, released);
    first := s1 + s2;
    var taken, s3 := BackInHand(c, released, r);
    var s4;
    again, s4 := Give(c, taken, r);
    RunsChain(Machine(c), released, s3, taken, s4, again);
    second := s3 + s4;
  }

  /** A released request pushed back and taken again. */
  lemma BackInHand(c: Config, l: Live, r: Request) returns (taken: Live, steps: seq<Step>)
    requires Inv(l) && l.transition.None? && r in l.requeuing
    ensures Run(c, l, steps, taken) && Inv(taken)
    ensures taken.transition.None? && taken.now == l.now && r in taken.taken
  {
    var queued := Do(c, l, Requeue(r));
    MachineSteps(c, l, Requeue(r));
    StepKeepsInv(c, l, Requeue(r));
    var i;
    taken, i := TakeThis(c, queued, r);
    assert Run(c, taken, [], taken);
    RunCons(Machine(c), queued, Take(i), taken, [], taken);
    RunCons(Machine(c), l, Requeue(r), queued, [Take(i)] + [], taken);
    steps := [Requeue(r)] + ([Take(i)] + []);
  }

  lemma FinishIgnoresLog(l: Live, mid: Live)
    requires l.transition.Some? && mid == l.(log := mid.log, transition := Some(l.transition.value.(written := true)))
    ensures FinishTransition(mid) == FinishTransition(l).(log := mid.log)
  {
  }

  /** The second and third part of any change of lease, without interruption. */
  lemma Complete(c: Config, l: Live) returns (done: Live)
    requires Inv(l) && l.transition.Some? && !l.transition.value.written
    ensures Run(c, l, [TransitionWrite, TransitionFinish], done) && Inv(done)
    ensures done == FinishTransition(l).(log := done.log)
  {
    var mid := Do(c, l, TransitionWrite);
    MachineSteps(c, l, TransitionWrite);
    StepKeepsInv(c, l, TransitionWrite);
    done := Do(c, mid, TransitionFinish);
    FinishIgnoresLog(l, mid);
    MachineSteps(c, mid, TransitionFinish);
    StepKeepsInv(c, mid, TransitionFinish);
    RunTwo(Machine(c), l, TransitionWrite, mid, TransitionFinish, done);
  }

  /** A lease granted without interruption. */
  lemma Give(c: Config, l: Live, r: Request) returns (given: Live, steps: seq<Step>)
    requires Inv(l) && l.transition.None? && r in l.taken
    ensures Run(c, l, steps, given) && Inv(given)
    ensures given.transition.None? && given.enqueuing == l.enqueuing && given.now == l.now
    ensures r.id in given.active && given.active[r.id] == NewLease(c, r, l.now)
    ensures steps == [LeaseStart(r)] + [TransitionWrite, TransitionFinish]
  {
    var started := Do(c, l, LeaseStart(r));
    StepKeepsInv(c, l, LeaseStart(r));
    given := Complete(c, started);
    steps := [LeaseStart(r)] + [TransitionWrite, TransitionFinish];
    assert Run(c, l, steps, given) by {
      MachineSteps(c, l, LeaseStart(r));
      RunCons(Machine(c), l, LeaseStart(r), started, [TransitionWrite, TransitionFinish], given);
    }
  }

  /** A lease released without interruption. */
  lemma TakeBack(c: Config, l: Live, lease: Lease) returns (freed: Live, steps: seq<Step>)
    requires Inv(l) && l.transition.None? && Issued(l, lease)
    ensures Run(c, l, steps, freed) && Inv(freed)
    ensures freed.transition.None? && freed.now == l.now
    ensures lease.request in freed.requeuing && lease.request.id !in freed.active
  {
    var started := Do(c, l, ReleaseStart(lease, None));
    MachineSteps(c, l, ReleaseStart(lease, None));
    StepKeepsInv(c, l, ReleaseStart(lease, None));
    freed := Complete(c, started);
    steps := [ReleaseStart(lease, None)] + [TransitionWrite, TransitionFinish];
    RunCons(Machine(c), l, ReleaseStart(lease, None), started, [TransitionWrite, TransitionFinish], freed);
  }
}
