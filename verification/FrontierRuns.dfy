/** Complete runs from an empty frontier that show its two surprises, for any configuration and any
    request: a journal that no process can load, and a lease that comes back to life. */
module FrontierRuns {
  import opened Prelude
  import opened Requests
  import opened JournalRecords
  import opened JournalValidation
  import opened FrontierState
  import opened FrontierProtocol
  import opened FrontierTheorems
  import opened Runs
  import JournalBackend

  ghost predicate Enqueueable(r: Request) {
    r.id.uniqueKey == r.uniqueKey
  }

  lemma FirstQueued(c: Config, t0: Instant, r: Request) returns (l: Live, steps: seq<Step>)
    requires Enqueueable(r)
    ensures Run(c, Start(t0), steps, l) && OneLife(steps)
    ensures r in l.queues.queue && l.transition.None? && l.enqueuing.None? && l.now == t0
  {
    steps := [EnqueueStart(r), EnqueueWrite, EnqueueFinish];
    l := Start(t0).(queues := Start(t0).queues.AddPending(r, c.order),
                    log := FrontierProtocol.Append([], Enqueued(r, t0)));
    JournalBackend.EnqueueRun(c, Start(t0), r);
  }

  /** Enqueue and take: one request in hand, nothing else going on. */
  lemma InHand(c: Config, t0: Instant, r: Request) returns (l: Live, steps: seq<Step>)
    requires Enqueueable(r)
    ensures Run(c, Start(t0), steps, l) && Inv(l) && OneLife(steps)
    ensures r in l.taken && l.transition.None? && l.enqueuing.None? && l.now == t0
  {
    var queued, enqueue := FirstQueued(c, t0, r);
    StartInv(t0);
    RunKeepsInv(c, Start(t0), enqueue, queued);
    var i;
    l, i := TakeThis(c, queued, r);
    RunSnoc(Machine(c), Start(t0), enqueue, queued, Take(i), l);
    steps := enqueue + [Take(i)];
  }

  lemma FirstLeased(c: Config, t0: Instant, r: Request) returns (l: Live, steps: seq<Step>)
    requires Enqueueable(r)
    ensures Run(c, Start(t0), steps, l) && Inv(l) && OneLife(steps)
    ensures NothingWritten(l) && l.now == t0 && r.id in l.active && l.active[r.id] == NewLease(c, r, t0)
  {
    var taken, first := InHand(c, t0, r);
    var second;
    l, second := Give(c, taken, r);
    steps := first + second;
    LeasingIsOneLife(first, r);
    assert Run(c, Start(t0), steps, l) by {
      RunsChain(Machine(c), Start(t0), first, taken, second, l);
    }
  }

  lemma LeasingIsOneLife(first: seq<Step>, r: Request)
    requires OneLife(first)
    ensures OneLife(first + ([LeaseStart(r)] + [TransitionWrite, TransitionFinish]))
  {
  }

  /** One process leases the request and dies; the lease runs out; the next process leases it
      again; and no process after that can load the journal. */
  lemma AJournalThatCannotBeLoaded(c: Config, t0: Instant, r: Request) returns (steps: seq<Step>, spoilt: Live)
    requires Enqueueable(r)
    ensures Run(c, Start(t0), steps, spoilt)
    ensures !ValidJournal(spoilt.log) && forall later :: !CanDo(c, spoilt, Crash(later))
  {
    var leased, first := FirstLeased(c, t0, r);
    OneLifeValidates(c, t0, first, leased);
    var second;
    second, spoilt := Abandoned(c, leased, r);
    RunsChain(Machine(c), Start(t0), first, leased, second, spoilt);
    steps := first + second;
  }

  lemma Abandoned(c: Config, l: Live, r: Request) returns (steps: seq<Step>, spoilt: Live)
    requires Inv(l) && ValidJournal(l.log) && NothingWritten(l)
    requires r.id in l.active && l.active[r.id] == NewLease(c, r, l.now)
    ensures Run(c, l, steps, spoilt)
    ensures !ValidJournal(spoilt.log) && forall later :: !CanDo(c, spoilt, Crash(later))
  {
    steps, spoilt := AbandonedLeaseSpoilsJournal(c, l, r, l.now + c.leaseDuration);
  }

  /** Lease, release and lease within one millisecond: the handle that was released is refused in
      between and honoured in the end. */
  lemma AHandleThatComesBack(c: Config, t0: Instant, r: Request)
    returns (stale: Lease, refused: Live, before: seq<Step>, honoured: Live, steps: seq<Step>)
    requires Enqueueable(r)
    ensures Run(c, Start(t0), before, refused) && !Honours(refused, stale)
    ensures Run(c, refused, steps, honoured) && Honours(honoured, stale)
  {
    var taken, first := InHand(c, t0, r);
    var second;
    stale, refused, honoured, second, steps := SameMillisecondRevivesLease(c, taken, r);
    RunsChain(Machine(c), Start(t0), first, taken, second, refused);
    before := first + second;
  }
}
