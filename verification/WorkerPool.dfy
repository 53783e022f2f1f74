/** Workers sharing one journal frontier until it is empty (src/crawler/worker-pool.ts). */
module WorkerPool {
  import opened Prelude
  import opened Requests
  import opened FrontierState
  import opened FrontierProtocol
  import opened FrontierTheorems
  import opened Runs

  /** Looping: about to ask for a lease. Checking: was given none, about to test whether the
      frontier is empty. Leasing: its request is taken, the lease not yet granted. Working: in
      the handler. Returning: about to push its request back and fail. Gone: out of the loop. */
  datatype Phase =
    | Looping
    | Checking
    | Leasing(request: Request)
    | Working(request: Request)
    | Returning(request: Request)
    | Gone

  /** The owners are the workers whose calls hold the two mutexes of the frontier. failed: some
      worker ended with an error. stopped: some worker left because leasing was forbidden. */
  datatype Pool = Pool(
    live: Live,
    workers: seq<Phase>,
    transitionOwner: nat,
    enqueueOwner: nat,
    failed: bool,
    stopped: bool)

  datatype Act =
    | Elapse(t: Instant)
    | StopLeasing(w: nat)
    | FindNone(w: nat)
    | Check(w: nat)
    | Find(w: nat, index: nat)
    | BeginLease(w: nat)
    | BeginRenew(w: nat, lease: Lease)
    | BeginRelease(w: nat, lease: Lease, reason: Option<string>)
    | BeginFinish(w: nat, lease: Lease, state: Terminal, reason: Option<string>)
    | WriteTransition(w: nat)
    | EndTransition(w: nat)
    | LoseTransition(w: nat)
    | GiveBack(w: nat)
    | BeginEnqueue(w: nat, request: Request)
    | WriteEnqueue(w: nat)
    | EndEnqueue(w: nat)
    | LoseEnqueue(w: nat)
    | Return(w: nat)
    | Throw(w: nat)

  function Outstanding(l: Live): nat {
    |l.queues.queue| + |l.queues.deferred| + |l.active|
  }

  predicate OwnsTransition(p: Pool, w: nat) { p.live.transition.Some? && p.transitionOwner == w }

  predicate OwnsEnqueue(p: Pool, w: nat) { p.live.enqueuing.Some? && p.enqueueOwner == w }

  /** A lease is released only for a request whose handler has not begun. */
  predicate Releasing(p: Pool, w: nat) { OwnsTransition(p, w) && p.live.transition.value.entry.Released? }

  predicate Busy(p: Pool, w: nat) { OwnsTransition(p, w) || OwnsEnqueue(p, w) }

  /** The frontier step an act performs, if any. */
  function StepFor(p: Pool, a: Act): Option<Step> {
    match a
    case Elapse(t) => Some(Tick(t))
    case FindNone(_) => Some(Promote)
    case Find(_, index) => Some(Take(index))
    case BeginLease(w) => if w < |p.workers| && p.workers[w].Leasing? then Some(LeaseStart(p.workers[w].request)) else None
    case BeginRenew(_, lease) => Some(RenewStart(lease))
    case BeginRelease(_, lease, reason) => Some(ReleaseStart(lease, reason))
    case BeginFinish(_, lease, state, reason) => Some(FinishStart(lease, state, reason))
    case WriteTransition(_) => Some(TransitionWrite)
    case EndTransition(_) => Some(TransitionFinish)
    case LoseTransition(_) => Some(TransitionFail)
    case GiveBack(w) => if w < |p.workers| && p.workers[w].Returning? then Some(Requeue(p.workers[w].request)) else None
    case BeginEnqueue(_, r) => Some(EnqueueStart(r))
    case WriteEnqueue(_) => Some(EnqueueWrite)
    case EndEnqueue(_) => Some(EnqueueFinish)
    case LoseEnqueue(_) => Some(EnqueueFail)
    case _ => None
  }

  /** When a worker may perform an act, apart from what its frontier step demands. */
  predicate May(p: Pool, a: Act) {
    if a.Elapse? then true
    else
      a.w < |p.workers| &&
      var phase := p.workers[a.w];
      match a
      case StopLeasing(_) => phase.Looping?
      case FindNone(_) => phase.Looping?
      case Find(_, _) => phase.Looping?
      case Check(_) => phase.Checking?
      case BeginLease(_) => phase.Leasing?
      case BeginRenew(_, lease) => phase == Working(lease.request)
      case BeginRelease(w, lease, _) => phase == Working(lease.request) && !OwnsEnqueue(p, w)
      case BeginFinish(_, lease, _, _) => phase == Working(lease.request)
      case WriteTransition(w) => OwnsTransition(p, w)
      case EndTransition(w) => OwnsTransition(p, w)
      case LoseTransition(w) => OwnsTransition(p, w)
      case GiveBack(_) => phase.Returning?
      case BeginEnqueue(w, _) => phase.Working? && !Releasing(p, w)
      case WriteEnqueue(w) => OwnsEnqueue(p, w)
      case EndEnqueue(w) => OwnsEnqueue(p, w)
      case LoseEnqueue(w) => OwnsEnqueue(p, w)
      case Return(w) => phase.Working? && !Busy(p, w)
      case Throw(w) => phase.Working? && !Busy(p, w)
  }

  function PhaseAfter(c: Config, p: Pool, a: Act): Phase
    requires !a.Elapse? && May(p, a)
    requires a.Find? ==> CanDo(c, p.live, Take(a.index))
  {
    var phase := p.workers[a.w];
    match a
    case StopLeasing(_) => Gone
    case FindNone(_) => Checking
    case Check(_) => if Outstanding(p.live) == 0 then Gone else Looping
    case Find(_, index) => Leasing(p.live.queues.Promote(p.live.now, c.order).queue[index])
    case EndTransition(_) =>
      if p.live.transition.value.entry.Leased? then Working(p.live.transition.value.lease.request)
      else if p.live.transition.value.entry.Released? then Returning(p.live.transition.value.lease.request)
      else phase
    case LoseTransition(_) =>
      if p.live.transition.value.entry.Leased? then Returning(p.live.transition.value.lease.request) else phase
    case GiveBack(_) => Gone
    case Return(_) => Looping
    case Throw(_) => Gone
    case _ => phase
  }

  function PoolMachine(c: Config): (Pool, Act) -> Option<Pool> {
    (p: Pool, a: Act) =>
      var step := StepFor(p, a);
      if !May(p, a) || (step.Some? && !CanDo(c, p.live, step.value)) then
        None
      else
        var live := if step.Some? then Do(c, p.live, step.value) else p.live;
        if a.Elapse? then
          Some(p.(live := live))
        else
          Some(Pool(
            live,
            p.workers[a.w := PhaseAfter(c, p, a)],
            if a.BeginLease? || a.BeginRenew? || a.BeginRelease? || a.BeginFinish? then a.w else p.transitionOwner,
            if a.BeginEnqueue? then a.w else p.enqueueOwner,
            p.failed || a.Throw? || a.GiveBack?,
            p.stopped || a.StopLeasing?))
  }

  ghost predicate AllGone(p: Pool) {
    forall w :: 0 <= w < |p.workers| ==> p.workers[w].Gone?
  }

  ghost predicate SomeWorker(p: Pool, phase: Phase) {
    exists w :: 0 <= w < |p.workers| && p.workers[w] == phase
  }

  ghost predicate TakenOwned(taken: set<Request>, p: Pool) {
    forall r :: r in taken ==> SomeWorker(p, Leasing(r))
  }

  ghost predicate RequeuingOwned(requeuing: set<Request>, p: Pool) {
    forall r :: r in requeuing ==> SomeWorker(p, Returning(r))
  }

  ghost predicate TransitionOwned(t: Option<Transition>, p: Pool) {
    t.Some? ==>
      && p.transitionOwner < |p.workers|
      && p.workers[p.transitionOwner] ==
         (if t.value.entry.Leased? then Leasing(t.value.lease.request) else Working(t.value.lease.request))
  }

  ghost predicate EnqueueOwned(e: Option<Admission>, p: Pool) {
    e.Some? ==> p.enqueueOwner < |p.workers| && p.workers[p.enqueueOwner].Working?
  }

  /** Everything that is neither queued nor leased is in the hands of a worker that has not left. */
  ghost predicate Owned(p: Pool) {
    && (p.live.enqueuing.Some? ==> !Releasing(p, p.enqueueOwner))
    && TakenOwned(p.live.taken, p)
    && RequeuingOwned(p.live.requeuing, p)
    && TransitionOwned(p.live.transition, p)
    && EnqueueOwned(p.live.enqueuing, p)
  }

  ghost predicate Emptied(p: Pool) {
    AllGone(p) && !p.failed && !p.stopped ==> Outstanding(p.live) == 0
  }

  ghost predicate PoolInv(p: Pool) {
    Inv(p.live) && Owned(p) && Emptied(p)
  }

  lemma PhaseChange(p: Pool, p': Pool, w: nat, phase: Phase)
    requires w < |p.workers| == |p'.workers| && p'.workers == p.workers[w := p'.workers[w]]
    ensures SomeWorker(p, phase) && p.workers[w] != phase ==> SomeWorker(p', phase)
    ensures p'.workers[w] == phase ==> SomeWorker(p', phase)
  {
    if SomeWorker(p, phase) && p.workers[w] != phase {
      var v :| 0 <= v < |p.workers| && p.workers[v] == phase;
      assert p'.workers[v] == phase;
    }
  }

  lemma TakenOwnedAfter(c: Config, p: Pool, a: Act)
    requires Owned(p) && !a.Elapse? && PoolMachine(c)(p, a).Some?
    ensures var p' := PoolMachine(c)(p, a).value; TakenOwned(p'.live.taken, p')
  {
    var p' := PoolMachine(c)(p, a).value;
    OneWorkerActs(c, p, a);
    forall r | r in p'.live.taken ensures SomeWorker(p', Leasing(r)) {
      Grasped(c, p, a, r);
      PhaseChange(p, p', a.w, Leasing(r));
    }
  }

  /** A request in hand is one that was, or the one that the acting worker takes now. */
  lemma Grasped(c: Config, p: Pool, a: Act, r: Request)
    requires TransitionOwned(p.live.transition, p) && !a.Elapse? && PoolMachine(c)(p, a).Some?
    requires r in PoolMachine(c)(p, a).value.live.taken
    ensures var p' := PoolMachine(c)(p, a).value;
            || p'.workers[a.w] == Leasing(r)
            || (r in p.live.taken && p.workers[a.w] != Leasing(r))
  {
    if StepFor(p, a).Some? {
      TakenAfter(c, p.live, StepFor(p, a).value, r);
    }
  }

  lemma TakenAfter(c: Config, l: Live, s: Step, r: Request)
    requires CanDo(c, l, s) && !s.Crash? && r in Do(c, l, s).taken
    ensures || (s.Take? && r == l.queues.Promote(l.now, c.order).queue[s.index])
            || (r in l.taken && ((s.TransitionFail? || s.TransitionFinish?) && l.transition.value.entry.Leased? ==>
                                   l.transition.value.lease.request != r))
  {
  }

  /** A request on its way back is one that was, or the one that the acting worker gives back now. */
  lemma GivenBack(c: Config, p: Pool, a: Act, r: Request)
    requires TransitionOwned(p.live.transition, p) && !a.Elapse? && PoolMachine(c)(p, a).Some?
    requires r in PoolMachine(c)(p, a).value.live.requeuing
    ensures var p' := PoolMachine(c)(p, a).value;
            || p'.workers[a.w] == Returning(r)
            || (r in p.live.requeuing && p.workers[a.w] != Returning(r))
  {
    if StepFor(p, a).Some? {
      RequeuingAfter(c, p.live, StepFor(p, a).value, r);
    }
  }

  lemma RequeuingAfter(c: Config, l: Live, s: Step, r: Request)
    requires CanDo(c, l, s) && !s.Crash? && r in Do(c, l, s).requeuing
    ensures || (r in l.requeuing && s != Requeue(r))
            || (s.TransitionFail? && l.transition.value.entry.Leased? && l.transition.value.lease.request == r)
            || (s.TransitionFinish? && l.transition.value.entry.Released? && l.transition.value.lease.request == r)
  {
  }

  lemma RequeuingOwnedAfter(c: Config, p: Pool, a: Act)
    requires Owned(p) && !a.Elapse? && PoolMachine(c)(p, a).Some?
    ensures var p' := PoolMachine(c)(p, a).value; RequeuingOwned(p'.live.requeuing, p')
  {
    var p' := PoolMachine(c)(p, a).value;
    OneWorkerActs(c, p, a);
    forall r | r in p'.live.requeuing ensures SomeWorker(p', Returning(r)) {
      GivenBack(c, p, a, r);
      PhaseChange(p, p', a.w, Returning(r));
    }
  }

  lemma OneWorkerActs(c: Config, p: Pool, a: Act)
    requires !a.Elapse? && PoolMachine(c)(p, a).Some?
    ensures var p' := PoolMachine(c)(p, a).value;
            a.w < |p.workers| == |p'.workers| && p'.workers == p.workers[a.w := p'.workers[a.w]]
  {
  }

  /** Which acts touch the transition in progress, and how. */
  lemma TransitionAfter(c: Config, l: Live, s: Step)
    requires CanDo(c, l, s) && !s.Crash?
    ensures var t, t' := l.transition, Do(c, l, s).transition;
            match s
            case LeaseStart(r) => t.None? && t'.Some? && t'.value.entry.Leased? && t'.value.lease.request == r
            case RenewStart(x) => t.None? && t'.Some? && !t'.value.entry.Leased? && t'.value.lease.request == x.request
            case ReleaseStart(x, _) => t.None? && t'.Some? && !t'.value.entry.Leased? && t'.value.lease.request == x.request
            case FinishStart(x, _, _) => t.None? && t'.Some? && !t'.value.entry.Leased? && t'.value.lease.request == x.request
            case TransitionWrite => t.Some? && t' == Some(t.value.(written := true))
            case TransitionFail => t.Some? && t' == None
            case TransitionFinish => t.Some? && t' == None
            case _ => t' == t
  {
  }

  lemma AdmissionAfter(c: Config, l: Live, s: Step)
    requires CanDo(c, l, s) && !s.Crash?
    ensures var e, e' := l.enqueuing, Do(c, l, s).enqueuing;
            match s
            case EnqueueStart(r) => e.None? && e'.Some?
            case EnqueueWrite => e.Some? && e'.Some?
            case EnqueueFail => e.Some? && e'.None?
            case EnqueueFinish => e.Some? && e'.None?
            case _ => e' == e
  {
  }

  /** An act that leaves the transition alone is not performed by its owner, or keeps him in his phase. */
  lemma TransitionOwnedAfter(c: Config, p: Pool, p': Pool, a: Act)
    requires Owned(p) && !a.Elapse? && PoolMachine(c)(p, a) == Some(p')
    ensures TransitionOwned(p'.live.transition, p')
  {
    if StepFor(p, a).Some? {
      TransitionAfter(c, p.live, StepFor(p, a).value);
    }
    if p'.live.transition.Some? {
      var w := p'.transitionOwner;
      assert w == a.w ==> p'.workers[w] == PhaseAfter(c, p, a);
      assert w != a.w ==> p'.workers[w] == p.workers[w];
    }
  }

  lemma EnqueueOwnedAfter(c: Config, p: Pool, p': Pool, a: Act)
    requires Owned(p) && !a.Elapse? && PoolMachine(c)(p, a) == Some(p')
    ensures EnqueueOwned(p'.live.enqueuing, p')
  {
    if StepFor(p, a).Some? {
      AdmissionAfter(c, p.live, StepFor(p, a).value);
    }
  }

  lemma OwnedAfter(c: Config, p: Pool, a: Act)
    requires Owned(p) && PoolMachine(c)(p, a).Some?
    ensures Owned(PoolMachine(c)(p, a).value)
  {
    var p' := PoolMachine(c)(p, a).value;
    if a.Elapse? {
      forall phase ensures SomeWorker(p, phase) <==> SomeWorker(p', phase) {
      }
      assert TakenOwned(p'.live.taken, p') && RequeuingOwned(p'.live.requeuing, p');
    } else {
      TakenOwnedAfter(c, p, a);
      RequeuingOwnedAfter(c, p, a);
      TransitionOwnedAfter(c, p, p', a);
      EnqueueOwnedAfter(c, p, p', a);
      NoReleaseMeanwhile(c, p, p', a);
    }
  }

  /** A handler gives its lease back only when its own admissions are through. */
  lemma NoReleaseMeanwhile(c: Config, p: Pool, p': Pool, a: Act)
    requires Owned(p) && !a.Elapse? && PoolMachine(c)(p, a) == Some(p')
    ensures p'.live.enqueuing.Some? ==> !Releasing(p', p'.enqueueOwner)
  {
    if StepFor(p, a).Some? {
      TransitionAfter(c, p.live, StepFor(p, a).value);
      AdmissionAfter(c, p.live, StepFor(p, a).value);
    }
  }

  /** The acts after which a worker has left. */
  predicate IsLeaving(p: Pool, a: Act) {
    a.StopLeasing? || a.GiveBack? || a.Throw? || (a.Check? && Outstanding(p.live) == 0)
  }

  lemma LeavingIsLeaving(c: Config, p: Pool, a: Act)
    requires !a.Elapse? && PoolMachine(c)(p, a).Some? && PoolMachine(c)(p, a).value.workers[a.w].Gone?
    requires a.w < |p.workers| && TransitionOwned(p.live.transition, p) && EnqueueOwned(p.live.enqueuing, p)
    ensures IsLeaving(p, a)
  {
  }

  /** Who leaves without an error and without being stopped has found nothing outstanding. */
  lemma LeavesEmpty(c: Config, p: Pool, a: Act)
    requires PoolMachine(c)(p, a).Some? && IsLeaving(p, a)
    ensures var p' := PoolMachine(c)(p, a).value;
            p'.failed || p'.stopped || (p'.live == p.live && Outstanding(p.live) == 0)
  {
  }

  lemma ElapseKeepsEmptied(c: Config, p: Pool, a: Act)
    requires Emptied(p) && a.Elapse? && PoolMachine(c)(p, a).Some?
    ensures Emptied(PoolMachine(c)(p, a).value)
  {
    var p' := PoolMachine(c)(p, a).value;
    assert p' == p.(live := p.live.(now := a.t));
    assert AllGone(p') ==> AllGone(p);
  }

  lemma EmptiedAfter(c: Config, p: Pool, a: Act)
    requires Owned(p) && Emptied(p) && PoolMachine(c)(p, a).Some?
    ensures Emptied(PoolMachine(c)(p, a).value)
  {
    if a.Elapse? {
      ElapseKeepsEmptied(c, p, a);
    } else {
      var p' := PoolMachine(c)(p, a).value;
      OneWorkerActs(c, p, a);
      if AllGone(p') {
        assert p'.workers[a.w].Gone?;
        LeavingIsLeaving(c, p, a);
        LeavesEmpty(c, p, a);
      }
    }
  }

  lemma ActKeepsInv(c: Config, p: Pool, a: Act)
    requires PoolInv(p) && PoolMachine(c)(p, a).Some?
    ensures PoolInv(PoolMachine(c)(p, a).value)
  {
    if StepFor(p, a).Some? {
      StepKeepsInv(c, p.live, StepFor(p, a).value);
    }
    OwnedAfter(c, p, a);
    EmptiedAfter(c, p, a);
  }

  lemma {:induction false} PoolRunKeepsInv(c: Config, p: Pool, acts: seq<Act>, p': Pool)
    requires PoolInv(p) && Reaches(PoolMachine(c), p, acts, p')
    ensures PoolInv(p')
    decreases acts
  {
    if |acts| > 0 {
      ActKeepsInv(c, p, acts[0]);
      PoolRunKeepsInv(c, PoolMachine(c)(p, acts[0]).value, acts[1..], p');
    }
  }

  /** A pool as run() starts it, on a frontier at rest, fresh or resumed. */
  ghost predicate Begins(p: Pool) {
    && Inv(p.live)
    && p.live.taken == {} && p.live.requeuing == {}
    && p.live.enqueuing.None? && p.live.transition.None?
    && |p.workers| > 0
    && (forall w :: 0 <= w < |p.workers| ==> p.workers[w].Looping?)
    && !p.failed && !p.stopped
  }

  /** When every worker has left, none with an error and none because leasing was forbidden,
      every request anyone ever enqueued has its terminal record. A worker that finds the
      frontier empty may leave while another holds a request that no counter shows; the last
      one to leave cannot. */
  lemma NoRequestLeftBehind(c: Config, p: Pool, acts: seq<Act>, p': Pool, r: Request)
    requires Begins(p) && Reaches(PoolMachine(c), p, acts, p')
    requires AllGone(p') && !p'.failed && !p'.stopped
    requires Has(p'.live.queues.known, r)
    ensures FinishedIn(p'.live, r.id)
  {
    assert p.workers[0].Looping?;
    PoolRunKeepsInv(c, p, acts, p');
    NothingInHand(p');
    EachHasItsPlace(p'.live, r);
    assert p'.live.active == map[];
  }

  lemma NothingInHand(p: Pool)
    requires Owned(p) && AllGone(p)
    ensures p.live.taken == {} && p.live.requeuing == {}
    ensures p.live.transition.None? && p.live.enqueuing.None?
  {
    assert forall phase :: phase != Gone ==> !SomeWorker(p, phase);
  }
}
