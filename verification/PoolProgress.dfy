/** A pool of workers can always get its work done, and a worker leaves for no reason of its own. */
module PoolProgress {
  import opened Prelude
  import opened Requests
  import opened JournalRecords
  import opened FrontierState
  import opened FrontierProtocol
  import opened WorkerPool
  import opened Runs

  /** A worker that neither fails nor is told to stop leaves exactly when it finds nothing queued,
      nothing deferred and nothing leased. */
  lemma WorkerLeavesIff(c: Config, p: Pool, a: Act, w: nat)
    requires PoolMachine(c)(p, a).Some? && w < |p.workers| && p.workers[w] != Gone
    ensures PoolMachine(c)(p, a).value.workers[w] == Gone <==>
              && !a.Elapse? && a.w == w
              && (a.StopLeasing? || a.Throw? || a.GiveBack? ||
                  (a.Check? && p.live.queues.queue == [] && p.live.queues.deferred == [] && p.live.active == map[]))
  {
    assert |p.live.active| == 0 <==> p.live.active == map[];
  }

  /** Nothing is on its way and nothing is leased. */
  ghost predicate AtRest(l: Live) {
    l.transition.None? && l.enqueuing.None? && l.taken == {} && l.requeuing == {} && l.active == map[]
  }

  ghost predicate SameButFrontier(p: Pool, p': Pool) {
    p'.workers == p.workers && p'.failed == p.failed && p'.stopped == p.stopped
  }

  /** One act, when its frontier step leads from one state to another. */
  lemma Moves(c: Config, p: Pool, a: Act) returns (p': Pool)
    requires !a.Elapse? && May(p, a) && StepFor(p, a).Some? && CanDo(c, p.live, StepFor(p, a).value)
    requires !a.Throw? && !a.GiveBack? && !a.StopLeasing?
    ensures PoolMachine(c)(p, a) == Some(p')
    ensures p'.live == Do(c, p.live, StepFor(p, a).value) && p'.workers == p.workers[a.w := PhaseAfter(c, p, a)]
    ensures p'.failed == p.failed && p'.stopped == p.stopped
    ensures p'.transitionOwner ==
            if a.BeginLease? || a.BeginRenew? || a.BeginRelease? || a.BeginFinish? then a.w else p.transitionOwner
    ensures p'.enqueueOwner == if a.BeginEnqueue? then a.w else p.enqueueOwner
  {
    p' := PoolMachine(c)(p, a).value;
  }

  /** The worker holds the transition mutex for the given change, and this request is in hand. */
  ghost predicate Changing(p: Pool, w: nat, taken: set<Request>, active: map<RequestId, Lease>, t: Transition) {
    && p.live.transition == Some(t) && p.transitionOwner == w
    && p.live.enqueuing.None? && p.live.taken == taken && p.live.requeuing == {} && p.live.active == active
  }

  lemma Ask(c: Config, p: Pool, w: nat, i: nat) returns (p': Pool, lease: Lease)
    requires AtRest(p.live) && w < |p.workers| && p.workers[w] == Looping
    requires i < |p.live.queues.Promote(p.live.now, c.order).queue|
    ensures Reaches(PoolMachine(c), p, [Find(w, i), BeginLease(w)], p')
    ensures var promoted := p.live.queues.Promote(p.live.now, c.order);
            && lease == Lease(LeaseId(promoted.queue[i].id, p.live.now), promoted.queue[i], p.live.now,
                              p.live.now + c.leaseDuration)
            && p'.live.queues == promoted.Take(i)
    ensures p'.live.now == p.live.now && p'.workers == p.workers[w := Leasing(lease.request)]
    ensures Changing(p', w, {lease.request}, map[],
                     Transition(lease, Leased(lease.request.id, lease.leaseId, lease.expiresAt, p.live.now), false))
    ensures p'.failed == p.failed && p'.stopped == p.stopped
  {
    var r := p.live.queues.Promote(p.live.now, c.order).queue[i];
    var p1 := Moves(c, p, Find(w, i));
    assert p1.live.taken == {r} && p1.workers[w] == Leasing(r);
    p' := Moves(c, p1, BeginLease(w));
    lease := p'.live.transition.value.lease;
    RunTwo(PoolMachine(c), p, Find(w, i), p1, BeginLease(w), p');
  }

  lemma WriteOut(c: Config, p: Pool, w: nat, taken: set<Request>, active: map<RequestId, Lease>, t: Transition)
    returns (p': Pool)
    requires Changing(p, w, taken, active, t) && !t.written && w < |p.workers|
    ensures PoolMachine(c)(p, WriteTransition(w)) == Some(p')
    ensures Changing(p', w, taken, active, t.(written := true))
    ensures p'.live.queues == p.live.queues && p'.live.now == p.live.now && SameButFrontier(p, p')
  {
    p' := Moves(c, p, WriteTransition(w));
  }

  lemma GrantEnds(c: Config, p: Pool, w: nat, t: Transition) returns (p': Pool)
    requires Changing(p, w, {t.lease.request}, map[], t) && t.written && t.entry.Leased? && w < |p.workers|
    ensures PoolMachine(c)(p, EndTransition(w)) == Some(p')
    ensures p'.live.active == map[t.lease.request.id := t.lease] && p'.live.now == p.live.now
    ensures p'.live.queues == p.live.queues
    ensures p'.live.transition.None? && p'.live.enqueuing.None? && p'.live.taken == {} && p'.live.requeuing == {}
    ensures p'.workers == p.workers[w := Working(t.lease.request)] && p'.failed == p.failed && p'.stopped == p.stopped
  {
    p' := Moves(c, p, EndTransition(w));
    assert {t.lease.request} - {t.lease.request} == {};
  }

  /** A worker takes a request and is granted its lease. */
  lemma TakeUp(c: Config, p: Pool, w: nat, i: nat) returns (p': Pool, lease: Lease)
    requires AtRest(p.live) && w < |p.workers| && p.workers[w] == Looping
    requires i < |p.live.queues.Promote(p.live.now, c.order).queue|
    ensures Reaches(PoolMachine(c), p, [Find(w, i), BeginLease(w)] + [WriteTransition(w), EndTransition(w)], p')
    ensures var promoted := p.live.queues.Promote(p.live.now, c.order);
            && lease == Lease(LeaseId(promoted.queue[i].id, p.live.now), promoted.queue[i], p.live.now,
                              p.live.now + c.leaseDuration)
            && p'.live.queues == promoted.Take(i)
    ensures p'.live.active == map[lease.request.id := lease] && p'.live.now == p.live.now
    ensures p'.live.transition.None? && p'.live.enqueuing.None? && p'.live.taken == {} && p'.live.requeuing == {}
    ensures p'.workers == p.workers[w := Working(lease.request)] && p'.failed == p.failed && p'.stopped == p.stopped
  {
    var p2;
    p2, lease := Ask(c, p, w, i);
    var t := Transition(lease, Leased(lease.request.id, lease.leaseId, lease.expiresAt, p.live.now), false);
    var p3 := WriteOut(c, p2, w, {lease.request}, map[], t);
    p' := GrantEnds(c, p3, w, t.(written := true));
    RunTwo(PoolMachine(c), p2, WriteTransition(w), p3, EndTransition(w), p');
    RunsChain(PoolMachine(c), p, [Find(w, i), BeginLease(w)], p2, [WriteTransition(w), EndTransition(w)], p');
  }

  ghost predicate WorksAlone(p: Pool, w: nat, lease: Lease) {
    && p.live.transition.None? && p.live.enqueuing.None? && p.live.taken == {} && p.live.requeuing == {}
    && p.live.active == map[lease.request.id := lease]
    && w < |p.workers| && p.workers[w] == Working(lease.request)
  }

  lemma Report(c: Config, p: Pool, w: nat, lease: Lease, state: Terminal, reason: Option<string>) returns (p': Pool)
    requires WorksAlone(p, w, lease)
    ensures PoolMachine(c)(p, BeginFinish(w, lease, state, reason)) == Some(p')
    ensures Changing(p', w, {}, map[lease.request.id := lease],
                     Transition(lease, Finished(lease.request.id, lease.leaseId, state, reason, p.live.now), false))
    ensures p'.live.queues == p.live.queues && p'.live.now == p.live.now && SameButFrontier(p, p')
  {
    p' := Moves(c, p, BeginFinish(w, lease, state, reason));
  }

  lemma FinishEnds(c: Config, p: Pool, w: nat, t: Transition) returns (p': Pool)
    requires Changing(p, w, {}, map[t.lease.request.id := t.lease], t) && t.written && t.entry.Finished?
    requires w < |p.workers| && p.workers[w].Working?
    ensures PoolMachine(c)(p, EndTransition(w)) == Some(p')
    ensures AtRest(p'.live) && p'.live.queues == p.live.queues && p'.live.now == p.live.now && SameButFrontier(p, p')
  {
    p' := Moves(c, p, EndTransition(w));
    assert p'.live.active == map[];
  }

  lemma GoOn(c: Config, p: Pool, w: nat) returns (p': Pool)
    requires AtRest(p.live) && w < |p.workers| && p.workers[w].Working?
    ensures PoolMachine(c)(p, Return(w)) == Some(p') && p' == p.(workers := p.workers[w := Looping])
  {
    p' := p.(workers := p.workers[w := Looping]);
  }

  /** A worker finishes the request it works on and looks for another. */
  lemma GetDone(c: Config, p: Pool, w: nat, lease: Lease, state: Terminal, reason: Option<string>) returns (p': Pool)
    requires WorksAlone(p, w, lease)
    ensures Reaches(PoolMachine(c), p, [BeginFinish(w, lease, state, reason), WriteTransition(w), EndTransition(w), Return(w)], p')
    ensures AtRest(p'.live) && p'.live.queues == p.live.queues && p'.live.now == p.live.now
    ensures p'.workers == p.workers[w := Looping] && p'.failed == p.failed && p'.stopped == p.stopped
  {
    var t := Transition(lease, Finished(lease.request.id, lease.leaseId, state, reason, p.live.now), false);
    var p1 := Report(c, p, w, lease, state, reason);
    var p2 := WriteOut(c, p1, w, {}, map[lease.request.id := lease], t);
    var p3 := FinishEnds(c, p2, w, t.(written := true));
    p' := GoOn(c, p3, w);
    RunFour(PoolMachine(c), p, BeginFinish(w, lease, state, reason), p1, WriteTransition(w), p2, EndTransition(w), p3,
            Return(w), p');
  }

  /** Any request that is queued by now can be served, by any worker that looks for one. */
  lemma ServeOne(c: Config, p: Pool, w: nat, i: nat, state: Terminal, reason: Option<string>)
    returns (acts: seq<Act>, p': Pool)
    requires AtRest(p.live) && w < |p.workers| && p.workers[w] == Looping
    requires i < |p.live.queues.Promote(p.live.now, c.order).queue|
    ensures Reaches(PoolMachine(c), p, acts, p') && AtRest(p'.live) && SameButFrontier(p, p')
    ensures p'.live.queues == p.live.queues.Promote(p.live.now, c.order).Take(i) && p'.live.now == p.live.now
  {
    var mid, lease := TakeUp(c, p, w, i);
    var first := [Find(w, i), BeginLease(w)] + [WriteTransition(w), EndTransition(w)];
    var second := [BeginFinish(w, lease, state, reason), WriteTransition(w), EndTransition(w), Return(w)];
    p' := GetDone(c, mid, w, lease, state, reason);
    acts := first + second;
    RunsChain(PoolMachine(c), p, first, mid, second, p');
    assert p'.workers == p.workers;
  }

  lemma PromotionKeepsSize(q: Queues, now: Instant, order: Order)
    ensures q.Promote(now, order).Size() == q.Size()
    ensures q.queue != [] || (q.deferred != [] && q.deferred[0].expiresAt <= now) ==> q.Promote(now, order).queue != []
  {
  }

  /** Time passes until something is queued. */
  lemma WaitForWork(c: Config, p: Pool) returns (acts: seq<Act>, p': Pool)
    requires AtRest(p.live) && p.live.queues.Size() > 0
    ensures Reaches(PoolMachine(c), p, acts, p') && AtRest(p'.live) && SameButFrontier(p, p')
    ensures p'.live.queues == p.live.queues && p'.live.queues.Promote(p'.live.now, c.order).queue != []
  {
    var q := p.live.queues;
    if q.queue != [] || q.deferred[0].expiresAt <= p.live.now {
      acts, p' := [], p;
    } else {
      var t := q.deferred[0].expiresAt;
      p' := p.(live := p.live.(now := t));
      assert PoolMachine(c)(p, Elapse(t)) == Some(p');
      acts := [Elapse(t)];
      assert Reaches(PoolMachine(c), p, [], p);
      RunSnoc(PoolMachine(c), p, [], p, Elapse(t), p');
      assert [] + [Elapse(t)] == acts;
    }
    PromotionKeepsSize(q, p'.live.now, c.order);
  }

  /** One worker can serve all there is, deferred requests included. */
  lemma {:induction false} ServeAll(c: Config, p: Pool, w: nat) returns (acts: seq<Act>, p': Pool)
    requires AtRest(p.live) && w < |p.workers| && p.workers[w] == Looping
    ensures Reaches(PoolMachine(c), p, acts, p') && AtRest(p'.live) && SameButFrontier(p, p')
    ensures p'.live.queues.Size() == 0
    decreases p.live.queues.Size()
  {
    if p.live.queues.Size() == 0 {
      acts, p' := [], p;
    } else {
      var first, ready := WaitForWork(c, p);
      var second, served := ServeOne(c, ready, w, 0, Handled, None);
      PromotionKeepsSize(ready.live.queues, ready.live.now, c.order);
      var rest;
      rest, p' := ServeAll(c, served, w);
      RunsChain(PoolMachine(c), p, first, ready, second, served);
      RunsChain(PoolMachine(c), p, first + second, served, rest, p');
      acts := first + second + rest;
    }
  }

  /** A worker that finds everything done leaves. */
  lemma LeaveOne(c: Config, p: Pool, w: nat) returns (p': Pool)
    requires AtRest(p.live) && p.live.queues.Size() == 0 && w < |p.workers| && p.workers[w] == Looping
    ensures Reaches(PoolMachine(c), p, [FindNone(w), Check(w)], p')
    ensures p' == p.(workers := p.workers[w := Gone])
  {
    var p1 := Moves(c, p, FindNone(w));
    assert p1.live == p.live;
    p' := p.(workers := p.workers[w := Gone]);
    assert |p1.live.active| == 0;
    assert p1.workers[w := Gone] == p'.workers;
    assert PoolMachine(c)(p1, Check(w)) == Some(p');
    RunTwo(PoolMachine(c), p, FindNone(w), p1, Check(w), p');
  }

  ghost predicate Unoccupied(p: Pool) {
    forall w :: 0 <= w < |p.workers| ==> p.workers[w] in {Looping, Gone}
  }

  lemma {:induction false} LeaveAll(c: Config, p: Pool, n: nat) returns (acts: seq<Act>, p': Pool)
    requires AtRest(p.live) && p.live.queues.Size() == 0 && Unoccupied(p) && n <= |p.workers|
    ensures Reaches(PoolMachine(c), p, acts, p')
    ensures p' == p.(workers := p'.workers) && |p'.workers| == |p.workers| && Unoccupied(p')
    ensures forall w :: 0 <= w < n ==> p'.workers[w] == Gone
  {
    if n == 0 {
      acts, p' := [], p;
    } else {
      acts, p' := LeaveAll(c, p, n - 1);
      if p'.workers[n - 1] == Looping {
        var mid := p';
        p' := LeaveOne(c, mid, n - 1);
        RunsChain(PoolMachine(c), p, acts, mid, [FindNone(n - 1), Check(n - 1)], p');
        acts := acts + [FindNone(n - 1), Check(n - 1)];
      }
    }
  }

  /** A pool with nothing under way can finish all its requests and end, without failure or stop, as
      long as one of its workers is there. */
  lemma PoolCanEnd(c: Config, p: Pool, w: nat) returns (acts: seq<Act>, p': Pool)
    requires AtRest(p.live) && Unoccupied(p) && w < |p.workers| && p.workers[w] == Looping
    ensures Reaches(PoolMachine(c), p, acts, p') && AllGone(p')
    ensures p'.live.queues.queue == [] && p'.live.queues.deferred == [] && p'.live.active == map[]
    ensures p'.failed == p.failed && p'.stopped == p.stopped
  {
    var first, done := ServeAll(c, p, w);
    var second;
    second, p' := LeaveAll(c, done, |done.workers|);
    acts := first + second;
    RunsChain(PoolMachine(c), p, first, done, second, p');
  }
}
