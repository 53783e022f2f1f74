/** Which lease handles that are refused can be honoured again (src/frontier/lease-manager.ts). A lease
    id is made of the request and the millisecond of the grant, so it can come to life again. */
module FrontierFencing {
  import opened Prelude
  import opened Requests
  import opened JournalRecords
  import opened JournalValidation
  import opened Recovery
  import opened FrontierState
  import opened FrontierView
  import opened FrontierProtocol
  import opened FrontierTheorems
  import opened Runs

  /** The handle is refused, and no change of lease in progress is about it. */
  ghost predicate Refused(l: Live, h: Lease) {
    && h.leaseId.requestId == h.request.id
    && !Honours(l, h)
    && (l.transition.Some? ==> l.transition.value.lease.leaseId != h.leaseId)
  }

  /** What a holder could ask before using the handle: its millisecond is not over, its request is
      not finished, and the lease of a dead process does not keep the request beyond it. */
  ghost predicate CanComeBack(l: Live, h: Lease) {
    && l.now <= h.leaseId.leasedAt
    && !FinishedIn(l, h.request.id)
    && forall d :: d in l.queues.deferred && d.request.id == h.request.id ==> d.expiresAt <= h.leaseId.leasedAt
  }

  ghost predicate CanBeHonouredLater(c: Config, l: Live, h: Lease) {
    exists steps, l' :: Run(c, l, steps, l') && Honours(l', h)
  }

  // ---------------------------------------------------------------------------------------
  // Handles that cannot come back

  /** The request is finished, or waits for an inherited lease that outlasts the given time. */
  ghost predicate Barred(v: View, id: RequestId, at: Instant) {
    && id in KeysOf(v.known, IdOf)
    && id !in v.idle
    && (id in v.held ==> v.held[id].leaseId.None? && v.held[id].expiresAt > at)
  }

  lemma ApplyKeepsBarred(v: View, e: Entry, id: RequestId, at: Instant)
    requires ViewOk(v) && Legal(v, e) && Barred(v, id, at)
    ensures Barred(Apply(v, e), id, at)
  {
    assert Subject(e) != id;
    if e.Enqueued? {
      DistinctAppend(v.known, e.request, IdOf);
    }
  }

  lemma RestartKeepsBarred(v: View, es: seq<Entry>, now: Instant, t: Instant, id: RequestId, at: Instant)
    requires ViewOk(v) && RecoveryAgrees(v, TrackAll(es), now) && Barred(v, id, at) && t <= at
    ensures Barred(Restarted(es, t), id, at)
  {
    RequestsAreKnown(v, TrackAll(es));
    KnownIffTracked(v, TrackAll(es), id);
    assert StatusAgrees(v, TrackAll(es).entries[id], id, now);
  }

  lemma TransitionWriteView(c: Config, l: Live)
    requires Structure(l) && CanDo(c, l, TransitionWrite)
    ensures ViewOf(Do(c, l, TransitionWrite)) == Apply(ViewOf(l), l.transition.value.entry)
  {
    assert Settled(Do(c, l, TransitionWrite)) == Settled(l);
  }

  lemma PromoteView(c: Config, l: Live) returns (woken: set<RequestId>)
    requires Inv(l)
    ensures Inv(Do(c, l, Promote))
    ensures CanWake(ViewOf(l), woken, l.now) && ViewOf(Do(c, l, Promote)) == Wake(ViewOf(l), woken)
  {
    PromoteStep(c, l);
    woken := KeysOf(l.queues.deferred[..ExpiredPrefix(l.queues.deferred, l.now)], DeferredId);
    PromoteFacts(l.queues, l.now, c.order);
    WakeView(l, Do(c, l, Promote), woken);
  }

  lemma TakeView(c: Config, l: Live, index: nat)
    requires Inv(l) && CanDo(c, l, Take(index))
    ensures Inv(Do(c, l, Promote)) && Do(c, l, Take(index)).queues.known.Valid()
    ensures ViewOf(Do(c, l, Take(index))) == ViewOf(Do(c, l, Promote))
  {
    PromoteStep(c, l);
    TakenFromQueue(Do(c, l, Promote), index);
  }

  lemma QuietStepKeepsView(c: Config, l: Live, s: Step)
    requires Inv(l) && CanDo(c, l, s)
    requires IsPreparation(s) || s.Tick? || s.EnqueueFinish? || s.TransitionFail? || s.Requeue? || s.TransitionFinish?
    ensures Do(c, l, s).queues.known.Valid() && ViewOf(Do(c, l, s)) == ViewOf(l)
  {
    if IsPreparation(s) {
      PreparationKeepsStructure(c, l, s);
    } else if s.Tick? {
      assert Settled(Do(c, l, s)) == Settled(l);
    } else if s.TransitionFinish? {
      FinishKeepsView(l);
    } else {
      QueueStepKeepsView(c, l, s);
    }
  }

  lemma StepKeepsBarred(c: Config, l: Live, s: Step, id: RequestId, at: Instant)
    requires Inv(l) && CanDo(c, l, s) && Barred(ViewOf(l), id, at) && l.now <= at && Do(c, l, s).now <= at
    ensures Do(c, l, s).queues.known.Valid() && Barred(ViewOf(Do(c, l, s)), id, at)
  {
    if s.EnqueueWrite? {
      EnqueueWriteView(c, l);
      EnqueueIsLegal(c, l);
      ApplyKeepsBarred(ViewOf(l), l.enqueuing.value.entry, id, at);
    } else if s.TransitionWrite? {
      TransitionWriteView(c, l);
      TransitionIsLegal(l);
      ApplyKeepsBarred(ViewOf(l), l.transition.value.entry, id, at);
    } else if s.Promote? {
      var woken := PromoteView(c, l);
    } else if s.Take? {
      var woken := PromoteView(c, l);
      TakeView(c, l, s.index);
    } else if s.Crash? {
      CrashStep(c, l, s.t);
      RestartKeepsBarred(ViewOf(l), Entries(l.log), l.now, s.t, id, at);
    } else {
      QuietStepKeepsView(c, l, s);
    }
  }

  /** Only a new lease of the request in the very millisecond brings a handle back. */
  predicate IsSameGrant(l: Live, s: Step, h: Lease) {
    s.LeaseStart? && s.request.id == h.request.id && l.now == h.leaseId.leasedAt
  }

  lemma StepKeepsRefused(c: Config, l: Live, s: Step, h: Lease)
    requires Structure(l) && CanDo(c, l, s) && Refused(l, h) && !IsSameGrant(l, s, h)
    ensures Refused(Do(c, l, s), h)
  {
    if s.TransitionFinish? {
      FinishKeepsRefused(l, h);
    } else if !s.Crash? {
      OnlyFinishActivates(c, l, s);
    }
  }

  lemma FinishKeepsRefused(l: Live, h: Lease)
    requires Structure(l) && l.transition.Some? && Refused(l, h)
    ensures Refused(FinishTransition(l), h)
  {
  }

  lemma TakenIsNotBarred(l: Live, r: Request, at: Instant)
    requires Inv(l) && l.transition.None? && r in l.taken
    ensures !Barred(ViewOf(l), r.id, at)
  {
    assert r.id in Ids(l.taken);
    assert r.id in Settled(l).idle;
  }

  lemma TimeGoesOn(c: Config, l: Live, s: Step)
    requires CanDo(c, l, s)
    ensures l.now <= Do(c, l, s).now
  {
  }

  lemma StepKeepsGone(c: Config, l: Live, s: Step, h: Lease)
    requires Inv(l) && CanDo(c, l, s) && Refused(l, h)
    requires l.now > h.leaseId.leasedAt || Barred(ViewOf(l), h.request.id, h.leaseId.leasedAt)
    ensures var l' := Do(c, l, s);
            Inv(l') && Refused(l', h) &&
            (l'.now > h.leaseId.leasedAt || Barred(ViewOf(l'), h.request.id, h.leaseId.leasedAt))
  {
    var at := h.leaseId.leasedAt;
    StepKeepsInv(c, l, s);
    if IsSameGrant(l, s, h) {
      TakenIsNotBarred(l, s.request, at);
    }
    StepKeepsRefused(c, l, s, h);
    TimeGoesOn(c, l, s);
    if Do(c, l, s).now <= at {
      StepKeepsBarred(c, l, s, h.request.id, at);
    }
  }

  lemma {:induction false} GoneStaysGone(c: Config, l: Live, steps: seq<Step>, l': Live, h: Lease)
    requires Inv(l) && Run(c, l, steps, l') && Refused(l, h)
    requires l.now > h.leaseId.leasedAt || Barred(ViewOf(l), h.request.id, h.leaseId.leasedAt)
    ensures !Honours(l', h)
    decreases steps
  {
    if |steps| > 0 {
      StepKeepsGone(c, l, steps[0], h);
      GoneStaysGone(c, Do(c, l, steps[0]), steps[1..], l', h);
    }
  }

  lemma BarredByObjects(l: Live, h: Lease)
    requires Inv(l) && Has(l.queues.known, h.request) && l.now <= h.leaseId.leasedAt && !CanComeBack(l, h)
    ensures Barred(ViewOf(l), h.request.id, h.leaseId.leasedAt)
  {
    var v, m, id := ViewOf(l), TrackAll(Entries(l.log)), h.request.id;
    KnownStaysKnown(l, h.request);
    KnownIffTracked(v, m, id);
    assert StatusAgrees(v, m.entries[id], id, l.now);
    if !FinishedIn(l, id) {
      var d :| d in l.queues.deferred && d.request.id == id && d.expiresAt > h.leaseId.leasedAt;
      DeferredIsHeld(l, d);
    }
  }

  lemma KnownStaysKnown(l: Live, r: Request)
    requires Structure(l) && Has(l.queues.known, r)
    ensures r.id in KeysOf(ViewOf(l).known, IdOf)
  {
    KnownIds(l.queues.known);
    assert IdOf(r) in KeysOf(l.queues.known.Values(), IdOf);
    if l.enqueuing.Some? {
      assert forall x :: x in l.queues.known.Values() ==> x in l.queues.known.Values() + [l.enqueuing.value.request];
    }
  }

  lemma DeferredIsHeld(l: Live, d: Deferred)
    requires Structure(l) && d in l.queues.deferred
    ensures var v := ViewOf(l); d.request.id in v.held && v.held[d.request.id] == Hold(None, d.expiresAt)
  {
    assert DeferredId(d) in KeysOf(l.queues.deferred, DeferredId);
    ExpiryFound(l.queues.deferred, d);
    SubjectsNotDeferred(l);
  }

  // ---------------------------------------------------------------------------------------
  // Handles that can

  lemma {:induction false} AddedDeferredSorted(q: Queues, ds: seq<Deferred>)
    requires SortedBy(q.deferred, ExpiresBefore)
    ensures SortedBy(AddAllDeferred(q, ds).deferred, ExpiresBefore)
  {
    if |ds| > 0 {
      AddedDeferredSorted(q, ds[..|ds| - 1]);
      DeferredStaysSorted(AddAllDeferred(q, ds[..|ds| - 1]), ds[|ds| - 1]);
    }
  }

  lemma {:induction false} NothingDeferred(q: Queues, rs: seq<Request>, order: Order)
    ensures RememberAll(q, rs).deferred == q.deferred && AddAllPending(q, rs, order).deferred == q.deferred
  {
    if |rs| > 0 {
      NothingDeferred(q, rs[..|rs| - 1], order);
    }
  }

  lemma StepKeepsSorted(c: Config, l: Live, s: Step)
    requires CanDo(c, l, s) && SortedBy(l.queues.deferred, ExpiresBefore)
    ensures SortedBy(Do(c, l, s).queues.deferred, ExpiresBefore)
  {
    if s.Crash? {
      RestoredSorted(Recover(Entries(l.log), s.t), c.order);
    } else {
      DeferredAfter(c, l, s);
      if s.Promote? || s.Take? {
        SuffixSorted(l.queues.deferred, ExpiredPrefix(l.queues.deferred, l.now));
      }
    }
  }

  lemma RestoredSorted(r: Recovered, order: Order)
    ensures SortedBy(Restored(r, order).deferred, ExpiresBefore)
  {
    var q := Queues([], [], EmptyMap());
    NothingDeferred(q, r.requests, order);
    NothingDeferred(RememberAll(q, r.requests), r.pending, order);
    AddedDeferredSorted(AddAllPending(RememberAll(q, r.requests), r.pending, order), r.deferred);
  }

  lemma SuffixSorted(ds: seq<Deferred>, n: nat)
    requires n <= |ds| && SortedBy(ds, ExpiresBefore)
    ensures SortedBy(ds[n..], ExpiresBefore)
  {
    assert forall i :: 0 <= i < |ds| - n ==> ds[n..][i] == ds[n + i];
  }

  /** Within a life the deferred list only loses what has run out. */
  lemma DeferredAfter(c: Config, l: Live, s: Step)
    requires CanDo(c, l, s) && !s.Crash?
    ensures Do(c, l, s).queues.deferred ==
            if s.Promote? || s.Take? then l.queues.deferred[ExpiredPrefix(l.queues.deferred, l.now)..] else l.queues.deferred
  {
  }

  lemma {:induction false} RunKeepsSorted(c: Config, l: Live, steps: seq<Step>, l': Live)
    requires Run(c, l, steps, l') && SortedBy(l.queues.deferred, ExpiresBefore)
    ensures SortedBy(l'.queues.deferred, ExpiresBefore)
    decreases steps
  {
    if |steps| > 0 {
      StepKeepsSorted(c, l, steps[0]);
      RunKeepsSorted(c, Do(c, l, steps[0]), steps[1..], l');
    }
  }

  /** Nothing is in progress that matters to the request, and everything the handle depends on is
      as it was. */
  ghost predicate Undisturbed(l: Live, l': Live) {
    && l'.log == l.log && l'.now == l.now && l'.queues.deferred == l.queues.deferred
    && forall r :: Has(l.queues.known, r) ==> Has(l'.queues.known, r)
  }

  lemma OneStep(c: Config, l: Live, s: Step) returns (l': Live)
    requires Inv(l) && CanDo(c, l, s)
    ensures l' == Do(c, l, s) && Inv(l') && Run(c, l, [s], l')
  {
    l' := Do(c, l, s);
    StepKeepsInv(c, l, s);
    MachineSteps(c, l, s);
    assert Run(c, l', [], l');
    RunCons(Machine(c), l, s, l', [], l');
    assert [s] + [] == [s];
  }

  lemma EndEnqueue(c: Config, l: Live) returns (l': Live, steps: seq<Step>)
    requires Inv(l)
    ensures Run(c, l, steps, l') && Inv(l') && Undisturbed(l, l') && l'.transition == l.transition
    ensures l'.enqueuing.Some? ==> !l'.enqueuing.value.written
  {
    if l.enqueuing.Some? && l.enqueuing.value.written {
      l' := OneStep(c, l, EnqueueFinish);
      steps := [EnqueueFinish];
      SetNew(l.queues.known, l.enqueuing.value.request);
    } else {
      l', steps := l, [];
    }
  }

  lemma EndTransition(c: Config, l: Live) returns (l': Live, steps: seq<Step>)
    requires Inv(l)
    ensures Run(c, l, steps, l') && Inv(l') && Undisturbed(l, l') && l'.enqueuing == l.enqueuing
    ensures l'.transition.None?
  {
    if l.transition.None? {
      l', steps := l, [];
    } else {
      var s := if l.transition.value.written then TransitionFinish else TransitionFail;
      l' := OneStep(c, l, s);
      steps := [s];
      EndUndisturbed(c, l, s);
    }
  }

  lemma EndUndisturbed(c: Config, l: Live, s: Step)
    requires CanDo(c, l, s) && (s.TransitionFinish? || s.TransitionFail?)
    ensures var l' := Do(c, l, s); Undisturbed(l, l') && l'.enqueuing == l.enqueuing && l'.transition.None?
  {
  }

  /** What is in progress comes to its end and the clock reaches the time given. */
  lemma ComesToRest(c: Config, l: Live, at: Instant) returns (l': Live, steps: seq<Step>)
    requires Inv(l) && l.now <= at
    ensures Run(c, l, steps, l') && Inv(l') && Undisturbed(l.(now := at), l')
    ensures l'.transition.None? && NothingWritten(l')
  {
    var l1, s1 := EndEnqueue(c, l);
    var l2, s2 := EndTransition(c, l1);
    l' := OneStep(c, l2, Tick(at));
    RunsChain(Machine(c), l, s1, l1, s2, l2);
    RunsChain(Machine(c), l, s1 + s2, l2, [Tick(at)], l');
    steps := s1 + s2 + [Tick(at)];
  }

  lemma PromotedInQueue(c: Config, l: Live, d: Deferred, r: Request) returns (l': Live)
    requires Inv(l) && SortedBy(l.queues.deferred, ExpiresBefore)
    requires d in l.queues.deferred && d.request.id == r.id && d.expiresAt <= l.now && Has(l.queues.known, r)
    ensures l' == Do(c, l, Promote) && Inv(l') && Run(c, l, [Promote], l') && r in l'.queues.queue
  {
    l' := OneStep(c, l, Promote);
    PromoteFacts(l.queues, l.now, c.order);
    var n := ExpiredPrefix(l.queues.deferred, l.now);
    var i :| 0 <= i < |l.queues.deferred| && l.queues.deferred[i] == d;
    PromotionIsComplete(l.queues.deferred, l.now, i);
    assert l.queues.deferred[..n][i] == d && DeferredId(d) in KeysOf(l.queues.deferred[..n], DeferredId);
    var x :| x in l'.queues.queue && IdOf(x) == r.id;
    KnownIds(l'.queues.known);
    assert Has(l'.queues.known, x) && Has(l'.queues.known, r);
  }

  lemma FromQueue(c: Config, l: Live, r: Request) returns (l': Live, steps: seq<Step>)
    requires Inv(l) && l.transition.None? && r in l.queues.queue
    ensures Run(c, l, steps, l') && Inv(l') && l'.transition.None? && l'.now == l.now && r in l'.taken
  {
    var i;
    l', i := TakeThis(c, l, r);
    assert Run(c, l', [], l');
    RunCons(Machine(c), l, Take(i), l', [], l');
    steps := [Take(i)] + [];
  }

  lemma FromDeferred(c: Config, l: Live, d: Deferred, r: Request) returns (l': Live, steps: seq<Step>)
    requires Inv(l) && l.transition.None? && SortedBy(l.queues.deferred, ExpiresBefore)
    requires d in l.queues.deferred && d.request.id == r.id && d.expiresAt <= l.now && Has(l.queues.known, r)
    ensures Run(c, l, steps, l') && Inv(l') && l'.transition.None? && l'.now == l.now && r in l'.taken
  {
    var promoted := PromotedInQueue(c, l, d, r);
    l', steps := FromQueue(c, promoted, r);
    RunsChain(Machine(c), l, [Promote], promoted, steps, l');
    steps := [Promote] + steps;
  }

  lemma FromActive(c: Config, l: Live, r: Request) returns (l': Live, steps: seq<Step>)
    requires Inv(l) && l.transition.None? && r.id in l.active && Has(l.queues.known, r)
    ensures Run(c, l, steps, l') && Inv(l') && l'.transition.None? && l'.now == l.now && r in l'.taken
  {
    KnownIds(l.queues.known);
    assert l.active[r.id].request == r;
    var freed, s1 := TakeBack(c, l, l.active[r.id]);
    var s2;
    l', s2 := BackInHand(c, freed, r);
    RunsChain(Machine(c), l, s1, freed, s2, l');
    steps := s1 + s2;
  }

  /** Wherever an unfinished request is, it can be in hand at once. */
  lemma ToHand(c: Config, l: Live, r: Request) returns (l': Live, steps: seq<Step>)
    requires Inv(l) && l.transition.None? && NothingWritten(l) && SortedBy(l.queues.deferred, ExpiresBefore)
    requires Has(l.queues.known, r) && !FinishedIn(l, r.id)
    requires forall d :: d in l.queues.deferred && d.request.id == r.id ==> d.expiresAt <= l.now
    ensures Run(c, l, steps, l') && Inv(l') && l'.transition.None? && l'.now == l.now && r in l'.taken
  {
    EachHasItsPlace(l, r);
    if r in l.taken {
      l', steps := l, [];
    } else if r in l.requeuing {
      l', steps := BackInHand(c, l, r);
    } else if r in l.queues.queue {
      l', steps := FromQueue(c, l, r);
    } else if r.id in l.active {
      l', steps := FromActive(c, l, r);
    } else {
      var d :| d in l.queues.deferred && DeferredId(d) == r.id;
      l', steps := FromDeferred(c, l, d, r);
    }
  }

  lemma ComesBack(c: Config, l: Live, h: Lease) returns (l': Live, steps: seq<Step>)
    requires Inv(l) && SortedBy(l.queues.deferred, ExpiresBefore) && Has(l.queues.known, h.request)
    requires h.leaseId.requestId == h.request.id && CanComeBack(l, h)
    ensures Run(c, l, steps, l') && Honours(l', h)
  {
    var rest, s1 := ComesToRest(c, l, h.leaseId.leasedAt);
    var taken, s2 := ToHand(c, rest, h.request);
    var s3;
    l', s3 := Give(c, taken, h.request);
    RunsChain(Machine(c), l, s1, rest, s2, taken);
    RunsChain(Machine(c), l, s1 + s2, taken, s3, l');
    steps := s1 + s2 + s3;
    assert l'.active[h.request.id].leaseId == h.leaseId;
  }

  // ---------------------------------------------------------------------------------------

  /** A handle that is refused, in any reachable state, is honoured by some later state exactly when
      its millisecond is not over, its request is not finished, and no inherited lease keeps the
      request deferred beyond that millisecond. */
  lemma HandleComesBackIff(c: Config, t0: Instant, past: seq<Step>, l: Live, h: Lease)
    requires Run(c, Start(t0), past, l) && Has(l.queues.known, h.request) && Refused(l, h)
    ensures CanBeHonouredLater(c, l, h) <==> CanComeBack(l, h)
  {
    StartInv(t0);
    RunKeepsInv(c, Start(t0), past, l);
    RunKeepsSorted(c, Start(t0), past, l);
    if CanComeBack(l, h) {
      var l', steps := ComesBack(c, l, h);
    } else {
      if l.now <= h.leaseId.leasedAt {
        BarredByObjects(l, h);
      }
      forall steps, l' | Run(c, l, steps, l') ensures !Honours(l', h) {
        GoneStaysGone(c, l, steps, l', h);
      }
    }
  }
}
