/** The journal frontier as a transition system: every await in the enqueuer, the lease manager and
    the backend is a point where other work, or a crash, can come between
    (src/frontier/enqueuer.ts, src/frontier/lease-manager.ts, src/frontier/backends/journal-backend.ts). */
module FrontierProtocol {
  import opened Prelude
  import opened Requests
  import opened JournalRecords
  import opened JournalValidation
  import opened Recovery
  import opened FrontierState
  import opened FrontierView

  datatype Config = Config(leaseDuration: nat, order: Order)

  /** An enqueueing that holds the enqueue mutex. */
  datatype Admission = Admission(request: Request, entry: Entry, written: bool)

  /** A change of lease that holds the transition mutex; lease is what will be remembered. */
  datatype Transition = Transition(lease: Lease, entry: Entry, written: bool)

  /** taken: removed from the queue, lease not yet logged and remembered. requeuing: no longer
      leased, not yet pushed back. orphans and reclaimed are history, see FrontierView. */
  datatype Live = Live(
    now: Instant,
    queues: Queues,
    active: map<RequestId, Lease>,
    taken: set<Request>,
    requeuing: set<Request>,
    enqueuing: Option<Admission>,
    transition: Option<Transition>,
    log: seq<Record>,
    orphans: set<RequestId>,
    reclaimed: set<RequestId>)

  datatype Step =
    | Tick(t: Instant)
    | EnqueueStart(request: Request)
    | EnqueueWrite
    | EnqueueFail
    | EnqueueFinish
    | Promote
    | Take(index: nat)
    | LeaseStart(request: Request)
    | RenewStart(lease: Lease)
    | ReleaseStart(lease: Lease, reason: Option<string>)
    | FinishStart(lease: Lease, state: Terminal, reason: Option<string>)
    | TransitionWrite
    | TransitionFail
    | TransitionFinish
    | Requeue(request: Request)
    | Crash(t: Instant)

  // ---------------------------------------------------------------------------------------
  // The transition function

  /** assertActive: a lease handle is honoured while the table holds its id. */
  predicate Honours(l: Live, lease: Lease) {
    lease.request.id in l.active && l.active[lease.request.id].leaseId == lease.leaseId
  }

  /** A handle as the lease manager gave it out. */
  predicate Issued(l: Live, lease: Lease) {
    Honours(l, lease) && l.active[lease.request.id].request == lease.request
  }

  function NewLease(c: Config, r: Request, now: Instant): Lease {
    Lease(LeaseId(r.id, now), r, now, now + c.leaseDuration)
  }

  predicate CanDo(c: Config, l: Live, s: Step) {
    match s
    case Tick(t) => l.now <= t
    case EnqueueStart(r) =>
      l.enqueuing.None? && r.uniqueKey !in l.queues.known.entries && r.id.uniqueKey == r.uniqueKey
    case EnqueueWrite => l.enqueuing.Some? && !l.enqueuing.value.written
    case EnqueueFail => l.enqueuing.Some? && !l.enqueuing.value.written
    case EnqueueFinish => l.enqueuing.Some? && l.enqueuing.value.written
    case Promote => true
    case Take(index) => index < |l.queues.Promote(l.now, c.order).queue|
    case LeaseStart(r) => l.transition.None? && r in l.taken
    case RenewStart(lease) => l.transition.None? && Issued(l, lease)
    case ReleaseStart(lease, _) => l.transition.None? && Issued(l, lease)
    case FinishStart(lease, _, _) => l.transition.None? && Issued(l, lease)
    case TransitionWrite => l.transition.Some? && !l.transition.value.written
    case TransitionFail => l.transition.Some? && !l.transition.value.written
    case TransitionFinish => l.transition.Some? && l.transition.value.written
    case Requeue(r) => r in l.requeuing
    case Crash(t) => l.now <= t && CheckEntries(Entries(l.log)).Some?
  }

  function Append(log: seq<Record>, e: Entry): seq<Record> {
    log + [BuildRecord(e, |log| + 1, LastChecksum(log))]
  }

  function Do(c: Config, l: Live, s: Step): Live
    requires CanDo(c, l, s)
  {
    match s
    case Tick(t) => l.(now := t)
    case EnqueueStart(r) => l.(enqueuing := Some(Admission(r, Enqueued(r, l.now), false)))
    case EnqueueWrite =>
      l.(log := Append(l.log, l.enqueuing.value.entry),
         enqueuing := Some(l.enqueuing.value.(written := true)))
    case EnqueueFail => l.(enqueuing := None)
    case EnqueueFinish =>
      l.(queues := l.queues.AddPending(l.enqueuing.value.request, c.order), enqueuing := None)
    case Promote => l.(queues := l.queues.Promote(l.now, c.order))
    case Take(index) =>
      var promoted := l.queues.Promote(l.now, c.order);
      l.(queues := promoted.Take(index), taken := l.taken + {promoted.queue[index]})
    case LeaseStart(r) =>
      var lease := NewLease(c, r, l.now);
      l.(transition := Some(Transition(lease, Leased(r.id, lease.leaseId, lease.expiresAt, l.now), false)))
    case RenewStart(lease) =>
      var renewed := lease.(expiresAt := l.now + c.leaseDuration);
      l.(transition := Some(Transition(renewed, Renewed(lease.request.id, lease.leaseId, renewed.expiresAt, l.now), false)))
    case ReleaseStart(lease, reason) =>
      l.(transition := Some(Transition(lease, Released(lease.request.id, lease.leaseId, reason, l.now), false)))
    case FinishStart(lease, state, reason) =>
      l.(transition := Some(Transition(lease, Finished(lease.request.id, lease.leaseId, state, reason, l.now), false)))
    case TransitionWrite =>
      l.(log := Append(l.log, l.transition.value.entry),
         transition := Some(l.transition.value.(written := true)))
    case TransitionFail => FailTransition(l)
    case TransitionFinish => FinishTransition(l)
    case Requeue(r) =>
      l.(queues := l.queues.Requeue(r, c.order), requeuing := l.requeuing - {r})
    case Crash(t) => Restart(c, l.log, t)
  }

  /** A lease whose record could not be written gives its request back to the queue. */
  function FailTransition(l: Live): Live
    requires l.transition.Some?
  {
    var r := l.transition.value.lease.request;
    if l.transition.value.entry.Leased? then
      l.(taken := l.taken - {r}, requeuing := l.requeuing + {r}, transition := None)
    else
      l.(transition := None)
  }

  function FinishTransition(l: Live): Live
    requires l.transition.Some?
  {
    var lease, e := l.transition.value.lease, l.transition.value.entry;
    var id := lease.request.id;
    if e.Leased? then
      l.(active := l.active[id := lease], taken := l.taken - {lease.request}, transition := None,
         orphans := l.orphans - {id},
         reclaimed := if id in l.orphans then l.reclaimed + {id} else l.reclaimed)
    else if e.Renewed? then
      l.(active := l.active[id := lease], transition := None)
    else if e.Released? then
      l.(active := l.active - {id}, requeuing := l.requeuing + {lease.request}, transition := None)
    else
      l.(active := l.active - {id}, transition := None)
  }

  function RememberAll(q: Queues, rs: seq<Request>): Queues {
    if |rs| == 0 then q else RememberAll(q, rs[..|rs| - 1]).Remember(rs[|rs| - 1])
  }

  function AddAllPending(q: Queues, rs: seq<Request>, order: Order): Queues {
    if |rs| == 0 then q else AddAllPending(q, rs[..|rs| - 1], order).AddPending(rs[|rs| - 1], order)
  }

  function AddAllDeferred(q: Queues, ds: seq<Deferred>): Queues {
    if |ds| == 0 then q else AddAllDeferred(q, ds[..|ds| - 1]).AddDeferred(ds[|ds| - 1])
  }

  /** init() of a process that resumes from the log. */
  function Restored(r: Recovered, order: Order): Queues {
    AddAllDeferred(AddAllPending(RememberAll(Queues([], [], EmptyMap()), r.requests), r.pending, order), r.deferred)
  }

  function OpenLeases(es: seq<Entry>): set<RequestId> {
    var m := TrackAll(es);
    set id | id in m.entries && !m.entries[id].terminal && m.entries[id].leaseExpiresAt.Some?
  }

  function Restart(c: Config, log: seq<Record>, t: Instant): Live {
    var es := Entries(log);
    Live(t, Restored(Recover(es, t), c.order), map[], {}, {}, None, None, log, OpenLeases(es), {})
  }

  function Start(t: Instant): Live {
    Live(t, Queues([], [], EmptyMap()), map[], {}, {}, None, None, [], {}, {})
  }

  // ---------------------------------------------------------------------------------------
  // What the live state says, with every written record taken as done

  ghost function Ids(rs: set<Request>): set<RequestId> { set r | r in rs :: r.id }

  function ExpiryIn(ds: seq<Deferred>, id: RequestId): Instant {
    if |ds| == 0 then 0 else if ds[0].request.id == id then ds[0].expiresAt else ExpiryIn(ds[1..], id)
  }

  ghost function Holds(active: map<RequestId, Lease>, deferred: seq<Deferred>): map<RequestId, Hold> {
    map id | id in active.Keys + KeysOf(deferred, DeferredId) ::
      if id in active then Hold(Some(active[id].leaseId), active[id].expiresAt)
      else Hold(None, ExpiryIn(deferred, id))
  }

  ghost function Settled(l: Live): View
    requires l.queues.known.Valid()
  {
    View(
      l.queues.known.Values(),
      KeysOf(l.queues.queue, IdOf) + Ids(l.taken) + Ids(l.requeuing),
      Holds(l.active, l.queues.deferred),
      l.orphans,
      l.reclaimed)
  }

  ghost function AfterAdmission(v: View, a: Option<Admission>): View {
    if a.Some? && a.value.written then Apply(v, a.value.entry) else v
  }

  ghost function AfterTransition(v: View, t: Option<Transition>): View {
    if t.Some? && t.value.written then Apply(v, t.value.entry) else v
  }

  ghost function ViewOf(l: Live): View
    requires l.queues.known.Valid()
  {
    AfterTransition(AfterAdmission(Settled(l), l.enqueuing), l.transition)
  }

  // ---------------------------------------------------------------------------------------
  // Structure: every unfinished request is in one place

  predicate Has(m: OrderedMap<string, Request>, r: Request) {
    r.uniqueKey in m.entries && m.entries[r.uniqueKey] == r
  }

  ghost predicate Keyed(m: OrderedMap<string, Request>) {
    && m.Valid()
    && forall k :: k in m.entries ==> m.entries[k].uniqueKey == k && m.entries[k].id.uniqueKey == k
  }

  ghost predicate Partitioned(q: Queues, active: set<RequestId>, taken: set<RequestId>, requeuing: set<RequestId>) {
    && DistinctBy(q.queue, IdOf)
    && DistinctBy(q.deferred, DeferredId)
    && KeysOf(q.queue, IdOf) !! KeysOf(q.deferred, DeferredId) !! active !! taken !! requeuing
  }

  ghost predicate AllKnown(l: Live) {
    && (forall r :: r in l.queues.queue ==> Has(l.queues.known, r))
    && (forall d :: d in l.queues.deferred ==> Has(l.queues.known, d.request))
    && (forall r :: r in l.taken ==> Has(l.queues.known, r))
    && (forall r :: r in l.requeuing ==> Has(l.queues.known, r))
    && (forall id :: id in l.active ==>
          && Has(l.queues.known, l.active[id].request)
          && l.active[id].request.id == id
          && l.active[id].leaseId.requestId == id)
  }

  ghost predicate AdmissionOk(l: Live, a: Admission) {
    && a.entry.Enqueued? && a.entry.request == a.request
    && a.request.uniqueKey !in l.queues.known.entries
    && a.request.id.uniqueKey == a.request.uniqueKey
  }

  ghost predicate TransitionOk(l: Live, t: Transition) {
    var id := t.lease.request.id;
    && !t.entry.Enqueued? && t.entry.requestId == id && t.entry.leaseId == t.lease.leaseId
    && t.lease.leaseId.requestId == id
    && (t.entry.Leased? || t.entry.Renewed? ==> t.entry.expiresAt == t.lease.expiresAt)
    && if t.entry.Leased? then t.lease.request in l.taken else Issued(l, t.lease)
  }

  ghost predicate Structure(l: Live) {
    && Keyed(l.queues.known)
    && Partitioned(l.queues, l.active.Keys, Ids(l.taken), Ids(l.requeuing))
    && AllKnown(l)
    && (l.enqueuing.Some? ==> AdmissionOk(l, l.enqueuing.value))
    && (l.transition.Some? ==> TransitionOk(l, l.transition.value))
    && Chained(l.log)
  }

  /** The journal and the live state tell one story. */
  ghost predicate Inv(l: Live) {
    && Structure(l)
    && ViewOk(ViewOf(l))
    && RecoveryAgrees(ViewOf(l), TrackAll(Entries(l.log)), l.now)
    && StagesAgree(ViewOf(l), Entries(l.log))
  }

  // ---------------------------------------------------------------------------------------
  // Facts about the parts

  lemma KnownIds(m: OrderedMap<string, Request>)
    requires Keyed(m)
    ensures DistinctBy(m.Values(), IdOf)
    ensures forall r :: r in m.Values() <==> Has(m, r)
    ensures forall r, s :: Has(m, r) && Has(m, s) && r.id == s.id ==> r == s
  {
    var vs := m.Values();
    forall i, j | 0 <= i < j < |vs| ensures vs[i].id != vs[j].id {
      assert m.keys[i] != m.keys[j];
    }
    forall r ensures r in vs <==> Has(m, r) {
      if Has(m, r) {
        var i :| 0 <= i < |m.keys| && m.keys[i] == r.uniqueKey;
        assert vs[i] == r;
      }
      if r in vs {
        var i :| 0 <= i < |vs| && vs[i] == r;
        assert m.keys[i] in m.entries;
      }
    }
  }

  lemma SetNew(m: OrderedMap<string, Request>, r: Request)
    requires Keyed(m) && r.uniqueKey !in m.entries && r.id.uniqueKey == r.uniqueKey
    ensures Keyed(m.Set(r.uniqueKey, r))
    ensures m.Set(r.uniqueKey, r).Values() == m.Values() + [r]
    ensures r.id !in KeysOf(m.Values(), IdOf)
    ensures forall q :: Has(m, q) ==> Has(m.Set(r.uniqueKey, r), q)
  {
    var n := m.Set(r.uniqueKey, r);
    assert forall i :: 0 <= i < |m.keys| ==> m.keys[i] in m.entries;
    assert n.Values() == m.Values() + [r];
    KnownIds(m);
  }

  lemma SetSame(m: OrderedMap<string, Request>, r: Request)
    requires Has(m, r)
    ensures m.Set(r.uniqueKey, r) == m
  {
    assert m.entries[r.uniqueKey := r] == m.entries;
  }

  lemma {:induction false} ExpiryFound(ds: seq<Deferred>, d: Deferred)
    requires DistinctBy(ds, DeferredId) && d in ds
    ensures ExpiryIn(ds, d.request.id) == d.expiresAt
  {
    if ds[0] == d {
    } else {
      var i :| 0 <= i < |ds| && ds[i] == d;
      assert DeferredId(ds[0]) != DeferredId(ds[i]);
      DistinctSplit(ds, 1, DeferredId);
      assert ds[1..][i - 1] == d;
      ExpiryFound(ds[1..], d);
    }
  }

  lemma PromoteFacts(q: Queues, now: Instant, order: Order)
    requires DistinctBy(q.queue, IdOf) && DistinctBy(q.deferred, DeferredId)
    requires KeysOf(q.queue, IdOf) !! KeysOf(q.deferred, DeferredId)
    ensures var p, n := q.Promote(now, order), ExpiredPrefix(q.deferred, now);
            var woken := KeysOf(q.deferred[..n], DeferredId);
            && DistinctBy(p.queue, IdOf) && DistinctBy(p.deferred, DeferredId)
            && KeysOf(p.queue, IdOf) == KeysOf(q.queue, IdOf) + woken
            && KeysOf(p.deferred, DeferredId) == KeysOf(q.deferred, DeferredId) - woken
            && woken <= KeysOf(q.deferred, DeferredId)
            && (forall r :: r in p.queue ==> r in q.queue || exists d :: d in q.deferred && d.request == r)
            && (forall d :: d in p.deferred ==> d in q.deferred)
            && (forall id :: id in woken ==> ExpiryIn(q.deferred, id) <= now)
            && (forall id :: id in KeysOf(p.deferred, DeferredId) ==>
                  ExpiryIn(p.deferred, id) == ExpiryIn(q.deferred, id))
  {
    var n := ExpiredPrefix(q.deferred, now);
    var a := q.deferred[..n];
    DistinctSplit(q.deferred, n, DeferredId);
    RequestsOfDeferred(a);
    DistinctConcat(q.queue, RequestsIn(a), IdOf);
    SortRequestsDistinct(q.queue + RequestsIn(a), order);
    ExpiryOfParts(q.deferred, now);
  }

  lemma RequestsOfDeferred(ds: seq<Deferred>)
    requires DistinctBy(ds, DeferredId)
    ensures DistinctBy(RequestsIn(ds), IdOf)
    ensures KeysOf(RequestsIn(ds), IdOf) == KeysOf(ds, DeferredId)
    ensures forall r :: r in RequestsIn(ds) ==> exists d :: d in ds && d.request == r
  {
    var rs := RequestsIn(ds);
    forall i, j | 0 <= i < j < |rs| ensures IdOf(rs[i]) != IdOf(rs[j]) {
      assert DeferredId(ds[i]) != DeferredId(ds[j]);
    }
    forall r | r in rs ensures exists d :: d in ds && d.request == r {
      var i :| 0 <= i < |rs| && rs[i] == r;
      assert ds[i] in ds && ds[i].request == r;
    }
    forall id | id in KeysOf(ds, DeferredId) ensures id in KeysOf(rs, IdOf) {
      var i :| 0 <= i < |ds| && DeferredId(ds[i]) == id;
      assert rs[i] in rs;
    }
  }

  lemma ExpiryOfParts(ds: seq<Deferred>, now: Instant)
    requires DistinctBy(ds, DeferredId)
    ensures var n := ExpiredPrefix(ds, now);
            && (forall id :: id in KeysOf(ds[..n], DeferredId) ==> ExpiryIn(ds, id) <= now)
            && (forall id :: id in KeysOf(ds[n..], DeferredId) ==> ExpiryIn(ds[n..], id) == ExpiryIn(ds, id))
  {
    var n := ExpiredPrefix(ds, now);
    var a, b := ds[..n], ds[n..];
    DistinctSplit(ds, n, DeferredId);
    forall id | id in KeysOf(a, DeferredId) ensures ExpiryIn(ds, id) <= now {
      var i :| 0 <= i < |a| && DeferredId(a[i]) == id;
      assert ds[i] in ds;
      ExpiryFound(ds, ds[i]);
    }
    forall id | id in KeysOf(b, DeferredId) ensures ExpiryIn(b, id) == ExpiryIn(ds, id) {
      var d :| d in b && DeferredId(d) == id;
      ExpiryFound(b, d);
      ExpiryFound(ds, d);
    }
  }

  // ---------------------------------------------------------------------------------------
  // Steps that leave the view alone

  /** Two states with the same parts in the view have the same view. */
  lemma PromoteStep(c: Config, l: Live)
    requires Inv(l)
    ensures Inv(Do(c, l, Promote))
  {
    var l', q := Do(c, l, Promote), l.queues;
    var woken := KeysOf(q.deferred[..ExpiredPrefix(q.deferred, l.now)], DeferredId);
    PromoteFacts(q, l.now, c.order);
    assert Structure(l');
    WakeView(l, l', woken);
    WakeKeepsRecovery(ViewOf(l), TrackAll(Entries(l.log)), woken, l.now);
    StagesAfterWake(ViewOf(l), Entries(l.log), woken, l.now);
  }

  lemma StagesAfterWake(v: View, es: seq<Entry>, ids: set<RequestId>, now: Instant)
    requires ViewOk(v) && StagesAgree(v, es) && CanWake(v, ids, now)
    ensures StagesAgree(Wake(v, ids), es)
  {
    forall id ensures StageAgrees(Wake(v, ids), StageOf(es, id), id) {
      assert StageAgrees(v, StageOf(es, id), id);
    }
  }

  lemma WakeView(l: Live, l': Live, woken: set<RequestId>)
    requires Structure(l) && Structure(l')
    requires l' == l.(queues := l'.queues) && l'.queues.known == l.queues.known
    requires woken <= KeysOf(l.queues.deferred, DeferredId)
    requires KeysOf(l'.queues.queue, IdOf) == KeysOf(l.queues.queue, IdOf) + woken
    requires KeysOf(l'.queues.deferred, DeferredId) == KeysOf(l.queues.deferred, DeferredId) - woken
    requires forall id :: id in woken ==> ExpiryIn(l.queues.deferred, id) <= l.now
    requires forall id :: id in KeysOf(l'.queues.deferred, DeferredId) ==>
                            ExpiryIn(l'.queues.deferred, id) == ExpiryIn(l.queues.deferred, id)
    ensures ViewOf(l') == Wake(ViewOf(l), woken)
    ensures CanWake(ViewOf(l), woken, l.now)
  {
    SettledWake(l, l', woken);
    SubjectsNotDeferred(l);
    if l.enqueuing.Some? {
      WakeCommutes(Settled(l), l.enqueuing.value.entry, woken, l.now);
    }
    if l.transition.Some? {
      WakeCommutes(AfterAdmission(Settled(l), l.enqueuing), l.transition.value.entry, woken, l.now);
    }
  }

  /** Nothing that an operation in progress works on waits in the deferred list. */
  lemma SubjectsNotDeferred(l: Live)
    requires Structure(l)
    ensures l.enqueuing.Some? ==> Subject(l.enqueuing.value.entry) !in KeysOf(l.queues.deferred, DeferredId)
    ensures l.transition.Some? ==> Subject(l.transition.value.entry) !in KeysOf(l.queues.deferred, DeferredId)
  {
    if l.enqueuing.Some? {
      var r := l.enqueuing.value.request;
      forall d | d in l.queues.deferred ensures DeferredId(d) != r.id {
        assert Has(l.queues.known, d.request);
      }
    }
    if l.transition.Some? {
      var r := l.transition.value.lease.request;
      assert r in l.taken ==> r.id in Ids(l.taken);
    }
  }

  lemma WakeCommutes(v: View, e: Entry, ids: set<RequestId>, now: Instant)
    requires Subject(e) !in ids && CanWake(v, ids, now)
    ensures Apply(Wake(v, ids), e) == Wake(Apply(v, e), ids)
    ensures CanWake(Apply(v, e), ids, now)
  {
    var a, b := Apply(Wake(v, ids), e), Wake(Apply(v, e), ids);
    assert a.idle == b.idle;
    assert a.held == b.held;
  }

  lemma SettledWake(l: Live, l': Live, woken: set<RequestId>)
    requires Structure(l)
    requires l' == l.(queues := l'.queues) && l'.queues.known == l.queues.known
    requires woken <= KeysOf(l.queues.deferred, DeferredId)
    requires KeysOf(l'.queues.queue, IdOf) == KeysOf(l.queues.queue, IdOf) + woken
    requires KeysOf(l'.queues.deferred, DeferredId) == KeysOf(l.queues.deferred, DeferredId) - woken
    requires forall id :: id in woken ==> ExpiryIn(l.queues.deferred, id) <= l.now
    requires forall id :: id in KeysOf(l'.queues.deferred, DeferredId) ==>
                            ExpiryIn(l'.queues.deferred, id) == ExpiryIn(l.queues.deferred, id)
    ensures Settled(l') == Wake(Settled(l), woken)
    ensures forall id :: id in woken ==> id in Settled(l).held
    ensures CanWake(Settled(l), woken, l.now)
  {
    assert Settled(l').idle == Settled(l).idle + woken;
    HoldsAfterWake(l.active, l.queues.deferred, l'.queues.deferred, woken);
    HoldsOfWoken(l.active, l.queues.deferred, woken);
  }

  lemma HoldsAfterWake(active: map<RequestId, Lease>, ds: seq<Deferred>, rest: seq<Deferred>, woken: set<RequestId>)
    requires woken !! active.Keys && KeysOf(rest, DeferredId) == KeysOf(ds, DeferredId) - woken
    requires forall id :: id in KeysOf(rest, DeferredId) ==> ExpiryIn(rest, id) == ExpiryIn(ds, id)
    ensures Holds(active, rest) == Holds(active, ds) - woken
  {
  }

  lemma HoldsOfWoken(active: map<RequestId, Lease>, ds: seq<Deferred>, woken: set<RequestId>)
    requires woken !! active.Keys && woken <= KeysOf(ds, DeferredId)
    ensures forall id :: id in woken ==> id in Holds(active, ds) && Holds(active, ds)[id] == Hold(None, ExpiryIn(ds, id))
  {
  }

  // ---------------------------------------------------------------------------------------
  // Each step keeps the structure

  /** Moving a queued request to those taken. */
  lemma TakenFromQueue(p: Live, index: nat)
    requires Structure(p) && index < |p.queues.queue|
    ensures var l := p.(queues := p.queues.Take(index), taken := p.taken + {p.queues.queue[index]});
            Structure(l) && Settled(l) == Settled(p)
  {
    var r := p.queues.queue[index];
    var l := p.(queues := p.queues.Take(index), taken := p.taken + {r});
    DistinctRemove(p.queues.queue, index, IdOf);
    assert r in p.queues.queue;
    assert IdOf(r) in KeysOf(p.queues.queue, IdOf);
    assert Ids(l.taken) == Ids(p.taken) + {r.id};
    assert Partitioned(l.queues, l.active.Keys, Ids(l.taken), Ids(l.requeuing));
    assert AllKnown(l) by {
      assert forall q :: q in l.queues.queue ==> q in p.queues.queue;
    }
    assert Settled(l).idle == Settled(p).idle;
  }

  lemma IdsWithout(rs: set<Request>, r: Request)
    requires r in rs && forall q :: q in rs && q.id == r.id ==> q == r
    ensures Ids(rs - {r}) == Ids(rs) - {r.id}
  {
    forall id | id in Ids(rs) && id != r.id ensures id in Ids(rs - {r}) {
      var q :| q in rs && q.id == id;
      assert q in rs - {r};
    }
  }

  lemma QueueAppend(q: Queues, r: Request, order: Order)
    requires DistinctBy(q.queue, IdOf) && r.id !in KeysOf(q.queue, IdOf)
    ensures DistinctBy(SortRequests(q.queue + [r], order), IdOf)
    ensures KeysOf(SortRequests(q.queue + [r], order), IdOf) == KeysOf(q.queue, IdOf) + {r.id}
    ensures forall x :: x in SortRequests(q.queue + [r], order) ==> x in q.queue || x == r
  {
    DistinctAppend(q.queue, r, IdOf);
    SortRequestsDistinct(q.queue + [r], order);
  }

  lemma RequeuedIds(l: Live, r: Request, order: Order)
    requires Structure(l) && r in l.requeuing
    ensures var queue := SortRequests(l.queues.queue + [r], order);
            && DistinctBy(queue, IdOf)
            && KeysOf(queue, IdOf) == KeysOf(l.queues.queue, IdOf) + {r.id}
            && (forall x :: x in queue ==> x in l.queues.queue || x == r)
            && Ids(l.requeuing - {r}) == Ids(l.requeuing) - {r.id}
            && r.id in Ids(l.requeuing)
  {
    KnownIds(l.queues.known);
    assert r.id in Ids(l.requeuing);
    IdsWithout(l.requeuing, r);
    QueueAppend(l.queues, r, order);
  }

  lemma RequeueKeepsStructure(c: Config, l: Live, r: Request)
    requires Structure(l) && CanDo(c, l, Requeue(r))
    ensures Structure(Do(c, l, Requeue(r)))
  {
    RequeuedIds(l, r, c.order);
  }

  lemma RequeueSettles(c: Config, l: Live, r: Request)
    requires Structure(l) && CanDo(c, l, Requeue(r))
    ensures Settled(Do(c, l, Requeue(r))) == Settled(l)
  {
    var l' := Do(c, l, Requeue(r));
    RequeuedIds(l, r, c.order);
    assert Settled(l').idle == Settled(l).idle;
  }

  lemma NewIdIsNowhere(l: Live)
    requires Structure(l) && l.enqueuing.Some?
    ensures var id := l.enqueuing.value.request.id;
            && id !in KeysOf(l.queues.queue, IdOf) && id !in KeysOf(l.queues.deferred, DeferredId)
            && id !in l.active && id !in Ids(l.taken) && id !in Ids(l.requeuing)
            && (l.transition.Some? ==> id != Subject(l.transition.value.entry))
  {
    var id := l.enqueuing.value.request.id;
    forall r | Has(l.queues.known, r) ensures r.id != id {
      assert r.uniqueKey in l.queues.known.entries;
    }
  }

  lemma EnqueueFinishKeepsStructure(c: Config, l: Live)
    requires Structure(l) && CanDo(c, l, EnqueueFinish)
    ensures Structure(Do(c, l, EnqueueFinish))
  {
    var r := l.enqueuing.value.request;
    NewIdIsNowhere(l);
    SetNew(l.queues.known, r);
    QueueAppend(l.queues, r, c.order);
  }

  lemma EnqueueFinishSettles(c: Config, l: Live)
    requires Structure(l) && CanDo(c, l, EnqueueFinish)
    ensures Do(c, l, EnqueueFinish).queues.known.Valid()
    ensures Settled(Do(c, l, EnqueueFinish)) == Apply(Settled(l), l.enqueuing.value.entry)
  {
    var l', r := Do(c, l, EnqueueFinish), l.enqueuing.value.request;
    NewIdIsNowhere(l);
    SetNew(l.queues.known, r);
    QueueAppend(l.queues, r, c.order);
    assert Settled(l').idle == Settled(l).idle + {r.id};
  }

  lemma FailedIds(l: Live, r: Request)
    requires Structure(l) && r in l.taken
    ensures Ids(l.taken - {r}) == Ids(l.taken) - {r.id}
    ensures Ids(l.requeuing + {r}) == Ids(l.requeuing) + {r.id}
    ensures r.id in Ids(l.taken)
  {
    KnownIds(l.queues.known);
    assert r.id in Ids(l.taken);
    IdsWithout(l.taken, r);
  }

  lemma TransitionFailKeepsStructure(c: Config, l: Live)
    requires Structure(l) && CanDo(c, l, TransitionFail)
    ensures Structure(Do(c, l, TransitionFail))
  {
    if l.transition.value.entry.Leased? {
      FailedIds(l, l.transition.value.lease.request);
    }
  }

  lemma TransitionFailSettles(c: Config, l: Live)
    requires Structure(l) && CanDo(c, l, TransitionFail)
    ensures Do(c, l, TransitionFail).queues == l.queues
    ensures Settled(Do(c, l, TransitionFail)) == Settled(l)
  {
    var l', r := Do(c, l, TransitionFail), l.transition.value.lease.request;
    if l.transition.value.entry.Leased? {
      FailedIds(l, r);
      assert Settled(l').idle == Settled(l).idle;
    }
  }

  lemma LeaseFinishKeepsStructure(l: Live)
    requires Structure(l) && l.transition.Some? && l.transition.value.entry.Leased?
    ensures Structure(FinishTransition(l))
  {
    var l', r := FinishTransition(l), l.transition.value.lease.request;
    KnownIds(l.queues.known);
    assert r.id in Ids(l.taken);
    IdsWithout(l.taken, r);
    assert Partitioned(l'.queues, l'.active.Keys, Ids(l'.taken), Ids(l'.requeuing));
  }

  lemma HoldsUpdate(active: map<RequestId, Lease>, deferred: seq<Deferred>, id: RequestId, lease: Lease)
    ensures Holds(active[id := lease], deferred)
         == Holds(active, deferred)[id := Hold(Some(lease.leaseId), lease.expiresAt)]
  {
  }

  lemma HoldsRemove(active: map<RequestId, Lease>, deferred: seq<Deferred>, id: RequestId)
    requires id !in KeysOf(deferred, DeferredId)
    ensures Holds(active - {id}, deferred) == Holds(active, deferred) - {id}
  {
    assert (active - {id}).Keys == active.Keys - {id};
  }

  lemma LeaseFinishSettles(l: Live)
    requires Structure(l) && l.transition.Some? && l.transition.value.entry.Leased?
    ensures FinishTransition(l).queues == l.queues
    ensures Settled(FinishTransition(l)) == Apply(Settled(l), l.transition.value.entry)
  {
    var lease, l' := l.transition.value.lease, FinishTransition(l);
    var r := lease.request;
    KnownIds(l.queues.known);
    assert r.id in Ids(l.taken);
    IdsWithout(l.taken, r);
    HoldsUpdate(l.active, l.queues.deferred, r.id, lease);
    assert Settled(l').idle == Settled(l).idle - {r.id};
  }

  lemma HeldFinishPartition(l: Live)
    requires Structure(l) && l.transition.Some? && !l.transition.value.entry.Leased?
    ensures var l' := FinishTransition(l); Partitioned(l'.queues, l'.active.Keys, Ids(l'.taken), Ids(l'.requeuing))
  {
    var l', r := FinishTransition(l), l.transition.value.lease.request;
    if l.transition.value.entry.Released? {
      assert Ids(l'.requeuing) == Ids(l.requeuing) + {r.id};
    }
  }

  lemma HeldFinishKnown(l: Live)
    requires AllKnown(l) && l.transition.Some? && TransitionOk(l, l.transition.value) && !l.transition.value.entry.Leased?
    ensures AllKnown(FinishTransition(l))
  {
    var l', lease := FinishTransition(l), l.transition.value.lease;
    forall id | id in l'.active
      ensures Has(l'.queues.known, l'.active[id].request) && l'.active[id].request.id == id && l'.active[id].leaseId.requestId == id
    {
      assert id in l.active && (l'.active[id] == l.active[id] || l'.active[id] == lease);
    }
  }

  lemma HeldFinishKeepsStructure(l: Live)
    requires Structure(l) && l.transition.Some? && !l.transition.value.entry.Leased?
    ensures Structure(FinishTransition(l))
  {
    HeldFinishPartition(l);
    HeldFinishKnown(l);
  }

  lemma HeldFinishSettles(l: Live)
    requires Structure(l) && l.transition.Some? && !l.transition.value.entry.Leased?
    ensures FinishTransition(l).queues == l.queues
    ensures Settled(FinishTransition(l)) == Apply(Settled(l), l.transition.value.entry)
  {
    var lease, l' := l.transition.value.lease, FinishTransition(l);
    var r := lease.request;
    HoldsUpdate(l.active, l.queues.deferred, r.id, lease);
    HoldsRemove(l.active, l.queues.deferred, r.id);
    if l.transition.value.entry.Released? {
      assert Ids(l'.requeuing) == Ids(l.requeuing) + {r.id};
      assert Settled(l').idle == Settled(l).idle + {r.id};
    }
  }

  // ---------------------------------------------------------------------------------------
  // Writing a record

  lemma AdmissionCommutes(v: View, e: Entry, other: Entry)
    requires e.Enqueued? && !other.Enqueued? && Subject(e) != Subject(other)
    ensures Apply(Apply(v, e), other) == Apply(Apply(v, other), e)
  {
    var a, b := Apply(Apply(v, e), other), Apply(Apply(v, other), e);
    assert a.idle == b.idle;
    assert a.held == b.held;
  }

  /** Appending a legal entry keeps the story straight. */
  lemma AppendKeepsAgreement(l: Live, v: View, e: Entry)
    requires Chained(l.log) && ViewOk(v) && Legal(v, e)
    requires RecoveryAgrees(v, TrackAll(Entries(l.log)), l.now) && StagesAgree(v, Entries(l.log))
    ensures Chained(Append(l.log, e))
    ensures Entries(Append(l.log, e)) == Entries(l.log) + [e]
    ensures ViewOk(Apply(v, e))
    ensures RecoveryAgrees(Apply(v, e), TrackAll(Entries(Append(l.log, e))), l.now)
    ensures StagesAgree(Apply(v, e), Entries(Append(l.log, e)))
  {
    var es := Entries(l.log);
    ChainedAppend(l.log, BuildRecord(e, |l.log| + 1, LastChecksum(l.log)));
    TrackAppend(es, e);
    ApplyKeepsRecovery(v, TrackAll(es), e, l.now);
    ApplyKeepsStages(v, es, e);
  }

  lemma EnqueueWriteView(c: Config, l: Live)
    requires Structure(l) && CanDo(c, l, EnqueueWrite)
    ensures ViewOf(Do(c, l, EnqueueWrite)) == Apply(ViewOf(l), l.enqueuing.value.entry)
    ensures ViewOf(l).known == l.queues.known.Values()
  {
    var l', e := Do(c, l, EnqueueWrite), l.enqueuing.value.entry;
    NewIdIsNowhere(l);
    if l.transition.Some? {
      AdmissionCommutes(Settled(l), e, l.transition.value.entry);
    }
    assert Settled(l') == Settled(l);
  }

  lemma EnqueueWriteStep(c: Config, l: Live)
    requires Inv(l) && CanDo(c, l, EnqueueWrite)
    ensures Inv(Do(c, l, EnqueueWrite))
  {
    EnqueueWriteView(c, l);
    SetNew(l.queues.known, l.enqueuing.value.request);
    AppendKeepsAgreement(l, ViewOf(l), l.enqueuing.value.entry);
  }

  lemma TransitionWriteStep(c: Config, l: Live)
    requires Inv(l) && CanDo(c, l, TransitionWrite)
    ensures Inv(Do(c, l, TransitionWrite))
  {
    var l', t, v := Do(c, l, TransitionWrite), l.transition.value, ViewOf(l);
    assert t.lease.request in l.taken ==> t.lease.request.id in Ids(l.taken);
    AppendKeepsAgreement(l, v, t.entry);
    assert Settled(l') == Settled(l);
    assert ViewOf(l') == Apply(v, t.entry);
  }

  lemma FinishKeepsStructure(l: Live)
    requires Structure(l) && l.transition.Some?
    ensures Structure(FinishTransition(l)) && FinishTransition(l).queues == l.queues
    ensures Settled(FinishTransition(l)) == Apply(Settled(l), l.transition.value.entry)
  {
    if l.transition.value.entry.Leased? {
      LeaseFinishKeepsStructure(l);
      LeaseFinishSettles(l);
    } else {
      HeldFinishKeepsStructure(l);
      HeldFinishSettles(l);
    }
  }

  lemma SameStory(l: Live, l': Live)
    requires Inv(l) && Structure(l') && ViewOf(l') == ViewOf(l) && l'.log == l.log && l'.now == l.now
    ensures Inv(l')
  {
  }

  lemma FinishKeepsView(l: Live)
    requires Structure(l) && l.transition.Some? && l.transition.value.written
    ensures Structure(FinishTransition(l)) && ViewOf(FinishTransition(l)) == ViewOf(l)
    ensures FinishTransition(l).log == l.log && FinishTransition(l).now == l.now
  {
    FinishKeepsStructure(l);
    FinishLeavesTheRest(l);
    if l.enqueuing.Some? {
      NewIdIsNowhere(l);
      AdmissionCommutes(Settled(l), l.enqueuing.value.entry, l.transition.value.entry);
    }
  }

  lemma FinishLeavesTheRest(l: Live)
    requires l.transition.Some?
    ensures var l' := FinishTransition(l);
            l'.enqueuing == l.enqueuing && l'.transition == None && l'.log == l.log && l'.now == l.now
  {
  }

  lemma TransitionFinishStep(c: Config, l: Live)
    requires Inv(l) && CanDo(c, l, TransitionFinish)
    ensures Inv(Do(c, l, TransitionFinish))
  {
    FinishKeepsView(l);
    SameStory(l, FinishTransition(l));
  }

  lemma TimePasses(v: View, m: Tracking, now: Instant, t: Instant)
    requires RecoveryAgrees(v, m, now) && now <= t
    ensures RecoveryAgrees(v, m, t)
  {
    forall id | id in m.entries ensures StatusAgrees(v, m.entries[id], id, t) {
      assert StatusAgrees(v, m.entries[id], id, now);
    }
  }

  // ---------------------------------------------------------------------------------------
  // Resuming after a crash

  function KeyOf(r: Request): string { r.uniqueKey }

  ghost predicate KnownOk(rs: seq<Request>) {
    DistinctBy(rs, KeyOf) && forall r :: r in rs ==> r.id.uniqueKey == r.uniqueKey
  }

  lemma KnownKeysOk(m: OrderedMap<string, Request>)
    requires Keyed(m)
    ensures KnownOk(m.Values())
  {
    var vs := m.Values();
    KnownIds(m);
    forall i, j | 0 <= i < j < |vs| ensures KeyOf(vs[i]) != KeyOf(vs[j]) {
      assert m.keys[i] in m.entries && m.keys[j] in m.entries;
    }
  }

  lemma NewKeyIsNew(m: OrderedMap<string, Request>, r: Request)
    requires Keyed(m) && r.uniqueKey !in m.entries
    ensures r.uniqueKey !in KeysOf(m.Values(), KeyOf)
  {
    KnownIds(m);
    forall q | q in m.Values() ensures KeyOf(q) != r.uniqueKey {
      assert Has(m, q);
    }
  }

  lemma ViewKnownOk(l: Live)
    requires Structure(l)
    ensures KnownOk(ViewOf(l).known)
  {
    var m := l.queues.known;
    KnownKeysOk(m);
    if l.enqueuing.Some? && l.enqueuing.value.written {
      var r := l.enqueuing.value.request;
      NewKeyIsNew(m, r);
      DistinctAppend(m.Values(), r, KeyOf);
      assert ViewOf(l).known == m.Values() + [r];
    } else {
      assert ViewOf(l).known == m.Values();
    }
  }

  lemma RememberNext(m: OrderedMap<string, Request>, r: Request)
    requires Keyed(m) && r.uniqueKey !in KeysOf(m.Values(), KeyOf) && r.id.uniqueKey == r.uniqueKey
    ensures Keyed(m.Set(r.uniqueKey, r)) && m.Set(r.uniqueKey, r).Values() == m.Values() + [r]
  {
    KnownIds(m);
    assert r.uniqueKey !in m.entries by {
      if r.uniqueKey in m.entries {
        assert Has(m, m.entries[r.uniqueKey]);
      }
    }
    SetNew(m, r);
  }

  lemma {:induction false} RememberAllFacts(rs: seq<Request>)
    requires KnownOk(rs)
    ensures var q := RememberAll(Queues([], [], EmptyMap()), rs);
            q.queue == [] && q.deferred == [] && Keyed(q.known) && q.known.Values() == rs
  {
    if |rs| > 0 {
      DistinctLast(rs, KeyOf);
      RememberAllFacts(rs[..|rs| - 1]);
      RememberNext(RememberAll(Queues([], [], EmptyMap()), rs[..|rs| - 1]).known, rs[|rs| - 1]);
    }
  }

  lemma {:induction false} AddAllPendingFacts(q: Queues, rs: seq<Request>, order: Order)
    requires q.queue == [] && DistinctBy(rs, IdOf)
    requires forall r :: r in rs ==> Has(q.known, r)
    ensures var p := AddAllPending(q, rs, order);
            && p.known == q.known && p.deferred == q.deferred
            && DistinctBy(p.queue, IdOf) && KeysOf(p.queue, IdOf) == KeysOf(rs, IdOf)
            && (forall r :: r in p.queue <==> r in rs)
  {
    if |rs| > 0 {
      var front, r := rs[..|rs| - 1], rs[|rs| - 1];
      DistinctLast(rs, IdOf);
      AddAllPendingFacts(q, front, order);
      SetSame(q.known, r);
      QueueAppend(AddAllPending(q, front, order), r, order);
    }
  }

  lemma DeferredAppend(q: Queues, d: Deferred)
    requires DistinctBy(q.deferred, DeferredId) && d.request.id !in KeysOf(q.deferred, DeferredId)
    requires Has(q.known, d.request)
    ensures var p := q.AddDeferred(d);
            && p.known == q.known && p.queue == q.queue
            && DistinctBy(p.deferred, DeferredId)
            && KeysOf(p.deferred, DeferredId) == KeysOf(q.deferred, DeferredId) + {d.request.id}
            && (forall x :: x in p.deferred <==> x in q.deferred || x == d)
  {
    SetSame(q.known, d.request);
    DistinctAppend(q.deferred, d, DeferredId);
    SortDistinct(q.deferred + [d], ExpiresBefore, DeferredId);
  }

  lemma {:induction false} AddAllDeferredFacts(q: Queues, ds: seq<Deferred>)
    requires q.deferred == [] && DistinctBy(ds, DeferredId)
    requires forall d :: d in ds ==> Has(q.known, d.request)
    ensures var p := AddAllDeferred(q, ds);
            && p.known == q.known && p.queue == q.queue
            && DistinctBy(p.deferred, DeferredId) && KeysOf(p.deferred, DeferredId) == KeysOf(ds, DeferredId)
            && (forall d :: d in p.deferred <==> d in ds)
  {
    if |ds| > 0 {
      var front, d := ds[..|ds| - 1], ds[|ds| - 1];
      DistinctLast(ds, DeferredId);
      AddAllDeferredFacts(q, front);
      DeferredAppend(AddAllDeferred(q, front), d);
    }
  }

  lemma {:induction false} RecoveredAreDistinct(ts: seq<Tracked>, t: Instant)
    requires DistinctBy(RequestsOf(ts), IdOf)
    ensures DistinctBy(PendingOf(ts, t), IdOf) && KeysOf(PendingOf(ts, t), IdOf) <= KeysOf(RequestsOf(ts), IdOf)
    ensures DistinctBy(DeferredOf(ts, t), DeferredId)
    ensures KeysOf(DeferredOf(ts, t), DeferredId) <= KeysOf(RequestsOf(ts), IdOf)
  {
    if |ts| > 0 {
      var front, x := ts[..|ts| - 1], ts[|ts| - 1];
      var rs := RequestsOf(ts);
      DistinctLast(rs, IdOf);
      assert rs[..|ts| - 1] == RequestsOf(front);
      RecoveredAreDistinct(front, t);
      if Ready(x, t) {
        DistinctAppend(PendingOf(front, t), x.request, IdOf);
      }
      if Waiting(x, t) {
        DistinctAppend(DeferredOf(front, t), Deferred(x.request, x.leaseExpiresAt.value), DeferredId);
      }
    }
  }

  /** The queues of a resumed process hold what the restarted view says they should. */
  lemma RestoredFacts(es: seq<Entry>, t: Instant, order: Order)
    requires var v := Restarted(es, t);
             ViewOk(v) && KnownOk(v.known) && RecoveryAgrees(v, TrackAll(es), t)
    ensures var v, q := Restarted(es, t), Restored(Recover(es, t), order);
            && Keyed(q.known) && q.known.Values() == v.known
            && DistinctBy(q.queue, IdOf) && DistinctBy(q.deferred, DeferredId)
            && KeysOf(q.queue, IdOf) == v.idle && KeysOf(q.deferred, DeferredId) == v.held.Keys
            && (forall r :: r in q.queue ==> Has(q.known, r))
            && (forall d :: d in q.deferred ==> Has(q.known, d.request) && d.expiresAt == v.held[d.request.id].expiresAt)
  {
    var v, r := Restarted(es, t), Recover(es, t);
    RecoveryYieldsView(v, es, t, t);
    RememberAllFacts(v.known);
    var q0 := RememberAll(Queues([], [], EmptyMap()), r.requests);
    KnownIds(q0.known);
    assert forall x :: x in r.pending ==> ShouldBePending(v, x, t);
    assert forall d :: d in r.deferred ==> ShouldBeDeferred(v, d, t);
    RecoveredAreDistinct(TrackAll(es).Values(), t);
    AddAllPendingFacts(q0, r.pending, order);
    AddAllDeferredFacts(AddAllPending(q0, r.pending, order), r.deferred);
    RecoveredIds(v, es, t);
  }

  lemma RecoveredIds(v: View, es: seq<Entry>, t: Instant)
    requires v == Restarted(es, t) && ViewOk(v) && RecoveredIs(v, Recover(es, t), t)
    ensures KeysOf(Recover(es, t).pending, IdOf) == v.idle
    ensures KeysOf(Recover(es, t).deferred, DeferredId) == v.held.Keys
  {
    var r := Recover(es, t);
    assert forall x :: x in r.pending <==> ShouldBePending(v, x, t);
    assert forall d :: d in r.deferred <==> ShouldBeDeferred(v, d, t);
    forall id | id in v.idle ensures id in KeysOf(r.pending, IdOf) {
      var x :| x in v.known && IdOf(x) == id;
      assert ShouldBePending(v, x, t);
    }
    forall id | id in v.held ensures id in KeysOf(r.deferred, DeferredId) {
      var x :| x in v.known && IdOf(x) == id;
      var d := Deferred(x, v.held[id].expiresAt);
      assert ShouldBeDeferred(v, d, t) && DeferredId(d) == id;
    }
    forall x | x in r.pending ensures IdOf(x) in v.idle {
      assert ShouldBePending(v, x, t);
    }
    forall d | d in r.deferred ensures DeferredId(d) in v.held.Keys {
      assert ShouldBeDeferred(v, d, t);
    }
  }

  lemma SettledRestart(c: Config, log: seq<Record>, t: Instant)
    requires var v, q := Restarted(Entries(log), t), Restart(c, log, t).queues;
             && Keyed(q.known) && q.known.Values() == v.known
             && DistinctBy(q.deferred, DeferredId)
             && KeysOf(q.queue, IdOf) == v.idle && KeysOf(q.deferred, DeferredId) == v.held.Keys
             && (forall d :: d in q.deferred ==> d.request.id in v.held && d.expiresAt == v.held[d.request.id].expiresAt)
             && (forall id :: id in v.held ==> v.held[id].leaseId.None?)
    ensures Settled(Restart(c, log, t)) == Restarted(Entries(log), t)
  {
    var v, l := Restarted(Entries(log), t), Restart(c, log, t);
    NothingInHand(l.queues.queue);
    HoldsOfDeferred(l.queues.deferred, v.held);
  }

  lemma NothingInHand(queue: seq<Request>)
    ensures KeysOf(queue, IdOf) + Ids({}) + Ids({}) == KeysOf(queue, IdOf)
  {
  }

  /** With no lease active the requests held are those deferred. */
  lemma HoldsOfDeferred(ds: seq<Deferred>, held: map<RequestId, Hold>)
    requires DistinctBy(ds, DeferredId) && KeysOf(ds, DeferredId) == held.Keys
    requires forall d :: d in ds ==> d.request.id in held && d.expiresAt == held[d.request.id].expiresAt
    requires forall id :: id in held ==> held[id].leaseId.None?
    ensures Holds(map[], ds) == held
  {
    forall id | id in held ensures ExpiryIn(ds, id) == held[id].expiresAt {
      var d :| d in ds && DeferredId(d) == id;
      ExpiryFound(ds, d);
    }
  }

  lemma CrashStep(c: Config, l: Live, t: Instant)
    requires Inv(l) && CanDo(c, l, Crash(t))
    ensures Inv(Do(c, l, Crash(t)))
    ensures ViewOf(Do(c, l, Crash(t))) == Restarted(Entries(l.log), t)
    ensures ViewOf(Do(c, l, Crash(t))).known == ViewOf(l).known
  {
    var es, l' := Entries(l.log), Do(c, l, Crash(t));
    RestartAgrees(ViewOf(l), es, l.now, t);
    RequestsAreKnown(ViewOf(l), TrackAll(es));
    ViewKnownOk(l);
    RestoredFacts(es, t, c.order);
    SettledRestart(c, l.log, t);
    RestartKeepsStructure(c, l.log, t);
  }

  lemma RestartKeepsStructure(c: Config, log: seq<Record>, t: Instant)
    requires Chained(log)
    requires var v, q := Restarted(Entries(log), t), Restart(c, log, t).queues;
             && Keyed(q.known) && v.idle !! v.held.Keys
             && DistinctBy(q.queue, IdOf) && DistinctBy(q.deferred, DeferredId)
             && KeysOf(q.queue, IdOf) == v.idle && KeysOf(q.deferred, DeferredId) == v.held.Keys
             && (forall r :: r in q.queue ==> Has(q.known, r))
             && (forall d :: d in q.deferred ==> Has(q.known, d.request))
    ensures Structure(Restart(c, log, t))
  {
    assert Ids({}) == {};
  }
}
