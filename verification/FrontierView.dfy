/** What a running frontier and its journal have to say about one another: the live side
    reduced to sets, and the relations that tie it to the recovery and validation folds. */
module FrontierView {
  import opened Prelude
  import opened Requests
  import opened JournalRecords
  import opened JournalValidation
  import opened Recovery
  import opened FrontierState

  /** A lease this process granted carries its id; one inherited from a dead process does not. */
  datatype Hold = Hold(leaseId: Option<LeaseId>, expiresAt: Instant)

  /** known: every request, in the order of first enqueueing. idle: those free to be leased.
      held: those under a lease. The rest are finished. orphans: those whose last lease was
      left open by a process that died and which nobody leased since. reclaimed: former orphans. */
  datatype View = View(
    known: seq<Request>,
    idle: set<RequestId>,
    held: map<RequestId, Hold>,
    orphans: set<RequestId>,
    reclaimed: set<RequestId>)

  ghost predicate ViewOk(v: View) {
    && DistinctBy(v.known, IdOf)
    && v.idle <= KeysOf(v.known, IdOf)
    && v.held.Keys <= KeysOf(v.known, IdOf)
    && v.idle !! v.held.Keys
    && v.reclaimed <= KeysOf(v.known, IdOf)
    && v.orphans !! v.reclaimed
    && v.orphans <= v.idle + v.held.Keys
    && (forall id :: id in v.held ==> (v.held[id].leaseId.None? <==> id in v.orphans))
  }

  /** The entries a live frontier may append in the situation v. */
  ghost predicate Legal(v: View, e: Entry) {
    match e
    case Enqueued(r, _) => r.id !in KeysOf(v.known, IdOf)
    case Leased(id, _, _, _) => id in v.idle
    case Renewed(id, l, _, _) => id in v.held && v.held[id].leaseId == Some(l)
    case Released(id, l, _, _) => id in v.held && v.held[id].leaseId == Some(l)
    case Finished(id, l, _, _, _) => id in v.held && v.held[id].leaseId == Some(l)
  }

  ghost function Apply(v: View, e: Entry): View {
    match e
    case Enqueued(r, _) => v.(known := v.known + [r], idle := v.idle + {r.id})
    case Leased(id, l, expiresAt, _) =>
      v.(idle := v.idle - {id}, held := v.held[id := Hold(Some(l), expiresAt)], orphans := v.orphans - {id},
         reclaimed := if id in v.orphans then v.reclaimed + {id} else v.reclaimed)
    case Renewed(id, l, expiresAt, _) => v.(held := v.held[id := Hold(Some(l), expiresAt)])
    case Released(id, _, _, _) => v.(idle := v.idle + {id}, held := v.held - {id})
    case Finished(id, _, _, _, _) => v.(held := v.held - {id})
  }

  /** Inherited leases that have run out stop holding their requests; nothing is logged. */
  ghost function Wake(v: View, ids: set<RequestId>): View {
    v.(idle := v.idle + ids, held := v.held - ids)
  }

  ghost predicate CanWake(v: View, ids: set<RequestId>, now: Instant) {
    forall id :: id in ids ==> id in v.held && v.held[id].leaseId.None? && v.held[id].expiresAt <= now
  }

  lemma ApplyKeepsViewOk(v: View, e: Entry)
    requires ViewOk(v) && Legal(v, e)
    ensures ViewOk(Apply(v, e))
  {
    if e.Enqueued? {
      DistinctAppend(v.known, e.request, IdOf);
    }
  }

  // ---------------------------------------------------------------------------------------
  // Agreement with the recovery fold

  ghost predicate StatusAgrees(v: View, t: Tracked, id: RequestId, now: Instant) {
    if id in v.held then
      !t.terminal && t.leaseExpiresAt == Some(v.held[id].expiresAt)
    else if id in v.idle then
      && !t.terminal
      && (t.leaseExpiresAt.Some? <==> id in v.orphans)
      && (t.leaseExpiresAt.Some? ==> t.leaseExpiresAt.value <= now)
    else
      t.terminal && t.leaseExpiresAt == None
  }

  ghost predicate SameOrder(v: View, m: Tracking) {
    && |m.keys| == |v.known|
    && forall i :: 0 <= i < |v.known| ==>
         m.keys[i] == v.known[i].id && m.keys[i] in m.entries && m.entries[m.keys[i]].request == v.known[i]
  }

  ghost predicate RecoveryAgrees(v: View, m: Tracking, now: Instant) {
    && m.Valid()
    && SameOrder(v, m)
    && forall id :: id in m.entries ==> StatusAgrees(v, m.entries[id], id, now)
  }

  lemma KnownIffTracked(v: View, m: Tracking, id: RequestId)
    requires m.Valid() && SameOrder(v, m)
    ensures id in KeysOf(v.known, IdOf) <==> id in m.entries
  {
    if id in KeysOf(v.known, IdOf) {
      var i :| 0 <= i < |v.known| && v.known[i].id == id;
      assert m.keys[i] == id;
    }
    if id in m.entries {
      var i :| 0 <= i < |m.keys| && m.keys[i] == id;
      assert IdOf(v.known[i]) == id;
    }
  }

  lemma ApplyKeepsRecovery(v: View, m: Tracking, e: Entry, now: Instant)
    requires ViewOk(v) && Legal(v, e) && RecoveryAgrees(v, m, now)
    ensures RecoveryAgrees(Apply(v, e), Track(m, e), now)
  {
    var id := Subject(e);
    KnownIffTracked(v, m, id);
    var v', m' := Apply(v, e), Track(m, e);
    if e.Enqueued? {
      assert id !in v.held;
      assert id !in v.orphans;
    } else {
      assert id in m.entries;
      assert StatusAgrees(v, m.entries[id], id, now);
    }
    forall k | k in m'.entries
      ensures StatusAgrees(v', m'.entries[k], k, now)
    {
      if k != id {
        assert StatusAgrees(v, m.entries[k], k, now);
      }
    }
  }

  lemma WakeKeepsRecovery(v: View, m: Tracking, ids: set<RequestId>, now: Instant)
    requires ViewOk(v) && CanWake(v, ids, now) && RecoveryAgrees(v, m, now)
    ensures ViewOk(Wake(v, ids)) && RecoveryAgrees(Wake(v, ids), m, now)
  {
    var v' := Wake(v, ids);
    forall k | k in m.entries
      ensures StatusAgrees(v', m.entries[k], k, now)
    {
      assert StatusAgrees(v, m.entries[k], k, now);
    }
  }

  /** What a crash at any time from now on would recover. */
  ghost predicate RecoveredIs(v: View, r: Recovered, t: Instant) {
    && r.requests == v.known
    && (forall q :: q in r.pending <==> ShouldBePending(v, q, t))
    && (forall d :: d in r.deferred <==> ShouldBeDeferred(v, d, t))
  }

  ghost predicate ShouldBePending(v: View, q: Request, t: Instant) {
    q in v.known && (q.id in v.idle || (q.id in v.held && v.held[q.id].expiresAt <= t))
  }

  ghost predicate ShouldBeDeferred(v: View, d: Deferred, t: Instant) {
    && d.request in v.known
    && d.request.id in v.held
    && v.held[d.request.id].expiresAt == d.expiresAt
    && d.expiresAt > t
  }

  lemma PendingIsRight(v: View, m: Tracking, now: Instant, t: Instant, q: Request)
    requires ViewOk(v) && RecoveryAgrees(v, m, now) && now <= t
    ensures q in PendingOf(m.Values(), t) <==> ShouldBePending(v, q, t)
  {
    PendingMembers(m.Values(), t, q);
    TrackedInstances(v, m, m.Values(), now, q);
    if q in v.known {
      assert StatusAgrees(v, m.entries[q.id], q.id, now);
    }
  }

  lemma DeferredIsRight(v: View, m: Tracking, now: Instant, t: Instant, d: Deferred)
    requires ViewOk(v) && RecoveryAgrees(v, m, now) && now <= t
    ensures d in DeferredOf(m.Values(), t) <==> ShouldBeDeferred(v, d, t)
  {
    DeferredMembers(m.Values(), t, d);
    TrackedInstances(v, m, m.Values(), now, d.request);
    if d.request in v.known {
      assert StatusAgrees(v, m.entries[d.request.id], d.request.id, now);
    }
  }

  lemma RequestsAreKnown(v: View, m: Tracking)
    requires m.Valid() && SameOrder(v, m)
    ensures RequestsOf(m.Values()) == v.known
  {
    var ts := m.Values();
    assert forall i :: 0 <= i < |v.known| ==> ts[i] == m.entries[m.keys[i]];
  }

  lemma RecoveryYieldsView(v: View, es: seq<Entry>, now: Instant, t: Instant)
    requires ViewOk(v) && RecoveryAgrees(v, TrackAll(es), now) && now <= t
    ensures RecoveredIs(v, Recover(es, t), t)
  {
    var m, r := TrackAll(es), Recover(es, t);
    RequestsAreKnown(v, m);
    forall q ensures q in r.pending <==> ShouldBePending(v, q, t) {
      PendingIsRight(v, m, now, t, q);
    }
    forall d ensures d in r.deferred <==> ShouldBeDeferred(v, d, t) {
      DeferredIsRight(v, m, now, t, d);
    }
  }

  ghost function PendingIn(v: View, t: Instant): Request -> bool {
    (q: Request) => q.id in v.idle || (q.id in v.held && v.held[q.id].expiresAt <= t)
  }

  ghost function DeferredIn(v: View, t: Instant): Request -> bool {
    (q: Request) => q.id in v.held && v.held[q.id].expiresAt > t
  }

  ghost function RunOutIn(v: View, t: Instant): Request -> bool {
    (q: Request) => (q.id in v.held && v.held[q.id].expiresAt <= t) || (q.id in v.idle && q.id in v.orphans)
  }

  /** Recovery keeps the order of first enqueueing, and counts as recovered the leases that had run
      out by then. */
  lemma RecoveryKeepsOrder(v: View, es: seq<Entry>, now: Instant, t: Instant)
    requires ViewOk(v) && RecoveryAgrees(v, TrackAll(es), now) && now <= t
    ensures var r := Recover(es, t);
            && r.pending == Filtered(v.known, PendingIn(v, t))
            && RequestsIn(r.deferred) == Filtered(v.known, DeferredIn(v, t))
            && r.recoveredLeases == |Filtered(v.known, RunOutIn(v, t))|
  {
    var m := TrackAll(es);
    var ts := m.Values();
    forall i | 0 <= i < |v.known|
      ensures i < |ts| && ts[i].request == v.known[i]
      ensures PendingIn(v, t)(v.known[i]) <==> Ready(ts[i], t)
      ensures DeferredIn(v, t)(v.known[i]) <==> Waiting(ts[i], t)
      ensures RunOutIn(v, t)(v.known[i]) <==> Ready(ts[i], t) && ts[i].leaseExpiresAt.Some?
    {
      StatusAt(v, m, now, i);
    }
    PendingIsFiltered(ts, v.known, t, PendingIn(v, t));
    DeferredIsFiltered(ts, v.known, t, DeferredIn(v, t));
    ExpiredIsCounted(ts, v.known, t, RunOutIn(v, t));
  }

  lemma StatusAt(v: View, m: Tracking, now: Instant, i: nat)
    requires ViewOk(v) && RecoveryAgrees(v, m, now) && i < |v.known|
    ensures i < |m.Values()| && m.Values()[i].request == v.known[i]
    ensures StatusAgrees(v, m.Values()[i], v.known[i].id, now)
    ensures v.known[i].id in v.held ==> v.known[i].id !in v.idle
  {
    assert m.keys[i] in m.entries;
  }

  lemma {:induction false} PendingIsFiltered(ts: seq<Tracked>, rs: seq<Request>, t: Instant, keep: Request -> bool)
    requires |ts| == |rs|
    requires forall i :: 0 <= i < |ts| ==> ts[i].request == rs[i] && (keep(rs[i]) <==> Ready(ts[i], t))
    ensures PendingOf(ts, t) == Filtered(rs, keep)
  {
    if |ts| > 0 {
      PendingIsFiltered(ts[..|ts| - 1], rs[..|rs| - 1], t, keep);
    }
  }

  lemma {:induction false} DeferredIsFiltered(ts: seq<Tracked>, rs: seq<Request>, t: Instant, keep: Request -> bool)
    requires |ts| == |rs|
    requires forall i :: 0 <= i < |ts| ==> ts[i].request == rs[i] && (keep(rs[i]) <==> Waiting(ts[i], t))
    ensures RequestsIn(DeferredOf(ts, t)) == Filtered(rs, keep)
  {
    if |ts| > 0 {
      var n := |ts| - 1;
      DeferredIsFiltered(ts[..n], rs[..n], t, keep);
      if Waiting(ts[n], t) {
        RequestsInAppend(DeferredOf(ts[..n], t), Deferred(ts[n].request, ts[n].leaseExpiresAt.value));
      }
    }
  }

  lemma {:induction false} ExpiredIsCounted(ts: seq<Tracked>, rs: seq<Request>, t: Instant, keep: Request -> bool)
    requires |ts| == |rs|
    requires forall i :: 0 <= i < |ts| ==> (keep(rs[i]) <==> Ready(ts[i], t) && ts[i].leaseExpiresAt.Some?)
    ensures ExpiredOf(ts, t) == |Filtered(rs, keep)|
  {
    if |ts| > 0 {
      ExpiredIsCounted(ts[..|ts| - 1], rs[..|rs| - 1], t, keep);
    }
  }

  lemma RequestsInAppend(ds: seq<Deferred>, d: Deferred)
    ensures RequestsIn(ds + [d]) == RequestsIn(ds) + [d.request]
  {
  }

  /** The tracked value of a known request is the only one among the values. */
  lemma TrackedInstances(v: View, m: Tracking, ts: seq<Tracked>, now: Instant, q: Request)
    requires ViewOk(v) && RecoveryAgrees(v, m, now) && ts == m.Values()
    ensures (exists t :: t in ts && t.request == q) <==> q in v.known
    ensures forall t :: t in ts && t.request == q ==>
                          q.id in m.entries && t == m.entries[q.id] && StatusAgrees(v, t, q.id, now)
    ensures q in v.known ==> q.id in m.entries && m.entries[q.id] in ts && m.entries[q.id].request == q
  {
    if q in v.known {
      var i :| 0 <= i < |v.known| && v.known[i] == q;
      assert ts[i] == m.entries[m.keys[i]] && ts[i] in ts;
    }
    forall t | t in ts && t.request == q
      ensures q in v.known && q.id in m.entries && t == m.entries[q.id] && StatusAgrees(v, t, q.id, now)
    {
      var i :| 0 <= i < |ts| && ts[i] == t;
      assert m.keys[i] == v.known[i].id && v.known[i] == q;
    }
  }

  // ---------------------------------------------------------------------------------------
  // Agreement with the validator, request by request

  ghost predicate StageAgrees(v: View, s: Stage, id: RequestId) {
    if id in v.reclaimed then s.Broken?
    else if id !in KeysOf(v.known, IdOf) then s.Unknown?
    else if id in v.orphans then s.Held?
    else if id in v.held then s.Held? && v.held[id].leaseId == Some(s.leaseId)
    else if id in v.idle then s.Idle?
    else s.Ended?
  }

  ghost predicate StagesAgree(v: View, es: seq<Entry>) {
    forall id :: StageAgrees(v, StageOf(es, id), id)
  }

  lemma ApplyKeepsStages(v: View, es: seq<Entry>, e: Entry)
    requires ViewOk(v) && Legal(v, e) && StagesAgree(v, es)
    ensures ViewOk(Apply(v, e)) && StagesAgree(Apply(v, e), es + [e])
  {
    ApplyKeepsViewOk(v, e);
    assert (es + [e])[..|es|] == es;
    var v' := Apply(v, e);
    if e.Enqueued? {
      DistinctAppend(v.known, e.request, IdOf);
    }
    forall id
      ensures StageAgrees(v', StageOf(es + [e], id), id)
    {
      assert StageAgrees(v, StageOf(es, id), id);
    }
  }

  /** A log belongs to a validating journal exactly while no orphan has been leased again. */
  lemma ValidIffNothingReclaimed(v: View, es: seq<Entry>)
    requires ViewOk(v) && StagesAgree(v, es)
    ensures CheckEntries(es).Some? <==> v.reclaimed == {}
  {
    AcceptedIffNoLifeBreaks(es);
    if v.reclaimed == {} {
      forall id ensures StageOf(es, id) != Broken {
        assert StageAgrees(v, StageOf(es, id), id);
      }
    } else {
      var id :| id in v.reclaimed;
      assert StageAgrees(v, StageOf(es, id), id);
    }
  }

  /** What a recovered frontier starts from. */
  ghost function Restarted(es: seq<Entry>, t: Instant): View {
    var m := TrackAll(es);
    View(
      RequestsOf(m.Values()),
      set id | id in m.entries && Ready(m.entries[id], t),
      map id | id in m.entries && Waiting(m.entries[id], t) :: Hold(None, m.entries[id].leaseExpiresAt.value),
      set id | id in m.entries && !m.entries[id].terminal && m.entries[id].leaseExpiresAt.Some?,
      {})
  }

  lemma RestartAgrees(v: View, es: seq<Entry>, now: Instant, t: Instant)
    requires ViewOk(v) && RecoveryAgrees(v, TrackAll(es), now) && StagesAgree(v, es)
    requires CheckEntries(es).Some? && now <= t
    ensures ViewOk(Restarted(es, t))
    ensures RecoveryAgrees(Restarted(es, t), TrackAll(es), t)
    ensures StagesAgree(Restarted(es, t), es)
  {
    var m, v' := TrackAll(es), Restarted(es, t);
    RequestsAreKnown(v, m);
    forall id ensures id in KeysOf(v.known, IdOf) <==> id in m.entries {
      KnownIffTracked(v, m, id);
    }
    forall id | id in m.entries ensures StatusAgrees(v', m.entries[id], id, t) {
      assert StatusAgrees(v, m.entries[id], id, now);
    }
    AcceptedIffNoLifeBreaks(es);
    forall id ensures StageAgrees(v', StageOf(es, id), id) {
      FoldsAgree(es, id);
      assert StageIn(CheckEntries(es).value, id) == StageOf(es, id);
      if id in m.entries {
        assert StatusAgrees(v', m.entries[id], id, t);
      }
    }
  }
}
