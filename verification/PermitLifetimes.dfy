/** How long a permit for an origin lasts, and what ends it. */
module PermitLifetimes {
  import opened Prelude
  import opened Runs
  import opened Coordinator

  // ---------------------------------------------------------------------------------------
  // Who is granted a permit

  /** The permits of an origin that have not run out. */
  function Live(t: Tables, origin: string, now: Instant): set<PermitId> {
    set id | id in t.permits && t.permits[id].origin == origin && t.permits[id].expiresAt > now
  }

  predicate OriginIsFree(t: Tables, origin: string, now: Instant) {
    if origin in t.nextAllowed then t.nextAllowed[origin] <= now else 0 <= now
  }

  predicate IsTaken(t: Tables, id: PermitId, now: Instant) {
    id in t.permits && t.permits[id].expiresAt > now
  }

  lemma LiveRows(t: Tables, origin: string, now: Instant)
    ensures Rows(Unexpired(t.permits, now), origin) == Live(t, origin, now)
  {
  }

  /** A permit is granted exactly when the origin is free again, fewer than the allowed number of its
      permits run, the worker is registered and the identity is not in use; otherwise a busy origin
      gives no permit, and the insert of a free one breaks a constraint. */
  lemma GrantedIff(t: Tables, origin: string, workerId: string, o: Options, now: Instant)
    ensures var answer, free := AcquireVerdict(t, origin, workerId, o, now),
                                OriginIsFree(t, origin, now) && |Live(t, origin, now)| < o.maxConcurrency;
            var id := PermitId(origin + ":" + workerId, now);
            && (answer.Granted? <==> free && workerId in t.workers && !IsTaken(t, id, now))
            && (answer.Busy? <==> !free)
            && (answer.Granted? ==> answer.permit == Permit(id, origin, workerId, now, now + o.leaseDurationMs))
  {
    LiveRows(t, origin, now);
  }

  /** An acquisition keeps the permits that run, drops those that have run out unless it is refused,
      and adds the one it grants. */
  lemma AcquireDropsTheExpired(t: Tables, origin: string, workerId: string, o: Options, now: Instant, id: PermitId)
    ensures var answer := AcquireVerdict(t, origin, workerId, o, now);
            var after := AfterAcquire(t, origin, workerId, o, now);
            && (IsTaken(t, id, now) ==> id in after.permits && after.permits[id] == t.permits[id])
            && (id in after.permits && !IsTaken(t, id, now) ==>
                  answer.Refused? || (answer.Granted? && after.permits[id] == answer.permit))
            && (answer.Granted? ==> answer.permit.id in after.permits)
            && after.workers == t.workers
  {
  }

  // ---------------------------------------------------------------------------------------
  // What ends a permit

  predicate IsStale(t: Tables, workerId: string, staleAfterMs: int, now: Instant) {
    workerId in t.workers && t.workers[workerId].status == Active && now - t.workers[workerId].heartbeatAt > staleAfterMs
  }

  /** A call that takes a worker its permit. */
  ghost predicate Ends(t: Tables, a: Timed, id: PermitId, workerId: string)
    requires id in t.permits
  {
    match a.call
    case ReleasePermit(i, w) => i == id && w == workerId
    case Stop(w, _) => w == workerId
    case RecoverStale(ms) => IsStale(t, workerId, ms, a.at)
    case Acquire(origin, w, o) =>
      var answer := AcquireVerdict(t, origin, w, o, a.at);
      t.permits[id].expiresAt <= a.at && !answer.Refused? && !(answer.Granted? && answer.permit.id == id && w == workerId)
    case _ => false
  }

  lemma AcquireEndsIff(
      t: Tables, origin: string, w: string, o: Options, now: Instant, id: PermitId, workerId: string)
    requires Owns(t, id, workerId)
    ensures !Owns(AfterAcquire(t, origin, w, o, now), id, workerId) <==> Ends(t, Timed(now, Acquire(origin, w, o)), id, workerId)
  {
    AcquireDropsTheExpired(t, origin, w, o, now, id);
  }

  lemma RecoveryEndsIff(t: Tables, staleAfterMs: int, now: Instant, id: PermitId, workerId: string)
    requires Owns(t, id, workerId)
    ensures !Owns(AfterRecovery(t, now - staleAfterMs), id, workerId) <==> IsStale(t, workerId, staleAfterMs, now)
  {
  }

  /** A worker loses a permit exactly by giving it back, by stopping, by recovery when its last
      heartbeat is too long ago, or by an acquisition after the permit has run out. */
  lemma PermitEndsIff(t: Tables, a: Timed, id: PermitId, workerId: string)
    requires Owns(t, id, workerId)
    ensures !Owns(TablesAfter(t, a), id, workerId) <==> Ends(t, a, id, workerId)
  {
    match a.call {
      case RecoverStale(ms) => RecoveryEndsIff(t, ms, a.at, id, workerId);
      case Acquire(origin, w, o) => AcquireEndsIff(t, origin, w, o, a.at, id, workerId);
      case _ =>
    }
  }

  /** Recovery marks exactly the active workers whose last heartbeat is too long ago. */
  lemma RecoveryMarksTheStale(t: Tables, staleAfterMs: int, now: Instant, workerId: string)
    requires workerId in t.workers
    ensures var after := TablesAfter(t, Timed(now, RecoverStale(staleAfterMs)));
            var was := t.workers[workerId];
            && after.workers.Keys == t.workers.Keys
            && after.workers[workerId] == if IsStale(t, workerId, staleAfterMs, now)
                                          then Worker(was.runId, was.startedAt, was.heartbeatAt, Stale) else was
  {
  }

  /** A worker that has just shown itself is not stale for as long as it is allowed to be silent. */
  lemma HeartbeatProtects(t: Tables, a: Timed, staleAfterMs: int, now: Instant)
    requires a.call.Register? || (a.call.Heartbeat? && a.call.workerId in t.workers)
    ensures IsStale(TablesAfter(t, a), a.call.workerId, staleAfterMs, now) <==> a.at + staleAfterMs < now
    ensures TablesAfter(t, a).permits == t.permits
    ensures var w, was := TablesAfter(t, a).workers[a.call.workerId], t.workers;
            if a.call.workerId in was
            then w.runId == was[a.call.workerId].runId && w.startedAt == was[a.call.workerId].startedAt
            else a.call.Register? && w.runId == a.call.runId && w.startedAt == a.at
  {
  }

  // ---------------------------------------------------------------------------------------
  // How long it lasts

  ghost predicate HeldUntil(t: Tables, id: PermitId, workerId: string, until: Instant) {
    Owns(t, id, workerId) && t.permits[id].expiresAt >= until
  }

  /** The worker neither gives the permit up nor cuts it short, recovery does not find it stale, and
      whoever acquires does so before the permit runs out. */
  ghost predicate Spares(t: Tables, a: Timed, id: PermitId, workerId: string, until: Instant) {
    match a.call
    case ReleasePermit(i, w) => i != id || w != workerId
    case Stop(w, _) => w != workerId
    case RecoverStale(ms) => !IsStale(t, workerId, ms, a.at)
    case Acquire(_, _, _) => a.at < until
    case Renew(i, w, ms) => i != id || w != workerId || until <= a.at + ms
    case _ => true
  }

  ghost predicate AllSpare(w: World, actions: seq<Timed>, id: PermitId, workerId: string, until: Instant)
    decreases actions
  {
    |actions| > 0 ==>
      && Spares(w.tables, actions[0], id, workerId, until)
      && AllSpare(Do(w, actions[0]).value, actions[1..], id, workerId, until)
  }

  lemma SparedIsHeld(t: Tables, a: Timed, id: PermitId, workerId: string, until: Instant)
    requires HeldUntil(t, id, workerId, until) && Spares(t, a, id, workerId, until)
    ensures HeldUntil(TablesAfter(t, a), id, workerId, until)
    ensures TablesAfter(t, a).permits[id].origin == t.permits[id].origin
  {
    PermitEndsIff(t, a, id, workerId);
    if a.call.Acquire? {
      AcquireDropsTheExpired(t, a.call.origin, a.call.workerId, a.call.options, a.at, id);
    }
  }

  /** A permit is owned until it runs out. */
  lemma {:induction false} PermitLasts(
      w: World, actions: seq<Timed>, w': World, id: PermitId, workerId: string, until: Instant)
    requires HeldUntil(w.tables, id, workerId, until)
    requires Reaches(Do, w, actions, w') && AllSpare(w, actions, id, workerId, until)
    ensures HeldUntil(w'.tables, id, workerId, until)
    ensures w'.tables.permits[id].origin == w.tables.permits[id].origin
    decreases actions
  {
    if |actions| > 0 {
      SparedIsHeld(w.tables, actions[0], id, workerId, until);
      PermitLasts(Do(w, actions[0]).value, actions[1..], w', id, workerId, until);
    }
  }

  /** It runs for the time asked for from its grant, and from its every renewal. */
  lemma GrantAndRenewalLast(t: Tables, a: Timed, workerId: string)
    ensures IsGrant(t, a) && a.call.workerId == workerId ==>
              HeldUntil(TablesAfter(t, a), PermitId(a.call.origin + ":" + workerId, a.at), workerId,
                        a.at + a.call.options.leaseDurationMs)
    ensures a.call.Renew? && a.call.workerId == workerId && Owns(t, a.call.id, workerId) ==>
              HeldUntil(TablesAfter(t, a), a.call.id, workerId, a.at + a.call.leaseDurationMs)
  {
  }

  /** While a permit runs, nobody who allows one permit for the origin is granted another: a worker
      that goes on renewing its permit has the origin to itself. */
  lemma HolderExcludesOthers(
      w: World, actions: seq<Timed>, w': World, id: PermitId, workerId: string, until: Instant, a: Timed)
    requires HeldUntil(w.tables, id, workerId, until)
    requires Reaches(Do, w, actions, w') && AllSpare(w, actions, id, workerId, until)
    requires a.call.Acquire? && a.call.options.maxConcurrency <= 1 && a.at < until
    requires w.tables.permits[id].origin == a.call.origin
    ensures !IsGrant(w'.tables, a)
  {
    PermitLasts(w, actions, w', id, workerId, until);
    GrantedIff(w'.tables, a.call.origin, a.call.workerId, a.call.options, a.at);
    assert id in Live(w'.tables, a.call.origin, a.at);
  }

  // ---------------------------------------------------------------------------------------
  // Spacing

  lemma OriginNeverSooner(t: Tables, a: Timed, origin: string)
    requires origin in t.nextAllowed
    ensures origin in TablesAfter(t, a).nextAllowed && t.nextAllowed[origin] <= TablesAfter(t, a).nextAllowed[origin]
  {
  }

  lemma {:induction false} OriginStaysClosed(w: World, actions: seq<Timed>, w': World, origin: string)
    requires Reaches(Do, w, actions, w') && origin in w.tables.nextAllowed
    ensures origin in w'.tables.nextAllowed && w.tables.nextAllowed[origin] <= w'.tables.nextAllowed[origin]
    decreases actions
  {
    if |actions| > 0 {
      OriginNeverSooner(w.tables, actions[0], origin);
      OriginStaysClosed(Do(w, actions[0]).value, actions[1..], w', origin);
    }
  }

  /** Whatever happens between two grants of one origin, whoever asks for them, the second comes no
      sooner than the delay that the first asked for. */
  lemma SecondGrantWaits(w: World, a: Timed, actions: seq<Timed>, w': World, b: Timed)
    requires IsGrant(w.tables, a) && Reaches(Do, Do(w, a).value, actions, w') && IsGrant(w'.tables, b)
    requires a.call.origin == b.call.origin
    ensures b.at >= a.at + a.call.options.minDelayMs
    ensures Do(w', b).value.grants == w'.grants + [Grant(b.call.origin, b.at, b.call.options.minDelayMs)]
  {
    OriginStaysClosed(Do(w, a).value, actions, w', a.call.origin);
    GrantedIff(w'.tables, b.call.origin, b.call.workerId, b.call.options, b.at);
  }
}
