/** The permits that worker processes sharing one run take for an origin
    (src/workers/coordinator.ts). Each statement or transaction is one atomic step on the tables. */
module Coordinator {
  import opened Prelude
  import opened Runs

  type Instant = int

  datatype WorkerStatus = Active | Stopping | Stopped | Failed | Stale

  datatype Worker = Worker(runId: string, startedAt: Instant, heartbeatAt: Instant, status: WorkerStatus)

  /** The digest of origin, worker and clock reading, joined by colons. Only the joint text is
      hashed, so two pairs that join to the same text share an identity. */
  datatype PermitId = PermitId(joined: string, at: Instant)

  datatype Permit = Permit(id: PermitId, origin: string, workerId: string, acquiredAt: Instant, expiresAt: Instant)

  datatype Tables = Tables(workers: map<string, Worker>, permits: map<PermitId, Permit>, nextAllowed: map<string, Instant>)

  datatype Options = Options(maxConcurrency: nat, minDelayMs: nat, leaseDurationMs: int)

  datatype Acquired = Granted(permit: Permit) | Busy | Refused

  function IdFor(origin: string, workerId: string, now: Instant): PermitId {
    PermitId(origin + ":" + workerId, now)
  }

  function Rows(permits: map<PermitId, Permit>, origin: string): set<PermitId> {
    set id | id in permits && permits[id].origin == origin
  }

  function Unexpired(permits: map<PermitId, Permit>, now: Instant): map<PermitId, Permit> {
    map id | id in permits && permits[id].expiresAt > now :: permits[id]
  }

  function NextAllowed(t: Tables, origin: string): Instant {
    if origin in t.nextAllowed then t.nextAllowed[origin] else 0
  }

  function Without(permits: map<PermitId, Permit>, workerId: string): map<PermitId, Permit> {
    map id | id in permits && permits[id].workerId != workerId :: permits[id]
  }

  predicate Owns(t: Tables, id: PermitId, workerId: string) {
    id in t.permits && t.permits[id].workerId == workerId
  }

  function IsLate(w: Worker, cutoff: Instant): bool {
    w.status.Active? && w.heartbeatAt < cutoff
  }

  /** What acquireOrigin answers: an insert that breaks the primary or the foreign key is refused. */
  function AcquireVerdict(t: Tables, origin: string, workerId: string, o: Options, now: Instant): Acquired {
    var permits := Unexpired(t.permits, now);
    if NextAllowed(t, origin) > now || |Rows(permits, origin)| >= o.maxConcurrency then Busy
    else if IdFor(origin, workerId, now) in permits || workerId !in t.workers then Refused
    else Granted(Permit(IdFor(origin, workerId, now), origin, workerId, now, now + o.leaseDurationMs))
  }

  function AfterAcquire(t: Tables, origin: string, workerId: string, o: Options, now: Instant): Tables {
    match AcquireVerdict(t, origin, workerId, o, now)
    case Busy => t.(permits := Unexpired(t.permits, now))
    case Refused => t
    case Granted(p) =>
      t.(permits := Unexpired(t.permits, now)[p.id := p], nextAllowed := t.nextAllowed[origin := now + o.minDelayMs])
  }

  function AfterRecovery(t: Tables, cutoff: Instant): Tables {
    Tables(
      map w | w in t.workers :: if IsLate(t.workers[w], cutoff) then t.workers[w].(status := Stale) else t.workers[w],
      map id | id in t.permits && !(t.permits[id].workerId in t.workers && IsLate(t.workers[t.permits[id].workerId], cutoff))
        :: t.permits[id],
      t.nextAllowed)
  }

  function LateWorkers(t: Tables, cutoff: Instant): set<string> {
    set w | w in t.workers && IsLate(t.workers[w], cutoff)
  }

  function WithoutAll(permits: map<PermitId, Permit>, workerIds: set<string>): map<PermitId, Permit> {
    map id | id in permits && permits[id].workerId !in workerIds :: permits[id]
  }

  lemma OneMoreWithout(permits: map<PermitId, Permit>, workerIds: set<string>, w: string)
    ensures Without(WithoutAll(permits, workerIds), w) == WithoutAll(permits, workerIds + {w})
    ensures WithoutAll(permits, {}) == permits
  {
  }

  lemma LateLosePermits(t: Tables, cutoff: Instant)
    ensures WithoutAll(t.permits, LateWorkers(t, cutoff)) == AfterRecovery(t, cutoff).permits
  {
  }

  /** FOREIGN KEY(worker_id), and the identity a row is stored under is its own. */
  ghost predicate Consistent(t: Tables) {
    forall id :: id in t.permits ==>
      var p := t.permits[id];
      p.id == id && p.workerId in t.workers && id == IdFor(p.origin, p.workerId, p.acquiredAt)
  }

  class SqliteWorkerCoordinator {
    var tables: Tables

    constructor ()
      ensures tables == Tables(map[], map[], map[]) && Consistent(tables)
    {
      tables := Tables(map[], map[], map[]);
    }

    method Register(workerId: string, runId: string, now: Instant)
      requires Consistent(tables)
      modifies this
      ensures Consistent(tables)
      ensures tables == TablesAfter(old(tables), Timed(now, Call.Register(workerId, runId)))
    {
      var row := if workerId in tables.workers then tables.workers[workerId].(heartbeatAt := now, status := Active)
                 else Worker(runId, now, now, Active);
      tables := tables.(workers := tables.workers[workerId := row]);
    }

    method Heartbeat(workerId: string, now: Instant) returns (registered: bool)
      requires Consistent(tables)
      modifies this
      ensures Consistent(tables)
      ensures registered <==> workerId in old(tables).workers
      ensures tables == TablesAfter(old(tables), Timed(now, Call.Heartbeat(workerId)))
    {
      registered := workerId in tables.workers;
      if registered {
        tables := tables.(workers := tables.workers[
          workerId := tables.workers[workerId].(heartbeatAt := now, status := Active)]);
      }
    }

    method Stop(workerId: string, status: WorkerStatus, now: Instant)
      requires Consistent(tables) && !status.Active? && !status.Stale?
      modifies this
      ensures Consistent(tables)
      ensures tables == TablesAfter(old(tables), Timed(now, Call.Stop(workerId, status)))
    {
      if workerId in tables.workers {
        tables := tables.(workers := tables.workers[
          workerId := tables.workers[workerId].(heartbeatAt := now, status := status)]);
      }
      tables := tables.(permits := Without(tables.permits, workerId));
    }

    method RecoverStale(staleAfterMs: int, now: Instant) returns (count: nat)
      requires Consistent(tables)
      modifies this
      ensures Consistent(tables)
      ensures tables == TablesAfter(old(tables), Timed(now, Call.RecoverStale(staleAfterMs)))
      ensures count == |LateWorkers(old(tables), now - staleAfterMs)|
    {
      var cutoff := now - staleAfterMs;
      var stale := LateWorkers(tables, cutoff);
      ghost var was := tables;
      var rest := stale;
      assert WithoutAll(was.permits, stale - rest) == was.permits;
      while rest != {}
        invariant rest <= stale && tables == was.(permits := WithoutAll(was.permits, stale - rest))
        decreases |rest|
      {
        var w :| w in rest;
        OneMoreWithout(was.permits, stale - rest, w);
        assert stale - rest + {w} == stale - (rest - {w});
        rest := rest - {w};
        tables := tables.(permits := Without(tables.permits, w));
      }
      count := |stale|;
      tables := tables.(workers := map w | w in tables.workers ::
        if IsLate(tables.workers[w], cutoff) then tables.workers[w].(status := Stale) else tables.workers[w]);
      assert stale - {} == stale;
      LateLosePermits(was, cutoff);
    }

    /** BEGIN IMMEDIATE ... COMMIT, and ROLLBACK when a constraint fails. */
    method AcquireOrigin(origin: string, workerId: string, options: Options, now: Instant) returns (answer: Acquired)
      requires Consistent(tables)
      modifies this
      ensures Consistent(tables)
      ensures answer == AcquireVerdict(old(tables), origin, workerId, options, now)
      ensures tables == TablesAfter(old(tables), Timed(now, Acquire(origin, workerId, options)))
      ensures answer.Refused? ==> tables == old(tables)
    {
      var begun := tables;
      tables := tables.(permits := Unexpired(tables.permits, now));
      var active := set id | id in Rows(tables.permits, origin) && tables.permits[id].expiresAt > now;
      assert active == Rows(tables.permits, origin);
      if NextAllowed(tables, origin) > now || |active| >= options.maxConcurrency {
        return Busy;
      }
      var permit := Permit(IdFor(origin, workerId, now), origin, workerId, now, now + options.leaseDurationMs);
      if permit.id in tables.permits || workerId !in tables.workers {
        tables := begun;
        return Refused;
      }
      tables := tables.(permits := tables.permits[permit.id := permit]);
      tables := tables.(nextAllowed := tables.nextAllowed[origin := now + options.minDelayMs]);
      return Granted(permit);
    }

    method RenewOrigin(permit: Permit, leaseDurationMs: int, now: Instant) returns (renewed: Option<Permit>)
      requires Consistent(tables)
      modifies this
      ensures Consistent(tables)
      ensures renewed == if Owns(old(tables), permit.id, permit.workerId) then Some(permit.(expiresAt := now + leaseDurationMs))
                         else None
      ensures renewed.None? ==> tables == old(tables)
      ensures tables == TablesAfter(old(tables), Timed(now, Renew(permit.id, permit.workerId, leaseDurationMs)))
    {
      if !Owns(tables, permit.id, permit.workerId) {
        return None;
      }
      tables := tables.(permits := tables.permits[
        permit.id := tables.permits[permit.id].(expiresAt := now + leaseDurationMs)]);
      return Some(permit.(expiresAt := now + leaseDurationMs));
    }

    method ReleaseOrigin(permit: Permit, now: Instant)
      requires Consistent(tables)
      modifies this
      ensures Consistent(tables)
      ensures tables == TablesAfter(old(tables), Timed(now, ReleasePermit(permit.id, permit.workerId)))
    {
      tables := tables.(permits := map id |
        id in tables.permits && !(id == permit.id && tables.permits[id].workerId == permit.workerId) :: tables.permits[id]);
    }
  }

  // ---------------------------------------------------------------------------------------
  // Runs of any number of processes

  datatype Call =
    | Register(workerId: string, runId: string)
    | Heartbeat(workerId: string)
    | Stop(workerId: string, status: WorkerStatus)
    | RecoverStale(staleAfterMs: int)
    | Acquire(origin: string, workerId: string, options: Options)
    | Renew(id: PermitId, workerId: string, leaseDurationMs: int)
    | ReleasePermit(id: PermitId, workerId: string)

  datatype Timed = Timed(at: Instant, call: Call)

  datatype Grant = Grant(origin: string, at: Instant, minDelayMs: nat)

  datatype World = World(tables: Tables, grants: seq<Grant>)

  function SetStatus(workers: map<string, Worker>, w: string, now: Instant, status: WorkerStatus): map<string, Worker> {
    if w in workers then workers[w := workers[w].(heartbeatAt := now, status := status)] else workers
  }

  function TablesAfter(t: Tables, a: Timed): Tables {
    match a.call
    case Register(w, runId) =>
      t.(workers := if w in t.workers then SetStatus(t.workers, w, a.at, Active)
                    else t.workers[w := Worker(runId, a.at, a.at, Active)])
    case Heartbeat(w) => t.(workers := SetStatus(t.workers, w, a.at, Active))
    case Stop(w, status) => t.(workers := SetStatus(t.workers, w, a.at, status), permits := Without(t.permits, w))
    case RecoverStale(ms) => AfterRecovery(t, a.at - ms)
    case Acquire(origin, w, o) => AfterAcquire(t, origin, w, o, a.at)
    case Renew(id, w, ms) =>
      if Owns(t, id, w) then t.(permits := t.permits[id := t.permits[id].(expiresAt := a.at + ms)]) else t
    case ReleasePermit(id, w) =>
      t.(permits := map i | i in t.permits && !(i == id && t.permits[i].workerId == w) :: t.permits[i])
  }

  predicate IsGrant(t: Tables, a: Timed) {
    a.call.Acquire? && AcquireVerdict(t, a.call.origin, a.call.workerId, a.call.options, a.at).Granted?
  }

  /** The clocks of the processes need not agree: any call may come at any instant. */
  function Do(w: World, a: Timed): Option<World> {
    Some(World(TablesAfter(w.tables, a),
               if IsGrant(w.tables, a) then w.grants + [Grant(a.call.origin, a.at, a.call.options.minDelayMs)] else w.grants))
  }

  function Start(): World {
    World(Tables(map[], map[], map[]), [])
  }

  /** Every process was configured with at most this many permits for an origin. */
  ghost predicate Within(actions: seq<Timed>, max: nat) {
    forall i :: 0 <= i < |actions| && actions[i].call.Acquire? ==> actions[i].call.options.maxConcurrency <= max
  }

  /** The id kept by a row, and the worker it was given to, determine its origin. */
  lemma JoinedOnce(o: string, p: string, w: string)
    requires o + ":" + w == p + ":" + w
    ensures o == p
  {
    assert |o| == |p|;
    assert o == (o + ":" + w)[..|o|] && p == (p + ":" + w)[..|p|];
  }

  lemma FewerRows(smaller: map<PermitId, Permit>, larger: map<PermitId, Permit>, origin: string)
    requires forall id :: id in smaller ==> id in larger && smaller[id].origin == larger[id].origin
    ensures |Rows(smaller, origin)| <= |Rows(larger, origin)|
  {
    var a, b := Rows(smaller, origin), Rows(larger, origin);
    assert b == a + (b - a);
  }

  lemma StepKeepsConsistent(t: Tables, a: Timed)
    requires Consistent(t)
    ensures Consistent(TablesAfter(t, a))
  {
  }

  lemma GrantKeepsRows(t: Tables, origin: string, workerId: string, o: Options, now: Instant, other: string)
    requires AcquireVerdict(t, origin, workerId, o, now).Granted?
    ensures var after := AfterAcquire(t, origin, workerId, o, now).permits;
            |Rows(after, other)| <= if other == origin then o.maxConcurrency else |Rows(t.permits, other)|
  {
    var permits := Unexpired(t.permits, now);
    var p := AcquireVerdict(t, origin, workerId, o, now).permit;
    FewerRows(permits, t.permits, other);
    OneMoreRow(permits, p, other);
  }

  lemma OneMoreRow(permits: map<PermitId, Permit>, p: Permit, origin: string)
    requires p.id !in permits
    ensures |Rows(permits[p.id := p], origin)| == |Rows(permits, origin)| + if p.origin == origin then 1 else 0
  {
    assert Rows(permits[p.id := p], origin) == Rows(permits, origin) + if p.origin == origin then {p.id} else {};
  }

  lemma NoGrantKeepsRows(t: Tables, a: Timed)
    requires !IsGrant(t, a)
    ensures forall id :: id in TablesAfter(t, a).permits ==>
              id in t.permits && TablesAfter(t, a).permits[id].origin == t.permits[id].origin
  {
  }

  lemma StepKeepsRows(t: Tables, a: Timed, max: nat, origin: string)
    requires |Rows(t.permits, origin)| <= max
    requires a.call.Acquire? ==> a.call.options.maxConcurrency <= max
    ensures |Rows(TablesAfter(t, a).permits, origin)| <= max
  {
    if IsGrant(t, a) {
      GrantKeepsRows(t, a.call.origin, a.call.workerId, a.call.options, a.at, origin);
    } else {
      NoGrantKeepsRows(t, a);
      FewerRows(TablesAfter(t, a).permits, t.permits, origin);
    }
  }

  lemma {:induction false} RunKeepsRows(w: World, actions: seq<Timed>, w': World, max: nat, origin: string)
    requires Reaches(Do, w, actions, w') && Within(actions, max)
    requires Consistent(w.tables) && |Rows(w.tables.permits, origin)| <= max
    ensures Consistent(w'.tables) && |Rows(w'.tables.permits, origin)| <= max
    decreases actions
  {
    if |actions| > 0 {
      StepKeepsConsistent(w.tables, actions[0]);
      StepKeepsRows(w.tables, actions[0], max, origin);
      RunKeepsRows(Do(w, actions[0]).value, actions[1..], w', max, origin);
    }
  }

  /** No origin ever has more permit rows than the limit, expired ones included; so a renewal that
      brings an expired permit back to life cannot exceed it either. */
  lemma PermitsStayWithinLimit(actions: seq<Timed>, w: World, max: nat, origin: string)
    requires Reaches(Do, Start(), actions, w) && Within(actions, max)
    ensures |Rows(w.tables.permits, origin)| <= max
    ensures Consistent(w.tables)
  {
    assert Rows(map[], origin) == {};
    RunKeepsRows(Start(), actions, w, max, origin);
  }

  // ---------------------------------------------------------------------------------------
  // Grants are spaced

  ghost predicate Spaced(w: World) {
    && (forall i, j :: 0 <= i < j < |w.grants| && w.grants[i].origin == w.grants[j].origin ==>
          w.grants[j].at >= w.grants[i].at + w.grants[i].minDelayMs)
    && (forall i :: 0 <= i < |w.grants| ==>
          w.grants[i].origin in w.tables.nextAllowed &&
          w.tables.nextAllowed[w.grants[i].origin] >= w.grants[i].at + w.grants[i].minDelayMs)
  }

  lemma StepKeepsSpaced(w: World, a: Timed)
    requires Spaced(w)
    ensures Spaced(Do(w, a).value)
  {
  }

  lemma {:induction false} RunKeepsSpaced(w: World, actions: seq<Timed>, w': World)
    requires Reaches(Do, w, actions, w') && Spaced(w)
    ensures Spaced(w')
    decreases actions
  {
    if |actions| > 0 {
      StepKeepsSpaced(w, actions[0]);
      RunKeepsSpaced(Do(w, actions[0]).value, actions[1..], w');
    }
  }

  /** Any two grants of one origin are at least the delay of the earlier one apart, whichever
      processes asked and however their clocks run. */
  lemma GrantsAreSpaced(actions: seq<Timed>, w: World, i: nat, j: nat)
    requires Reaches(Do, Start(), actions, w)
    requires i < j < |w.grants| && w.grants[i].origin == w.grants[j].origin
    ensures w.grants[j].at >= w.grants[i].at + w.grants[i].minDelayMs
  {
    RunKeepsSpaced(Start(), actions, w);
  }

  // ---------------------------------------------------------------------------------------
  // A permit that is gone stays gone

  /** The worker has no row under this identity and no later grant can create it again. */
  ghost predicate Gone(t: Tables, origin: string, workerId: string, at: Instant) {
    && Consistent(t)
    && !Owns(t, IdFor(origin, workerId, at), workerId)
    && NextAllowed(t, origin) > at
  }

  lemma GoneStaysGone(t: Tables, a: Timed, origin: string, workerId: string, at: Instant)
    requires Gone(t, origin, workerId, at)
    ensures Gone(TablesAfter(t, a), origin, workerId, at)
  {
    StepKeepsConsistent(t, a);
    if IsGrant(t, a) && a.call.workerId == workerId && IdFor(a.call.origin, workerId, a.at) == IdFor(origin, workerId, at) {
      JoinedOnce(a.call.origin, origin, workerId);
    }
  }

  lemma {:induction false} GoneForGood(
      w: World, actions: seq<Timed>, w': World, origin: string, workerId: string, at: Instant)
    requires Reaches(Do, w, actions, w') && Gone(w.tables, origin, workerId, at)
    ensures !Owns(w'.tables, IdFor(origin, workerId, at), workerId)
    decreases actions
  {
    if |actions| > 0 {
      GoneStaysGone(w.tables, actions[0], origin, workerId, at);
      GoneForGood(Do(w, actions[0]).value, actions[1..], w', origin, workerId, at);
    }
  }

  /** Every permit in the table was granted before its origin is next free. */
  ghost predicate Outdated(t: Tables) {
    Consistent(t) && forall id :: id in t.permits ==> NextAllowed(t, t.permits[id].origin) > t.permits[id].acquiredAt
  }

  ghost predicate Delayed(actions: seq<Timed>) {
    forall i :: 0 <= i < |actions| && actions[i].call.Acquire? ==> actions[i].call.options.minDelayMs > 0
  }

  lemma StepKeepsOutdated(t: Tables, a: Timed)
    requires Outdated(t) && (a.call.Acquire? ==> a.call.options.minDelayMs > 0)
    ensures Outdated(TablesAfter(t, a))
  {
    StepKeepsConsistent(t, a);
  }

  lemma DeletedIsGone(t: Tables, a: Timed, id: PermitId)
    requires Outdated(t) && id in t.permits && !Owns(TablesAfter(t, a), id, t.permits[id].workerId)
    ensures Gone(TablesAfter(t, a), t.permits[id].origin, t.permits[id].workerId, t.permits[id].acquiredAt)
  {
    StepKeepsConsistent(t, a);
  }

  lemma {:induction false} RunKeepsOutdated(w: World, actions: seq<Timed>, w': World)
    requires Reaches(Do, w, actions, w') && Delayed(actions) && Outdated(w.tables)
    ensures Outdated(w'.tables)
    decreases actions
  {
    if |actions| > 0 {
      StepKeepsOutdated(w.tables, actions[0]);
      RunKeepsOutdated(Do(w, actions[0]).value, actions[1..], w');
    }
  }

  /** When a positive delay is configured and a step deletes the row of a permit - it was released,
      its worker stopped or found stale, or it was cleaned up after expiry - then every later
      renewal of that permit fails, whatever the clocks show. */
  lemma LostPermitIsNeverRenewed(past: seq<Timed>, w: World, a: Timed, future: seq<Timed>, w': World, id: PermitId)
    requires Reaches(Do, Start(), past, w) && Delayed(past + [a])
    requires id in w.tables.permits
    requires var worker := w.tables.permits[id].workerId; !Owns(Do(w, a).value.tables, id, worker)
    requires Reaches(Do, Do(w, a).value, future, w')
    ensures !Owns(w'.tables, id, w.tables.permits[id].workerId)
  {
    assert Delayed(past) by {
      assert forall i :: 0 <= i < |past| ==> (past + [a])[i] == past[i];
    }
    assert (past + [a])[|past|] == a;
    RunKeepsOutdated(Start(), past, w);
    DeletedIsGone(w.tables, a, id);
    var p := w.tables.permits[id];
    GoneForGood(Do(w, a).value, future, w', p.origin, p.workerId, p.acquiredAt);
  }

  // ---------------------------------------------------------------------------------------
  // A permit that comes back

  lemma ReachableIsConsistent(past: seq<Timed>, w: World)
    requires Reaches(Do, Start(), past, w)
    ensures Consistent(w.tables)
  {
    ConsistentRun(Start(), past, w);
  }

  lemma {:induction false} ConsistentRun(w: World, actions: seq<Timed>, w': World)
    requires Reaches(Do, w, actions, w') && Consistent(w.tables)
    ensures Consistent(w'.tables)
    decreases actions
  {
    if |actions| > 0 {
      StepKeepsConsistent(w.tables, actions[0]);
      ConsistentRun(Do(w, actions[0]).value, actions[1..], w');
    }
  }

  /** The row under an identity is gone, whoever else may have it. */
  function Cleared(id: PermitId, t: Tables, at: Instant): seq<Timed> {
    if id in t.permits then [Timed(at, ReleasePermit(id, t.permits[id].workerId))] else []
  }

  lemma Clear(w: World, id: PermitId, at: Instant) returns (w': World)
    ensures Reaches(Do, w, Cleared(id, w.tables, at), w')
    ensures id !in w'.tables.permits && w'.tables.workers == w.tables.workers && w'.tables.nextAllowed == w.tables.nextAllowed
  {
    if id in w.tables.permits {
      var a := Timed(at, ReleasePermit(id, w.tables.permits[id].workerId));
      w' := Do(w, a).value;
      assert Reaches(Do, w', [], w');
      RunCons(Do, w, a, w', [], w');
      assert [a] + [] == [a];
    } else {
      w' := w;
    }
  }

  /** A grant under the identity, at its own instant, with a limit that leaves room for it. */
  lemma GrantAgain(w: World, origin: string, workerId: string, at: Instant) returns (a: Timed, w': World)
    requires IdFor(origin, workerId, at) !in w.tables.permits && workerId in w.tables.workers
    requires NextAllowed(w.tables, origin) <= at
    ensures a.at == at && Do(w, a) == Some(w') && Owns(w'.tables, IdFor(origin, workerId, at), workerId)
  {
    var room := |Rows(Unexpired(w.tables.permits, at), origin)| + 1;
    a := Timed(at, Acquire(origin, workerId, Options(room, 0, 10)));
    w' := Do(w, a).value;
  }

  lemma PermitReturns(w: World, origin: string, workerId: string, at: Instant) returns (future: seq<Timed>, w': World)
    requires workerId in w.tables.workers && NextAllowed(w.tables, origin) <= at
    ensures Reaches(Do, w, future, w') && Owns(w'.tables, IdFor(origin, workerId, at), workerId)
    ensures forall i :: 0 <= i < |future| ==> future[i].at == at
  {
    var id := IdFor(origin, workerId, at);
    var cleared := Clear(w, id, at);
    var a;
    a, w' := GrantAgain(cleared, origin, workerId, at);
    future := Cleared(id, w.tables, at) + [a];
    RunSnoc(Do, w, Cleared(id, w.tables, at), cleared, a, w');
  }

  /** The calls come in the order of one clock that shows from or later. */
  ghost predicate OnOneClock(actions: seq<Timed>, from: Instant) {
    && (forall i :: 0 <= i < |actions| ==> from <= actions[i].at)
    && (forall i, j :: 0 <= i < j < |actions| ==> actions[i].at <= actions[j].at)
  }

  ghost predicate CanBeOwnedAgain(w: World, id: PermitId, workerId: string) {
    exists future, w' :: Reaches(Do, w, future, w') && Owns(w'.tables, id, workerId)
  }

  ghost predicate CanBeOwnedAgainAfter(w: World, from: Instant, id: PermitId, workerId: string) {
    exists future, w' :: Reaches(Do, w, future, w') && OnOneClock(future, from) && Owns(w'.tables, id, workerId)
  }

  /** A permit whose row any step deletes is owned again in some continuation exactly when its
      origin was free again by the instant it was acquired: no delay was configured for it, and no
      later grant has moved the origin on. */
  lemma PermitReturnsIff(past: seq<Timed>, w: World, a: Timed, id: PermitId)
    requires Reaches(Do, Start(), past, w) && id in w.tables.permits
    requires !Owns(Do(w, a).value.tables, id, w.tables.permits[id].workerId)
    ensures var p, after := w.tables.permits[id], Do(w, a).value;
            CanBeOwnedAgain(after, id, p.workerId) <==> NextAllowed(after.tables, p.origin) <= p.acquiredAt
  {
    var p, after := w.tables.permits[id], Do(w, a).value;
    ReachableIsConsistent(past, w);
    StepKeepsConsistent(w.tables, a);
    if NextAllowed(after.tables, p.origin) <= p.acquiredAt {
      var future, w' := PermitReturns(after, p.origin, p.workerId, p.acquiredAt);
    } else {
      forall future, w' | Reaches(Do, after, future, w') ensures !Owns(w'.tables, id, p.workerId) {
        GoneForGood(after, future, w', p.origin, p.workerId, p.acquiredAt);
      }
    }
  }

  lemma {:induction false} TooLateForThisInstant(w: World, future: seq<Timed>, w': World, id: PermitId, workerId: string)
    requires Reaches(Do, w, future, w') && !Owns(w.tables, id, workerId)
    requires forall i :: 0 <= i < |future| ==> id.at < future[i].at
    ensures !Owns(w'.tables, id, workerId)
    decreases future
  {
    if |future| > 0 {
      NoSuchGrant(w.tables, future[0], id, workerId);
      TooLateForThisInstant(Do(w, future[0]).value, future[1..], w', id, workerId);
    }
  }

  lemma NoSuchGrant(t: Tables, a: Timed, id: PermitId, workerId: string)
    requires !Owns(t, id, workerId) && id.at < a.at
    ensures !Owns(TablesAfter(t, a), id, workerId)
  {
  }

  /** When all processes go by one clock, the deletion must also fall in the very millisecond. */
  lemma PermitReturnsOnOneClockIff(past: seq<Timed>, w: World, a: Timed, id: PermitId)
    requires Reaches(Do, Start(), past, w) && id in w.tables.permits
    requires !Owns(Do(w, a).value.tables, id, w.tables.permits[id].workerId)
    ensures var p, after := w.tables.permits[id], Do(w, a).value;
            CanBeOwnedAgainAfter(after, a.at, id, p.workerId) <==>
              NextAllowed(after.tables, p.origin) <= p.acquiredAt && a.at <= p.acquiredAt
  {
    var p, after := w.tables.permits[id], Do(w, a).value;
    ReachableIsConsistent(past, w);
    StepKeepsConsistent(w.tables, a);
    PermitReturnsIff(past, w, a, id);
    if NextAllowed(after.tables, p.origin) <= p.acquiredAt && a.at <= p.acquiredAt {
      var future, w' := PermitReturns(after, p.origin, p.workerId, p.acquiredAt);
      assert OnOneClock(future, a.at);
    } else if a.at > p.acquiredAt {
      forall future, w' | Reaches(Do, after, future, w') && OnOneClock(future, a.at) ensures !Owns(w'.tables, id, p.workerId) {
        TooLateForThisInstant(after, future, w', id, p.workerId);
      }
    }
  }

  /** Register, acquire, release and acquire, all at one instant and with no delay configured: the
      permit is granted, owned, lost, and owned again. */
  lemma WithoutDelayPermitReturns(worker: string, origin: string, now: nat)
    returns (register: Timed, acquire: Timed, release: Timed, granted: World, lost: World, again: World)
    ensures register == Timed(now, Register(worker, "run")) && acquire == Timed(now, Acquire(origin, worker, Options(1, 0, 10)))
    ensures release == Timed(now, ReleasePermit(IdFor(origin, worker, now), worker))
    ensures Reaches(Do, Start(), [register, acquire], granted)
    ensures IsGrant(Do(Start(), register).value.tables, acquire) && Owns(granted.tables, IdFor(origin, worker, now), worker)
    ensures Do(granted, release) == Some(lost) && !Owns(lost.tables, IdFor(origin, worker, now), worker)
    ensures Do(lost, acquire) == Some(again) && IsGrant(lost.tables, acquire)
    ensures Owns(again.tables, IdFor(origin, worker, now), worker)
  {
    register, acquire := Timed(now, Register(worker, "run")), Timed(now, Acquire(origin, worker, Options(1, 0, 10)));
    var id := IdFor(origin, worker, now);
    release := Timed(now, ReleasePermit(id, worker));
    var ready := Do(Start(), register).value;
    assert Rows(Unexpired(ready.tables.permits, now), origin) == {};
    granted := Do(ready, acquire).value;
    RunTwo(Do, Start(), register, ready, acquire, granted);
    lost := Do(granted, release).value;
    assert Rows(Unexpired(lost.tables.permits, now), origin) == {};
    again := Do(lost, acquire).value;
  }
}
