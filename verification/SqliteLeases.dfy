/** Leases of the SQLite frontier over whole runs (src/frontier/backends/sqlite-lease-repository.ts). */
module SqliteLeases {
  import opened Prelude
  import opened Requests
  import opened SqliteTable
  import opened SqliteFrontier
  import opened Runs

  datatype Database = Database(now: Instant, rows: Table)

  datatype Act =
    | Tick(t: Instant)
    | InsertOne(request: Request)
    | Recover
    | ClaimRow(row: nat, duration: nat)
    | RenewOne(lease: Lease, duration: nat)
    | Change(lease: Lease, state: RowState, reason: Option<string>)

  /** Only rows on the ready list are ever claimed. */
  function Do(d: Database, a: Act): Option<Database> {
    match a
    case Tick(t) => if d.now <= t then Some(d.(now := t)) else None
    case InsertOne(r) => Some(d.(rows := Insert(d.rows, r)))
    case Recover => Some(d.(rows := RecoverExpired(d.rows, d.now)))
    case ClaimRow(i, duration) =>
      if i < |d.rows| && Ready(d.rows[i], d.now) then
        var r := d.rows[i].request;
        Some(d.(rows := Claim(d.rows, Lease(LeaseId(r.id, d.now), r, d.now, d.now + duration)).0))
      else None
    case RenewOne(lease, duration) => Some(d.(rows := Renew(d.rows, lease, d.now + duration).0))
    case Change(lease, state, reason) =>
      if state == InProgress then None else Some(d.(rows := Transition(d.rows, lease, state, reason, d.now).0))
  }

  lemma InsertKeepsRows(t: Table, r: Request)
    requires UniqueIds(t)
    ensures var t' := Insert(t, r); UniqueIds(t') && |t| <= |t'| && t'[..|t|] == t
  {
    if !KeyTaken(t, r) {
      assert Insert(t, r)[..|t|] == t;
    }
  }

  lemma RequestsStay(d: Database, a: Act)
    requires UniqueIds(d.rows) && Do(d, a).Some? && !a.InsertOne?
    ensures var d' := Do(d, a).value;
            |d.rows| == |d'.rows| && forall i :: 0 <= i < |d.rows| ==> d'.rows[i].request == d.rows[i].request
  {
  }

  /** The row of a request stays where it is, with the request it was inserted for. */
  lemma RowsStay(d: Database, a: Act, id: RequestId)
    requires UniqueIds(d.rows) && Do(d, a).Some?
    ensures var d' := Do(d, a).value;
            && UniqueIds(d'.rows)
            && |d.rows| <= |d'.rows|
            && (forall i :: 0 <= i < |d.rows| ==> d'.rows[i].request == d.rows[i].request)
            && (RowOf(d.rows, id).Some? ==> RowOf(d'.rows, id) == RowOf(d.rows, id))
  {
    var d' := Do(d, a).value;
    if a.InsertOne? {
      InsertKeepsRows(d.rows, a.request);
      assert forall i :: 0 <= i < |d.rows| ==> d'.rows[i] == d'.rows[..|d.rows|][i];
    } else {
      RequestsStay(d, a);
    }
    if RowOf(d.rows, id).Some? {
      RowIsFound(d'.rows, RowOf(d.rows, id).value);
    }
  }

  ghost predicate Over(d: Database, lease: Lease) {
    && lease.leaseId.requestId == lease.request.id
    && !Honours(d.rows, lease)
    && lease.leaseId.leasedAt < d.now
  }

  /** What any statement can do to one row: leave its lease alone, take it for a lease of this very
      moment, or end its lease. */
  lemma RowAfter(d: Database, a: Act, j: nat)
    requires UniqueIds(d.rows) && Do(d, a).Some? && j < |d.rows| <= |Do(d, a).value.rows|
    ensures var before, after := d.rows[j], Do(d, a).value.rows[j];
            || (after.state == before.state && after.leaseId == before.leaseId)
            || after.leaseId == Some(LeaseId(before.request.id, d.now))
            || after.state != InProgress
  {
    if a.InsertOne? {
      InsertKeepsRows(d.rows, a.request);
      assert Do(d, a).value.rows[j] == Do(d, a).value.rows[..|d.rows|][j];
    } else if a.ClaimRow? {
      RowIsFound(d.rows, a.row);
    }
  }

  /** A row that was not there before is not leased. */
  lemma NewRowIsPending(d: Database, a: Act, i: nat)
    requires UniqueIds(d.rows) && Do(d, a).Some? && |d.rows| <= i < |Do(d, a).value.rows|
    ensures Do(d, a).value.rows[i].state == Pending
  {
  }

  lemma StepKeepsOver(d: Database, a: Act, lease: Lease)
    requires UniqueIds(d.rows) && Do(d, a).Some? && Over(d, lease)
    ensures Over(Do(d, a).value, lease)
  {
    var d' := Do(d, a).value;
    var found, found' := RowOf(d.rows, lease.request.id), RowOf(d'.rows, lease.request.id);
    RowsStay(d, a, lease.request.id);
    assert lease.leaseId != LeaseId(lease.request.id, d.now);
    if found.Some? {
      RowAfter(d, a, found.value);
    } else if found'.Some? {
      assert found'.value >= |d.rows|;
      NewRowIsPending(d, a, found'.value);
    }
  }

  /** A lease that was finished, released or reclaimed, once the clock has moved past its grant, is
      refused ever after. */
  lemma {:induction false} StaleLeasesAreRefused(d: Database, acts: seq<Act>, d': Database, lease: Lease)
    requires UniqueIds(d.rows) && Over(d, lease) && Reaches(Do, d, acts, d')
    ensures !Honours(d'.rows, lease)
    ensures forall expiresAt :: Renew(d'.rows, lease, expiresAt) == (d'.rows, false)
    ensures forall state, reason, now :: Transition(d'.rows, lease, state, reason, now) == (d'.rows, false)
    decreases acts
  {
    if |acts| > 0 {
      RowsStay(d, acts[0], lease.request.id);
      StepKeepsOver(d, acts[0], lease);
      StaleLeasesAreRefused(Do(d, acts[0]).value, acts[1..], d', lease);
    }
  }

  /** What ends a lease: its own completion or release, and the recovery of expired leases. */
  lemma EndedLeaseIsOver(d: Database, lease: Lease, state: RowState, reason: Option<string>)
    requires UniqueIds(d.rows) && lease.leaseId.requestId == lease.request.id
    requires Honours(d.rows, lease) && state != InProgress && lease.leaseId.leasedAt < d.now
    ensures Over(d.(rows := Transition(d.rows, lease, state, reason, d.now).0), lease)
    ensures Expired(d.rows[RowOf(d.rows, lease.request.id).value], d.now) ==>
              Over(d.(rows := RecoverExpired(d.rows, d.now)), lease)
  {
    var i := RowOf(d.rows, lease.request.id).value;
    RowIsFound(Transition(d.rows, lease, state, reason, d.now).0, i);
    RowIsFound(RecoverExpired(d.rows, d.now), i);
  }

  ghost predicate FinishedAt(d: Database, i: nat) { i < |d.rows| && d.rows[i].state.Done? }

  lemma StepKeepsFinished(d: Database, a: Act, i: nat)
    requires UniqueIds(d.rows) && FinishedAt(d, i) && Do(d, a).Some?
    ensures FinishedAt(Do(d, a).value, i) && Do(d, a).value.rows[i] == d.rows[i]
  {
    if a.InsertOne? {
      InsertKeepsRows(d.rows, a.request);
      assert Do(d, a).value.rows[i] == Do(d, a).value.rows[..|d.rows|][i];
    }
  }

  lemma {:induction false} FinishedIsFinal(d: Database, acts: seq<Act>, d': Database, i: nat)
    requires UniqueIds(d.rows) && FinishedAt(d, i) && Reaches(Do, d, acts, d')
    ensures FinishedAt(d', i) && d'.rows[i] == d.rows[i]
    decreases acts
  {
    if |acts| > 0 {
      RowsStay(d, acts[0], d.rows[i].request.id);
      StepKeepsFinished(d, acts[0], i);
      FinishedIsFinal(Do(d, acts[0]).value, acts[1..], d', i);
    }
  }

  // ---------------------------------------------------------------------------------------
  // Leases that come back

  ghost predicate Sound(d: Database) {
    && UniqueIds(d.rows) && d.now >= 0
    && forall i :: 0 <= i < |d.rows| ==>
         d.rows[i].availableAt <= d.now && (d.rows[i].state == InProgress ==> d.rows[i].leaseId.Some?)
  }

  lemma StepKeepsSound(d: Database, a: Act)
    requires Sound(d) && Do(d, a).Some?
    ensures Sound(Do(d, a).value)
  {
    if a.InsertOne? {
      InsertKeepsRows(d.rows, a.request);
    } else {
      RequestsStay(d, a);
    }
  }

  lemma {:induction false} RunKeepsSound(d: Database, acts: seq<Act>, d': Database)
    requires Sound(d) && Reaches(Do, d, acts, d')
    ensures Sound(d')
    decreases acts
  {
    if |acts| > 0 {
      StepKeepsSound(d, acts[0]);
      RunKeepsSound(Do(d, acts[0]).value, acts[1..], d');
    }
  }

  ghost predicate CanBeHonouredLater(d: Database, lease: Lease) {
    exists acts, d' :: Reaches(Do, d, acts, d') && Honours(d'.rows, lease)
  }

  lemma FinishedIsRefused(d: Database, acts: seq<Act>, d': Database, i: nat, lease: Lease)
    requires Sound(d) && FinishedAt(d, i) && d.rows[i].request.id == lease.request.id && Reaches(Do, d, acts, d')
    ensures !Honours(d'.rows, lease)
  {
    RunKeepsSound(d, acts, d');
    FinishedIsFinal(d, acts, d', i);
    RowIsFound(d'.rows, i);
  }

  /** The row is free, from now on or by the release of whatever lease it is under. */
  lemma FreeRow(d: Database, i: nat) returns (d': Database, acts: seq<Act>)
    requires Sound(d) && i < |d.rows| && !d.rows[i].state.Done?
    ensures Reaches(Do, d, acts, d') && Sound(d') && d'.now == d.now
    ensures i < |d'.rows| && Ready(d'.rows[i], d'.now) && d'.rows[i].request == d.rows[i].request
  {
    if d.rows[i].state.Pending? {
      d', acts := d, [];
    } else {
      var row := d.rows[i];
      RowIsFound(d.rows, i);
      var held := Lease(row.leaseId.value, row.request, 0, 0);
      var a := Change(held, Pending, None);
      d' := Do(d, a).value;
      StepKeepsSound(d, a);
      assert Reaches(Do, d', [], d');
      RunCons(Do, d, a, d', [], d');
      acts := [a] + [];
    }
  }

  lemma ClaimedRow(d: Database, i: nat, lease: Lease) returns (d': Database)
    requires Sound(d) && i < |d.rows| && Ready(d.rows[i], d.now)
    requires d.rows[i].request.id == lease.request.id && lease.leaseId == LeaseId(lease.request.id, d.now)
    ensures Do(d, ClaimRow(i, 0)) == Some(d') && Honours(d'.rows, lease)
  {
    d' := Do(d, ClaimRow(i, 0)).value;
    RowIsFound(d.rows, i);
    StepKeepsSound(d, ClaimRow(i, 0));
    RowIsFound(d'.rows, i);
  }

  lemma ComesBack(d: Database, i: nat, lease: Lease) returns (d': Database, acts: seq<Act>)
    requires Sound(d) && i < |d.rows| && d.rows[i].request.id == lease.request.id && !d.rows[i].state.Done?
    requires lease.leaseId.requestId == lease.request.id && d.now <= lease.leaseId.leasedAt
    ensures Reaches(Do, d, acts, d') && Honours(d'.rows, lease)
  {
    var tick := Tick(lease.leaseId.leasedAt);
    var ticked := Do(d, tick).value;
    StepKeepsSound(d, tick);
    var free, s1 := FreeRow(ticked, i);
    d' := ClaimedRow(free, i, lease);
    RunSnoc(Do, ticked, s1, free, ClaimRow(i, 0), d');
    RunCons(Do, d, tick, ticked, s1 + [ClaimRow(i, 0)], d');
    acts := [tick] + (s1 + [ClaimRow(i, 0)]);
  }

  /** A lease of a known request that is refused, in any reachable state, is honoured by some later
      state exactly when its millisecond is not over and its request is not finished. */
  lemma LeaseComesBackIff(t0: Instant, past: seq<Act>, d: Database, lease: Lease)
    requires t0 >= 0 && Reaches(Do, Database(t0, []), past, d)
    requires RowOf(d.rows, lease.request.id).Some?
    requires lease.leaseId.requestId == lease.request.id && !Honours(d.rows, lease)
    ensures CanBeHonouredLater(d, lease) <==>
              d.now <= lease.leaseId.leasedAt && !d.rows[RowOf(d.rows, lease.request.id).value].state.Done?
  {
    RunKeepsSound(Database(t0, []), past, d);
    var i := RowOf(d.rows, lease.request.id).value;
    if d.now <= lease.leaseId.leasedAt && !d.rows[i].state.Done? {
      var d', acts := ComesBack(d, i, lease);
    } else {
      forall acts, d' | Reaches(Do, d, acts, d') ensures !Honours(d'.rows, lease) {
        if d.now > lease.leaseId.leasedAt {
          StaleLeasesAreRefused(d, acts, d', lease);
        } else {
          FinishedIsRefused(d, acts, d', i, lease);
        }
      }
    }
  }

  lemma OneRowClaimed(d: Database, row: Row, duration: nat) returns (d': Database)
    requires d.rows == [row] && Ready(row, d.now)
    ensures Do(d, ClaimRow(0, duration)) == Some(d') && d'.now == d.now
    ensures d'.rows == [row.(state := InProgress, leaseId := Some(LeaseId(row.request.id, d.now)),
                             leaseExpiresAt := Some(d.now + duration))]
  {
    assert RowOf(d.rows, row.request.id) == Some(0);
    d' := Do(d, ClaimRow(0, duration)).value;
  }

  lemma OneRowReleased(d: Database, row: Row, lease: Lease) returns (d': Database)
    requires d.rows == [row] && row.state == InProgress && row.leaseId == Some(lease.leaseId) && row.request == lease.request
    ensures Do(d, Change(lease, Pending, None)) == Some(d') && d'.now == d.now
    ensures d'.rows == [Row(row.request, Pending, d.now, None, None, None)] && !Honours(d'.rows, lease)
  {
    assert RowOf(d.rows, row.request.id) == Some(0);
    d' := Do(d, Change(lease, Pending, None)).value;
    assert RowOf(d'.rows, row.request.id) == Some(0);
  }

  /** Insert, claim, release and claim, all in one millisecond: the lease that was released is
      refused in between and honoured in the end. */
  lemma SameMillisecondRevivesLease(r: Request, now: nat, duration: nat)
    returns (lease: Lease, before: seq<Act>, released: Database, again: Database)
    ensures lease == Lease(LeaseId(r.id, now), r, now, now + duration)
    ensures before == [InsertOne(r), ClaimRow(0, duration), Change(lease, Pending, None)]
    ensures Reaches(Do, Database(now, []), before, released) && !Honours(released.rows, lease)
    ensures Do(released, ClaimRow(0, duration)) == Some(again) && Honours(again.rows, lease) && again.now == now
  {
    lease := Lease(LeaseId(r.id, now), r, now, now + duration);
    var start := Database(now, []);
    var inserted := Do(start, InsertOne(r)).value;
    var claimed := OneRowClaimed(inserted, inserted.rows[0], duration);
    released := OneRowReleased(claimed, claimed.rows[0], lease);
    again := OneRowClaimed(released, released.rows[0], duration);
    assert RowOf(again.rows, r.id) == Some(0);
    before := [InsertOne(r), ClaimRow(0, duration), Change(lease, Pending, None)];
    RunThree(Do, start, InsertOne(r), inserted, ClaimRow(0, duration), claimed, Change(lease, Pending, None), released);
  }

  // ---------------------------------------------------------------------------------------
  // How long a lease lasts

  /** The row is leased under the given id until the given time. */
  ghost predicate HeldUntil(d: Database, i: nat, leaseId: LeaseId, until: Instant) {
    && UniqueIds(d.rows) && i < |d.rows|
    && d.rows[i].state == InProgress && d.rows[i].leaseId == Some(leaseId) && d.rows[i].leaseExpiresAt == Some(until)
  }

  /** The act is neither a renewal nor a change of state under this lease. */
  predicate LeavesAlone(a: Act, leaseId: LeaseId) {
    (a.RenewOne? || a.Change?) ==> a.lease.leaseId != leaseId
  }

  lemma ClaimHolds(d: Database, i: nat, duration: nat)
    requires UniqueIds(d.rows) && Do(d, ClaimRow(i, duration)).Some?
    ensures HeldUntil(Do(d, ClaimRow(i, duration)).value, i, LeaseId(d.rows[i].request.id, d.now), d.now + duration)
  {
    RowIsFound(d.rows, i);
    RequestsStay(d, ClaimRow(i, duration));
  }

  lemma RenewalHolds(d: Database, i: nat, lease: Lease, until: Instant, duration: nat)
    requires HeldUntil(d, i, lease.leaseId, until) && d.rows[i].request.id == lease.request.id
    ensures HeldUntil(Do(d, RenewOne(lease, duration)).value, i, lease.leaseId, d.now + duration)
  {
    RowIsFound(d.rows, i);
    RequestsStay(d, RenewOne(lease, duration));
  }

  lemma HeldRowStays(d: Database, a: Act, i: nat, leaseId: LeaseId, until: Instant)
    requires HeldUntil(d, i, leaseId, until) && Do(d, a).Some? && LeavesAlone(a, leaseId)
    requires d.now < until
    ensures HeldUntil(Do(d, a).value, i, leaseId, until)
  {
    RowsStay(d, a, d.rows[i].request.id);
    if a.InsertOne? {
      InsertKeepsRows(d.rows, a.request);
      assert Do(d, a).value.rows[i] == Do(d, a).value.rows[..|d.rows|][i];
    } else if a.ClaimRow? {
      RowIsFound(d.rows, a.row);
    }
  }

  lemma {:induction false} TimeRunsOn(d: Database, acts: seq<Act>, d': Database)
    requires Reaches(Do, d, acts, d')
    ensures d.now <= d'.now
    decreases acts
  {
    if |acts| > 0 {
      TimeRunsOn(Do(d, acts[0]).value, acts[1..], d');
    }
  }

  /** A leased row stays leased, and nobody can claim it, as long as the lease lasts and its holder
      does nothing with it. */
  lemma {:induction false} LeaseLasts(d: Database, acts: seq<Act>, d': Database, i: nat, lease: Lease, until: Instant)
    requires HeldUntil(d, i, lease.leaseId, until) && d.rows[i].request.id == lease.request.id
    requires Reaches(Do, d, acts, d') && d'.now < until
    requires forall k :: 0 <= k < |acts| ==> LeavesAlone(acts[k], lease.leaseId)
    ensures HeldUntil(d', i, lease.leaseId, until) && Honours(d'.rows, lease)
    ensures forall duration :: Do(d', ClaimRow(i, duration)) == None
    decreases acts
  {
    if |acts| > 0 {
      var next := Do(d, acts[0]).value;
      TimeRunsOn(next, acts[1..], d');
      assert LeavesAlone(acts[0], lease.leaseId);
      HeldRowStays(d, acts[0], i, lease.leaseId, until);
      RowsStay(d, acts[0], lease.request.id);
      LeaseLasts(next, acts[1..], d', i, lease, until);
    } else {
      RowIsFound(d.rows, i);
    }
  }

  /** A lease claimed at some time for some duration is honoured at every time before the end of that
      duration; one renewed, before the end of the renewal. */
  lemma ClaimLasts(d: Database, i: nat, duration: nat, acts: seq<Act>, d': Database)
    requires UniqueIds(d.rows) && Do(d, ClaimRow(i, duration)).Some?
    requires var leaseId := LeaseId(d.rows[i].request.id, d.now);
             && Reaches(Do, Do(d, ClaimRow(i, duration)).value, acts, d') && d'.now < d.now + duration
             && forall k :: 0 <= k < |acts| ==> LeavesAlone(acts[k], leaseId)
    ensures Honours(d'.rows, Lease(LeaseId(d.rows[i].request.id, d.now), d.rows[i].request, d.now, d.now + duration))
    ensures forall other :: Do(d', ClaimRow(i, other)) == None
  {
    var lease := Lease(LeaseId(d.rows[i].request.id, d.now), d.rows[i].request, d.now, d.now + duration);
    ClaimHolds(d, i, duration);
    RequestsStay(d, ClaimRow(i, duration));
    LeaseLasts(Do(d, ClaimRow(i, duration)).value, acts, d', i, lease, d.now + duration);
  }

  /** The next recovery at its end or later frees the row, and refuses the lease. */
  lemma RecoveryFrees(d: Database, i: nat, lease: Lease, until: Instant)
    requires HeldUntil(d, i, lease.leaseId, until) && d.rows[i].request.id == lease.request.id && until <= d.now
    ensures var d' := Do(d, Recover).value;
            && i < |d'.rows| && d'.rows[i].state == Pending && d'.rows[i].availableAt <= d.now
            && !Honours(d'.rows, lease) && forall duration :: Do(d', ClaimRow(i, duration)).Some?
  {
    RequestsStay(d, Recover);
    RowIsFound(Do(d, Recover).value.rows, i);
  }

  /** leaseNext recovers and then claims: its answer is that of two acts. */
  lemma LeaseNextIsTwoActs(d: Database, i: nat, duration: nat) returns (recovered: Database, d': Database)
    requires UniqueIds(d.rows) && i < |d.rows| && Ready(RecoverExpired(d.rows, d.now)[i], d.now)
    ensures Do(d, Recover) == Some(recovered) && recovered.rows == RecoverExpired(d.rows, d.now)
    ensures Do(recovered, ClaimRow(i, duration)) == Some(d')
    ensures var row := recovered.rows[i];
            d'.rows == recovered.rows[i := row.(state := InProgress, leaseId := Some(LeaseId(row.request.id, d.now)),
                                                leaseExpiresAt := Some(d.now + duration))]
  {
    recovered := Do(d, Recover).value;
    RequestsStay(d, Recover);
    RowIsFound(recovered.rows, i);
    d' := Do(recovered, ClaimRow(i, duration)).value;
  }

  /** What a change of state leaves in the row: the state and reason given, no lease, and the moment
      from which a released row can be claimed. */
  lemma ChangedRow(d: Database, i: nat, lease: Lease, state: RowState, reason: Option<string>)
    requires UniqueIds(d.rows) && i < |d.rows| && d.rows[i].request.id == lease.request.id && state != InProgress
    requires Honours(d.rows, lease)
    ensures var row := Do(d, Change(lease, state, reason)).value.rows;
            && |row| == |d.rows|
            && row[i] == Row(d.rows[i].request, state, if state == Pending then d.now else 0, None, None, reason)
  {
    RowIsFound(d.rows, i);
  }
}
