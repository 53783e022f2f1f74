/** The SQLite frontier backend, and why trying one head per origin finds what a scan of the whole
    ready list would (src/frontier/backends/sqlite-backend.ts). */
module SqliteFrontier {
  import opened Prelude
  import opened Requests
  import opened SqliteTable

  const CANDIDATE_LIMIT: nat := 128

  /** ROW_NUMBER() OVER (PARTITION BY origin ORDER BY ...) = 1 */
  predicate IsHead(t: Table, now: Instant, order: Order, i: nat)
    requires i < |t|
  {
    Ready(t[i], now) &&
    forall j :: 0 <= j < |t| && j != i && Ready(t[j], now) && t[j].request.origin == t[i].request.origin ==>
      Before(t, order, i, j)
  }

  function HeadsIn(t: Table, now: Instant, order: Order, xs: seq<nat>): (hs: seq<nat>)
    requires InTable(t, xs)
    ensures InTable(t, hs) && |hs| <= |xs|
    ensures forall x :: x in hs <==> x in xs && IsHead(t, now, order, x)
  {
    if |xs| == 0 then []
    else if IsHead(t, now, order, xs[0]) then [xs[0]] + HeadsIn(t, now, order, xs[1..])
    else HeadsIn(t, now, order, xs[1..])
  }

  /** The answer of readyCandidates without its LIMIT. */
  function Heads(t: Table, now: Instant, order: Order): (hs: seq<nat>)
    ensures InTable(t, hs)
  {
    HeadsIn(t, now, order, Ordered(t, now, order))
  }

  function AtMost(hs: seq<nat>, limit: nat): seq<nat> {
    if |hs| <= limit then hs else hs[..limit]
  }

  /** The first row on the list whose origin takes another request. */
  function FirstAccepted(t: Table, xs: seq<nat>, accepts: string -> bool): (r: Option<nat>)
    requires InTable(t, xs)
    ensures r.Some? ==> r.value in xs && r.value < |t| && accepts(t[r.value].request.origin)
    ensures r.None? ==> forall k :: 0 <= k < |xs| ==> !accepts(t[xs[k]].request.origin)
  {
    if |xs| == 0 then None
    else if accepts(t[xs[0]].request.origin) then Some(xs[0])
    else FirstAccepted(t, xs[1..], accepts)
  }

  /** What scanning every ready row in order would lease. */
  function FullScan(t: Table, now: Instant, order: Order, accepts: string -> bool): Option<nat> {
    FirstAccepted(t, Ordered(t, now, order), accepts)
  }

  /** What the bounded list of heads leads to. */
  function HeadScan(t: Table, now: Instant, order: Order, accepts: string -> bool): Option<nat> {
    var hs := AtMost(Heads(t, now, order), CANDIDATE_LIMIT);
    FirstAccepted(t, hs, accepts)
  }

  // ---------------------------------------------------------------------------------------

  ghost predicate UniqueIds(t: Table) {
    forall i, j :: 0 <= i < j < |t| ==> t[i].request.id != t[j].request.id
  }

  lemma RowIsFound(t: Table, i: nat)
    requires UniqueIds(t) && i < |t|
    ensures RowOf(t, t[i].request.id) == Some(i)
  {
  }

  /** What the scan of the heads has found so far: nothing. */
  lemma PassOver(t: Table, hs: seq<nat>, k: nat, accepts: string -> bool)
    requires InTable(t, hs) && k < |hs|
    ensures InTable(t, hs[k..]) && InTable(t, hs[k + 1..])
    ensures FirstAccepted(t, hs[k..], accepts) ==
            if accepts(t[hs[k]].request.origin) then Some(hs[k]) else FirstAccepted(t, hs[k + 1..], accepts)
  {
    assert hs[k..][1..] == hs[k + 1..];
  }

  class SqliteFrontierBackend {
    var rows: Table
    const order: Order
    const leaseDuration: nat

    ghost predicate Valid()
      reads this
    {
      UniqueIds(rows)
    }

    constructor (order: Order, leaseDuration: nat)
      ensures Valid() && rows == [] && this.order == order && this.leaseDuration == leaseDuration
    {
      this.order, this.leaseDuration, rows := order, leaseDuration, [];
    }

    method InsertRequest(request: Request) returns (inserted: bool)
      requires Valid()
      modifies this
      ensures Valid()
      ensures inserted <==> !KeyTaken(old(rows), request)
      ensures rows == Insert(old(rows), request)
    {
      inserted := !KeyTaken(rows, request);
      rows := Insert(rows, request);
    }

    function CreateLease(request: Request, now: Instant): Lease {
      Lease(LeaseId(request.id, now), request, now, now + leaseDuration)
    }

    /** A refused reservation leaves no trace, and whether one is accepted depends on the origin. */
    method LeaseNext(accepts: string -> bool, now: Instant) returns (lease: Option<Lease>)
      requires Valid()
      modifies this
      ensures Valid()
      ensures var recovered := RecoverExpired(old(rows), now);
              match HeadScan(recovered, now, order, accepts)
              case None => lease == None && rows == recovered
              case Some(i) =>
                && i < |recovered|
                && lease == Some(Lease(LeaseId(recovered[i].request.id, now), recovered[i].request, now, now + leaseDuration))
                && rows == recovered[i := recovered[i].(state := InProgress, leaseId := Some(lease.value.leaseId),
                                                        leaseExpiresAt := Some(lease.value.expiresAt))]
    {
      rows := RecoverExpired(rows, now);
      ghost var recovered := rows;
      var ready := Ordered(rows, now, order);
      var first: Option<nat> := if |ready| == 0 then None else Some(ready[0]);
      if first.Some? {
        FirstReadyIsFirstHead(rows, now, order);
        lease := ClaimRow(first.value, accepts, now);
        if lease.Some? {
          return;
        }
      }
      lease := ClaimFirst(AtMost(Heads(rows, now, order), CANDIDATE_LIMIT), first, accepts, now);
    }

    /** The loop over the candidates; the one that was refused already is passed over. */
    method ClaimFirst(candidates: seq<nat>, refused: Option<nat>, accepts: string -> bool, now: Instant)
      returns (lease: Option<Lease>)
      requires Valid() && InTable(rows, candidates)
      requires forall k :: 0 <= k < |candidates| ==> rows[candidates[k]].state == Pending
      requires refused.Some? ==> refused.value < |rows| && !accepts(rows[refused.value].request.origin)
      modifies this
      ensures Valid()
      ensures match FirstAccepted(old(rows), candidates, accepts)
              case None => lease == None && rows == old(rows)
              case Some(i) =>
                && lease == Some(CreateLease(old(rows)[i].request, now))
                && rows == old(rows)[i := old(rows)[i].(state := InProgress, leaseId := Some(lease.value.leaseId),
                                                        leaseExpiresAt := Some(lease.value.expiresAt))]
    {
      for k := 0 to |candidates|
        invariant rows == old(rows)
        invariant FirstAccepted(rows, candidates, accepts) == FirstAccepted(rows, candidates[k..], accepts)
      {
        PassOver(rows, candidates, k, accepts);
        if refused.Some? && candidates[k] == refused.value {
          continue;
        }
        lease := ClaimRow(candidates[k], accepts, now);
        if lease.Some? {
          return;
        }
      }
      return None;
    }

    /** claim: reserve, then take the row; no other connection can have changed it. */
    method ClaimRow(i: nat, accepts: string -> bool, now: Instant) returns (lease: Option<Lease>)
      requires Valid() && i < |rows| && rows[i].state == Pending
      modifies this
      ensures Valid()
      ensures lease.Some? <==> accepts(old(rows)[i].request.origin)
      ensures lease.None? ==> rows == old(rows)
      ensures lease.Some? ==>
                && lease.value == Lease(LeaseId(old(rows)[i].request.id, now), old(rows)[i].request, now, now + leaseDuration)
                && rows == old(rows)[i := old(rows)[i].(state := InProgress, leaseId := Some(lease.value.leaseId),
                                                        leaseExpiresAt := Some(lease.value.expiresAt))]
    {
      var request := rows[i].request;
      if !accepts(request.origin) {
        return None;
      }
      var created := CreateLease(request, now);
      RowIsFound(rows, i);
      var (after, changed) := Claim(rows, created);
      rows := after;
      return Some(created);
    }

    method RenewLease(lease: Lease, now: Instant) returns (renewed: Option<Lease>)
      requires Valid()
      modifies this
      ensures Valid()
      ensures renewed.Some? <==> Honours(old(rows), lease)
      ensures renewed.Some? ==> renewed.value == lease.(expiresAt := now + leaseDuration)
      ensures rows == Renew(old(rows), lease, now + leaseDuration).0
    {
      var longer := lease.(expiresAt := now + leaseDuration);
      var (after, changed) := Renew(rows, lease, longer.expiresAt);
      rows := after;
      return if changed then Some(longer) else None;
    }

    /** release and the four marks. */
    method ChangeState(lease: Lease, state: RowState, reason: Option<string>, now: Instant) returns (ok: bool)
      requires Valid() && state != InProgress
      modifies this
      ensures Valid()
      ensures ok <==> Honours(old(rows), lease)
      ensures rows == Transition(old(rows), lease, state, reason, now).0
    {
      var (after, changed) := Transition(rows, lease, state, reason, now);
      rows := after;
      return changed;
    }
  }

  // ---------------------------------------------------------------------------------------
  // The heads suffice

  lemma FirstReadyIsFirstHead(t: Table, now: Instant, order: Order)
    requires |Ordered(t, now, order)| > 0
    ensures var x, hs := Ordered(t, now, order)[0], Heads(t, now, order);
            x < |t| && Ready(t[x], now) && |hs| > 0 && hs[0] == x
  {
    var xs := Ordered(t, now, order);
    var x := xs[0];
    assert x in xs;
    OrderedUptoSorted(t, now, order, |t|);
    forall j | 0 <= j < |t| && j != x && Ready(t[j], now) ensures Before(t, order, x, j) {
      assert (j as nat) in xs;
      FirstIsLeast(t, order, xs, j);
    }
    assert IsHead(t, now, order, x);
  }

  /** The first acceptable row of the whole list is the head of its origin. */
  lemma {:induction false} HeadsOfSuffix(t: Table, now: Instant, order: Order, xs: seq<nat>, k: nat, accepts: string -> bool)
    requires xs == Ordered(t, now, order) && k <= |xs|
    requires forall i :: 0 <= i < k ==> !accepts(t[xs[i]].request.origin)
    ensures InTable(t, xs[k..])
    ensures FirstAccepted(t, HeadsIn(t, now, order, xs[k..]), accepts) == FirstAccepted(t, xs[k..], accepts)
    decreases |xs| - k
  {
    if k < |xs| {
      var x := xs[k];
      assert x in xs;
      assert xs[k..][1..] == xs[k + 1..];
      if accepts(t[x].request.origin) {
        OrderedUptoSorted(t, now, order, |t|);
        forall j | 0 <= j < |t| && j != x && Ready(t[j], now) && t[j].request.origin == t[x].request.origin
          ensures Before(t, order, x, j)
        {
          assert (j as nat) in xs;
          var n :| 0 <= n < |xs| && xs[n] == j;
          assert n > k;
        }
        assert IsHead(t, now, order, x);
      } else {
        HeadsOfSuffix(t, now, order, xs, k + 1, accepts);
        var rest := HeadsIn(t, now, order, xs[k + 1..]);
        if IsHead(t, now, order, x) {
          assert ([x] + rest)[1..] == rest;
        }
      }
    }
  }

  lemma HeadsSuffice(t: Table, now: Instant, order: Order, accepts: string -> bool)
    ensures FirstAccepted(t, Heads(t, now, order), accepts) == FullScan(t, now, order, accepts)
  {
    var xs := Ordered(t, now, order);
    HeadsOfSuffix(t, now, order, xs, 0, accepts);
    assert xs[0..] == xs;
  }

  lemma {:induction false} AcceptedInPrefix(t: Table, hs: seq<nat>, n: nat, accepts: string -> bool)
    requires InTable(t, hs) && n <= |hs|
    ensures FirstAccepted(t, hs[..n], accepts) ==
            if exists k :: 0 <= k < n && accepts(t[hs[k]].request.origin) then FirstAccepted(t, hs, accepts) else None
  {
    if n > 0 && !accepts(t[hs[0]].request.origin) {
      AcceptedInPrefix(t, hs[1..], n - 1, accepts);
      assert hs[..n][1..] == hs[1..][..n - 1];
      if k :| 0 <= k < n && accepts(t[hs[k]].request.origin) {
        assert hs[1..][k - 1] == hs[k];
      }
      if k :| 0 <= k < n - 1 && accepts(t[hs[1..][k]].request.origin) {
        assert hs[k + 1] == hs[1..][k];
      }
    }
  }

  ghost predicate AcceptedHeadInReach(t: Table, now: Instant, order: Order, accepts: string -> bool) {
    var hs := Heads(t, now, order);
    exists k :: 0 <= k < |hs| && k < 128 && accepts(t[hs[k]].request.origin)
  }

  /** The head scan leases what the full scan leases exactly when one of the first 128 heads is
      acceptable or nothing ready is; otherwise it comes back empty-handed. */
  lemma HeadScanExactIff(t: Table, now: Instant, order: Order, accepts: string -> bool)
    ensures HeadScan(t, now, order, accepts) == FullScan(t, now, order, accepts) <==>
              || AcceptedHeadInReach(t, now, order, accepts)
              || forall i :: 0 <= i < |t| && Ready(t[i], now) ==> !accepts(t[i].request.origin)
    ensures HeadScan(t, now, order, accepts) in {FullScan(t, now, order, accepts), None}
  {
    var xs, hs := Ordered(t, now, order), Heads(t, now, order);
    HeadsSuffice(t, now, order, accepts);
    if |hs| <= 128 {
      assert hs[..|hs|] == hs;
      AcceptedInPrefix(t, hs, |hs|, accepts);
    } else {
      AcceptedInPrefix(t, hs, 128, accepts);
    }
    var full := FullScan(t, now, order, accepts);
    if full.None? {
      forall i | 0 <= i < |t| && Ready(t[i], now) ensures !accepts(t[i].request.origin) {
        assert (i as nat) in xs;
      }
    } else {
      assert full.value in xs;
    }
  }

  ghost function ReadyOrigins(t: Table, now: Instant): set<string> {
    set i | 0 <= i < |t| && Ready(t[i], now) :: t[i].request.origin
  }

  lemma {:induction false} HeadsInDistinct(t: Table, now: Instant, order: Order, xs: seq<nat>)
    requires InTable(t, xs) && Sorted(t, order, xs)
    ensures Sorted(t, order, HeadsIn(t, now, order, xs))
  {
    if |xs| > 0 {
      HeadsInDistinct(t, now, order, xs[1..]);
      var rest := HeadsIn(t, now, order, xs[1..]);
      forall k | 0 <= k < |rest| ensures Before(t, order, xs[0], rest[k]) {
        assert rest[k] in xs[1..];
        var n :| 0 <= n < |xs[1..]| && xs[1..][n] == rest[k];
        assert xs[n + 1] == rest[k];
      }
    }
  }

  /** The origins of the heads, in the order of the list, no two alike. */
  function OriginsOf(t: Table, hs: seq<nat>): (origins: seq<string>)
    requires InTable(t, hs)
    ensures |origins| == |hs|
    ensures forall k :: 0 <= k < |hs| ==> origins[k] == t[hs[k]].request.origin
  {
    seq(|hs|, k requires 0 <= k < |hs| => t[hs[k]].request.origin)
  }

  lemma HeadOriginsDiffer(t: Table, now: Instant, order: Order)
    ensures var origins := OriginsOf(t, Heads(t, now, order));
            && (forall k, l :: 0 <= k < l < |origins| ==> origins[k] != origins[l])
            && (forall o :: o in origins ==> o in ReadyOrigins(t, now))
  {
    var xs, hs := Ordered(t, now, order), Heads(t, now, order);
    OrderedUptoSorted(t, now, order, |t|);
    HeadsInDistinct(t, now, order, xs);
    forall k | 0 <= k < |hs| ensures IsHead(t, now, order, hs[k]) {
      assert hs[k] in hs;
    }
    forall k, l | 0 <= k < l < |hs| ensures t[hs[k]].request.origin != t[hs[l]].request.origin {
      assert Before(t, order, hs[k], hs[l]);
      assert IsHead(t, now, order, hs[k]) && IsHead(t, now, order, hs[l]);
    }
  }

  lemma ReadyRowIsFound(t: Table, now: Instant, order: Order, i: nat, accepts: string -> bool)
    requires i < |t| && Ready(t[i], now) && accepts(t[i].request.origin)
    ensures FullScan(t, now, order, accepts).Some?
  {
    var xs := Ordered(t, now, order);
    assert i in xs;
    var k :| 0 <= k < |xs| && xs[k] == i;
    assert accepts(t[xs[k]].request.origin);
  }

  /** Every origin with a ready row has a head. */
  lemma EveryOriginHasAHead(t: Table, now: Instant, order: Order, o: string)
    requires o in ReadyOrigins(t, now)
    ensures o in OriginsOf(t, Heads(t, now, order))
  {
    var accepts := (x: string) => x == o;
    var hs := Heads(t, now, order);
    var i: nat :| i < |t| && Ready(t[i], now) && t[i].request.origin == o;
    ReadyRowIsFound(t, now, order, i, accepts);
    HeadsSuffice(t, now, order, accepts);
    var found := FirstAccepted(t, hs, accepts);
    var n :| 0 <= n < |hs| && hs[n] == found.value;
    assert OriginsOf(t, hs)[n] == o;
  }

  lemma AsManyHeadsAsOrigins(t: Table, now: Instant, order: Order)
    ensures |Heads(t, now, order)| == |ReadyOrigins(t, now)|
  {
    var origins := OriginsOf(t, Heads(t, now, order));
    HeadOriginsDiffer(t, now, order);
    forall o | o in ReadyOrigins(t, now) ensures o in origins {
      EveryOriginHasAHead(t, now, order, o);
    }
    DistinctSize(origins);
    assert (set o | o in origins) == ReadyOrigins(t, now);
  }

  /** With at most 128 origins ready nothing is out of reach, whatever the origins accept. */
  lemma HeadScanExactForFewOrigins(t: Table, now: Instant, order: Order, accepts: string -> bool)
    requires |ReadyOrigins(t, now)| <= 128
    ensures HeadScan(t, now, order, accepts) == FullScan(t, now, order, accepts)
  {
    AsManyHeadsAsOrigins(t, now, order);
    HeadsSuffice(t, now, order, accepts);
  }

  /** With more origins ready, the one whose head comes 129th can be the only one to accept. */
  lemma HeadOutOfReach(t: Table, now: Instant, order: Order) returns (accepts: string -> bool)
    requires |ReadyOrigins(t, now)| > 128
    ensures HeadScan(t, now, order, accepts) == None && FullScan(t, now, order, accepts).Some?
  {
    var hs := Heads(t, now, order);
    AsManyHeadsAsOrigins(t, now, order);
    HeadOriginsDiffer(t, now, order);
    var o := t[hs[128]].request.origin;
    accepts := (x: string) => x == o;
    forall k | 0 <= k < 128 ensures !accepts(t[hs[k]].request.origin) {
      assert OriginsOf(t, hs)[k] != OriginsOf(t, hs)[128];
    }
    AcceptedInPrefix(t, hs, 128, accepts);
    HeadsSuffice(t, now, order, accepts);
    assert accepts(t[hs[128]].request.origin);
  }

  /** The bounded scan leases what a full scan would, whatever the origins accept, exactly when at
      most 128 origins are ready. */
  lemma HeadScanAlwaysExactIff(t: Table, now: Instant, order: Order)
    ensures (forall accepts :: HeadScan(t, now, order, accepts) == FullScan(t, now, order, accepts)) <==>
              |ReadyOrigins(t, now)| <= 128
  {
    if |ReadyOrigins(t, now)| <= 128 {
      forall accepts ensures HeadScan(t, now, order, accepts) == FullScan(t, now, order, accepts) {
        HeadScanExactForFewOrigins(t, now, order, accepts);
      }
    } else {
      var accepts := HeadOutOfReach(t, now, order);
      assert HeadScan(t, now, order, accepts) != FullScan(t, now, order, accepts);
    }
  }

  /** n pending requests, one for each of n origins. */
  function OneEach(n: nat): (t: Table)
    ensures |t| == n
    ensures forall i :: 0 <= i < n ==> Ready(t[i], 0) && |t[i].request.origin| == i
  {
    seq(n, i requires 0 <= i < n =>
      var name := seq(i, _ => 'a');
      Row(Request(RequestId("", name), name, name, Seed, "", 0, 100, 0), Pending, 0, None, None, None))
  }

  /** A table of 129 ready requests, one to an origin, of which the scan misses the only one that can
      be leased. */
  lemma OneOriginTooMany(order: Order) returns (accepts: string -> bool)
    ensures var t := OneEach(129);
            HeadScan(t, 0, order, accepts) == None && FullScan(t, 0, order, accepts).Some?
  {
    var t := OneEach(129);
    var origins := seq(|t|, i requires 0 <= i < |t| => t[i].request.origin);
    DistinctSize(origins);
    var all := set o | o in origins;
    forall o | o in all ensures o in ReadyOrigins(t, 0) {
      var i :| 0 <= i < |t| && origins[i] == o;
      assert Ready(t[i], 0);
    }
    SubsetSize(all, ReadyOrigins(t, 0));
    accepts := HeadOutOfReach(t, 0, order);
  }

  lemma SubsetSize(a: set<string>, b: set<string>)
    requires a <= b
    ensures |a| <= |b|
  {
    assert b == a + (b - a);
  }
}
