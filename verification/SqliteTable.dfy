/** The table behind the SQLite frontier: its rows in rowid order, and each statement as one
    atomic change (src/frontier/backends/sqlite-request-repository.ts,
    src/frontier/backends/sqlite-lease-repository.ts). */
module SqliteTable {
  import opened Prelude
  import opened Requests

  datatype RowState = Pending | InProgress | Done(terminal: Terminal)

  datatype Row = Row(
    request: Request,
    state: RowState,
    availableAt: Instant,
    leaseId: Option<LeaseId>,
    leaseExpiresAt: Option<Instant>,
    reason: Option<string>)

  type Table = seq<Row>

  /** id is the primary key. */
  function RowOf(t: Table, id: RequestId): (r: Option<nat>)
    ensures r.Some? ==> r.value < |t| && t[r.value].request.id == id
    ensures r.None? ==> forall i :: 0 <= i < |t| ==> t[i].request.id != id
  {
    if |t| == 0 then None
    else if t[|t| - 1].request.id == id then Some(|t| - 1)
    else RowOf(t[..|t| - 1], id)
  }

  predicate KeyTaken(t: Table, r: Request) {
    exists i :: 0 <= i < |t| && (t[i].request.id == r.id || t[i].request.uniqueKey == r.uniqueKey)
  }

  /** INSERT OR IGNORE: both id and unique_key are unique. */
  function Insert(t: Table, r: Request): Table {
    if KeyTaken(t, r) then t else t + [Row(r, Pending, 0, None, None, None)]
  }

  function Claim(t: Table, lease: Lease): (r: (Table, bool)) {
    var i := RowOf(t, lease.request.id);
    if i.Some? && t[i.value].state == Pending then
      (t[i.value := t[i.value].(state := InProgress, leaseId := Some(lease.leaseId), leaseExpiresAt := Some(lease.expiresAt))], true)
    else
      (t, false)
  }

  /** The WHERE clause of renew and transition. */
  predicate Honours(t: Table, lease: Lease) {
    var i := RowOf(t, lease.request.id);
    i.Some? && t[i.value].state == InProgress && t[i.value].leaseId == Some(lease.leaseId)
  }

  function Renew(t: Table, lease: Lease, expiresAt: Instant): (r: (Table, bool)) {
    if Honours(t, lease) then
      var i := RowOf(t, lease.request.id).value;
      (t[i := t[i].(leaseExpiresAt := Some(expiresAt))], true)
    else
      (t, false)
  }

  function Transition(t: Table, lease: Lease, state: RowState, reason: Option<string>, now: Instant): (r: (Table, bool)) {
    if Honours(t, lease) then
      var i := RowOf(t, lease.request.id).value;
      var availableAt := if state.Pending? then now else 0;
      (t[i := t[i].(state := state, reason := reason, leaseId := None, leaseExpiresAt := None, availableAt := availableAt)], true)
    else
      (t, false)
  }

  predicate Expired(row: Row, now: Instant) {
    row.state == InProgress && row.leaseExpiresAt.Some? && row.leaseExpiresAt.value <= now
  }

  function RecoverExpired(t: Table, now: Instant): (r: Table)
    ensures |r| == |t|
    ensures forall i :: 0 <= i < |t| ==>
              r[i] == if Expired(t[i], now)
                      then t[i].(state := Pending, leaseId := None, leaseExpiresAt := None, availableAt := now) else t[i]
  {
    seq(|t|, i requires 0 <= i < |t| =>
      if Expired(t[i], now)
      then t[i].(state := Pending, leaseId := None, leaseExpiresAt := None, availableAt := now) else t[i])
  }

  // ---------------------------------------------------------------------------------------
  // ORDER BY

  predicate Ready(row: Row, now: Instant) {
    row.state == Pending && row.availableAt <= now
  }

  /** requestOrderSql, on rowids. */
  predicate Before(t: Table, order: Order, i: nat, j: nat)
    requires i < |t| && j < |t|
  {
    match order
    case Bfs => i < j
    case Dfs => i > j
    case Priority =>
      var a, b := t[i].request, t[j].request;
      || a.priority > b.priority
      || (a.priority == b.priority && a.depth < b.depth)
      || (a.priority == b.priority && a.depth == b.depth && i < j)
  }

  ghost predicate InTable(t: Table, xs: seq<nat>) {
    forall k :: 0 <= k < |xs| ==> xs[k] < |t|
  }

  ghost predicate Sorted(t: Table, order: Order, xs: seq<nat>)
    requires InTable(t, xs)
  {
    forall k, l :: 0 <= k < l < |xs| ==> Before(t, order, xs[k], xs[l])
  }

  function InsertRow(t: Table, order: Order, xs: seq<nat>, i: nat): (r: seq<nat>)
    requires InTable(t, xs) && i < |t|
    ensures |r| == |xs| + 1 && InTable(t, r)
    ensures forall x :: x in r <==> x in xs || x == i
  {
    if |xs| == 0 || Before(t, order, xs[|xs| - 1], i) then
      xs + [i]
    else
      assert xs == xs[..|xs| - 1] + [xs[|xs| - 1]];
      InsertRow(t, order, xs[..|xs| - 1], i) + [xs[|xs| - 1]]
  }

  function OrderedUpto(t: Table, now: Instant, order: Order, n: nat): (xs: seq<nat>)
    requires n <= |t|
    ensures InTable(t, xs)
    ensures forall i: nat :: i in xs <==> i < n && Ready(t[i], now)
  {
    if n == 0 then []
    else
      var rest := OrderedUpto(t, now, order, n - 1);
      if Ready(t[n - 1], now) then InsertRow(t, order, rest, n - 1) else rest
  }

  /** The rowids of all ready rows, in the order the query lists them. */
  function Ordered(t: Table, now: Instant, order: Order): (xs: seq<nat>)
    ensures InTable(t, xs)
    ensures forall i: nat :: i in xs <==> i < |t| && Ready(t[i], now)
  {
    OrderedUpto(t, now, order, |t|)
  }

  lemma {:induction false} InsertRowSorted(t: Table, order: Order, xs: seq<nat>, i: nat)
    requires InTable(t, xs) && i < |t| && Sorted(t, order, xs) && i !in xs
    ensures Sorted(t, order, InsertRow(t, order, xs, i))
  {
    if |xs| == 0 {
    } else if Before(t, order, xs[|xs| - 1], i) {
      forall k | 0 <= k < |xs| ensures Before(t, order, xs[k], i) {
        assert k < |xs| - 1 ==> Before(t, order, xs[k], xs[|xs| - 1]);
      }
    } else {
      var front, last := xs[..|xs| - 1], xs[|xs| - 1];
      assert forall x :: x in front ==> x in xs;
      InsertRowSorted(t, order, front, i);
      var r := InsertRow(t, order, front, i);
      forall k | 0 <= k < |r| ensures Before(t, order, r[k], last) {
        if r[k] in front {
          var m :| 0 <= m < |front| && front[m] == r[k];
          assert Before(t, order, xs[m], xs[|xs| - 1]);
        } else {
          assert r[k] == i && last in xs;
        }
      }
    }
  }

  lemma NextOrdered(t: Table, now: Instant, order: Order, n: nat) returns (rest: seq<nat>)
    requires 0 < n <= |t|
    ensures rest == OrderedUpto(t, now, order, n - 1) && n - 1 !in rest
    ensures OrderedUpto(t, now, order, n) == if Ready(t[n - 1], now) then InsertRow(t, order, rest, n - 1) else rest
  {
    rest := OrderedUpto(t, now, order, n - 1);
  }

  lemma {:induction false} OrderedUptoSorted(t: Table, now: Instant, order: Order, n: nat)
    requires n <= |t|
    ensures Sorted(t, order, OrderedUpto(t, now, order, n))
  {
    if n > 0 {
      var rest := NextOrdered(t, now, order, n);
      OrderedUptoSorted(t, now, order, n - 1);
      if Ready(t[n - 1], now) {
        InsertRowSorted(t, order, rest, n - 1);
      }
    }
  }

  /** A list sorted strictly is determined by its members. */
  lemma {:induction false} SortedIsUnique(t: Table, order: Order, xs: seq<nat>, ys: seq<nat>)
    requires InTable(t, xs) && InTable(t, ys) && Sorted(t, order, xs) && Sorted(t, order, ys)
    requires forall i: nat :: i in xs <==> i in ys
    ensures xs == ys
    decreases |xs|
  {
    assert |xs| > 0 ==> xs[0] in xs;
    assert |ys| > 0 ==> ys[0] in ys;
    if |xs| > 0 && |ys| > 0 {
      FirstIsLeast(t, order, xs, ys[0]);
      FirstIsLeast(t, order, ys, xs[0]);
      forall i: nat ensures i in xs[1..] <==> i in ys[1..] {
        TailMembers(t, order, xs, i);
        TailMembers(t, order, ys, i);
      }
      SortedIsUnique(t, order, xs[1..], ys[1..]);
      assert xs == [xs[0]] + xs[1..] && ys == [ys[0]] + ys[1..];
    }
  }

  lemma FirstIsLeast(t: Table, order: Order, xs: seq<nat>, i: nat)
    requires InTable(t, xs) && Sorted(t, order, xs) && i in xs
    ensures i < |t| && (i == xs[0] || Before(t, order, xs[0], i))
  {
    var k :| 0 <= k < |xs| && xs[k] == i;
    if k > 0 {
      assert Before(t, order, xs[0], xs[k]);
    }
  }

  lemma TailMembers(t: Table, order: Order, xs: seq<nat>, i: nat)
    requires |xs| > 0 && InTable(t, xs) && Sorted(t, order, xs)
    ensures i in xs[1..] <==> i in xs && i != xs[0]
  {
    if i in xs[1..] {
      var k :| 0 <= k < |xs[1..]| && xs[1..][k] == i;
      assert xs[k + 1] == i;
      assert Before(t, order, xs[0], xs[k + 1]);
    }
    if i in xs && i != xs[0] {
      var k :| 0 <= k < |xs| && xs[k] == i;
      assert xs[1..][k - 1] == i;
    }
  }
}
