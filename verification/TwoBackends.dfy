/** The two frontiers hand out requests in one order: the queue that is re-sorted after each push
    and the ORDER BY of the table (src/frontier/state.ts, src/frontier/queue-order.ts,
    src/frontier/backends/sqlite-request-repository.ts). */
module TwoBackends {
  import opened Prelude
  import opened Requests
  import opened FrontierState
  import opened SqliteTable
  import opened SqliteFrontier

  datatype Op =
    | EnqueueNew(request: Request)
    | LeaseOne(now: Instant, lease: Lease)
    | Finish(lease: Lease, terminal: Terminal)

  predicate Anything(origin: string) { true }

  /** takeNext with a predicate that accepts everything. */
  function MemoryTake(queue: seq<Request>, order: Order): Option<nat> {
    if |queue| == 0 then None else if order == Dfs then Some(|queue| - 1) else Some(0)
  }

  lemma MemoryTakeSelects(queue: seq<Request>, order: Order)
    ensures Selects(queue, order, r => true, MemoryTake(queue, order))
  {
  }

  function MemoryDo(order: Order, q: Queues, op: Op): (Queues, Option<Request>) {
    match op
    case EnqueueNew(r) => (q.AddPending(r, order), None)
    case LeaseOne(now, _) => TakeFrom(q.Promote(now, order), order)
    case Finish(_, _) => (q, None)
  }

  function TakeFrom(p: Queues, order: Order): (Queues, Option<Request>) {
    var i := MemoryTake(p.queue, order);
    if i.None? then (p, None) else (p.Take(i.value), Some(p.queue[i.value]))
  }

  function TableDo(order: Order, t: Table, op: Op): (Table, Option<Request>) {
    match op
    case EnqueueNew(r) => (Insert(t, r), None)
    case LeaseOne(now, lease) =>
      var recovered := RecoverExpired(t, now);
      var i := HeadScan(recovered, now, order, Anything);
      if i.None? || i.value >= |recovered| then (recovered, None)
      else (Claimed(recovered, i.value, lease), Some(recovered[i.value].request))
    case Finish(lease, terminal) => (Transition(t, lease, Done(terminal), None, 0).0, None)
  }

  /** The row as a claim leaves it; which lease id it gets is of no consequence for the order. */
  function Claimed(t: Table, i: nat, lease: Lease): Table
    requires i < |t|
  {
    t[i := t[i].(state := InProgress, leaseId := Some(lease.leaseId), leaseExpiresAt := Some(lease.expiresAt))]
  }

  /** New requests are new and no older than those before them; no lease runs out. */
  ghost predicate Admissible(t: Table, op: Op) {
    match op
    case EnqueueNew(r) => !KeyTaken(t, r) && forall i :: 0 <= i < |t| ==> t[i].request.createdAt <= r.createdAt
    case LeaseOne(now, _) => now >= 0 && forall i :: 0 <= i < |t| ==> !Expired(t[i], now)
    case Finish(_, _) => true
  }

  ghost predicate AllAdmissible(order: Order, t: Table, ops: seq<Op>)
    decreases ops
  {
    |ops| > 0 ==> Admissible(t, ops[0]) && AllAdmissible(order, TableDo(order, t, ops[0]).0, ops[1..])
  }

  function MemoryAnswers(order: Order, q: Queues, ops: seq<Op>): seq<Option<Request>>
    decreases ops
  {
    if |ops| == 0 then []
    else var (q', answer) := MemoryDo(order, q, ops[0]); [answer] + MemoryAnswers(order, q', ops[1..])
  }

  function TableAnswers(order: Order, t: Table, ops: seq<Op>): seq<Option<Request>>
    decreases ops
  {
    if |ops| == 0 then []
    else var (t', answer) := TableDo(order, t, ops[0]); [answer] + TableAnswers(order, t', ops[1..])
  }

  // ---------------------------------------------------------------------------------------
  // The relation between the two

  /** The order in which the queue stands: a depth-first queue is taken from its end. */
  function QueueOrder(order: Order): Order { if order == Dfs then Bfs else order }

  function RequestsAt(t: Table, xs: seq<nat>): (rs: seq<Request>)
    requires InTable(t, xs)
    ensures |rs| == |xs|
    ensures forall k :: 0 <= k < |xs| ==> rs[k] == t[xs[k]].request
  {
    seq(|xs|, k requires 0 <= k < |xs| => t[xs[k]].request)
  }

  ghost predicate Related(order: Order, q: Queues, t: Table) {
    && q.deferred == []
    && UniqueIds(t)
    && (forall i :: 0 <= i < |t| ==> t[i].availableAt == 0)
    && q.queue == RequestsAt(t, Ordered(t, 0, QueueOrder(order)))
  }

  /** Readiness decides the list; rows may change otherwise. */
  lemma OrderedDependsOnReady(t: Table, t': Table, now: Instant, now': Instant, order: Order)
    requires |t| == |t'| && forall i :: 0 <= i < |t| ==> t[i].request == t'[i].request
    requires forall i :: 0 <= i < |t| ==> (Ready(t[i], now) <==> Ready(t'[i], now'))
    ensures Ordered(t, now, order) == Ordered(t', now', order)
  {
    var xs, ys := Ordered(t, now, order), Ordered(t', now', order);
    OrderedUptoSorted(t, now, order, |t|);
    OrderedUptoSorted(t', now', order, |t'|);
    assert Sorted(t, order, ys) by {
      forall k, l | 0 <= k < l < |ys| ensures Before(t, order, ys[k], ys[l]) {
        assert Before(t', order, ys[k], ys[l]);
      }
    }
    forall i: nat ensures i in xs <==> i in ys {
    }
    SortedIsUnique(t, order, xs, ys);
  }

  /** Taking a row off the ready list removes it and keeps the others in their order. */
  lemma OrderedWithout(t: Table, t': Table, order: Order, k: nat)
    requires |t| == |t'| && forall i :: 0 <= i < |t| ==> t[i].request == t'[i].request
    requires k < |Ordered(t, 0, order)|
    requires forall i :: 0 <= i < |t| ==>
               (Ready(t'[i], 0) <==> Ready(t[i], 0) && i != Ordered(t, 0, order)[k])
    ensures Ordered(t', 0, order) == RemoveAt(Ordered(t, 0, order), k)
  {
    var xs, ys := Ordered(t, 0, order), Ordered(t', 0, order);
    OrderedUptoSorted(t, 0, order, |t|);
    OrderedUptoSorted(t', 0, order, |t'|);
    SortedWithout(t, t', order, xs, k);
    SortedIsUnique(t', order, RemoveAt(xs, k), ys);
  }

  lemma SortedWithout(t: Table, t': Table, order: Order, xs: seq<nat>, k: nat)
    requires |t| == |t'| && forall i :: 0 <= i < |t| ==> t[i].request == t'[i].request
    requires InTable(t, xs) && Sorted(t, order, xs) && k < |xs|
    ensures InTable(t', RemoveAt(xs, k)) && Sorted(t', order, RemoveAt(xs, k))
    ensures forall i: nat :: i in RemoveAt(xs, k) <==> i in xs && i != xs[k]
  {
    var zs := RemoveAt(xs, k);
    assert forall m :: 0 <= m < |zs| ==> zs[m] == xs[if m < k then m else m + 1];
    forall m, n | 0 <= m < n < |zs| ensures Before(t', order, zs[m], zs[n]) {
      assert Before(t, order, xs[if m < k then m else m + 1], xs[if n < k then n else n + 1]);
    }
    forall a, b | 0 <= a < b < |xs| ensures xs[a] != xs[b] {
      assert Before(t, order, xs[a], xs[b]);
    }
    RemovedKey(xs, k);
  }

  lemma {:induction false} OrderedUptoPrefix(t: Table, row: Row, order: Order, n: nat)
    requires n <= |t|
    ensures OrderedUpto(t + [row], 0, order, n) == OrderedUpto(t, 0, order, n)
  {
    if n > 0 {
      OrderedUptoPrefix(t, row, order, n - 1);
      InsertRowPrefix(t, row, order, OrderedUpto(t, 0, order, n - 1), n - 1);
    }
  }

  lemma {:induction false} InsertRowPrefix(t: Table, row: Row, order: Order, xs: seq<nat>, i: nat)
    requires InTable(t, xs) && i < |t|
    ensures InTable(t + [row], xs) && InsertRow(t + [row], order, xs, i) == InsertRow(t, order, xs, i)
  {
    if |xs| > 0 {
      InsertRowPrefix(t, row, order, xs[..|xs| - 1], i);
    }
  }

  /** A stable insertion by priority, depth and time is an insertion by priority, depth and rowid. */
  lemma {:induction false} SortedPushIsInsertRow(t: Table, xs: seq<nat>)
    requires |t| > 0 && InTable(t, xs) && forall k :: 0 <= k < |xs| ==> xs[k] < |t| - 1
    requires forall i :: 0 <= i < |t| ==> t[i].request.createdAt <= t[|t| - 1].request.createdAt
    ensures RequestsAt(t, InsertRow(t, Priority, xs, |t| - 1))
         == InsertStable(RequestsAt(t, xs), t[|t| - 1].request, Precedes)
  {
    var r, q, n := t[|t| - 1].request, RequestsAt(t, xs), |t| - 1;
    if |xs| > 0 {
      var front, last := xs[..|xs| - 1], xs[|xs| - 1];
      assert Before(t, Priority, last, n) <==> !Precedes(r, q[|q| - 1]);
      if Precedes(r, q[|q| - 1]) {
        SortedPushIsInsertRow(t, front);
        assert RequestsAt(t, front) == q[..|q| - 1];
      }
    }
  }

  lemma PrioritySorted(t: Table)
    requires forall i, j :: 0 <= i < j < |t| ==> t[i].request.createdAt <= t[j].request.createdAt
    ensures SortedBy(RequestsAt(t, Ordered(t, 0, Priority)), Precedes)
  {
    var xs := Ordered(t, 0, Priority);
    OrderedUptoSorted(t, 0, Priority, |t|);
    forall k, l | 0 <= k < l < |xs|
      ensures !Precedes(RequestsAt(t, xs)[l], RequestsAt(t, xs)[k])
    {
      assert Before(t, Priority, xs[k], xs[l]);
    }
  }

  ghost predicate Chronological(t: Table) {
    forall i, j :: 0 <= i < j < |t| ==> t[i].request.createdAt <= t[j].request.createdAt
  }

  lemma BfsPush(t: Table, xs: seq<nat>)
    requires |t| > 0 && InTable(t, xs) && forall k :: 0 <= k < |xs| ==> xs[k] < |t| - 1
    ensures InsertRow(t, Bfs, xs, |t| - 1) == xs + [|t| - 1]
  {
  }

  lemma InsertKeepsUnique(t: Table, r: Request)
    requires UniqueIds(t) && Chronological(t) && Admissible(t, EnqueueNew(r))
    ensures UniqueIds(Insert(t, r)) && Chronological(Insert(t, r))
    ensures Insert(t, r) == t + [Row(r, Pending, 0, None, None, None)]
  {
    var t' := Insert(t, r);
    forall i, j | 0 <= i < j < |t'| ensures t'[i].request.id != t'[j].request.id {
      assert j == |t| ==> t[i].request.id != r.id;
    }
  }

  lemma PushIsInsert(order: Order, q: Queues, t: Table, r: Request)
    requires Related(order, q, t) && Chronological(t) && Admissible(t, EnqueueNew(r))
    ensures var t' := t + [Row(r, Pending, 0, None, None, None)];
            SortRequests(q.queue + [r], order) == RequestsAt(t', Ordered(t', 0, QueueOrder(order)))
  {
    var row := Row(r, Pending, 0, None, None, None);
    var t', o := t + [row], QueueOrder(order);
    var xs := Ordered(t, 0, o);
    OrderedUptoPrefix(t, row, o, |t|);
    assert Ordered(t', 0, o) == InsertRow(t', o, xs, |t|);
    assert RequestsAt(t', xs) == q.queue;
    forall k | 0 <= k < |xs| ensures xs[k] < |t'| - 1 {
    }
    if order == Priority {
      SortedPushIsInsertRow(t', xs);
      PrioritySorted(t);
      SortOfSorted(q.queue, Precedes);
      assert (q.queue + [r])[..|q.queue|] == q.queue;
    } else {
      BfsPush(t', xs);
      assert RequestsAt(t', xs + [|t|]) == q.queue + [r];
    }
  }

  lemma EnqueueKeepsRelated(order: Order, q: Queues, t: Table, r: Request)
    requires Related(order, q, t) && Chronological(t) && Admissible(t, EnqueueNew(r))
    ensures Related(order, q.AddPending(r, order), Insert(t, r)) && Chronological(Insert(t, r))
  {
    InsertKeepsUnique(t, r);
    PushIsInsert(order, q, t, r);
  }

  /** The last of the ascending list is the first of the descending one. */
  lemma LastIsFirst(t: Table)
    ensures |Ordered(t, 0, Bfs)| == 0 <==> |Ordered(t, 0, Dfs)| == 0
    ensures |Ordered(t, 0, Bfs)| > 0 ==> Ordered(t, 0, Bfs)[|Ordered(t, 0, Bfs)| - 1] == Ordered(t, 0, Dfs)[0]
  {
    var xs, ys := Ordered(t, 0, Bfs), Ordered(t, 0, Dfs);
    OrderedUptoSorted(t, 0, Bfs, |t|);
    OrderedUptoSorted(t, 0, Dfs, |t|);
    if |xs| > 0 {
      var last := xs[|xs| - 1];
      assert last in xs && last in ys;
      FirstIsLeast(t, Dfs, ys, last);
      assert ys[0] in ys && ys[0] in xs;
      assert forall k :: 0 <= k < |xs| - 1 ==> Before(t, Bfs, xs[k], xs[|xs| - 1]);
    }
    if |ys| > 0 {
      assert ys[0] in ys && ys[0] in xs;
    }
  }

  lemma ScanOfAnything(t: Table, now: Instant, order: Order)
    ensures HeadScan(t, now, order, Anything) ==
            if |Ordered(t, now, order)| == 0 then None else Some(Ordered(t, now, order)[0])
  {
    if |Ordered(t, now, order)| > 0 {
      FirstReadyIsFirstHead(t, now, order);
    }
  }

  /** The row that the scan finds stands where takeNext looks. */
  lemma SameChoice(order: Order, q: Queues, t: Table, now: Instant)
    requires Related(order, q, t) && now >= 0
    ensures var xs := Ordered(t, 0, QueueOrder(order));
            var k := MemoryTake(q.queue, order);
            && |q.queue| == |xs|
            && HeadScan(t, now, order, Anything) == (if k.None? then None else Some(xs[k.value]))
            && (k.Some? ==> k.value < |xs| && xs[k.value] < |t|)
  {
    OrderedDependsOnReady(t, t, now, 0, order);
    ScanOfAnything(t, now, order);
    LastIsFirst(t);
  }

  lemma ClaimKeepsRelated(order: Order, q: Queues, t: Table, k: nat, lease: Lease)
    requires Related(order, q, t) && k < |q.queue| == |Ordered(t, 0, QueueOrder(order))|
    requires Ordered(t, 0, QueueOrder(order))[k] < |t|
    requires Chronological(t)
    ensures Related(order, q.Take(k), Claimed(t, Ordered(t, 0, QueueOrder(order))[k], lease))
    ensures Chronological(Claimed(t, Ordered(t, 0, QueueOrder(order))[k], lease))
  {
    var o := QueueOrder(order);
    var xs := Ordered(t, 0, o);
    assert xs[k] in xs;
    var t' := Claimed(t, xs[k], lease);
    OrderedWithout(t, t', o, k);
    assert RequestsAt(t', RemoveAt(xs, k)) == RemoveAt(q.queue, k);
  }

  lemma LeaseOfTable(order: Order, q: Queues, t: Table, op: Op)
    requires Related(order, q, t) && op.LeaseOne? && Admissible(t, op)
    ensures var xs, k := Ordered(t, 0, QueueOrder(order)), MemoryTake(q.queue, order);
            && |q.queue| == |xs|
            && (k.Some? ==> k.value < |xs| && xs[k.value] < |t|)
            && TableDo(order, t, op) == (if k.None? then (t, None)
                                         else (Claimed(t, xs[k.value], op.lease), Some(q.queue[k.value])))
  {
    assert RecoverExpired(t, op.now) == t;
    SameChoice(order, q, t, op.now);
  }

  lemma TakeKeepsRelated(order: Order, q: Queues, t: Table, op: Op) returns (q': Queues, t': Table, a: Option<Request>)
    requires Related(order, q, t) && Chronological(t) && op.LeaseOne? && Admissible(t, op)
    ensures TakeFrom(q, order) == (q', a) && TableDo(order, t, op) == (t', a)
    ensures Related(order, q', t') && Chronological(t')
  {
    LeaseOfTable(order, q, t, op);
    var k := MemoryTake(q.queue, order);
    if k.None? {
      q', t', a := q, t, None;
    } else {
      var i := Ordered(t, 0, QueueOrder(order))[k.value];
      q', t', a := q.Take(k.value), Claimed(t, i, op.lease), Some(q.queue[k.value]);
      ClaimKeepsRelated(order, q, t, k.value, op.lease);
    }
  }

  lemma LeaseAfterPromotion(order: Order, q: Queues, p: Queues, t: Table, op: Op)
    returns (q': Queues, t': Table, a: Option<Request>)
    requires op.LeaseOne? && p == q.Promote(op.now, order) && Admissible(t, op)
    requires Related(order, p, t) && Chronological(t)
    ensures MemoryDo(order, q, op) == (q', a) && TableDo(order, t, op) == (t', a)
    ensures Related(order, q', t') && Chronological(t')
  {
    q', t', a := TakeKeepsRelated(order, p, t, op);
  }

  /** With nothing deferred, promotion only sorts what is sorted. */
  lemma PromoteKeepsRelated(q: Queues, now: Instant, order: Order, t: Table)
    requires Related(order, q, t) && Chronological(t)
    ensures Related(order, q.Promote(now, order), t)
  {
    assert q.queue + RequestsIn(q.deferred[..0]) == q.queue;
    if order == Priority {
      PrioritySorted(t);
      SortOfSorted(q.queue, Precedes);
    }
  }

  lemma FinishKeepsRelated(order: Order, q: Queues, t: Table, op: Op)
    requires Related(order, q, t) && Chronological(t) && op.Finish?
    ensures Related(order, q, TableDo(order, t, op).0) && Chronological(TableDo(order, t, op).0)
  {
    var t' := TableDo(order, t, op).0;
    OrderedDependsOnReady(t, t', 0, 0, QueueOrder(order));
  }

  lemma LeaseKeepsRelated(order: Order, q: Queues, t: Table, op: Op) returns (q': Queues, t': Table, a: Option<Request>)
    requires Related(order, q, t) && Chronological(t) && op.LeaseOne? && Admissible(t, op)
    ensures MemoryDo(order, q, op) == (q', a) && TableDo(order, t, op) == (t', a)
    ensures Related(order, q', t') && Chronological(t')
  {
    var p := q.Promote(op.now, order);
    assert Related(order, p, t) by {
      PromoteKeepsRelated(q, op.now, order, t);
    }
    q', t', a := LeaseAfterPromotion(order, q, p, t, op);
  }

  lemma OpKeepsRelated(order: Order, q: Queues, t: Table, op: Op) returns (q': Queues, t': Table, a: Option<Request>)
    requires Related(order, q, t) && Chronological(t) && Admissible(t, op)
    ensures MemoryDo(order, q, op) == (q', a) && TableDo(order, t, op) == (t', a)
    ensures Related(order, q', t') && Chronological(t')
  {
    match op {
      case EnqueueNew(r) =>
        EnqueueKeepsRelated(order, q, t, r);
        q', t', a := q.AddPending(r, order), Insert(t, r), None;
      case LeaseOne(_, _) =>
        q', t', a := LeaseKeepsRelated(order, q, t, op);
      case Finish(_, _) =>
        FinishKeepsRelated(order, q, t, op);
        q', t', a := q, TableDo(order, t, op).0, None;
    }
  }

  /** For every run without release or expiry, and for each of the three orders, both backends
      answer every request for work with the same request. */
  lemma {:induction false} AnswersAgree(order: Order, q: Queues, t: Table, ops: seq<Op>)
    requires Related(order, q, t) && Chronological(t) && AllAdmissible(order, t, ops)
    ensures MemoryAnswers(order, q, ops) == TableAnswers(order, t, ops)
    decreases ops
  {
    if |ops| > 0 {
      var q', t', _ := OpKeepsRelated(order, q, t, ops[0]);
      AnswersAgree(order, q', t', ops[1..]);
    }
  }

  lemma BackendsAgreeFromEmpty(order: Order, ops: seq<Op>)
    requires AllAdmissible(order, [], ops)
    ensures MemoryAnswers(order, Queues([], [], EmptyMap()), ops) == TableAnswers(order, [], ops)
  {
    AnswersAgree(order, Queues([], [], EmptyMap()), [], ops);
  }
}
