/** The in-memory queue of the journal backend (src/frontier/state.ts). */
module FrontierState {
  import opened Prelude
  import opened Requests

  /** queue, deferred and requestsByKey as one value. */
  datatype Queues = Queues(
    queue: seq<Request>,
    deferred: seq<Deferred>,
    known: OrderedMap<string, Request>)
  {
    function Remember(r: Request): Queues {
      this.(known := known.Set(r.uniqueKey, r))
    }

    function AddPending(r: Request, order: Order): Queues {
      Remember(r).(queue := SortRequests(queue + [r], order))
    }

    function AddDeferred(d: Deferred): Queues {
      Remember(d.request).(deferred := StableSort(deferred + [d], ExpiresBefore))
    }

    function Requeue(r: Request, order: Order): Queues {
      this.(queue := SortRequests(queue + [r], order))
    }

    /** promoteDeferred: every deferred request at the front whose lease has run out is queued. */
    function Promote(now: Instant, order: Order): Queues {
      var n := ExpiredPrefix(deferred, now);
      this.(queue := SortRequests(queue + RequestsIn(deferred[..n]), order), deferred := deferred[n..])
    }

    function Take(index: nat): Queues
      requires index < |queue|
    {
      this.(queue := RemoveAt(queue, index))
    }

    function Size(): nat { |queue| + |deferred| }
  }

  function ExpiredPrefix(deferred: seq<Deferred>, now: Instant): (n: nat)
    ensures n <= |deferred|
    ensures forall i :: 0 <= i < n ==> deferred[i].expiresAt <= now
    ensures n < |deferred| ==> deferred[n].expiresAt > now
  {
    if |deferred| == 0 || deferred[0].expiresAt > now then 0 else 1 + ExpiredPrefix(deferred[1..], now)
  }

  function RequestsIn(ds: seq<Deferred>): (rs: seq<Request>)
    ensures |rs| == |ds|
    ensures forall i :: 0 <= i < |ds| ==> rs[i] == ds[i].request
  {
    seq(|ds|, i requires 0 <= i < |ds| => ds[i].request)
  }

  /** The position takeNext removes: the first acceptable request from the front, or from the back
      when the frontier is depth-first. */
  ghost predicate Selects(queue: seq<Request>, order: Order, accepts: Request -> bool, choice: Option<nat>) {
    match choice
    case None => forall i :: 0 <= i < |queue| ==> !accepts(queue[i])
    case Some(index) =>
      && index < |queue|
      && accepts(queue[index])
      && if order == Dfs then forall i :: index < i < |queue| ==> !accepts(queue[i])
         else forall i :: 0 <= i < index ==> !accepts(queue[i])
  }

  class FrontierState {
    var queue: seq<Request>
    var deferred: seq<Deferred>
    var requestsByKey: OrderedMap<string, Request>
    const order: Order

    function View(): Queues
      reads this
    {
      Queues(queue, deferred, requestsByKey)
    }

    constructor (order: Order)
      ensures View() == Queues([], [], EmptyMap()) && this.order == order
    {
      this.order := order;
      queue, deferred, requestsByKey := [], [], EmptyMap();
    }

    method Remember(request: Request)
      modifies this
      ensures View() == old(View()).Remember(request)
    {
      requestsByKey := requestsByKey.Set(request.uniqueKey, request);
    }

    method AddPending(request: Request)
      modifies this
      ensures View() == old(View()).AddPending(request, order)
    {
      Remember(request);
      queue := queue + [request];
      queue := SortRequests(queue, order);
    }

    method AddDeferred(request: Deferred)
      modifies this
      ensures View() == old(View()).AddDeferred(request)
    {
      Remember(request.request);
      deferred := deferred + [request];
      deferred := StableSort(deferred, ExpiresBefore);
    }

    method Requeue(request: Request)
      modifies this
      ensures View() == old(View()).Requeue(request, order)
    {
      queue := SortRequests(queue + [request], order);
    }

    /** Takes the chosen request out of the queue as promotion has left it; when none is
        acceptable the promotion is all that happens. */
    method TakeNext(accepts: Request -> bool, now: Instant) returns (taken: Option<Request>, ghost choice: Option<nat>)
      modifies this
      ensures var promoted := old(View()).Promote(now, order);
              && Selects(promoted.queue, order, accepts, choice)
              && match choice
                 case None => taken == None && View() == promoted
                 case Some(index) => taken == Some(promoted.queue[index]) && View() == promoted.Take(index)
    {
      PromoteDeferred(now);
      if order == Dfs {
        var index := |queue|;
        while index > 0
          invariant 0 <= index <= |queue|
          invariant forall i :: index <= i < |queue| ==> !accepts(queue[i])
        {
          index := index - 1;
          if accepts(queue[index]) {
            taken, choice := Some(queue[index]), Some(index);
            queue := RemoveAt(queue, index);
            return;
          }
        }
        return None, None;
      }
      var index := 0;
      while index < |queue| && !accepts(queue[index])
        invariant 0 <= index <= |queue|
        invariant forall i :: 0 <= i < index ==> !accepts(queue[i])
      {
        index := index + 1;
      }
      if index == |queue| {
        return None, None;
      }
      taken, choice := Some(queue[index]), Some(index);
      queue := RemoveAt(queue, index);
    }

    method PromoteDeferred(now: Instant)
      modifies this
      ensures View() == old(View()).Promote(now, order)
    {
      ghost var ds := deferred;
      ghost var moved := 0;
      while |deferred| > 0
        invariant 0 <= moved <= |ds| && deferred == ds[moved..]
        invariant moved <= ExpiredPrefix(ds, now)
        invariant queue == old(queue) + RequestsIn(ds[..moved])
        invariant requestsByKey == old(requestsByKey)
      {
        var first := deferred[0];
        if first.expiresAt > now {
          break;
        }
        deferred := deferred[1..];
        queue := queue + [first.request];
        moved := moved + 1;
        assert RequestsIn(ds[..moved]) == RequestsIn(ds[..moved - 1]) + [first.request];
      }
      queue := SortRequests(queue, order);
    }

    /** The earliest expiry on the list. */
    function NextDeferredAt(): (next: Option<Instant>)
      reads this
      ensures next.None? <==> deferred == []
      ensures next.Some? ==> exists d :: d in deferred && d.expiresAt == next.value
      ensures next.Some? && SortedBy(deferred, ExpiresBefore) ==> forall d :: d in deferred ==> next.value <= d.expiresAt
    {
      assert |deferred| > 0 ==> deferred[0] in deferred;
      if |deferred| == 0 then None else Some(deferred[0].expiresAt)
    }
  }

  /** Keeping the deferred list sorted makes its first entry the earliest expiry, so waiting for
      it misses no lease and promotion stops only where every later lease is still running. */
  lemma PromotionIsComplete(deferred: seq<Deferred>, now: Instant, i: nat)
    requires SortedBy(deferred, ExpiresBefore) && i < |deferred|
    ensures i < ExpiredPrefix(deferred, now) <==> deferred[i].expiresAt <= now
  {
    var n := ExpiredPrefix(deferred, now);
    if n < |deferred| && n < i {
      assert !ExpiresBefore(deferred[i], deferred[n]);
    }
  }

  lemma DeferredStaysSorted(q: Queues, d: Deferred)
    requires SortedBy(q.deferred, ExpiresBefore)
    ensures SortedBy(q.AddDeferred(d).deferred, ExpiresBefore)
  {
    StableSortSorted(q.deferred + [d], ExpiresBefore);
  }
}
