/** Bounded event channels and the hub that feeds them (src/events/index.ts). A call to next is named
    by its number; its promise is settled when an answer for that number is given. */
module Events {
  import opened Prelude
  import opened Runs

  datatype Answer<+E> = Event(value: E) | Over

  type Answers<E> = map<nat, Answer<E>>

  datatype Channel<E> = Channel(capacity: nat, queue: seq<E>, waiters: seq<nat>, closed: bool, dropped: nat)

  function Open<E>(capacity: nat): Channel<E> {
    Channel(capacity, [], [], false, 0)
  }

  /** The oldest event makes way when the queue is full and nobody waits. */
  function AfterEmit<E>(c: Channel<E>, e: E): (Channel<E>, Answers<E>) {
    if c.closed then (c, map[])
    else if |c.waiters| > 0 then (c.(waiters := c.waiters[1..]), map[c.waiters[0] := Event(e)])
    else if |c.queue| < c.capacity then (c.(queue := c.queue + [e]), map[])
    else (c.(queue := (if |c.queue| > 0 then c.queue[1..] else []) + [e], dropped := c.dropped + 1), map[])
  }

  function AllOver<E(!new)>(waiters: seq<nat>): Answers<E> {
    map w | w in waiters :: Over
  }

  function AfterClose<E(!new)>(c: Channel<E>): (Channel<E>, Answers<E>) {
    if c.closed then (c, map[])
    else if |c.queue| > 0 then (c.(closed := true), map[])
    else (c.(closed := true, waiters := []), AllOver(c.waiters))
  }

  function AfterNext<E>(c: Channel<E>, call: nat): (Channel<E>, Answers<E>) {
    if |c.queue| > 0 then (c.(queue := c.queue[1..]), map[call := Event(c.queue[0])])
    else if c.closed then (c, map[call := Over])
    else (c.(waiters := c.waiters + [call]), map[])
  }

  class EventChannel<E(!new)> {
    const capacity: nat
    var queue: seq<E>
    var waiters: seq<nat>
    var closed: bool
    var dropped: nat

    function State(): Channel<E>
      reads this
    {
      Channel(capacity, queue, waiters, closed, dropped)
    }

    constructor (capacity: nat)
      ensures State() == Open(capacity)
    {
      this.capacity, queue, waiters, closed, dropped := capacity, [], [], false, 0;
    }

    method Emit(e: E) returns (answers: Answers<E>)
      modifies this
      ensures (State(), answers) == AfterEmit(old(State()), e)
    {
      if closed {
        return map[];
      }
      if |waiters| > 0 {
        answers := map[waiters[0] := Event(e)];
        waiters := waiters[1..];
        return;
      }
      if |queue| >= capacity {
        queue := if |queue| > 0 then queue[1..] else queue;
        dropped := dropped + 1;
      }
      queue := queue + [e];
      return map[];
    }

    method Close() returns (answers: Answers<E>)
      modifies this
      ensures (State(), answers) == AfterClose(old(State()))
    {
      if closed {
        return map[];
      }
      closed := true;
      if |queue| > 0 {
        return map[];
      }
      answers := map[];
      ghost var were, k := waiters, 0;
      while |waiters| > 0
        invariant closed && queue == old(queue) && dropped == old(dropped)
        invariant k <= |were| && waiters == were[k..] && answers == AllOver(were[..k])
      {
        assert were[..k + 1] == were[..k] + [waiters[0]];
        answers := answers[waiters[0] := Over];
        waiters := waiters[1..];
        k := k + 1;
      }
      assert were[..k] == were;
    }

    method Next(call: nat) returns (answers: Answers<E>)
      modifies this
      ensures (State(), answers) == AfterNext(old(State()), call)
    {
      if |queue| > 0 {
        answers := map[call := Event(queue[0])];
        queue := queue[1..];
        return;
      }
      if closed {
        return map[call := Over];
      }
      waiters := waiters + [call];
      return map[];
    }
  }

  // ---------------------------------------------------------------------------------------
  // One channel, watched over any run

  datatype Act<E> = DoEmit(event: E) | DoClose | DoNext

  /** The channel with everything that was emitted while it was open, how often next was called, and
      every answer given; taken lists the emissions that were delivered, by number. */
  datatype Watched<!E> = Watched(channel: Channel<E>, emitted: seq<E>, calls: nat, answers: Answers<E>, taken: seq<nat>)

  function Do<E(!new)>(w: Watched<E>, a: Act<E>): Option<Watched<E>> {
    match a
    case DoEmit(e) =>
      var (c, answers) := AfterEmit(w.channel, e);
      Some(if w.channel.closed then w
           else w.(channel := c, emitted := w.emitted + [e], answers := w.answers + answers,
                   taken := if |w.channel.waiters| > 0 then w.taken + [|w.emitted|] else w.taken))
    case DoClose =>
      var (c, answers) := AfterClose(w.channel);
      Some(w.(channel := c, answers := w.answers + answers))
    case DoNext =>
      var (c, answers) := AfterNext(w.channel, w.calls);
      Some(w.(channel := c, calls := w.calls + 1, answers := w.answers + answers,
              taken := if 0 < |w.channel.queue| <= |w.emitted| then w.taken + [|w.emitted| - |w.channel.queue|] else w.taken))
  }

  function Fresh<E>(capacity: nat): Watched<E> {
    Watched(Open(capacity), [], 0, map[], [])
  }

  /** The end of the emissions is queued; of the rest, some were delivered and the others dropped. */
  ghost predicate Conserved<E(!new)>(w: Watched<E>) {
    var queued := |w.channel.queue|;
    && |w.emitted| == |w.taken| + w.channel.dropped + queued
    && w.channel.queue == w.emitted[|w.emitted| - queued..]
    && queued <= w.channel.capacity
  }

  /** Delivery keeps the order of emission, and nothing is delivered twice. */
  ghost predicate InOrder<E(!new)>(w: Watched<E>) {
    && (forall k, l :: 0 <= k < l < |w.taken| ==> w.taken[k] < w.taken[l])
    && (forall k :: 0 <= k < |w.taken| ==> w.taken[k] + |w.channel.queue| < |w.emitted|)
  }

  /** Call k is answered with delivery k; the calls beyond the deliveries wait, or are over. */
  ghost predicate Answered<E(!new)>(w: Watched<E>) {
    && |w.taken| <= w.calls
    && (forall k: nat :: k < |w.taken| ==>
          w.taken[k] < |w.emitted| && k in w.answers && w.answers[k] == Event(w.emitted[w.taken[k]]))
    && (forall k: nat :: |w.taken| <= k ==>
          (k in w.answers <==> w.channel.closed && k < w.calls) && (k in w.answers ==> w.answers[k] == Over))
  }

  ghost predicate Waiting<E(!new)>(w: Watched<E>) {
    && (w.channel.closed ==> w.channel.waiters == [])
    && (!w.channel.closed ==>
          |w.channel.waiters| == w.calls - |w.taken| &&
          forall k :: 0 <= k < |w.channel.waiters| ==> w.channel.waiters[k] == |w.taken| + k)
    && (|w.channel.queue| > 0 ==> w.calls == |w.taken|)
  }

  ghost predicate Inv<E(!new)>(w: Watched<E>) {
    w.channel.capacity > 0 && Conserved(w) && InOrder(w) && Answered(w) && Waiting(w)
  }

  lemma AnsweredGrows<E(!new)>(w: Watched<E>, w': Watched<E>, x: nat)
    requires Answered(w) && w'.channel.closed == w.channel.closed
    requires w.emitted <= w'.emitted && x < |w'.emitted| && w'.taken == w.taken + [x]
    requires w'.answers == w.answers[|w.taken| := Event(w'.emitted[x])]
    requires |w'.taken| <= w'.calls && (w'.calls == w.calls || (w.calls == |w.taken| && w'.calls == |w'.taken|))
    ensures Answered(w')
  {
    forall k: nat | k < |w'.taken|
      ensures w'.taken[k] < |w'.emitted| && k in w'.answers && w'.answers[k] == Event(w'.emitted[w'.taken[k]])
    {
      if k < |w.taken| {
        assert w'.taken[k] == w.taken[k];
      }
    }
  }

  lemma OrderGrows<E(!new)>(w: Watched<E>, w': Watched<E>, x: nat)
    requires InOrder(w) && w'.taken == w.taken + [x]
    requires x + |w.channel.queue| >= |w.emitted|
    requires x + |w'.channel.queue| < |w'.emitted|
    requires |w'.emitted| - |w'.channel.queue| >= |w.emitted| - |w.channel.queue|
    ensures InOrder(w')
  {
    forall k, l | 0 <= k < l < |w'.taken| ensures w'.taken[k] < w'.taken[l] {
      if l == |w.taken| {
        assert w.taken[k] + |w.channel.queue| < |w.emitted|;
      }
    }
    forall k | 0 <= k < |w'.taken| ensures w'.taken[k] + |w'.channel.queue| < |w'.emitted| {
      if k < |w.taken| {
        assert w.taken[k] + |w.channel.queue| < |w.emitted|;
      }
    }
  }

  lemma WaitersShift<E(!new)>(w: Watched<E>, w': Watched<E>)
    requires Waiting(w) && !w.channel.closed && !w'.channel.closed && |w.channel.waiters| > 0
    requires w'.channel.waiters == w.channel.waiters[1..] && |w'.taken| == |w.taken| + 1 && w'.calls == w.calls
    requires |w'.channel.queue| == 0
    ensures Waiting(w')
  {
  }

  /** The next emission goes to the caller that has waited longest. */
  lemma HandOverKeepsInv<E(!new)>(w: Watched<E>, e: E)
    requires Inv(w) && !w.channel.closed && |w.channel.waiters| > 0
    ensures Inv(Do(w, DoEmit(e)).value)
  {
    var w' := HandedOver(w, e);
    assert w.channel.waiters[0] == |w.taken|;
    AnsweredGrows(w, w', |w.emitted|);
    OrderGrows(w, w', |w.emitted|);
    WaitersShift(w, w');
  }

  lemma HandedOver<E(!new)>(w: Watched<E>, e: E) returns (w': Watched<E>)
    requires !w.channel.closed && |w.channel.waiters| > 0
    ensures Do(w, DoEmit(e)) == Some(w')
    ensures w' == Watched(w.channel.(waiters := w.channel.waiters[1..]), w.emitted + [e], w.calls,
                          w.answers[w.channel.waiters[0] := Event(e)], w.taken + [|w.emitted|])
  {
    w' := Do(w, DoEmit(e)).value;
    assert w.answers + map[w.channel.waiters[0] := Event(e)] == w.answers[w.channel.waiters[0] := Event(e)];
  }

  lemma Queued<E(!new)>(w: Watched<E>, e: E) returns (w': Watched<E>)
    requires !w.channel.closed && |w.channel.waiters| == 0
    ensures Do(w, DoEmit(e)) == Some(w')
    ensures w' == w.(channel := w'.channel, emitted := w.emitted + [e])
    ensures w'.channel == AfterEmit(w.channel, e).0
  {
    w' := Do(w, DoEmit(e)).value;
    assert w.answers + map[] == w.answers;
  }

  /** The end of a longer list of emissions, with the oldest one dropped when the queue was full. */
  lemma QueueIsTheEnd<E(!new)>(c: Channel<E>, emitted: seq<E>, e: E)
    requires !c.closed && |c.waiters| == 0 && 0 < c.capacity
    requires |c.queue| <= |emitted| && |c.queue| <= c.capacity && c.queue == emitted[|emitted| - |c.queue|..]
    ensures var c' := AfterEmit(c, e).0;
            && |c'.queue| <= c.capacity && |c'.queue| + c'.dropped == |c.queue| + c.dropped + 1
            && |c.queue| <= |c'.queue| <= |emitted| + 1
            && c'.queue == (emitted + [e])[|emitted| + 1 - |c'.queue|..]
            && c' == c.(queue := c'.queue, dropped := c'.dropped)
  {
    var n, q := |emitted|, |c.queue|;
    if q < c.capacity {
      assert c.queue + [e] == (emitted + [e])[n - q..];
    } else {
      assert c.queue[1..] == emitted[n - q + 1..];
      assert c.queue[1..] + [e] == (emitted + [e])[n - q + 1..];
    }
  }

  lemma QueueKeepsInv<E(!new)>(w: Watched<E>, e: E)
    requires Inv(w) && !w.channel.closed && |w.channel.waiters| == 0
    ensures Inv(Do(w, DoEmit(e)).value)
  {
    var w' := Queued(w, e);
    QueueIsTheEnd(w.channel, w.emitted, e);
    assert Answered(w');
  }

  lemma EmitKeepsInv<E(!new)>(w: Watched<E>, e: E)
    requires Inv(w)
    ensures Inv(Do(w, DoEmit(e)).value)
  {
    if !w.channel.closed {
      if |w.channel.waiters| > 0 {
        HandOverKeepsInv(w, e);
      } else {
        QueueKeepsInv(w, e);
      }
    }
  }

  lemma Taken<E(!new)>(w: Watched<E>) returns (w': Watched<E>)
    requires 0 < |w.channel.queue| <= |w.emitted|
    ensures Do(w, DoNext) == Some(w')
    ensures w' == Watched(w.channel.(queue := w.channel.queue[1..]), w.emitted, w.calls + 1,
                          w.answers[w.calls := Event(w.channel.queue[0])], w.taken + [|w.emitted| - |w.channel.queue|])
  {
    w' := Do(w, DoNext).value;
    assert w.answers + map[w.calls := Event(w.channel.queue[0])] == w.answers[w.calls := Event(w.channel.queue[0])];
  }

  lemma TakeKeepsInv<E(!new)>(w: Watched<E>)
    requires Inv(w) && |w.channel.queue| > 0
    ensures Inv(Do(w, DoNext).value)
  {
    var w' := Taken(w);
    var x := |w.emitted| - |w.channel.queue|;
    assert w.channel.queue[0] == w.emitted[x];
    AnsweredGrows(w, w', x);
    OrderGrows(w, w', x);
    assert Conserved(w');
  }

  lemma NextKeepsInv<E(!new)>(w: Watched<E>)
    requires Inv(w)
    ensures Inv(Do(w, DoNext).value)
  {
    if |w.channel.queue| > 0 {
      TakeKeepsInv(w);
    } else {
      var w' := Do(w, DoNext).value;
      assert w'.taken == w.taken && w'.emitted == w.emitted;
      assert Conserved(w') && InOrder(w');
    }
  }

  lemma CloseKeepsInv<E(!new)>(w: Watched<E>)
    requires Inv(w)
    ensures Inv(Do(w, DoClose).value)
  {
    forall k: nat | |w.taken| <= k < w.calls && !w.channel.closed && |w.channel.queue| == 0
      ensures k in w.channel.waiters
    {
      assert w.channel.waiters[k - |w.taken|] == k;
    }
  }

  lemma StepKeepsInv<E(!new)>(w: Watched<E>, a: Act<E>)
    requires Inv(w)
    ensures Inv(Do(w, a).value)
  {
    match a {
      case DoEmit(e) => EmitKeepsInv(w, e);
      case DoClose => CloseKeepsInv(w);
      case DoNext => NextKeepsInv(w);
    }
  }

  lemma {:induction false} RunKeepsInv<E(!new)>(w: Watched<E>, acts: seq<Act<E>>, w': Watched<E>)
    requires Inv(w) && Reaches(Do, w, acts, w')
    ensures Inv(w')
    decreases acts
  {
    if |acts| > 0 {
      StepKeepsInv(w, acts[0]);
      RunKeepsInv(Do(w, acts[0]).value, acts[1..], w');
    }
  }

  /** In every run the events accepted are those delivered, queued and dropped; events are delivered
      in the order of emission, one for each call of next in the order of the calls; and nobody
      waits while an event is queued. */
  lemma NothingIsLostSilently<E(!new)>(capacity: nat, acts: seq<Act<E>>, w: Watched<E>)
    requires capacity > 0 && Reaches(Do, Fresh(capacity), acts, w)
    ensures |w.emitted| == |w.taken| + |w.channel.queue| + w.channel.dropped
    ensures forall k, l :: 0 <= k < l < |w.taken| ==> w.taken[k] < w.taken[l] < |w.emitted|
    ensures forall k: nat :: k < |w.taken| ==>
              w.taken[k] < |w.emitted| && k in w.answers && w.answers[k] == Event(w.emitted[w.taken[k]])
    ensures w.channel.queue == [] || w.channel.waiters == []
    ensures |w.channel.queue| <= capacity
  {
    RunKeepsInv(Fresh(capacity), acts, w);
    CapacityStays(Fresh(capacity), acts, w);
  }

  lemma {:induction false} CapacityStays<E(!new)>(w: Watched<E>, acts: seq<Act<E>>, w': Watched<E>)
    requires Reaches(Do, w, acts, w')
    ensures w'.channel.capacity == w.channel.capacity
    decreases acts
  {
    if |acts| > 0 {
      CapacityStays(Do(w, acts[0]).value, acts[1..], w');
    }
  }

  // ---------------------------------------------------------------------------------------
  // The hub

  /** All channels ever opened, and the numbers of those still fed. */
  datatype Hub<E> = Hub(channels: seq<Channel<E>>, fed: set<nat>, closed: bool, droppedFromClosed: nat)

  datatype HubAct<E> =
    | Subscribe(capacity: int) | EmitAll(event: E) | CloseOne(i: nat) | NextOn(i: nat, call: nat) | CloseHub

  function EmitToAll<E(!new)>(h: Hub<E>, e: E): (channels: seq<Channel<E>>)
    ensures |channels| == |h.channels|
  {
    seq(|h.channels|, i requires 0 <= i < |h.channels| =>
      if i in h.fed then AfterEmit(h.channels[i], e).0 else h.channels[i])
  }

  /** A channel closed by its subscriber reports what it dropped, once. */
  function CloseAt<E(!new)>(h: Hub<E>, i: nat): Hub<E>
    requires i < |h.channels|
  {
    if h.channels[i].closed then h
    else h.(channels := h.channels[i := AfterClose(h.channels[i]).0], fed := h.fed - {i},
            droppedFromClosed := h.droppedFromClosed + h.channels[i].dropped)
  }

  function CloseFrom<E(!new)>(h: Hub<E>, i: nat): Hub<E>
    decreases |h.channels| - i
  {
    if i >= |h.channels| then h
    else CloseFrom(if i in h.fed then CloseAt(h, i) else h, i + 1)
  }

  function DoHub<E(!new)>(h: Hub<E>, a: HubAct<E>): Option<Hub<E>> {
    match a
    case Subscribe(capacity) =>
      if capacity <= 0 then None
      else if h.closed then Some(h.(channels := h.channels + [AfterClose(Open(capacity)).0]))
      else Some(h.(channels := h.channels + [Open(capacity)], fed := h.fed + {|h.channels|}))
    case EmitAll(e) => Some(if h.closed then h else h.(channels := EmitToAll(h, e)))
    case CloseOne(i) => if i < |h.channels| then Some(CloseAt(h, i)) else None
    case NextOn(i, call) =>
      if i < |h.channels| then Some(h.(channels := h.channels[i := AfterNext(h.channels[i], call).0])) else None
    case CloseHub => Some(if h.closed then h else CloseFrom(h.(closed := true), 0))
  }

  /** droppedEvents of the hub. */
  function DroppedOfFed<E>(channels: seq<Channel<E>>, fed: set<nat>): nat {
    if |channels| == 0 then 0 else
      var n := |channels| - 1;
      DroppedOfFed(channels[..n], fed) + if n in fed then channels[n].dropped else 0
  }

  function HubDropped<E>(h: Hub<E>): nat {
    h.droppedFromClosed + DroppedOfFed(h.channels, h.fed)
  }

  class CrawlEventHub<E(!new)> {
    var channels: seq<Channel<E>>
    var fed: set<nat>
    var closed: bool
    var droppedFromClosed: nat

    function State(): Hub<E>
      reads this
    {
      Hub(channels, fed, closed, droppedFromClosed)
    }

    constructor ()
      ensures State() == Hub([], {}, false, 0)
    {
      channels, fed, closed, droppedFromClosed := [], {}, false, 0;
    }

    /** No channel is opened when the capacity is not positive. */
    method Subscribe(capacity: int) returns (channel: Option<nat>)
      modifies this
      ensures channel == if capacity > 0 then Some(old(|channels|)) else None
      ensures capacity <= 0 ==> State() == old(State())
      ensures capacity > 0 ==> Some(State()) == DoHub(old(State()), HubAct.Subscribe(capacity))
    {
      if capacity <= 0 {
        return None;
      }
      channel := Some(|channels|);
      if closed {
        channels := channels + [AfterClose(Open(capacity)).0];
      } else {
        fed := fed + {|channels|};
        channels := channels + [Open(capacity)];
      }
    }

    method Emit(e: E)
      modifies this
      ensures Some(State()) == DoHub(old(State()), EmitAll(e))
    {
      if closed {
        return;
      }
      ghost var was := State();
      for i := 0 to |channels|
        invariant State() == was.(channels := channels) && |channels| == |was.channels|
        invariant forall k :: 0 <= k < |channels| ==> channels[k] == if k < i then EmitToAll(was, e)[k] else was.channels[k]
      {
        if i in fed {
          channels := channels[i := AfterEmit(channels[i], e).0];
        }
      }
      assert channels == EmitToAll(was, e);
    }

    /** What the callback of a closing channel does to its hub. */
    method CloseChannel(i: nat)
      requires i < |channels|
      modifies this
      ensures State() == CloseAt(old(State()), i)
    {
      if channels[i].closed {
        return;
      }
      droppedFromClosed := droppedFromClosed + channels[i].dropped;
      fed := fed - {i};
      channels := channels[i := AfterClose(channels[i]).0];
    }

    method Close()
      modifies this
      ensures Some(State()) == DoHub(old(State()), CloseHub)
    {
      if closed {
        return;
      }
      closed := true;
      ghost var was := State();
      for i := 0 to |channels|
        invariant |channels| == |was.channels| && CloseFrom(State(), i) == CloseFrom(was, 0)
      {
        if i in fed {
          CloseChannel(i);
        }
      }
    }

    method DroppedEvents() returns (total: nat)
      ensures total == HubDropped(State())
    {
      total := droppedFromClosed;
      for i := 0 to |channels|
        invariant total == droppedFromClosed + DroppedOfFed(channels[..i], fed)
      {
        assert channels[..i + 1][..i] == channels[..i];
        if i in fed {
          total := total + channels[i].dropped;
        }
      }
      assert channels[..|channels|] == channels;
    }
  }

  function DroppedOfAll<E>(channels: seq<Channel<E>>): nat {
    if |channels| == 0 then 0 else DroppedOfAll(channels[..|channels| - 1]) + channels[|channels| - 1].dropped
  }

  function DroppedOfClosed<E>(channels: seq<Channel<E>>): nat {
    if |channels| == 0 then 0 else
      var last := channels[|channels| - 1];
      DroppedOfClosed(channels[..|channels| - 1]) + if last.closed then last.dropped else 0
  }

  ghost predicate HubInv<E(!new)>(h: Hub<E>) {
    && (forall i: nat :: i in h.fed <==> i < |h.channels| && !h.channels[i].closed)
    && h.droppedFromClosed == DroppedOfClosed(h.channels)
    && (h.closed ==> h.fed == {})
  }

  lemma {:induction false} FedAndClosed<E(!new)>(channels: seq<Channel<E>>, fed: set<nat>)
    requires forall i: nat :: i < |channels| ==> (i in fed <==> !channels[i].closed)
    ensures DroppedOfClosed(channels) + DroppedOfFed(channels, fed) == DroppedOfAll(channels)
  {
    if |channels| > 0 {
      FedAndClosed(channels[..|channels| - 1], fed);
    }
  }

  lemma {:induction false} ClosedSum<E(!new)>(channels: seq<Channel<E>>, i: nat, c: Channel<E>)
    requires i < |channels|
    ensures DroppedOfClosed(channels[i := c]) ==
            DroppedOfClosed(channels) - (if channels[i].closed then channels[i].dropped else 0) + if c.closed then c.dropped else 0
  {
    var n := |channels| - 1;
    if i < n {
      ClosedSum(channels[..n], i, c);
      assert channels[i := c][..n] == channels[..n][i := c];
    } else {
      assert channels[i := c][..n] == channels[..n];
    }
  }

  lemma {:induction false} SameClosedSum<E(!new)>(a: seq<Channel<E>>, b: seq<Channel<E>>)
    requires |a| == |b|
    requires forall i :: 0 <= i < |a| ==> a[i].closed == b[i].closed && (a[i].closed ==> a[i].dropped == b[i].dropped)
    ensures DroppedOfClosed(a) == DroppedOfClosed(b)
  {
    if |a| > 0 {
      SameClosedSum(a[..|a| - 1], b[..|b| - 1]);
    }
  }

  lemma CloseAtKeeps<E(!new)>(h: Hub<E>, i: nat)
    requires i < |h.channels| && HubInv(h.(closed := false))
    ensures HubInv(CloseAt(h, i).(closed := false)) && CloseAt(h, i).fed == h.fed - {i}
    ensures |CloseAt(h, i).channels| == |h.channels| && CloseAt(h, i).closed == h.closed
  {
    ClosedSum(h.channels, i, AfterClose(h.channels[i]).0);
  }

  lemma {:induction false} CloseFromKeeps<E(!new)>(h: Hub<E>, i: nat)
    requires HubInv(h.(closed := false)) && forall k :: k in h.fed ==> k >= i
    ensures var h' := CloseFrom(h, i); HubInv(h'.(closed := false)) && h'.fed == {} && h'.closed == h.closed
    decreases |h.channels| - i
  {
    if i < |h.channels| {
      if i in h.fed {
        CloseAtKeeps(h, i);
        CloseFromKeeps(CloseAt(h, i), i + 1);
      } else {
        CloseFromKeeps(h, i + 1);
      }
    }
  }

  lemma SubscribeKeeps<E(!new)>(h: Hub<E>, capacity: int)
    requires HubInv(h) && capacity > 0
    ensures HubInv(DoHub(h, Subscribe(capacity)).value)
  {
    assert DoHub(h, Subscribe(capacity)).value.channels[..|h.channels|] == h.channels;
  }

  lemma EmitAllKeeps<E(!new)>(h: Hub<E>, e: E)
    requires HubInv(h)
    ensures HubInv(DoHub(h, EmitAll(e)).value)
  {
    var channels := EmitToAll(h, e);
    forall i | 0 <= i < |channels|
      ensures channels[i].closed == h.channels[i].closed && (channels[i].closed ==> channels[i].dropped == h.channels[i].dropped)
    {
      assert channels[i] == if i in h.fed then AfterEmit(h.channels[i], e).0 else h.channels[i];
    }
    SameClosedSum(h.channels, channels);
  }

  lemma NextOnKeeps<E(!new)>(h: Hub<E>, i: nat, call: nat)
    requires HubInv(h) && i < |h.channels|
    ensures HubInv(DoHub(h, NextOn(i, call)).value)
  {
    ClosedSum(h.channels, i, AfterNext(h.channels[i], call).0);
  }

  lemma HubStepKeeps<E(!new)>(h: Hub<E>, a: HubAct<E>)
    requires HubInv(h) && DoHub(h, a).Some?
    ensures HubInv(DoHub(h, a).value)
  {
    var h' := DoHub(h, a).value;
    match a
    case Subscribe(capacity) =>
      SubscribeKeeps(h, capacity);
    case EmitAll(e) =>
      EmitAllKeeps(h, e);
    case CloseOne(i) =>
      CloseAtKeeps(h, i);
    case NextOn(i, call) =>
      NextOnKeeps(h, i, call);
    case CloseHub =>
      if !h.closed {
        CloseFromKeeps(h.(closed := true), 0);
      }
  }

  lemma {:induction false} HubRunKeeps<E(!new)>(h: Hub<E>, acts: seq<HubAct<E>>, h': Hub<E>)
    requires HubInv(h) && Reaches(DoHub, h, acts, h')
    ensures HubInv(h')
    decreases acts
  {
    if |acts| > 0 {
      HubStepKeeps(h, acts[0]);
      HubRunKeeps(DoHub(h, acts[0]).value, acts[1..], h');
    }
  }

  /** In every run the total the hub reports is the sum over all channels ever opened, closed ones
      included, and a closed hub feeds none. */
  lemma HubCountsEveryDrop<E(!new)>(acts: seq<HubAct<E>>, h: Hub<E>)
    requires Reaches(DoHub, Hub([], {}, false, 0), acts, h)
    ensures HubDropped(h) == DroppedOfAll(h.channels)
    ensures h.closed ==> forall i :: 0 <= i < |h.channels| ==> h.channels[i].closed
  {
    HubRunKeeps(Hub([], {}, false, 0), acts, h);
    FedAndClosed(h.channels, h.fed);
    if h.closed {
      forall i: nat | i < |h.channels| ensures h.channels[i].closed {
        assert i !in h.fed;
      }
    }
  }
}
