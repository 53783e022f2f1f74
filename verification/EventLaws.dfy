/** What emitters and readers of an event channel can rely on, call by call and to the end. */
module EventLaws {
  import opened Prelude
  import opened Runs
  import opened Events

  /** The last n of a list, or all of it. */
  function Last<E>(s: seq<E>, n: nat): seq<E> {
    if |s| <= n then s else s[|s| - n..]
  }

  /** A closed channel takes nothing. An open one hands the event to the first who waits; when nobody
      does it keeps the latest events that it has room for and counts the one it drops. */
  lemma EmissionIs<E(!new)>(c: Channel<E>, e: E)
    requires 0 < c.capacity && |c.queue| <= c.capacity
    ensures var (c', answers) := AfterEmit(c, e);
            if c.closed then c' == c && answers == map[]
            else if c.waiters != [] then
              c' == Channel(c.capacity, c.queue, c.waiters[1..], false, c.dropped) && answers == map[c.waiters[0] := Event(e)]
            else
              && answers == map[]
              && c'.queue == Last(c.queue + [e], c.capacity)
              && |c'.queue| + c'.dropped == |c.queue| + c.dropped + 1
              && c' == Channel(c.capacity, c'.queue, [], false, c'.dropped)
  {
    if !c.closed && c.waiters == [] && |c.queue| == c.capacity {
      assert (c.queue + [e])[1..] == c.queue[1..] + [e];
    }
  }

  /** Closing keeps what is queued; it ends every waiting call, and a second closing does nothing. */
  lemma ClosingIs<E(!new)>(c: Channel<E>)
    requires c.queue == [] || c.waiters == []
    requires c.closed ==> c.waiters == []
    ensures var (c', answers) := AfterClose(c);
            && c' == Channel(c.capacity, c.queue, [], true, c.dropped)
            && (forall w :: w in answers <==> w in c.waiters)
            && (forall w :: w in answers ==> answers[w] == Over)
  {
  }

  /** So many calls of next, one after the other. */
  function Calls<E>(c: Channel<E>, call: nat, n: nat): (Channel<E>, Answers<E>)
    decreases n
  {
    if n == 0 then (c, map[]) else
      var (before, answers) := Calls(c, call, n - 1);
      var (after, more) := AfterNext(before, call + n - 1);
      (after, answers + more)
  }

  /** Reading a closed channel yields what was queued, in order, and then that it is over. */
  lemma {:induction false} ClosedChannelDrains<E(!new)>(c: Channel<E>, call: nat, n: nat)
    requires c.closed
    ensures var (c', answers) := Calls(c, call, n);
            && c' == c.(queue := if n <= |c.queue| then c.queue[n..] else [])
            && (forall k :: call <= k < call + n <==> k in answers)
            && (forall k :: call <= k < call + n ==>
                  answers[k] == if k - call < |c.queue| then Event(c.queue[k - call]) else Over)
  {
    if n > 0 {
      ClosedChannelDrains(c, call, n - 1);
    }
  }

  /** In every run the answers are: one for each delivery, in the order of the calls, and once the
      channel is closed one that says so for every further call. The calls without an answer are
      those that wait. */
  lemma EveryCallIsAnswered<E(!new)>(capacity: nat, acts: seq<Act<E>>, w: Watched<E>, call: nat)
    requires capacity > 0 && Reaches(Do, Fresh(capacity), acts, w) && call < w.calls
    ensures call in w.answers <==> call < |w.taken| || w.channel.closed
    ensures call in w.answers ==> (w.answers[call] == Over <==> |w.taken| <= call)
    ensures call !in w.answers <==> call in w.channel.waiters
  {
    RunKeepsInv(Fresh(capacity), acts, w);
    if call !in w.answers {
      assert w.channel.waiters[call - |w.taken|] == call;
    }
    assert call < |w.taken| ==> w.answers[call] == Event(w.emitted[w.taken[call]]);
  }

  /** Nothing is emitted into a closed channel, and it stays closed. */
  lemma {:induction false} ClosedStaysClosed<E(!new)>(w: Watched<E>, acts: seq<Act<E>>, w': Watched<E>)
    requires Reaches(Do, w, acts, w') && w.channel.closed
    ensures w'.channel.closed && w'.emitted == w.emitted && w'.channel.dropped == w.channel.dropped
    decreases acts
  {
    if |acts| > 0 {
      ClosedStaysClosed(Do(w, acts[0]).value, acts[1..], w');
    }
  }

  // ---------------------------------------------------------------------------------------
  // The hub

  lemma {:induction false} CloseFromClosesFed<E(!new)>(h: Hub<E>, i: nat, k: nat)
    requires k < |h.channels| && forall j :: j in h.fed ==> i <= j < |h.channels| && !h.channels[j].closed
    ensures var h' := CloseFrom(h, i);
            && |h'.channels| == |h.channels| && h'.closed == h.closed
            && h'.channels[k] == if k in h.fed then AfterClose(h.channels[k]).0 else h.channels[k]
    decreases |h.channels| - i
  {
    if i < |h.channels| {
      if i in h.fed {
        CloseAtLeaves(h, i);
        CloseFromClosesFed(CloseAt(h, i), i + 1, k);
      } else {
        CloseFromClosesFed(h, i + 1, k);
      }
    }
  }

  lemma CloseAtLeaves<E(!new)>(h: Hub<E>, i: nat)
    requires i < |h.channels|
    ensures CloseAt(h, i).channels == h.channels[i := AfterClose(h.channels[i]).0] && CloseAt(h, i).closed == h.closed
  {
    assert h.channels[i].closed ==> h.channels[i := h.channels[i]] == h.channels;
  }

  ghost predicate FedAreOpen<E(!new)>(h: Hub<E>) {
    && (forall i: nat :: i in h.fed <==> i < |h.channels| && !h.channels[i].closed)
    && (h.closed ==> h.fed == {})
  }

  lemma EmitToEach<E(!new)>(h: Hub<E>, e: E, i: nat)
    requires FedAreOpen(h) && i < |h.channels|
    ensures EmitToAll(h, e)[i] == AfterEmit(h.channels[i], e).0
    ensures h.closed ==> AfterEmit(h.channels[i], e).0 == h.channels[i]
  {
  }

  lemma ChannelAfter<E(!new)>(h: Hub<E>, a: HubAct<E>, i: nat)
    requires FedAreOpen(h) && DoHub(h, a).Some? && i < |h.channels|
    ensures var c, after := h.channels[i], DoHub(h, a).value.channels;
            && i < |after|
            && after[i] ==
               match a
               case Subscribe(_) => c
               case EmitAll(e) => AfterEmit(c, e).0
               case CloseOne(k) => if k == i then AfterClose(c).0 else c
               case NextOn(k, call) => if k == i then AfterNext(c, call).0 else c
               case CloseHub => AfterClose(c).0
  {
    match a {
      case EmitAll(e) => EmitToEach(h, e, i);
      case CloseOne(k) => CloseAtLeaves(h, k);
      case CloseHub =>
        CloseFromClosesFed(h.(closed := true), 0, i);
        assert h.channels[i].closed ==> AfterClose(h.channels[i]).0 == h.channels[i];
      case _ =>
    }
  }

  /** Each channel of a hub is on its own: it is emitted into, closed and read as if it were alone, and
      closing the hub closes it. */
  lemma EachChannelIsOnItsOwn<E(!new)>(acts: seq<HubAct<E>>, h: Hub<E>, a: HubAct<E>, i: nat)
    requires Reaches(DoHub, Hub([], {}, false, 0), acts, h) && DoHub(h, a).Some? && i < |h.channels|
    ensures var c, after := h.channels[i], DoHub(h, a).value.channels;
            && i < |after|
            && after[i] ==
               match a
               case Subscribe(_) => c
               case EmitAll(e) => AfterEmit(c, e).0
               case CloseOne(k) => if k == i then AfterClose(c).0 else c
               case NextOn(k, call) => if k == i then AfterNext(c, call).0 else c
               case CloseHub => AfterClose(c).0
  {
    assert FedAreOpen(h) by {
      HubRunKeeps(Hub([], {}, false, 0), acts, h);
    }
    ChannelAfter(h, a, i);
  }

  /** Whoever subscribes gets a channel of its own, closed from the start when the hub is closed. */
  lemma SubscriptionIs<E(!new)>(h: Hub<E>, a: HubAct<E>)
    ensures DoHub(h, a).None? <==>
              (a.Subscribe? && a.capacity <= 0) || ((a.CloseOne? || a.NextOn?) && a.i >= |h.channels|)
    ensures a.Subscribe? && a.capacity > 0 ==>
              DoHub(h, a).value.channels == h.channels + [Channel(a.capacity, [], [], h.closed, 0)]
    ensures DoHub(h, a).Some? && !a.Subscribe? ==> |DoHub(h, a).value.channels| == |h.channels|
    ensures DoHub(h, a).Some? ==> DoHub(h, a).value.closed == (h.closed || a.CloseHub?)
  {
    if a.CloseHub? && !h.closed {
      CloseFromKeepsCount(h.(closed := true), 0);
    }
  }

  lemma {:induction false} CloseFromKeepsCount<E(!new)>(h: Hub<E>, i: nat)
    ensures |CloseFrom(h, i).channels| == |h.channels| && CloseFrom(h, i).closed == h.closed
    decreases |h.channels| - i
  {
    if i < |h.channels| {
      CloseAtLeaves(h, i);
      CloseFromKeepsCount(if i in h.fed then CloseAt(h, i) else h, i + 1);
    }
  }
}
