/** Rebuilding a frontier from its journal (src/frontier/recovery.ts). */
module Recovery {
  import opened Prelude
  import opened Requests
  import opened JournalRecords
  import opened JournalValidation

  datatype Tracked = Tracked(request: Request, terminal: bool, leaseExpiresAt: Option<Instant>)

  type Tracking = OrderedMap<RequestId, Tracked>

  datatype Recovered = Recovered(
    requests: seq<Request>,
    pending: seq<Request>,
    deferred: seq<Deferred>,
    recoveredLeases: nat)

  function Track(m: Tracking, e: Entry): (n: Tracking)
    ensures m.Valid() ==> n.Valid()
  {
    if e.Enqueued? then
      m.Set(e.request.id, Tracked(e.request, false, None))
    else if e.requestId !in m.entries then
      m
    else
      var current := m.entries[e.requestId];
      if e.Leased? || e.Renewed? then
        m.Set(e.requestId, current.(leaseExpiresAt := Some(e.expiresAt)))
      else if e.Released? then
        m.Set(e.requestId, current.(leaseExpiresAt := None))
      else
        m.Set(e.requestId, Tracked(current.request, true, None))
  }

  function TrackAll(es: seq<Entry>): (m: Tracking)
    ensures m.Valid()
  {
    if |es| == 0 then EmptyMap() else Track(TrackAll(es[..|es| - 1]), es[|es| - 1])
  }

  /** An open lease keeps its request away from the queue until it expires. */
  predicate Ready(t: Tracked, now: Instant) {
    !t.terminal && (t.leaseExpiresAt.None? || t.leaseExpiresAt.value <= now)
  }

  predicate Waiting(t: Tracked, now: Instant) {
    !t.terminal && t.leaseExpiresAt.Some? && t.leaseExpiresAt.value > now
  }

  function PendingOf(ts: seq<Tracked>, now: Instant): seq<Request> {
    if |ts| == 0 then
      []
    else
      var front, t := PendingOf(ts[..|ts| - 1], now), ts[|ts| - 1];
      if Ready(t, now) then front + [t.request] else front
  }

  function DeferredOf(ts: seq<Tracked>, now: Instant): seq<Deferred> {
    if |ts| == 0 then
      []
    else
      var front, t := DeferredOf(ts[..|ts| - 1], now), ts[|ts| - 1];
      if Waiting(t, now) then front + [Deferred(t.request, t.leaseExpiresAt.value)] else front
  }

  function ExpiredOf(ts: seq<Tracked>, now: Instant): nat {
    if |ts| == 0 then
      0
    else
      var t := ts[|ts| - 1];
      ExpiredOf(ts[..|ts| - 1], now) + if Ready(t, now) && t.leaseExpiresAt.Some? then 1 else 0
  }

  function RequestsOf(ts: seq<Tracked>): (rs: seq<Request>)
    ensures |rs| == |ts|
    ensures forall i :: 0 <= i < |ts| ==> rs[i] == ts[i].request
  {
    seq(|ts|, i requires 0 <= i < |ts| => ts[i].request)
  }

  function Recover(es: seq<Entry>, now: Instant): Recovered {
    var ts := TrackAll(es).Values();
    Recovered(RequestsOf(ts), PendingOf(ts, now), DeferredOf(ts, now), ExpiredOf(ts, now))
  }

  method RecoverFrontier(records: seq<Record>, nowMs: Instant) returns (r: Recovered)
    ensures r == Recover(Entries(records), nowMs)
  {
    var states: Tracking := EmptyMap();
    for i := 0 to |records|
      invariant states == TrackAll(Entries(records[..i]))
    {
      assert Entries(records[..i + 1])[..i] == Entries(records[..i]);
      var record := records[i].entry;
      if record.Enqueued? {
        states := states.Set(record.request.id, Tracked(record.request, false, None));
        continue;
      }
      var found := states.Get(record.requestId);
      if found.None? {
        continue;
      }
      var current := found.value;
      if record.Leased? || record.Renewed? {
        states := states.Set(record.requestId, current.(leaseExpiresAt := Some(record.expiresAt)));
        continue;
      }
      if record.Released? {
        states := states.Set(record.requestId, current.(leaseExpiresAt := None));
        continue;
      }
      states := states.Set(record.requestId, Tracked(current.request, true, None));
    }
    assert records[..|records|] == records;
    var values := states.Values();
    var pending: seq<Request> := [];
    var deferred: seq<Deferred> := [];
    var recoveredLeases := 0;
    for i := 0 to |values|
      invariant pending == PendingOf(values[..i], nowMs)
      invariant deferred == DeferredOf(values[..i], nowMs)
      invariant recoveredLeases == ExpiredOf(values[..i], nowMs)
    {
      assert values[..i + 1][..i] == values[..i];
      var state := values[i];
      if state.terminal {
        continue;
      }
      if state.leaseExpiresAt.None? {
        pending := pending + [state.request];
        continue;
      }
      if state.leaseExpiresAt.value <= nowMs {
        pending := pending + [state.request];
        recoveredLeases := recoveredLeases + 1;
        continue;
      }
      deferred := deferred + [Deferred(state.request, state.leaseExpiresAt.value)];
    }
    assert values[..|values|] == values;
    r := Recovered(RequestsOf(values), pending, deferred, recoveredLeases);
  }

  lemma {:induction false} PendingMembers(ts: seq<Tracked>, now: Instant, r: Request)
    ensures r in PendingOf(ts, now) <==> exists t :: t in ts && t.request == r && Ready(t, now)
  {
    if |ts| > 0 {
      assert ts == ts[..|ts| - 1] + [ts[|ts| - 1]];
      PendingMembers(ts[..|ts| - 1], now, r);
    }
  }

  lemma {:induction false} DeferredMembers(ts: seq<Tracked>, now: Instant, d: Deferred)
    ensures d in DeferredOf(ts, now) <==>
              exists t :: t in ts && Waiting(t, now) && d == Deferred(t.request, t.leaseExpiresAt.value)
  {
    if |ts| > 0 {
      assert ts == ts[..|ts| - 1] + [ts[|ts| - 1]];
      DeferredMembers(ts[..|ts| - 1], now, d);
    }
  }

  lemma TrackAppend(es: seq<Entry>, e: Entry)
    ensures TrackAll(es + [e]) == Track(TrackAll(es), e)
  {
    assert (es + [e])[..|es|] == es;
  }

  ghost predicate SameStatus(v: States, m: Tracking, id: RequestId) {
    && (id in v <==> id in m.entries)
    && (id in v ==>
          && v[id].request == m.entries[id].request
          && v[id].terminal == m.entries[id].terminal
          && v[id].leaseId.Some? == m.entries[id].leaseExpiresAt.Some?)
  }

  lemma OneEntryAgrees(v: States, m: Tracking, e: Entry, id: RequestId)
    requires ApplyTransition(e, v).Some? && SameStatus(v, m, id)
    ensures SameStatus(ApplyTransition(e, v).value, Track(m, e), id)
  {
    if id != Subject(e) {
      var v', m' := ApplyTransition(e, v).value, Track(m, e);
      assert (id in v' <==> id in v) && (id in m'.entries <==> id in m.entries);
    }
  }

  /** On a log that the validator accepts, both folds see the same requests, agree which are
      finished, and agree which leases are open. */
  lemma {:induction false} FoldsAgree(es: seq<Entry>, id: RequestId)
    requires CheckEntries(es).Some?
    ensures SameStatus(CheckEntries(es).value, TrackAll(es), id)
  {
    if |es| > 0 {
      var front, e := es[..|es| - 1], es[|es| - 1];
      FoldsAgree(front, id);
      OneEntryAgrees(CheckEntries(front).value, TrackAll(front), e, id);
    }
  }
}
