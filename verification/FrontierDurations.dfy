/** How long a lease keeps its request: the records of a journal say so, and a restart goes by them
    (src/frontier/lease-manager.ts, src/frontier/recovery.ts). */
module FrontierDurations {
  import opened Prelude
  import opened Requests
  import opened JournalRecords
  import opened Recovery
  import opened FrontierView
  import opened FrontierProtocol
  import opened FrontierTheorems
  import opened Runs

  /** A record is not from the future; one that grants or prolongs a lease does so for the configured
      duration from its own time; a grant names its time in the lease id. */
  ghost predicate EntryDated(c: Config, e: Entry, now: Instant) {
    && e.createdAt <= now
    && (e.Leased? || e.Renewed? ==> e.expiresAt == e.createdAt + c.leaseDuration)
    && (e.Leased? ==> e.leaseId == LeaseId(e.requestId, e.createdAt))
  }

  ghost predicate Dated(c: Config, l: Live) {
    && (forall i :: 0 <= i < |l.log| ==> EntryDated(c, l.log[i].entry, l.now))
    && (l.enqueuing.Some? ==> EntryDated(c, l.enqueuing.value.entry, l.now))
    && (l.transition.Some? ==> EntryDated(c, l.transition.value.entry, l.now))
  }

  /** Nothing is written about a request before it is enqueued. */
  ghost predicate Introduced(es: seq<Entry>) {
    forall i :: 0 <= i < |es| && !es[i].Enqueued? ==> es[i].requestId in TrackAll(es[..i]).entries
  }

  lemma AppendKeepsDated(c: Config, l: Live, e: Entry)
    requires (forall i :: 0 <= i < |l.log| ==> EntryDated(c, l.log[i].entry, l.now)) && EntryDated(c, e, l.now)
    ensures var log := FrontierProtocol.Append(l.log, e);
            forall i :: 0 <= i < |log| ==> EntryDated(c, log[i].entry, l.now)
  {
  }

  lemma StepKeepsDated(c: Config, l: Live, s: Step)
    requires CanDo(c, l, s) && Dated(c, l)
    ensures Dated(c, Do(c, l, s))
  {
    if s.EnqueueWrite? {
      AppendKeepsDated(c, l, l.enqueuing.value.entry);
    } else if s.TransitionWrite? {
      AppendKeepsDated(c, l, l.transition.value.entry);
    }
  }

  lemma {:induction false} RunKeepsDated(c: Config, l: Live, steps: seq<Step>, l': Live)
    requires Run(c, l, steps, l') && Dated(c, l)
    ensures Dated(c, l')
    decreases steps
  {
    if |steps| > 0 {
      StepKeepsDated(c, l, steps[0]);
      RunKeepsDated(c, Do(c, l, steps[0]), steps[1..], l');
    }
  }

  lemma AppendKeepsIntroduced(es: seq<Entry>, e: Entry)
    requires Introduced(es) && (!e.Enqueued? ==> e.requestId in TrackAll(es).entries)
    ensures Introduced(es + [e])
  {
    var all := es + [e];
    forall i | 0 <= i < |all| && !all[i].Enqueued? ensures all[i].requestId in TrackAll(all[..i]).entries {
      assert all[..i] == if i < |es| then es[..i] else es;
    }
  }

  lemma EntriesAppend(log: seq<Record>, e: Entry)
    ensures Entries(FrontierProtocol.Append(log, e)) == Entries(log) + [e]
  {
  }

  lemma LegalIsTracked(l: Live, e: Entry)
    requires Inv(l) && Legal(ViewOf(l), e) && !e.Enqueued?
    ensures e.requestId in TrackAll(Entries(l.log)).entries
  {
    KnownIffTracked(ViewOf(l), TrackAll(Entries(l.log)), e.requestId);
  }

  lemma StepKeepsIntroduced(c: Config, l: Live, s: Step)
    requires Inv(l) && CanDo(c, l, s) && Introduced(Entries(l.log))
    ensures Introduced(Entries(Do(c, l, s).log))
  {
    if s.EnqueueWrite? {
      AppendKeepsIntroduced(Entries(l.log), l.enqueuing.value.entry);
      EntriesAppend(l.log, l.enqueuing.value.entry);
    } else if s.TransitionWrite? {
      var e := l.transition.value.entry;
      assert e.requestId in TrackAll(Entries(l.log)).entries by {
        TransitionIsLegal(l);
        LegalIsTracked(l, e);
      }
      AppendKeepsIntroduced(Entries(l.log), e);
      EntriesAppend(l.log, e);
    } else {
      OnlyWritesWrite(c, l, s);
    }
  }

  lemma {:induction false} RunKeepsIntroduced(c: Config, l: Live, steps: seq<Step>, l': Live)
    requires Inv(l) && Run(c, l, steps, l') && Introduced(Entries(l.log))
    ensures Introduced(Entries(l'.log))
    decreases steps
  {
    if |steps| > 0 {
      StepKeepsInv(c, l, steps[0]);
      StepKeepsIntroduced(c, l, steps[0]);
      RunKeepsIntroduced(c, Do(c, l, steps[0]), steps[1..], l');
    }
  }

  /** A record that grants or prolongs a lease and is the last about its request. */
  ghost predicate IsLastWord(es: seq<Entry>, i: nat) {
    && i < |es| && (es[i].Leased? || es[i].Renewed?)
    && forall j :: i < j < |es| ==> Subject(es[j]) != es[i].requestId
  }

  ghost predicate HeldUntil(es: seq<Entry>, id: RequestId, until: Instant) {
    var m := TrackAll(es).entries;
    id in m && m[id].leaseExpiresAt == Some(until)
  }

  /** The last record about a request decides, when it grants or prolongs a lease, until when. */
  lemma {:induction false} LastWordDecides(es: seq<Entry>, i: nat)
    requires Introduced(es) && IsLastWord(es, i)
    ensures HeldUntil(es, es[i].requestId, es[i].expiresAt)
  {
    var n := |es| - 1;
    if i < n {
      IntroducedFront(es);
      LastWordOfFront(es, i);
      LastWordDecides(es[..n], i);
      OtherRecordsDoNotMatter(TrackAll(es[..n]), es[n], es[i].requestId);
    } else {
      OwnRecordDecides(TrackAll(es[..n]), es[n]);
    }
  }

  lemma LastWordOfFront(es: seq<Entry>, i: nat)
    requires IsLastWord(es, i) && i < |es| - 1
    ensures IsLastWord(es[..|es| - 1], i) && Subject(es[|es| - 1]) != es[i].requestId
  {
  }

  lemma OwnRecordDecides(m: Tracking, e: Entry)
    requires (e.Leased? || e.Renewed?) && e.requestId in m.entries
    ensures var m' := Track(m, e).entries; e.requestId in m' && m'[e.requestId].leaseExpiresAt == Some(e.expiresAt)
  {
  }

  lemma IntroducedFront(es: seq<Entry>)
    requires Introduced(es) && |es| > 0
    ensures Introduced(es[..|es| - 1])
  {
    var front := es[..|es| - 1];
    forall j | 0 <= j < |front| && !front[j].Enqueued? ensures front[j].requestId in TrackAll(front[..j]).entries {
      assert front[..j] == es[..j] && front[j] == es[j];
    }
  }

  lemma OtherRecordsDoNotMatter(m: Tracking, e: Entry, id: RequestId)
    requires Subject(e) != id
    ensures id in Track(m, e).entries <==> id in m.entries
    ensures id in m.entries ==> Track(m, e).entries[id] == m.entries[id]
  {
  }

  /** The request is remembered; before the given time it is deferred until then, and from then on it
      is pending. */
  ghost predicate RecoveredAs(r: Request, id: RequestId, until: Instant, recovered: Recovered, t: Instant) {
    && r.id == id && r in recovered.requests
    && (Deferred(r, until) in recovered.deferred <==> t < until)
    && (r in recovered.pending <==> until <= t)
  }

  /** A lease keeps its request from other processes for the configured duration after the record
      that granted or last prolonged it, to the millisecond: a restart before that defers the
      request until then, a restart from then on has it pending. */
  lemma LeaseDefersUntil(c: Config, t0: Instant, steps: seq<Step>, l: Live, i: nat, t: Instant) returns (r: Request)
    requires Run(c, Start(t0), steps, l) && IsLastWord(Entries(l.log), i)
    ensures var e := Entries(l.log)[i];
            RecoveredAs(r, e.requestId, e.createdAt + c.leaseDuration, Recover(Entries(l.log), t), t)
  {
    var es := Entries(l.log);
    var id, until := es[i].requestId, es[i].createdAt + c.leaseDuration;
    HeldByLastWord(c, t0, steps, l, i);
    r := RecoveredByRecord(c, t0, steps, l, id, until, t);
  }

  lemma HeldByLastWord(c: Config, t0: Instant, steps: seq<Step>, l: Live, i: nat)
    requires Run(c, Start(t0), steps, l) && IsLastWord(Entries(l.log), i)
    ensures var e := Entries(l.log)[i]; HeldUntil(Entries(l.log), e.requestId, e.createdAt + c.leaseDuration)
  {
    var es, e := Entries(l.log), Entries(l.log)[i];
    assert Introduced(es) && e.expiresAt == e.createdAt + c.leaseDuration by {
      ReachableRecords(c, t0, steps, l, i);
    }
    LastWordDecides(es, i);
    SameExpiry(es, e.requestId, e.expiresAt, e.createdAt + c.leaseDuration);
  }

  lemma SameExpiry(es: seq<Entry>, id: RequestId, a: Instant, b: Instant)
    requires HeldUntil(es, id, a) && a == b
    ensures HeldUntil(es, id, b)
  {
  }

  lemma ReachableRecords(c: Config, t0: Instant, steps: seq<Step>, l: Live, i: nat)
    requires Run(c, Start(t0), steps, l) && i < |l.log|
    ensures Introduced(Entries(l.log)) && EntryDated(c, Entries(l.log)[i], l.now)
  {
    ReachableIsDated(c, t0, steps, l);
  }

  lemma ReachableIsDated(c: Config, t0: Instant, steps: seq<Step>, l: Live)
    requires Run(c, Start(t0), steps, l)
    ensures Inv(l) && Dated(c, l) && Introduced(Entries(l.log))
  {
    StartInv(t0);
    RunKeepsInv(c, Start(t0), steps, l);
    RunKeepsDated(c, Start(t0), steps, l);
    RunKeepsIntroduced(c, Start(t0), steps, l);
  }

  lemma RecoveredByRecord(c: Config, t0: Instant, steps: seq<Step>, l: Live, id: RequestId, until: Instant, t: Instant)
    returns (r: Request)
    requires Run(c, Start(t0), steps, l) && HeldUntil(Entries(l.log), id, until)
    ensures RecoveredAs(r, id, until, Recover(Entries(l.log), t), t)
  {
    ReachableIsDated(c, t0, steps, l);
    r := RecoveredFromView(ViewOf(l), Entries(l.log), l.now, id, until, t);
  }

  lemma RecoveredFromView(v: View, es: seq<Entry>, now: Instant, id: RequestId, until: Instant, t: Instant) returns (r: Request)
    requires ViewOk(v) && RecoveryAgrees(v, TrackAll(es), now) && HeldUntil(es, id, until)
    ensures RecoveredAs(r, id, until, Recover(es, t), t)
  {
    var m := TrackAll(es);
    KnownIffTracked(v, m, id);
    r :| r in v.known && IdOf(r) == id;
    RequestsAreKnown(v, m);
    TrackedInstances(v, m, m.Values(), now, r);
    assert StatusAgrees(v, m.entries[id], id, now);
    BySole(m.Values(), m.entries[id], r, t);
  }

  /** When one tracked value alone is of the request, it says where recovery puts it. */
  lemma BySole(ts: seq<Tracked>, sole: Tracked, r: Request, t: Instant)
    requires sole in ts && sole.request == r && !sole.terminal && sole.leaseExpiresAt.Some?
    requires forall x :: x in ts && x.request == r ==> x == sole
    ensures Deferred(r, sole.leaseExpiresAt.value) in DeferredOf(ts, t) <==> t < sole.leaseExpiresAt.value
    ensures r in PendingOf(ts, t) <==> sole.leaseExpiresAt.value <= t
  {
    PendingMembers(ts, t, r);
    DeferredMembers(ts, t, Deferred(r, sole.leaseExpiresAt.value));
  }

  /** A grant at a given time writes that time. */
  lemma GrantIsDated(c: Config, l: Live, r: Request)
    requires CanDo(c, l, LeaseStart(r))
    ensures var e := Do(c, l, LeaseStart(r)).transition.value.entry;
            e == Leased(r.id, LeaseId(r.id, l.now), l.now + c.leaseDuration, l.now)
  {
  }

  lemma RenewalIsDated(c: Config, l: Live, lease: Lease)
    requires CanDo(c, l, RenewStart(lease))
    ensures var e := Do(c, l, RenewStart(lease)).transition.value.entry;
            e == Renewed(lease.request.id, lease.leaseId, l.now + c.leaseDuration, l.now)
  {
  }
}
