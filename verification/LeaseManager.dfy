/** Granting, renewing and ending leases, each change logged before it is remembered
    (src/frontier/lease-manager.ts). */
module LeaseManager {
  import opened Prelude
  import opened Requests
  import opened JournalRecords
  import opened JournalQueue
  import opened FrontierProtocol

  class FrontierLeaseManager {
    var active: map<RequestId, Lease>
    const config: Config
    const journal: FrontierJournal

    constructor (config: Config, journal: FrontierJournal)
      ensures this.config == config && this.journal == journal && active == map[]
    {
      this.config, this.journal, active := config, journal, map[];
    }

    /** Why a call left everything as it was: the handle is stale or the record was not written. */
    predicate Honoured(lease: Lease)
      reads this
    {
      lease.request.id in active && active[lease.request.id].leaseId == lease.leaseId
    }

    method Lease(request: Request, now: Instant, written: bool) returns (lease: Option<Requests.Lease>)
      requires journal.Idle()
      modifies this, journal
      ensures journal.Idle() && journal.closing == old(journal.closing)
      ensures lease.Some? <==> written && !old(journal.closing)
      ensures lease.Some? ==>
                var given := NewLease(config, request, now);
                && lease == Some(given)
                && active == old(active)[request.id := given]
                && journal.file == FrontierProtocol.Append(old(journal.file), Leased(request.id, given.leaseId, given.expiresAt, now))
      ensures lease.Some? ==>
                && lease.value.request == request && lease.value.leaseId == LeaseId(request.id, now)
                && lease.value.leasedAt == now && lease.value.expiresAt == now + config.leaseDuration
      ensures lease.None? ==> active == old(active) && journal.file == old(journal.file)
    {
      var given := NewLease(config, request, now);
      var ok := journal.AppendAlone(Leased(request.id, given.leaseId, given.expiresAt, now), written);
      if !ok {
        return None;
      }
      active := active[request.id := given];
      return Some(given);
    }

    method Renew(lease: Requests.Lease, now: Instant, written: bool) returns (renewed: Option<Requests.Lease>)
      requires journal.Idle()
      modifies this, journal
      ensures journal.Idle() && journal.closing == old(journal.closing)
      ensures renewed.Some? <==> old(Honoured(lease)) && written && !old(journal.closing)
      ensures renewed.Some? ==>
                var longer := lease.(expiresAt := now + config.leaseDuration);
                && renewed == Some(longer)
                && active == old(active)[lease.request.id := longer]
                && journal.file == FrontierProtocol.Append(old(journal.file), Renewed(lease.request.id, lease.leaseId, longer.expiresAt, now))
      ensures renewed.None? ==> active == old(active) && journal.file == old(journal.file)
    {
      if !Honoured(lease) {
        return None;
      }
      var longer := lease.(expiresAt := now + config.leaseDuration);
      var ok := journal.AppendAlone(Renewed(lease.request.id, lease.leaseId, longer.expiresAt, now), written);
      if !ok {
        return None;
      }
      active := active[lease.request.id := longer];
      return Some(longer);
    }

    method Release(lease: Requests.Lease, reason: Option<string>, now: Instant, written: bool) returns (ok: bool)
      requires journal.Idle()
      modifies this, journal
      ensures journal.Idle() && journal.closing == old(journal.closing)
      ensures ok <==> old(Honoured(lease)) && written && !old(journal.closing)
      ensures active == if ok then old(active) - {lease.request.id} else old(active)
      ensures journal.file ==
              if ok then FrontierProtocol.Append(old(journal.file), Released(lease.request.id, lease.leaseId, reason, now))
              else old(journal.file)
    {
      if !Honoured(lease) {
        return false;
      }
      ok := journal.AppendAlone(Released(lease.request.id, lease.leaseId, reason, now), written);
      if ok {
        active := active - {lease.request.id};
      }
    }

    method Finish(lease: Requests.Lease, state: Terminal, reason: Option<string>, now: Instant, written: bool)
      returns (ok: bool)
      requires journal.Idle()
      modifies this, journal
      ensures journal.Idle() && journal.closing == old(journal.closing)
      ensures ok <==> old(Honoured(lease)) && written && !old(journal.closing)
      ensures active == if ok then old(active) - {lease.request.id} else old(active)
      ensures journal.file ==
              if ok then FrontierProtocol.Append(old(journal.file), Finished(lease.request.id, lease.leaseId, state, reason, now))
              else old(journal.file)
    {
      if !Honoured(lease) {
        return false;
      }
      ok := journal.AppendAlone(Finished(lease.request.id, lease.leaseId, state, reason, now), written);
      if ok {
        active := active - {lease.request.id};
      }
    }
  }
}
