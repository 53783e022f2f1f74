/** The state machine that accepts or refuses a loaded journal (src/frontier/journal-validation.ts). */
module JournalValidation {
  import opened Prelude
  import opened Requests
  import opened JournalRecords

  datatype Checked = Checked(request: Request, terminal: bool, leaseId: Option<LeaseId>)

  type States = map<RequestId, Checked>

  /** None where applyTransition throws. */
  function ApplyTransition(e: Entry, states: States): Option<States> {
    if e.Enqueued? then
      if e.request.id in states then None
      else Some(states[e.request.id := Checked(e.request, false, None)])
    else if e.requestId !in states then
      None
    else
      var current := states[e.requestId];
      if current.terminal then
        None
      else if e.Leased? then
        if current.leaseId != None then None
        else Some(states[e.requestId := current.(leaseId := Some(e.leaseId))])
      else if current.leaseId != Some(e.leaseId) then
        None
      else if e.Renewed? then
        Some(states)
      else if e.Released? then
        Some(states[e.requestId := current.(leaseId := None)])
      else
        Some(states[e.requestId := Checked(current.request, true, None)])
  }

  function CheckEntries(es: seq<Entry>): Option<States> {
    if |es| == 0 then
      Some(map[])
    else
      var before := CheckEntries(es[..|es| - 1]);
      if before.None? then None else ApplyTransition(es[|es| - 1], before.value)
  }

  lemma CheckAppend(es: seq<Entry>, e: Entry)
    ensures CheckEntries(es + [e]) ==
            if CheckEntries(es).None? then None else ApplyTransition(e, CheckEntries(es).value)
  {
    assert (es + [e])[..|es|] == es;
  }

  ghost predicate ValidJournal(log: seq<Record>) {
    Chained(log) && CheckEntries(Entries(log)).Some?
  }

  method ValidateJournal(records: seq<Record>) returns (ok: bool)
    ensures ok <==> ValidJournal(records)
  {
    var expectedSequence := 1;
    var previousChecksum: Option<Digest> := None;
    var states: States := map[];
    for i := 0 to |records|
      invariant expectedSequence == i + 1
      invariant previousChecksum == LastChecksum(records[..i])
      invariant Chained(records[..i])
      invariant CheckEntries(Entries(records[..i])) == Some(states)
    {
      var record := records[i];
      assert records[..i + 1] == records[..i] + [record];
      ChainedAppend(records[..i], record);
      CheckAppend(Entries(records[..i]), record.entry);
      if record.sequence != expectedSequence
         || record.previousChecksum != previousChecksum
         || ChecksumFor(record) != record.checksum
      {
        if ValidJournal(records) {
          ValidPrefix(records, i + 1);
        }
        return false;
      }
      var next := ApplyTransition(record.entry, states);
      if next.None? {
        if ValidJournal(records) {
          ValidPrefix(records, i + 1);
        }
        return false;
      }
      states := next.value;
      expectedSequence := expectedSequence + 1;
      previousChecksum := Some(record.checksum);
    }
    assert records[..|records|] == records;
    return true;
  }

  /** What refuses a prefix refuses every log that continues it. */
  lemma {:induction false} RejectedStaysRejected(es: seq<Entry>, k: nat)
    requires k <= |es| && CheckEntries(es[..k]).None?
    ensures CheckEntries(es).None?
  {
    if k < |es| {
      assert es[..|es| - 1][..k] == es[..k];
      RejectedStaysRejected(es[..|es| - 1], k);
    } else {
      assert es[..k] == es;
    }
  }

  lemma ValidPrefix(log: seq<Record>, k: nat)
    requires k <= |log| && ValidJournal(log)
    ensures ValidJournal(log[..k])
  {
    ChainedPrefix(log, k);
    assert Entries(log)[..k] == Entries(log[..k]);
    if CheckEntries(Entries(log[..k])).None? {
      RejectedStaysRejected(Entries(log), k);
    }
  }

  // ---------------------------------------------------------------------------------------
  // The life of one request, as an automaton of its own

  datatype Stage = Unknown | Idle | Held(leaseId: LeaseId) | Ended | Broken

  function StageStep(s: Stage, e: Entry): Stage {
    match e
    case Enqueued(_, _) => if s.Unknown? then Idle else Broken
    case Leased(_, l, _, _) => if s.Idle? then Held(l) else Broken
    case Renewed(_, l, _, _) => if s == Held(l) then s else Broken
    case Released(_, l, _, _) => if s == Held(l) then Idle else Broken
    case Finished(_, l, _, _, _) => if s == Held(l) then Ended else Broken
  }

  /** Where the records about one request leave it, whatever stands between them. */
  function StageOf(es: seq<Entry>, id: RequestId): Stage {
    if |es| == 0 then
      Unknown
    else
      var s, e := StageOf(es[..|es| - 1], id), es[|es| - 1];
      if Subject(e) == id then StageStep(s, e) else s
  }

  function StageIn(states: States, id: RequestId): Stage {
    if id !in states then Unknown
    else if states[id].terminal then Ended
    else if states[id].leaseId.None? then Idle
    else Held(states[id].leaseId.value)
  }

  /** The validator judges each request by its own records alone: a log is accepted exactly when
      the life of no request breaks, and then the table holds the stage of each. */
  lemma {:induction false} AcceptedIffNoLifeBreaks(es: seq<Entry>)
    ensures CheckEntries(es).Some? <==> (forall id :: StageOf(es, id) != Broken)
    ensures CheckEntries(es).Some? ==> forall id :: StageIn(CheckEntries(es).value, id) == StageOf(es, id)
  {
    if |es| > 0 {
      var front, e := es[..|es| - 1], es[|es| - 1];
      AcceptedIffNoLifeBreaks(front);
      var before := CheckEntries(front);
      if before.None? {
        var id :| StageOf(front, id) == Broken;
        assert StageOf(es, id) == Broken;
      } else {
        var id := Subject(e);
        assert StageIn(before.value, id) == StageOf(front, id);
        assert StageOf(es, id) == StageStep(StageOf(front, id), e);
        if CheckEntries(es).None? {
          assert StageOf(es, id) == Broken;
        } else {
          forall other
            ensures StageIn(CheckEntries(es).value, other) == StageOf(es, other)
          {
            if other != id {
              assert StageIn(before.value, other) == StageOf(front, other);
            }
          }
        }
      }
    }
  }
}
