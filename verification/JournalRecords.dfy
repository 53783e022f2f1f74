/** Records of the frontier journal and their hash chain (src/frontier/journal-codec.ts). */
module JournalRecords {
  import opened Prelude
  import opened Requests

  /** What a caller hands to append; the file adds sequence, link and checksum. */
  datatype Entry =
    | Enqueued(request: Request, createdAt: Instant)
    | Leased(requestId: RequestId, leaseId: LeaseId, expiresAt: Instant, createdAt: Instant)
    | Renewed(requestId: RequestId, leaseId: LeaseId, expiresAt: Instant, createdAt: Instant)
    | Released(requestId: RequestId, leaseId: LeaseId, reason: Option<string>, createdAt: Instant)
    | Finished(requestId: RequestId, leaseId: LeaseId, state: Terminal, reason: Option<string>,
               createdAt: Instant)

  function Subject(e: Entry): RequestId {
    if e.Enqueued? then e.request.id else e.requestId
  }

  /** SHA-256 of the printed record: an injective function of everything that is hashed. */
  datatype Digest = Sha(sequence: int, previous: Option<Digest>, entry: Entry)

  datatype Record = Record(sequence: int, previousChecksum: Option<Digest>, checksum: Digest, entry: Entry)

  function BuildRecord(e: Entry, sequence: int, previous: Option<Digest>): Record {
    Record(sequence, previous, Sha(sequence, previous, e), e)
  }

  function ChecksumFor(r: Record): Digest {
    Sha(r.sequence, r.previousChecksum, r.entry)
  }

  function LastChecksum(log: seq<Record>): Option<Digest> {
    if |log| == 0 then None else Some(log[|log| - 1].checksum)
  }

  /** Record i numbers its position, names the checksum before it and hashes itself. */
  predicate Linked(log: seq<Record>, i: nat)
    requires i < |log|
  {
    && log[i].sequence == i + 1
    && log[i].previousChecksum == LastChecksum(log[..i])
    && log[i].checksum == ChecksumFor(log[i])
  }

  ghost predicate Chained(log: seq<Record>) {
    forall i :: 0 <= i < |log| ==> Linked(log, i)
  }

  lemma ChainedPrefix(log: seq<Record>, k: nat)
    requires k <= |log| && Chained(log)
    ensures Chained(log[..k])
  {
    forall i | 0 <= i < k ensures Linked(log[..k], i) {
      assert log[..k][..i] == log[..i];
      assert Linked(log, i);
    }
  }

  lemma ChainedAppend(log: seq<Record>, r: Record)
    requires Chained(log)
    ensures Chained(log + [r]) <==>
              r.sequence == |log| + 1 && r.previousChecksum == LastChecksum(log) && r.checksum == ChecksumFor(r)
    ensures Entries(log + [r]) == Entries(log) + [r.entry]
  {
    var all := log + [r];
    assert all[..|log|] == log;
    forall i | 0 <= i < |log| ensures Linked(all, i) {
      assert all[..i] == log[..i];
      assert Linked(log, i);
    }
    assert Linked(all, |log|) <==>
             r.sequence == |log| + 1 && r.previousChecksum == LastChecksum(log) && r.checksum == ChecksumFor(r);
  }

  /** The last checksum of a chain commits to the whole log: no record can be changed, dropped,
      inserted or moved without changing it. */
  lemma {:induction false} ChecksumCommitsToLog(a: seq<Record>, b: seq<Record>)
    requires Chained(a) && Chained(b)
    requires LastChecksum(a) == LastChecksum(b)
    ensures a == b
    decreases |a|
  {
    if |a| > 0 && |b| > 0 {
      var x, y := a[|a| - 1], b[|b| - 1];
      assert Linked(a, |a| - 1) && Linked(b, |b| - 1);
      assert x == y;
      var a', b' := a[..|a| - 1], b[..|b| - 1];
      ChainedPrefix(a, |a| - 1);
      ChainedPrefix(b, |b| - 1);
      ChecksumCommitsToLog(a', b');
      assert a == a' + [x] && b == b' + [y];
    }
  }

  function Entries(log: seq<Record>): (es: seq<Entry>)
    ensures |es| == |log|
    ensures forall i :: 0 <= i < |log| ==> es[i] == log[i].entry
  {
    seq(|log|, i requires 0 <= i < |log| => log[i].entry)
  }

  /** The log that a writer makes of the entries it has been given. */
  function Written(es: seq<Entry>): (log: seq<Record>)
    ensures |log| == |es|
  {
    if |es| == 0 then
      []
    else
      var before := Written(es[..|es| - 1]);
      before + [BuildRecord(es[|es| - 1], |es|, LastChecksum(before))]
  }

  lemma {:induction false} WrittenIsChained(es: seq<Entry>)
    ensures Chained(Written(es))
    ensures Entries(Written(es)) == es
  {
    if |es| > 0 {
      WrittenIsChained(es[..|es| - 1]);
      var before := Written(es[..|es| - 1]);
      ChainedAppend(before, BuildRecord(es[|es| - 1], |es|, LastChecksum(before)));
      assert es == es[..|es| - 1] + [es[|es| - 1]];
    }
  }

  /** A chained log is the one its entries determine. */
  lemma {:induction false} ChainedIsWritten(log: seq<Record>)
    requires Chained(log)
    ensures log == Written(Entries(log))
  {
    if |log| > 0 {
      var front, last := log[..|log| - 1], log[|log| - 1];
      ChainedPrefix(log, |log| - 1);
      ChainedIsWritten(front);
      ChainedAppend(front, last);
      assert log == front + [last];
      assert Entries(log)[..|log| - 1] == Entries(front);
    }
  }
}
