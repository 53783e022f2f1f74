/** The append queue of the journal file (src/frontier/journal.ts): appends wait their turn, are
    written one at a time, and settle in the order in which they came. */
module JournalQueue {
  import opened Prelude
  import opened JournalRecords
  import opened JournalValidation
  import opened Runs

  /** How the promise of an append was settled. */
  datatype Settlement = Resolved(record: Record) | Rejected

  /** pending[head..] are the appends still to be written. file holds the records on disk, the
      first of them from an earlier load. settled lists the settlements made so far. */
  datatype Queue = Queue(
    pending: seq<Entry>,
    head: nat,
    sequence: int,
    lastChecksum: Option<Digest>,
    file: seq<Record>,
    settled: seq<Settlement>,
    closing: bool)
  {
    predicate HasPending() { head < |pending| }

    /** append: refused once the journal is closing. */
    function Submit(e: Entry): Queue {
      if closing then this else this.(pending := pending + [e])
    }

    /** One turn of the drain loop; written says whether the record reached the file. */
    function SettleNext(written: bool): Queue
      requires HasPending()
    {
      var record := BuildRecord(pending[head], sequence + 1, lastChecksum);
      if written then
        this.(head := head + 1, sequence := sequence + 1, lastChecksum := Some(record.checksum),
              file := file + [record], settled := settled + [Resolved(record)])
      else
        this.(head := head + 1, settled := settled + [Rejected])
    }

    /** The end of a drain: the emptied array is reused. */
    function Rest(): Queue
      requires !HasPending()
    {
      this.(pending := [], head := 0)
    }
  }

  function Loaded(log: seq<Record>): Queue {
    Queue([], 0, if |log| == 0 then 0 else log[|log| - 1].sequence, LastChecksum(log), log, [], false)
  }

  class FrontierJournal {
    var pending: seq<Entry>
    var pendingHead: nat
    var sequence: int
    var lastChecksum: Option<Digest>
    var file: seq<Record>
    var settled: seq<Settlement>
    var closing: bool

    function View(): Queue
      reads this
    {
      Queue(pending, pendingHead, sequence, lastChecksum, file, settled, closing)
    }

    constructor ()
      ensures View() == Loaded([])
    {
      pending, pendingHead, sequence, lastChecksum, file, settled, closing := [], 0, 0, None, [], [], false;
    }

    /** Nothing changes when the parsed records are refused. */
    method Load(records: seq<Record>) returns (ok: bool)
      requires View() == Loaded([])
      modifies this
      ensures ok <==> ValidJournal(records)
      ensures View() == if ok then Loaded(records) else old(View())
    {
      ok := ValidateJournal(records);
      if ok {
        if |records| > 0 {
          var last := records[|records| - 1];
          sequence, lastChecksum := last.sequence, Some(last.checksum);
        } else {
          sequence, lastChecksum := 0, None;
        }
        file := records;
      }
    }

    method Append(record: Entry) returns (accepted: bool)
      modifies this
      ensures View() == old(View()).Submit(record)
      ensures accepted <==> !old(closing)
    {
      accepted := !closing;
      if accepted {
        pending := pending + [record];
      }
    }

    /** Drains what is pending; writes[i] says whether the i-th write succeeds. */
    method Drain(writes: seq<bool>)
      requires pendingHead <= |pending| && |writes| == |pending| - pendingHead
      modifies this
      ensures View() == DrainAll(old(View()), writes).Rest()
    {
      var done := 0;
      while pendingHead < |pending|
        invariant 0 <= done <= |writes| && |writes| - done == |pending| - pendingHead
        invariant DrainAll(View(), writes[done..]) == DrainAll(old(View()), writes)
      {
        var item := pending[pendingHead];
        pendingHead := pendingHead + 1;
        AppendSerialized(item, writes[done]);
        assert writes[done..][1..] == writes[done + 1..];
        done := done + 1;
      }
      pending := [];
      pendingHead := 0;
    }

    /** Sequence and checksum advance only with a written record. */
    method AppendSerialized(record: Entry, written: bool)
      modifies this`sequence, this`lastChecksum, this`file, this`settled
      ensures var sequenced := BuildRecord(record, old(sequence) + 1, old(lastChecksum));
              View() == if written
                        then old(View()).(sequence := sequenced.sequence, lastChecksum := Some(sequenced.checksum),
                                          file := old(file) + [sequenced], settled := old(settled) + [Resolved(sequenced)])
                        else old(View()).(settled := old(settled) + [Rejected])
    {
      var next := sequence + 1;
      var sequenced := BuildRecord(record, next, lastChecksum);
      if !written {
        settled := settled + [Rejected];
        return;
      }
      file := file + [sequenced];
      sequence := next;
      lastChecksum := Some(sequenced.checksum);
      settled := settled + [Resolved(sequenced)];
    }

    /** Nothing waits to be written and the writer knows the end of the file. */
    predicate Idle()
      reads this
    {
      pending == [] && pendingHead == 0 && sequence == |file| && lastChecksum == LastChecksum(file)
    }

    /** An append that nothing else comes between, and the drain it causes. */
    method AppendAlone(record: Entry, written: bool) returns (ok: bool)
      requires Idle()
      modifies this
      ensures Idle() && closing == old(closing)
      ensures ok <==> written && !old(closing)
      ensures file == if ok then old(file) + [BuildRecord(record, |old(file)| + 1, LastChecksum(old(file)))] else old(file)
    {
      ok := Append(record);
      if ok {
        assert DrainAll(View(), [written]) == View().SettleNext(written) by {
          assert [written][1..] == [];
        }
        Drain([written]);
        ok := written;
      }
    }

    method Close()
      modifies this`closing
      ensures View() == old(View()).(closing := true)
    {
      closing := true;
    }
  }

  function DrainAll(q: Queue, writes: seq<bool>): (r: Queue)
    requires q.head <= |q.pending| && |writes| == |q.pending| - q.head
    ensures !r.HasPending()
    decreases |writes|
  {
    if |writes| == 0 then q else DrainAll(q.SettleNext(writes[0]), writes[1..])
  }

  // ---------------------------------------------------------------------------------------
  // Every interleaving of appends, writes and failures

  datatype Action = SubmitEntry(e: Entry) | Settle(written: bool) | EndDrain | Shut

  function QueueMachine(): (Queue, Action) -> Option<Queue> {
    (q: Queue, a: Action) =>
      match a
      case SubmitEntry(e) => Some(q.Submit(e))
      case Settle(written) => if q.HasPending() then Some(q.SettleNext(written)) else None
      case EndDrain => if q.HasPending() then None else Some(q.Rest())
      case Shut => Some(q.(closing := true))
  }

  /** The appends that were accepted, in their order. */
  function Accepted(closing: bool, actions: seq<Action>): seq<Entry>
    decreases actions
  {
    if |actions| == 0 then []
    else if actions[0].SubmitEntry? && !closing then [actions[0].e] + Accepted(closing, actions[1..])
    else Accepted(closing || actions[0].Shut?, actions[1..])
  }

  function ResolvedRecords(settled: seq<Settlement>): seq<Record> {
    if |settled| == 0 then
      []
    else
      var front, last := ResolvedRecords(settled[..|settled| - 1]), settled[|settled| - 1];
      if last.Resolved? then front + [last.record] else front
  }

  /** submitted settles entry by entry: the i-th settlement answers the i-th append. */
  ghost predicate Answers(q: Queue, base: seq<Record>, submitted: seq<Entry>) {
    && q.head <= |q.pending|
    && |q.settled| <= |submitted|
    && q.pending[q.head..] == submitted[|q.settled|..]
    && (forall i :: 0 <= i < |q.settled| && q.settled[i].Resolved? ==> q.settled[i].record.entry == submitted[i])
    && q.file == base + ResolvedRecords(q.settled)
    && Chained(q.file)
    && q.sequence == |q.file|
    && q.lastChecksum == LastChecksum(q.file)
  }

  lemma SubmitAnswers(q: Queue, base: seq<Record>, submitted: seq<Entry>, e: Entry)
    requires Answers(q, base, submitted) && !q.closing
    ensures Answers(q.Submit(e), base, submitted + [e])
  {
    var q' := q.Submit(e);
    assert q'.pending[q.head..] == q.pending[q.head..] + [e];
    assert (submitted + [e])[|q.settled|..] == submitted[|q.settled|..] + [e];
  }

  lemma SettleAnswers(q: Queue, base: seq<Record>, submitted: seq<Entry>, written: bool)
    requires Answers(q, base, submitted) && q.HasPending()
    ensures Answers(q.SettleNext(written), base, submitted)
  {
    var q' := q.SettleNext(written);
    assert q.pending[q.head..][0] == submitted[|q.settled|..][0];
    assert q'.pending[q'.head..] == q.pending[q.head..][1..];
    assert submitted[|q'.settled|..] == submitted[|q.settled|..][1..];
    assert q'.settled[..|q.settled|] == q.settled;
    if written {
      var record := BuildRecord(q.pending[q.head], q.sequence + 1, q.lastChecksum);
      ChainedAppend(q.file, record);
      assert q'.file == base + (ResolvedRecords(q.settled) + [record]);
    }
  }

  lemma {:induction false} RunAnswers(
      q: Queue, base: seq<Record>, submitted: seq<Entry>, actions: seq<Action>, q': Queue)
    requires Answers(q, base, submitted) && Reaches(QueueMachine(), q, actions, q')
    ensures Answers(q', base, submitted + Accepted(q.closing, actions))
    decreases actions
  {
    if |actions| == 0 {
      assert submitted + [] == submitted;
    } else {
      var next := QueueMachine()(q, actions[0]).value;
      match actions[0]
      case SubmitEntry(e) =>
        if q.closing {
          RunAnswers(next, base, submitted, actions[1..], q');
        } else {
          SubmitAnswers(q, base, submitted, e);
          RunAnswers(next, base, submitted + [e], actions[1..], q');
          assert submitted + [e] + Accepted(q.closing, actions[1..])
              == submitted + ([e] + Accepted(q.closing, actions[1..]));
        }
      case Settle(written) =>
        SettleAnswers(q, base, submitted, written);
        RunAnswers(next, base, submitted, actions[1..], q');
      case EndDrain =>
        assert !q.HasPending() && next == q.Rest();
        assert next.pending[next.head..] == q.pending[q.head..];
        RunAnswers(next, base, submitted, actions[1..], q');
      case Shut =>
        RunAnswers(next, base, submitted, actions[1..], q');
    }
  }

  /** From a loaded journal, through any interleaving: each accepted append is settled at most
      once and in its turn, those resolved are exactly the records that follow the loaded ones,
      and the chain is intact for the next load. */
  lemma AppendsSettleInOrder(base: seq<Record>, actions: seq<Action>, q: Queue)
    requires Chained(base) && Reaches(QueueMachine(), Loaded(base), actions, q)
    ensures var submitted := Accepted(false, actions);
            && q.head <= |q.pending| && |q.settled| <= |submitted|
            && q.pending[q.head..] == submitted[|q.settled|..]
            && forall i :: 0 <= i < |q.settled| && q.settled[i].Resolved? ==> q.settled[i].record.entry == submitted[i]
    ensures q.file == base + ResolvedRecords(q.settled) && Chained(q.file)
    ensures q.sequence == |q.file| && q.lastChecksum == LastChecksum(q.file)
  {
    var start := Loaded(base);
    if |base| > 0 {
      assert Linked(base, |base| - 1);
    }
    assert base + [] == base;
    assert Answers(start, base, []);
    RunAnswers(start, base, [], actions, q);
    assert [] + Accepted(false, actions) == Accepted(false, actions);
  }

  function Settlings(writes: seq<bool>): (actions: seq<Action>)
    ensures |actions| == |writes|
  {
    seq(|writes|, i requires 0 <= i < |writes| => Settle(writes[i]))
  }

  lemma {:induction false} DrainIsARun(q: Queue, writes: seq<bool>)
    requires q.head <= |q.pending| && |writes| == |q.pending| - q.head
    ensures Reaches(QueueMachine(), q, Settlings(writes), DrainAll(q, writes))
    ensures var q' := DrainAll(q, writes);
            && |q'.settled| == |q.settled| + |writes| && q.settled <= q'.settled
            && forall i :: 0 <= i < |writes| ==> (q'.settled[|q.settled| + i].Resolved? <==> writes[i])
    decreases |writes|
  {
    if |writes| > 0 {
      var next := q.SettleNext(writes[0]);
      DrainIsARun(next, writes[1..]);
      assert Settlings(writes)[1..] == Settlings(writes[1..]);
      assert QueueMachine()(q, Settle(writes[0])) == Some(next);
    }
  }

  /** Whatever is pending can be settled, and each append is resolved exactly when its record is
      written; then the journal is at rest. */
  lemma EveryAppendSettles(base: seq<Record>, actions: seq<Action>, q: Queue, writes: seq<bool>) returns (q': Queue)
    requires Chained(base) && Reaches(QueueMachine(), Loaded(base), actions, q)
    requires |writes| + q.head == |q.pending|
    ensures Reaches(QueueMachine(), q, Settlings(writes) + [EndDrain], q')
    ensures q'.pending == [] && q'.head == 0
    ensures |q'.settled| == |q.settled| + |writes| == |Accepted(false, actions)|
    ensures forall i :: 0 <= i < |writes| ==> (q'.settled[|q.settled| + i].Resolved? <==> writes[i])
  {
    AppendsSettleInOrder(base, actions, q);
    DrainIsARun(q, writes);
    var drained := DrainAll(q, writes);
    q' := drained.Rest();
    RunSnoc(QueueMachine(), q, Settlings(writes), drained, EndDrain, q');
    assert |q.pending[q.head..]| == |Accepted(false, actions)[|q.settled|..]|;
  }
}
