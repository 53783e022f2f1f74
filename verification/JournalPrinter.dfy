/** A printer of journal records that meets what JournalText asks of one: what is assumed there of the
    JSON of the source can be had. Records become unary numerals between two braces. */
module JournalPrinter {
  import opened Prelude
  import opened Requests
  import opened JournalRecords
  import opened JournalText
  import opened Unicode

  // Each Put writes a value in front of what follows it.

  function PutNat(n: nat, tail: string): string {
    if n == 0 then "0" + tail else "1" + PutNat(n - 1, tail)
  }

  function PutInt(i: int, tail: string): string {
    if i < 0 then "1" + PutNat(-i, tail) else "0" + PutNat(i, tail)
  }

  function PutString(s: string, tail: string): string {
    if |s| == 0 then "0" + tail else "1" + PutNat(s[0] as int, PutString(s[1..], tail))
  }

  function PutReason(reason: Option<string>, tail: string): string {
    if reason.None? then "0" + tail else "1" + PutString(reason.value, tail)
  }

  function PutId(id: RequestId, tail: string): string {
    PutString(id.runId, PutString(id.uniqueKey, tail))
  }

  function PutLeaseId(id: LeaseId, tail: string): string {
    PutId(id.requestId, PutInt(id.leasedAt, tail))
  }

  /** Priorities tell sources apart. */
  function PutSource(source: Source, tail: string): string {
    PutInt(PriorityForSource(source), tail)
  }

  function PutRequest(r: Request, tail: string): string {
    PutId(r.id, PutString(r.uniqueKey, PutString(r.origin, PutSource(r.source, PutString(r.seedUrl,
      PutInt(r.depth, PutInt(r.priority, PutInt(r.createdAt, tail))))))))
  }

  function PutTerminal(t: Terminal, tail: string): string {
    PutNat(match t case Handled => 0 case Failed => 1 case Skipped => 2 case Cancelled => 3, tail)
  }

  function PutEntry(e: Entry, tail: string): string {
    match e
    case Enqueued(r, at) => PutNat(0, PutRequest(r, PutInt(at, tail)))
    case Leased(id, lease, until, at) => PutNat(1, PutId(id, PutLeaseId(lease, PutInt(until, PutInt(at, tail)))))
    case Renewed(id, lease, until, at) => PutNat(2, PutId(id, PutLeaseId(lease, PutInt(until, PutInt(at, tail)))))
    case Released(id, lease, reason, at) => PutNat(3, PutId(id, PutLeaseId(lease, PutReason(reason, PutInt(at, tail)))))
    case Finished(id, lease, state, reason, at) =>
      PutNat(4, PutId(id, PutLeaseId(lease, PutTerminal(state, PutReason(reason, PutInt(at, tail))))))
  }

  function PutDigest(d: Digest, tail: string): string
    decreases d, 0
  {
    PutInt(d.sequence, PutEntry(d.entry, PutPrevious(d.previous, tail)))
  }

  function PutPrevious(d: Option<Digest>, tail: string): string
    decreases d, 1
  {
    if d.None? then "0" + tail else "1" + PutDigest(d.value, tail)
  }

  function Format(r: Record): string {
    "{" + PutInt(r.sequence, PutPrevious(r.previousChecksum, PutDigest(r.checksum, PutEntry(r.entry, "}"))))
  }

  // ---------------------------------------------------------------------------------------
  // What is written can be told apart

  lemma {:induction false} NatOnce(a: nat, b: nat, x: string, y: string)
    requires PutNat(a, x) == PutNat(b, y)
    ensures a == b && x == y
    decreases a
  {
    assert PutNat(a, x)[0] == PutNat(b, y)[0];
    assert PutNat(a, x)[1..] == PutNat(b, y)[1..];
    if a == 0 {
      assert PutNat(a, x)[1..] == x && PutNat(b, y)[1..] == y;
    } else {
      assert PutNat(a, x)[1..] == PutNat(a - 1, x) && PutNat(b, y)[1..] == PutNat(b - 1, y);
      NatOnce(a - 1, b - 1, x, y);
    }
  }

  lemma SameBehindFirst(c: char, d: char, x: string, y: string)
    requires [c] + x == [d] + y
    ensures c == d && x == y
  {
    assert ([c] + x)[0] == c && ([d] + y)[0] == d;
    assert ([c] + x)[1..] == x && ([d] + y)[1..] == y;
  }

  lemma IntOnce(a: int, b: int, x: string, y: string)
    requires PutInt(a, x) == PutInt(b, y)
    ensures a == b && x == y
  {
    var p, q := if a < 0 then -a else a, if b < 0 then -b else b;
    SameBehindFirst(if a < 0 then '1' else '0', if b < 0 then '1' else '0', PutNat(p, x), PutNat(q, y));
    NatOnce(p, q, x, y);
  }

  lemma {:induction false} StringOnce(a: string, b: string, x: string, y: string)
    requires PutString(a, x) == PutString(b, y)
    ensures a == b && x == y
    decreases a
  {
    var p := if |a| == 0 then x else PutNat(a[0] as int, PutString(a[1..], x));
    var q := if |b| == 0 then y else PutNat(b[0] as int, PutString(b[1..], y));
    SameBehindFirst(if |a| == 0 then '0' else '1', if |b| == 0 then '0' else '1', p, q);
    if |a| > 0 {
      NatOnce(a[0] as int, b[0] as int, PutString(a[1..], x), PutString(b[1..], y));
      StringOnce(a[1..], b[1..], x, y);
      assert a == [a[0]] + a[1..] && b == [b[0]] + b[1..];
    }
  }

  lemma ReasonOnce(a: Option<string>, b: Option<string>, x: string, y: string)
    requires PutReason(a, x) == PutReason(b, y)
    ensures a == b && x == y
  {
    SameBehindFirst(if a.None? then '0' else '1', if b.None? then '0' else '1',
                    if a.None? then x else PutString(a.value, x), if b.None? then y else PutString(b.value, y));
    if a.Some? {
      StringOnce(a.value, b.value, x, y);
    }
  }

  lemma IdOnce(a: RequestId, b: RequestId, x: string, y: string)
    requires PutId(a, x) == PutId(b, y)
    ensures a == b && x == y
  {
    StringOnce(a.runId, b.runId, PutString(a.uniqueKey, x), PutString(b.uniqueKey, y));
    StringOnce(a.uniqueKey, b.uniqueKey, x, y);
  }

  lemma LeaseIdOnce(a: LeaseId, b: LeaseId, x: string, y: string)
    requires PutLeaseId(a, x) == PutLeaseId(b, y)
    ensures a == b && x == y
  {
    IdOnce(a.requestId, b.requestId, PutInt(a.leasedAt, x), PutInt(b.leasedAt, y));
    IntOnce(a.leasedAt, b.leasedAt, x, y);
  }

  lemma TimesOnce(a: Request, b: Request, x: string, y: string)
    requires PutInt(a.depth, PutInt(a.priority, PutInt(a.createdAt, x))) == PutInt(b.depth, PutInt(b.priority, PutInt(b.createdAt, y)))
    ensures a.depth == b.depth && a.priority == b.priority && a.createdAt == b.createdAt && x == y
  {
    IntOnce(a.depth, b.depth, PutInt(a.priority, PutInt(a.createdAt, x)), PutInt(b.priority, PutInt(b.createdAt, y)));
    IntOnce(a.priority, b.priority, PutInt(a.createdAt, x), PutInt(b.createdAt, y));
    IntOnce(a.createdAt, b.createdAt, x, y);
  }

  lemma RequestOnce(a: Request, b: Request, x: string, y: string)
    requires PutRequest(a, x) == PutRequest(b, y)
    ensures a == b && x == y
  {
    var a4, b4 := PutInt(a.depth, PutInt(a.priority, PutInt(a.createdAt, x))), PutInt(b.depth, PutInt(b.priority, PutInt(b.createdAt, y)));
    var a3, b3 := PutSource(a.source, PutString(a.seedUrl, a4)), PutSource(b.source, PutString(b.seedUrl, b4));
    IdOnce(a.id, b.id, PutString(a.uniqueKey, PutString(a.origin, a3)), PutString(b.uniqueKey, PutString(b.origin, b3)));
    StringOnce(a.uniqueKey, b.uniqueKey, PutString(a.origin, a3), PutString(b.origin, b3));
    StringOnce(a.origin, b.origin, a3, b3);
    IntOnce(PriorityForSource(a.source), PriorityForSource(b.source), PutString(a.seedUrl, a4), PutString(b.seedUrl, b4));
    StringOnce(a.seedUrl, b.seedUrl, a4, b4);
    TimesOnce(a, b, x, y);
  }

  function Tag(e: Entry): nat {
    match e case Enqueued(_, _) => 0 case Leased(_, _, _, _) => 1 case Renewed(_, _, _, _) => 2
            case Released(_, _, _, _) => 3 case Finished(_, _, _, _, _) => 4
  }

  /** What an entry about a lease says behind its lease id. */
  function PutDetails(e: Entry, tail: string): string
    requires !e.Enqueued?
  {
    if e.Leased? || e.Renewed? then PutInt(e.expiresAt, PutInt(e.createdAt, tail))
    else if e.Released? then PutReason(e.reason, PutInt(e.createdAt, tail))
    else PutTerminal(e.state, PutReason(e.reason, PutInt(e.createdAt, tail)))
  }

  function PutBody(e: Entry, tail: string): string {
    if e.Enqueued? then PutRequest(e.request, PutInt(e.createdAt, tail))
    else PutId(e.requestId, PutLeaseId(e.leaseId, PutDetails(e, tail)))
  }

  lemma EntryInParts(e: Entry, tail: string)
    ensures PutEntry(e, tail) == PutNat(Tag(e), PutBody(e, tail))
  {
  }

  lemma DetailsOnce(a: Entry, b: Entry, x: string, y: string)
    requires !a.Enqueued? && Tag(a) == Tag(b) && PutDetails(a, x) == PutDetails(b, y)
    requires a.requestId == b.requestId && a.leaseId == b.leaseId
    ensures a == b && x == y
  {
    var p, q := PutInt(a.createdAt, x), PutInt(b.createdAt, y);
    if a.Leased? || a.Renewed? {
      IntOnce(a.expiresAt, b.expiresAt, p, q);
    } else if a.Released? {
      ReasonOnce(a.reason, b.reason, p, q);
    } else {
      TerminalOnce(a.state, b.state, PutReason(a.reason, p), PutReason(b.reason, q));
      ReasonOnce(a.reason, b.reason, p, q);
    }
    IntOnce(a.createdAt, b.createdAt, x, y);
  }

  lemma TerminalOnce(a: Terminal, b: Terminal, x: string, y: string)
    requires PutTerminal(a, x) == PutTerminal(b, y)
    ensures a == b && x == y
  {
    var p := match a case Handled => 0 case Failed => 1 case Skipped => 2 case Cancelled => 3;
    var q := match b case Handled => 0 case Failed => 1 case Skipped => 2 case Cancelled => 3;
    NatOnce(p, q, x, y);
  }

  lemma EntryOnce(a: Entry, b: Entry, x: string, y: string)
    requires PutEntry(a, x) == PutEntry(b, y)
    ensures a == b && x == y
  {
    EntryInParts(a, x);
    EntryInParts(b, y);
    NatOnce(Tag(a), Tag(b), PutBody(a, x), PutBody(b, y));
    if a.Enqueued? {
      RequestOnce(a.request, b.request, PutInt(a.createdAt, x), PutInt(b.createdAt, y));
      IntOnce(a.createdAt, b.createdAt, x, y);
    } else {
      IdOnce(a.requestId, b.requestId, PutLeaseId(a.leaseId, PutDetails(a, x)), PutLeaseId(b.leaseId, PutDetails(b, y)));
      LeaseIdOnce(a.leaseId, b.leaseId, PutDetails(a, x), PutDetails(b, y));
      DetailsOnce(a, b, x, y);
    }
  }

  lemma {:induction false} DigestOnce(a: Digest, b: Digest, x: string, y: string)
    requires PutDigest(a, x) == PutDigest(b, y)
    ensures a == b && x == y
    decreases a, 0
  {
    var p, q := PutPrevious(a.previous, x), PutPrevious(b.previous, y);
    IntOnce(a.sequence, b.sequence, PutEntry(a.entry, p), PutEntry(b.entry, q));
    EntryOnce(a.entry, b.entry, p, q);
    PreviousOnce(a.previous, b.previous, x, y);
  }

  lemma {:induction false} PreviousOnce(a: Option<Digest>, b: Option<Digest>, x: string, y: string)
    requires PutPrevious(a, x) == PutPrevious(b, y)
    ensures a == b && x == y
    decreases a, 1
  {
    SameBehindFirst(if a.None? then '0' else '1', if b.None? then '0' else '1',
                    if a.None? then x else PutDigest(a.value, x), if b.None? then y else PutDigest(b.value, y));
    if a.Some? {
      DigestOnce(a.value, b.value, x, y);
    }
  }

  lemma FormatOnce(a: Record, b: Record)
    requires Format(a) == Format(b)
    ensures a == b
  {
    var a3, b3 := PutEntry(a.entry, "}"), PutEntry(b.entry, "}");
    var a2, b2 := PutDigest(a.checksum, a3), PutDigest(b.checksum, b3);
    var a1, b1 := PutPrevious(a.previousChecksum, a2), PutPrevious(b.previousChecksum, b2);
    SameBehindFirst('{', '{', PutInt(a.sequence, a1), PutInt(b.sequence, b1));
    IntOnce(a.sequence, b.sequence, a1, b1);
    PreviousOnce(a.previousChecksum, b.previousChecksum, a2, b2);
    DigestOnce(a.checksum, b.checksum, a3, b3);
    EntryOnce(a.entry, b.entry, "}", "}");
  }

  // ---------------------------------------------------------------------------------------
  // Braces stand at the ends alone

  /** Digits, then the end given. */
  ghost predicate Numerals(s: string, tail: string) {
    |tail| <= |s| && s[|s| - |tail|..] == tail && forall i :: 0 <= i < |s| - |tail| ==> s[i] == '0' || s[i] == '1'
  }

  lemma NumeralsChain(s: string, middle: string, tail: string)
    requires Numerals(s, middle) && Numerals(middle, tail)
    ensures Numerals(s, tail)
  {
    var k := |s| - |middle|;
    assert forall i :: k <= i < |s| ==> s[i] == s[k..][i - k];
  }

  lemma NumeralsCons(c: char, s: string, tail: string)
    requires Numerals(s, tail) && (c == '0' || c == '1')
    ensures Numerals([c] + s, tail)
  {
    assert ([c] + s)[1..] == s;
    assert forall i :: 1 <= i < |s| + 1 ==> ([c] + s)[i] == s[i - 1];
  }

  lemma {:induction false} NatNumerals(n: nat, tail: string)
    ensures Numerals(PutNat(n, tail), tail)
  {
    if n > 0 {
      NatNumerals(n - 1, tail);
      NumeralsCons('1', PutNat(n - 1, tail), tail);
    } else {
      NumeralsCons('0', tail, tail);
    }
  }

  lemma IntNumerals(i: int, tail: string)
    ensures Numerals(PutInt(i, tail), tail)
  {
    var n := if i < 0 then -i else i;
    NatNumerals(n, tail);
    NumeralsCons(if i < 0 then '1' else '0', PutNat(n, tail), tail);
  }

  lemma {:induction false} StringNumerals(s: string, tail: string)
    ensures Numerals(PutString(s, tail), tail)
  {
    if |s| == 0 {
      NumeralsCons('0', tail, tail);
    } else {
      var rest := PutString(s[1..], tail);
      StringNumerals(s[1..], tail);
      NatNumerals(s[0] as int, rest);
      NumeralsChain(PutNat(s[0] as int, rest), rest, tail);
      NumeralsCons('1', PutNat(s[0] as int, rest), tail);
    }
  }

  lemma ReasonNumerals(reason: Option<string>, tail: string)
    ensures Numerals(PutReason(reason, tail), tail)
  {
    if reason.Some? {
      StringNumerals(reason.value, tail);
      NumeralsCons('1', PutString(reason.value, tail), tail);
    } else {
      NumeralsCons('0', tail, tail);
    }
  }

  lemma IdNumerals(id: RequestId, tail: string)
    ensures Numerals(PutId(id, tail), tail)
  {
    StringNumerals(id.uniqueKey, tail);
    StringNumerals(id.runId, PutString(id.uniqueKey, tail));
    NumeralsChain(PutId(id, tail), PutString(id.uniqueKey, tail), tail);
  }

  lemma LeaseIdNumerals(id: LeaseId, tail: string)
    ensures Numerals(PutLeaseId(id, tail), tail)
  {
    IntNumerals(id.leasedAt, tail);
    IdNumerals(id.requestId, PutInt(id.leasedAt, tail));
    NumeralsChain(PutLeaseId(id, tail), PutInt(id.leasedAt, tail), tail);
  }

  lemma RequestNumerals(r: Request, tail: string)
    ensures Numerals(PutRequest(r, tail), tail)
  {
    var s7 := PutInt(r.createdAt, tail);
    var s6 := PutInt(r.priority, s7);
    var s5 := PutInt(r.depth, s6);
    var s4 := PutString(r.seedUrl, s5);
    var s3 := PutSource(r.source, s4);
    var s2 := PutString(r.origin, s3);
    var s1 := PutString(r.uniqueKey, s2);
    IntNumerals(r.createdAt, tail);
    IntNumerals(r.priority, s7);
    NumeralsChain(s6, s7, tail);
    IntNumerals(r.depth, s6);
    NumeralsChain(s5, s6, tail);
    StringNumerals(r.seedUrl, s5);
    NumeralsChain(s4, s5, tail);
    IntNumerals(PriorityForSource(r.source), s4);
    NumeralsChain(s3, s4, tail);
    StringNumerals(r.origin, s3);
    NumeralsChain(s2, s3, tail);
    StringNumerals(r.uniqueKey, s2);
    NumeralsChain(s1, s2, tail);
    IdNumerals(r.id, s1);
    NumeralsChain(PutRequest(r, tail), s1, tail);
  }

  lemma DetailsNumerals(e: Entry, tail: string)
    requires !e.Enqueued?
    ensures Numerals(PutDetails(e, tail), tail)
  {
    var last := PutInt(e.createdAt, tail);
    IntNumerals(e.createdAt, tail);
    if e.Leased? || e.Renewed? {
      IntNumerals(e.expiresAt, last);
      NumeralsChain(PutDetails(e, tail), last, tail);
    } else {
      ReasonNumerals(e.reason, last);
      NumeralsChain(PutReason(e.reason, last), last, tail);
      if e.Finished? {
        var n := match e.state case Handled => 0 case Failed => 1 case Skipped => 2 case Cancelled => 3;
        NatNumerals(n, PutReason(e.reason, last));
        NumeralsChain(PutDetails(e, tail), PutReason(e.reason, last), tail);
      }
    }
  }

  lemma EntryNumerals(e: Entry, tail: string)
    ensures Numerals(PutEntry(e, tail), tail)
  {
    EntryInParts(e, tail);
    if e.Enqueued? {
      IntNumerals(e.createdAt, tail);
      RequestNumerals(e.request, PutInt(e.createdAt, tail));
      NumeralsChain(PutBody(e, tail), PutInt(e.createdAt, tail), tail);
    } else {
      var details := PutDetails(e, tail);
      DetailsNumerals(e, tail);
      LeaseIdNumerals(e.leaseId, details);
      NumeralsChain(PutLeaseId(e.leaseId, details), details, tail);
      IdNumerals(e.requestId, PutLeaseId(e.leaseId, details));
      NumeralsChain(PutBody(e, tail), PutLeaseId(e.leaseId, details), tail);
    }
    NatNumerals(Tag(e), PutBody(e, tail));
    NumeralsChain(PutEntry(e, tail), PutBody(e, tail), tail);
  }

  lemma {:induction false} DigestNumerals(d: Digest, tail: string)
    ensures Numerals(PutDigest(d, tail), tail)
    decreases d, 0
  {
    var previous := PutPrevious(d.previous, tail);
    PreviousNumerals(d.previous, tail);
    EntryNumerals(d.entry, previous);
    NumeralsChain(PutEntry(d.entry, previous), previous, tail);
    IntNumerals(d.sequence, PutEntry(d.entry, previous));
    NumeralsChain(PutDigest(d, tail), PutEntry(d.entry, previous), tail);
  }

  lemma {:induction false} PreviousNumerals(d: Option<Digest>, tail: string)
    ensures Numerals(PutPrevious(d, tail), tail)
    decreases d, 1
  {
    if d.Some? {
      DigestNumerals(d.value, tail);
      NumeralsCons('1', PutDigest(d.value, tail), tail);
    } else {
      NumeralsCons('0', tail, tail);
    }
  }

  ghost predicate Braced(s: string) {
    |s| > 1 && s[0] == '{' && s[|s| - 1] == '}' && forall i :: 0 < i < |s| - 1 ==> s[i] == '0' || s[i] == '1'
  }

  lemma Braces(r: Record)
    ensures Braced(Format(r))
  {
    var s3 := PutEntry(r.entry, "}");
    var s2 := PutDigest(r.checksum, s3);
    var s1 := PutPrevious(r.previousChecksum, s2);
    var s0 := PutInt(r.sequence, s1);
    EntryNumerals(r.entry, "}");
    DigestNumerals(r.checksum, s3);
    NumeralsChain(s2, s3, "}");
    PreviousNumerals(r.previousChecksum, s2);
    NumeralsChain(s1, s2, "}");
    IntNumerals(r.sequence, s1);
    NumeralsChain(s0, s1, "}");
    var s := Format(r);
    assert s == ['{'] + s0 && s0[|s0| - 1..][0] == '}';
    assert forall i :: 0 < i < |s| ==> s[i] == s0[i - 1];
  }

  // ---------------------------------------------------------------------------------------

  ghost function Decoded(s: string): (d: Option<Record>)
    ensures d.Some? ==> Format(d.value) == s
    ensures d.None? ==> forall r :: Format(r) != s
  {
    if r :| Format(r) == s then Some(r) else None
  }

  lemma DecodedFormat(r: Record)
    ensures Decoded(Format(r)) == Some(r)
  {
    var d := Decoded(Format(r));
    FormatOnce(d.value, r);
  }

  lemma NotARecord(s: string)
    requires !Braced(s)
    ensures Decoded(s) == None
  {
    forall r ensures Format(r) != s {
      Braces(r);
    }
  }

  lemma PartIsNotBraced(line: string, k: nat, mark: string)
    requires Braced(line) && k < |line| && IsMark(mark)
    ensures !Braced(line[..k] + mark)
  {
    var s := line[..k] + mark;
    if |s| > 1 {
      assert s[|s| - 1] == if mark == "" then line[k - 1] else REPLACEMENT;
    }
  }

  lemma RunOnIsNotBraced(front: string, line: string)
    requires |front| > 0 && Braced(line)
    ensures !Braced(front + line)
  {
    assert (front + line)[|front|] == '{';
  }

  lemma PartsAreNothing(line: string)
    requires Braced(line)
    ensures forall k, mark :: 0 <= k < |line| && IsMark(mark) ==> Decoded(line[..k] + mark).None?
  {
    forall k, mark | 0 <= k < |line| && IsMark(mark) ensures Decoded(line[..k] + mark).None? {
      PartIsNotBraced(line, k, mark);
      NotARecord(line[..k] + mark);
    }
  }

  lemma RunOnsAreNothing(line: string, next: string)
    requires Braced(next)
    ensures forall k, mark :: 0 <= k <= |line| && IsMark(mark) && (k > 0 || mark != "") ==>
              Decoded(line[..k] + mark + next).None?
  {
    forall k, mark | 0 <= k <= |line| && IsMark(mark) && (k > 0 || mark != "")
      ensures Decoded(line[..k] + mark + next).None?
    {
      RunOnIsNotBraced(line[..k] + mark, next);
      NotARecord(line[..k] + mark + next);
    }
  }

  lemma BracedIsOneLine(line: string)
    requires Braced(line)
    ensures OneLine(line)
  {
  }

  lemma PrinterIsLawfulAt(c: Codec, r: Record, line: string)
    requires c.format(r) == line && Braced(line) && c.decode(line) == Some(r)
    requires forall s :: c.decode(s) == Decoded(s)
    ensures LawfulAt(c, r)
  {
    BracedIsOneLine(line);
    PartsAreNothing(line);
  }

  lemma PrinterDoesNotRunOn(c: Codec, r: Record, next: Record, line: string, other: string)
    requires c.format(r) == line && c.format(next) == other && Braced(other)
    requires forall s :: c.decode(s) == Decoded(s)
    ensures NoRunOn(c, r, next)
  {
    RunOnsAreNothing(line, other);
  }

  /** There is a lawful printer. */
  lemma LawfulPrinterExists() returns (c: Codec)
    ensures Lawful(c)
  {
    c := Codec(Format, s => Decoded(s));
    forall r ensures LawfulAt(c, r) {
      Braces(r);
      DecodedFormat(r);
      PrinterIsLawfulAt(c, r, Format(r));
    }
    forall r, next ensures NoRunOn(c, r, next) {
      Braces(next);
      PrinterDoesNotRunOn(c, r, next, Format(r), Format(next));
    }
  }
}
