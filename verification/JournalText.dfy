/** The journal as the bytes of its file, one record to a line, and what is read back after the writing
    of it was cut short at any byte (src/frontier/journal.ts). */
module JournalText {
  import opened Prelude
  import opened JournalRecords
  import opened JournalValidation
  import opened Unicode

  /** JSON.stringify and JSON.parse followed by decodeJournalRecord; None where either throws or
      refuses. */
  datatype Codec = Codec(format: Record -> string, decode: string -> Option<Record>)

  predicate IsSpace(c: char) {
    || c == ' ' || '\t' <= c <= '\r' || c == '\U{a0}' || c == '\U{feff}' || c == '\U{1680}'
    || '\U{2000}' <= c <= '\U{200a}' || c == '\U{2028}' || c == '\U{2029}' || c == '\U{202f}'
    || c == '\U{205f}' || c == '\U{3000}'
  }

  function TrimEnd(s: string): (t: string)
    ensures t <= s
    ensures |t| > 0 ==> !IsSpace(t[|t| - 1])
  {
    if |s| > 0 && IsSpace(s[|s| - 1]) then TrimEnd(s[..|s| - 1]) else s
  }

  function TrimStart(s: string): string {
    if |s| > 0 && IsSpace(s[0]) then TrimStart(s[1..]) else s
  }

  function Trim(s: string): string { TrimEnd(TrimStart(s)) }

  /** A printed record is one line that begins and ends with a brace. */
  ghost predicate OneLine(line: string) {
    && |line| > 1
    && '\n' !in line
    && line[0] == '{' && line[|line| - 1] == '}'
  }

  /** Nothing, or what is read in the place of a character cut in two. */
  predicate IsMark(mark: string) {
    mark == "" || mark == [REPLACEMENT]
  }

  /** A printed record decodes to itself, and no part of its front does, with or without a mark. */
  ghost predicate LawfulAt(c: Codec, r: Record) {
    && OneLine(c.format(r))
    && c.decode(c.format(r)) == Some(r)
    && (forall k, mark :: 0 <= k < |c.format(r)| && IsMark(mark) ==> c.decode(c.format(r)[..k] + mark).None?)
  }

  /** Text that runs a record, or a part of one, into the next is no record. */
  ghost predicate NoRunOn(c: Codec, r: Record, next: Record) {
    forall k, mark :: 0 <= k <= |c.format(r)| && IsMark(mark) && (k > 0 || mark != "") ==>
      c.decode(c.format(r)[..k] + mark + c.format(next)).None?
  }

  ghost predicate Lawful(c: Codec) {
    && (forall r :: LawfulAt(c, r))
    && (forall r, next :: NoRunOn(c, r, next))
  }

  /** String.prototype.split("\n"). */
  function Lines(text: string): (ls: seq<string>)
    ensures |ls| > 0
  {
    if |text| == 0 then [""]
    else
      var rest := Lines(text[1..]);
      if text[0] == '\n' then [""] + rest else [[text[0]] + rest[0]] + rest[1..]
  }

  predicate EndsLine(text: string) { |text| > 0 && text[|text| - 1] == '\n' }

  /** None where parseRecords throws; torn says that the text does not end its last line. */
  function ParseLines(c: Codec, lines: seq<string>, torn: bool): Option<seq<Record>> {
    if |lines| == 0 then
      Some([])
    else
      var line := Trim(lines[0]);
      if line == "" then
        ParseLines(c, lines[1..], torn)
      else
        var decoded := c.decode(line);
        if decoded.Some? then
          var rest := ParseLines(c, lines[1..], torn);
          if rest.None? then None else Some([decoded.value] + rest.value)
        else if |lines| == 1 && torn then
          Some([])
        else
          None
  }

  function Parse(c: Codec, text: string): Option<seq<Record>> {
    ParseLines(c, Lines(text), !EndsLine(text))
  }

  method ParseRecords(c: Codec, text: string) returns (r: Option<seq<Record>>)
    ensures r == Parse(c, text)
  {
    var records: seq<Record> := [];
    var lines := Lines(text);
    var hasIncompleteTail := !EndsLine(text);
    assert lines[0..] == lines;
    ghost var all := Parse(c, text);
    assert all.Some? ==> [] + all.value == all.value;
    for index := 0 to |lines|
      invariant all ==
                var rest := ParseLines(c, lines[index..], hasIncompleteTail);
                if rest.None? then None else Some(records + rest.value)
    {
      assert lines[index..][1..] == lines[index + 1..];
      var line := Trim(lines[index]);
      if line == "" {
        continue;
      }
      var decoded := c.decode(line);
      if decoded.None? {
        if index == |lines| - 1 && hasIncompleteTail {
          assert records + [] == records;
          return Some(records);
        }
        return None;
      }
      ghost var rest := ParseLines(c, lines[index + 1..], hasIncompleteTail);
      assert rest.Some? ==> records + [decoded.value] + rest.value == records + ([decoded.value] + rest.value);
      records := records + [decoded.value];
    }
    assert records + [] == records;
    return Some(records);
  }

  // ---------------------------------------------------------------------------------------
  // Blank lines and padding

  /** White space and line terminators as section 12 of ECMA-262 lists them, other than the line feed. */
  ghost predicate Padding(s: string) {
    forall i :: 0 <= i < |s| ==>
      s[i] in {'\t', '\U{b}', '\U{c}', '\r', ' ', '\U{a0}', '\U{1680}', '\U{2000}', '\U{2001}', '\U{2002}', '\U{2003}',
               '\U{2004}', '\U{2005}', '\U{2006}', '\U{2007}', '\U{2008}', '\U{2009}', '\U{200a}', '\U{2028}', '\U{2029}',
               '\U{202f}', '\U{205f}', '\U{3000}', '\U{feff}'}
  }

  lemma {:induction false} PaddingInFront(pad: string, s: string)
    requires Padding(pad)
    ensures TrimStart(pad + s) == TrimStart(s)
  {
    if |pad| == 0 {
      assert pad + s == s;
    } else {
      assert (pad + s)[1..] == pad[1..] + s;
      PaddingInFront(pad[1..], s);
    }
  }

  lemma {:induction false} PaddingBehind(s: string, pad: string)
    requires Padding(pad)
    ensures TrimEnd(s + pad) == TrimEnd(s)
  {
    if |pad| == 0 {
      assert s + pad == s;
    } else {
      assert (s + pad)[..|s + pad| - 1] == s + pad[..|pad| - 1];
      PaddingBehind(s, pad[..|pad| - 1]);
    }
  }

  lemma PaddedTrims(before: string, line: string, behind: string)
    requires Padding(before) && Padding(behind)
    requires line == "" || (line[0] == '{' && line[|line| - 1] == '}')
    ensures Trim(before + line + behind) == line
  {
    assert before + line + behind == before + (line + behind);
    PaddingInFront(before, line + behind);
    if line == "" {
      assert line + behind == behind + "";
      PaddingInFront(behind, "");
    } else {
      assert TrimStart(line + behind) == line + behind;
      PaddingBehind(line, behind);
    }
  }

  /** Padding around a record changes nothing, and a line of nothing else is passed over. */
  lemma PaddingIsIgnored(c: Codec, before: string, line: string, behind: string, rest: seq<string>, torn: bool)
    requires Padding(before) && Padding(behind)
    requires line == "" || (line[0] == '{' && line[|line| - 1] == '}')
    ensures ParseLines(c, [before + line + behind] + rest, torn) ==
            if line == "" then ParseLines(c, rest, torn) else ParseLines(c, [line] + rest, torn)
  {
    PaddedTrims(before, line, behind);
    PaddedTrims("", line, "");
    assert "" + line + "" == line;
    assert ([before + line + behind] + rest)[1..] == rest && ([line] + rest)[1..] == rest;
  }

  function Text(c: Codec, log: seq<Record>): string {
    if |log| == 0 then "" else c.format(log[0]) + "\n" + Text(c, log[1..])
  }

  /** The bytes that the writer leaves in the file. */
  function File(c: Codec, log: seq<Record>): seq<Byte> {
    Encode(Text(c, log))
  }

  /** What a process reads from the bytes it finds: fs.readFile with "utf8", then parseRecords. */
  function Read(c: Codec, bytes: seq<Byte>): Option<seq<Record>> {
    Parse(c, Decode(bytes))
  }

  /** Reading and validating both succeed. */
  ghost predicate Loads(c: Codec, bytes: seq<Byte>) {
    Read(c, bytes).Some? && ValidJournal(Read(c, bytes).value)
  }

  /** How many records survive a cut after k bytes: those whose line is complete but for its line
      feed. */
  function Survivors(c: Codec, log: seq<Record>, k: nat): (n: nat)
    ensures n <= |log|
  {
    if |log| == 0 then 0
    else
      var width := |Encode(c.format(log[0]))|;
      if k < width then 0 else if k == width then 1 else 1 + Survivors(c, log[1..], k - width - 1)
  }

  /** The bytes end where a line does, or before the first. */
  predicate AtLineEnd(bytes: seq<Byte>) {
    |bytes| == 0 || bytes[|bytes| - 1] == 10
  }

  // ---------------------------------------------------------------------------------------

  lemma {:induction false} LinesOfLine(line: string)
    requires '\n' !in line
    ensures Lines(line) == [line]
  {
    if |line| > 0 {
      LinesOfLine(line[1..]);
      assert line == [line[0]] + line[1..];
    }
  }

  lemma {:induction false} LinesAfterLine(line: string, rest: string)
    requires '\n' !in line
    ensures Lines(line + "\n" + rest) == [line] + Lines(rest)
  {
    var text := line + "\n" + rest;
    if |line| == 0 {
      assert text[1..] == rest;
    } else {
      LinesAfterLine(line[1..], rest);
      assert text[1..] == line[1..] + "\n" + rest;
      assert line == [line[0]] + line[1..];
    }
  }

  lemma {:induction false} TrimEndStays(s: string)
    requires |s| > 0 ==> !IsSpace(s[|s| - 1])
    ensures TrimEnd(s) == s
  {
  }

  lemma TrimStays(s: string)
    requires |s| > 0 ==> !IsSpace(s[0]) && !IsSpace(s[|s| - 1])
    ensures Trim(s) == s
  {
    TrimEndStays(s);
  }

  lemma TrimOfPrefix(line: string, k: nat)
    requires OneLine(line) && k <= |line|
    ensures exists n: nat :: n <= k && Trim(line[..k]) == line[..n]
  {
    var p := line[..k];
    assert TrimStart(p) == p;
    var t := TrimEnd(p);
    assert t == line[..|t|];
  }

  lemma OneLineLeft(c: Codec, line: string, torn: bool)
    ensures ParseLines(c, [line], torn) ==
            if Trim(line) == "" then Some([])
            else if c.decode(Trim(line)).Some? then Some([c.decode(Trim(line)).value])
            else if torn then Some([]) else None
  {
    assert [line][1..] == [];
    assert ParseLines(c, [], torn) == Some([]);
    if c.decode(Trim(line)).Some? {
      assert [c.decode(Trim(line)).value] + [] == [c.decode(Trim(line)).value];
    }
  }

  /** The line left by a cut inside a record disappears. */
  lemma TornLineIsDropped(c: Codec, r: Record, k: nat, mark: string)
    requires LawfulAt(c, r) && k < |c.format(r)| && IsMark(mark)
    ensures Parse(c, c.format(r)[..k] + mark) == Some([])
  {
    var line := c.format(r);
    var p := line[..k] + mark;
    NoNewline(line, k, mark, "");
    assert p + "" == p;
    LinesOfLine(p);
    assert !EndsLine(p);
    if mark == "" {
      assert p == line[..k];
      TrimOfPrefix(line, k);
      var n: nat :| n <= k && Trim(p) == line[..n];
      assert line[..n] + "" == line[..n];
      assert c.decode(line[..n]).None?;
    } else {
      TrimStays(p);
      assert c.decode(p).None?;
    }
    OneLineLeft(c, p, true);
  }

  lemma NoNewline(line: string, k: nat, mark: string, tail: string)
    requires '\n' !in line && k <= |line| && IsMark(mark) && '\n' !in tail
    ensures '\n' !in line[..k] + mark + tail
  {
    forall i | 0 <= i < k ensures line[..k][i] != '\n' {
      assert line[i] in line;
    }
  }

  lemma TrimOfLine(line: string)
    requires OneLine(line)
    ensures Trim(line) == line
  {
    TrimStays(line);
  }

  lemma WholeLineIsKept(c: Codec, r: Record)
    requires LawfulAt(c, r)
    ensures Parse(c, c.format(r)) == Some([r])
  {
    var line := c.format(r);
    LinesOfLine(line);
    TrimOfLine(line);
    assert !EndsLine(line);
    OneLineLeft(c, line, true);
  }

  lemma NothingIsRead(c: Codec)
    ensures Parse(c, "") == Some([])
  {
    assert Lines("") == [""];
    OneLineLeft(c, "", true);
  }

  lemma ParseAfterLine(c: Codec, r: Record, rest: string)
    requires LawfulAt(c, r)
    ensures Parse(c, c.format(r) + "\n" + rest) ==
            if |rest| == 0 || Parse(c, rest).Some?
            then Some([r] + (if |rest| == 0 then [] else Parse(c, rest).value)) else None
  {
    var line := c.format(r);
    var text := line + "\n" + rest;
    LinesAfterLine(line, rest);
    TrimOfLine(line);
    assert Lines(text)[1..] == Lines(rest);
    if |rest| == 0 {
      assert EndsLine(text);
      assert Lines(rest) == [""];
      OneLineLeft(c, "", false);
    } else {
      assert text[|text| - 1] == rest[|rest| - 1];
    }
  }

  // ---------------------------------------------------------------------------------------
  // The bytes of a line, and of what comes behind it

  lemma FileOfMore(c: Codec, log: seq<Record>)
    requires |log| > 0
    ensures File(c, log) == Encode(c.format(log[0])) + [10] + File(c, log[1..])
  {
    var line, rest := c.format(log[0]), Text(c, log[1..]);
    EncodeBoth(line + "\n", rest);
    EncodeBoth(line, "\n");
    assert Encode("\n") == [10] + Encode("");
  }

  /** The file up to a byte in the first line, or up to a byte behind it. */
  lemma CutFile(c: Codec, log: seq<Record>, k: nat)
    requires |log| > 0 && k <= |File(c, log)|
    ensures var line := Encode(c.format(log[0]));
            && (k <= |line| ==> File(c, log)[..k] == line[..k])
            && (k > |line| ==> k - |line| - 1 <= |File(c, log[1..])|
                               && File(c, log)[..k] == line + [10] + File(c, log[1..])[..k - |line| - 1])
  {
    FileOfMore(c, log);
  }

  lemma DecodeBehindLine(line: string, rest: seq<Byte>)
    ensures Decode(Encode(line) + [10] + rest) == line + "\n" + Decode(rest)
  {
    assert Encode(line) + [10] + rest == Encode(line) + ([10] + rest);
    DecodeAfter(line, [10] + rest);
    assert ([10] + rest)[1..] == rest;
    assert Decode([10] + rest) == ['\n'] + Decode(rest);
  }

  /** Reading what is left of a line whose last bytes are missing. */
  lemma ReadTornLine(c: Codec, r: Record, k: nat)
    requires LawfulAt(c, r) && k <= |Encode(c.format(r))|
    ensures Read(c, Encode(c.format(r))[..k]) == Some(if k == |Encode(c.format(r))| then [r] else [])
  {
    var line := c.format(r);
    var m, mark := DecodePrefix(line, k, []);
    assert Encode(line)[..k] + [] == Encode(line)[..k] && line[..m] + mark + Decode([]) == line[..m] + mark;
    if k == |Encode(line)| {
      RoundTrip(line);
      assert Encode(line)[..k] == Encode(line);
      WholeLineIsKept(c, r);
    } else {
      TornLineIsDropped(c, r, m, mark);
    }
  }

  /** Every prefix of the bytes of a log reads as the records that survive the cut: no cut makes the
      reading fail or yields anything that was not written. */
  lemma {:induction false} TornLogParsesToPrefix(c: Codec, log: seq<Record>, k: nat)
    requires Lawful(c) && k <= |File(c, log)|
    ensures Read(c, File(c, log)[..k]) == Some(log[..Survivors(c, log, k)])
  {
    if |log| == 0 {
      assert File(c, log)[..k] == [];
      NothingIsRead(c);
    } else {
      assert LawfulAt(c, log[0]);
      CutFile(c, log, k);
      if k <= |Encode(c.format(log[0]))| {
        ReadFirstLine(c, log, k);
      } else {
        TornLogParsesToPrefix(c, log[1..], k - |Encode(c.format(log[0]))| - 1);
        ReadMoreLines(c, log, k);
      }
    }
  }

  lemma ReadFirstLine(c: Codec, log: seq<Record>, k: nat)
    requires |log| > 0 && LawfulAt(c, log[0]) && k <= |Encode(c.format(log[0]))| && k <= |File(c, log)|
    ensures Read(c, File(c, log)[..k]) == Some(log[..Survivors(c, log, k)])
  {
    CutFile(c, log, k);
    ReadTornLine(c, log[0], k);
    assert log[..1] == [log[0]];
  }

  lemma ReadMoreLines(c: Codec, log: seq<Record>, k: nat)
    requires |log| > 0 && LawfulAt(c, log[0]) && |Encode(c.format(log[0]))| < k <= |File(c, log)|
    ensures var k' := k - |Encode(c.format(log[0]))| - 1;
            && k' <= |File(c, log[1..])|
            && (Read(c, File(c, log[1..])[..k']) == Some(log[1..][..Survivors(c, log[1..], k')]) ==>
                  Read(c, File(c, log)[..k]) == Some(log[..Survivors(c, log, k)]))
  {
    var k' := k - |Encode(c.format(log[0]))| - 1;
    CutFile(c, log, k);
    ReadBehindLine(c, log[0], File(c, log[1..])[..k']);
    OneMoreSurvives(log, Survivors(c, log[1..], k'));
  }

  lemma OneMoreSurvives(log: seq<Record>, n: nat)
    requires n < |log|
    ensures [log[0]] + log[1..][..n] == log[..1 + n]
  {
  }

  lemma ReadBehindLine(c: Codec, r: Record, rest: seq<Byte>)
    requires LawfulAt(c, r)
    ensures Read(c, Encode(c.format(r)) + [10] + rest) ==
            if Read(c, rest).Some? then Some([r] + Read(c, rest).value) else None
  {
    DecodeBehindLine(c.format(r), rest);
    ParseAfterLine(c, r, Decode(rest));
    NothingIsRead(c);
  }

  /** So whatever a crash leaves of a valid journal loads. */
  lemma TornLogStillValidates(c: Codec, log: seq<Record>, k: nat)
    requires Lawful(c) && k <= |File(c, log)| && ValidJournal(log)
    ensures Loads(c, File(c, log)[..k])
  {
    TornLogParsesToPrefix(c, log, k);
    ValidPrefix(log, Survivors(c, log, k));
  }

  // ---------------------------------------------------------------------------------------
  // The file is reopened for appending without cutting the torn tail

  lemma RunOnIsRefused(c: Codec, r: Record, k: nat, mark: string, next: Record)
    requires Lawful(c) && k <= |c.format(r)| && IsMark(mark) && (k > 0 || mark != "")
    ensures Parse(c, c.format(r)[..k] + mark + (c.format(next) + "\n")) == None
  {
    assert LawfulAt(c, r) && LawfulAt(c, next) && NoRunOn(c, r, next);
    var line := c.format(r)[..k] + mark + c.format(next);
    NoNewline(c.format(r), k, mark, c.format(next));
    LinesAfterLine(line, "");
    assert c.format(r)[..k] + mark + (c.format(next) + "\n") == line + "\n" + "";
    assert line[0] == (if k > 0 then '{' else REPLACEMENT) && line[|line| - 1] == '}';
    TrimStays(line);
    assert c.decode(line).None?;
    assert |Lines(line + "\n" + "")| == 2;
  }

  /** The bytes of one more append. */
  function Added(c: Codec, next: Record): seq<Byte> {
    Encode(c.format(next) + "\n")
  }

  lemma AddedIsAscii(c: Codec, next: Record)
    requires LawfulAt(c, next)
    ensures |Added(c, next)| > 0 && Added(c, next)[0] < 0x80
    ensures Decode(Added(c, next)) == c.format(next) + "\n"
  {
    var s := c.format(next) + "\n";
    assert s[0] == '{' && Utf8('{') == [0x7B];
    RoundTrip(s);
  }

  lemma ReadAlone(c: Codec, next: Record)
    requires LawfulAt(c, next)
    ensures Read(c, Added(c, next)) == Some([next])
  {
    AddedIsAscii(c, next);
    assert c.format(next) + "\n" == c.format(next) + "\n" + "";
    ParseAfterLine(c, next, "");
    assert [next] + [] == [next];
  }

  lemma ReadRunOn(c: Codec, r: Record, k: nat, next: Record)
    requires Lawful(c) && 0 < k <= |Encode(c.format(r))|
    ensures Read(c, Encode(c.format(r))[..k] + Added(c, next)) == None
  {
    assert LawfulAt(c, next);
    AddedIsAscii(c, next);
    var m, mark := DecodePrefix(c.format(r), k, Added(c, next));
    RunOnIsRefused(c, r, m, mark, next);
  }

  lemma InsideLine(line: string, k: nat)
    requires '\n' !in line && 0 < k <= |Encode(line)|
    ensures !AtLineEnd(Encode(line)[..k])
  {
    NoLineFeedInside(line);
  }

  lemma AtLineEndBehind(line: seq<Byte>, rest: seq<Byte>)
    ensures AtLineEnd(line + [10] + rest) <==> AtLineEnd(rest)
  {
    var bytes := line + [10] + rest;
    assert |rest| > 0 ==> bytes[|bytes| - 1] == rest[|rest| - 1];
  }

  /** After a cut and one more append the file can be read exactly when the cut fell on the end of a
      line: the torn tail is not lost, it swallows the record appended to it. */
  lemma {:induction false} AppendAfterTearReads(c: Codec, log: seq<Record>, k: nat, next: Record)
    requires Lawful(c) && k <= |File(c, log)|
    ensures Read(c, File(c, log)[..k] + Added(c, next)) ==
            if AtLineEnd(File(c, log)[..k]) then Some(log[..Survivors(c, log, k)] + [next]) else None
  {
    assert LawfulAt(c, next);
    if k == 0 {
      AppendAtStart(c, log, next);
    } else {
      assert LawfulAt(c, log[0]);
      var width := |Encode(c.format(log[0]))|;
      CutFile(c, log, k);
      if k <= width {
        ReadRunOn(c, log[0], k, next);
        InsideLine(c.format(log[0]), k);
      } else {
        AppendAfterTearReads(c, log[1..], k - width - 1, next);
        AppendBehindFirst(c, log, k, next);
      }
    }
  }

  lemma AppendAtStart(c: Codec, log: seq<Record>, next: Record)
    requires Lawful(c)
    ensures Read(c, File(c, log)[..0] + Added(c, next)) == Some(log[..Survivors(c, log, 0)] + [next])
    ensures AtLineEnd(File(c, log)[..0])
  {
    assert LawfulAt(c, next);
    assert File(c, log)[..0] + Added(c, next) == Added(c, next);
    ReadAlone(c, next);
    NoSurvivors(c, log);
    assert log[..0] + [next] == [next];
  }

  lemma AppendBehindFirst(c: Codec, log: seq<Record>, k: nat, next: Record)
    requires |log| > 0 && LawfulAt(c, log[0]) && |Encode(c.format(log[0]))| < k <= |File(c, log)|
    requires var k' := k - |Encode(c.format(log[0]))| - 1;
             && k' <= |File(c, log[1..])|
             && var rest := File(c, log[1..])[..k'];
                Read(c, rest + Added(c, next)) ==
                if AtLineEnd(rest) then Some(log[1..][..Survivors(c, log[1..], k')] + [next]) else None
    ensures Read(c, File(c, log)[..k] + Added(c, next)) ==
            if AtLineEnd(File(c, log)[..k]) then Some(log[..Survivors(c, log, k)] + [next]) else None
  {
    var k' := k - |Encode(c.format(log[0]))| - 1;
    CutFile(c, log, k);
    AppendBehindLine(c, log[0], File(c, log[1..])[..k'], next);
    FirstOfMore(log, Survivors(c, log[1..], k'), next);
  }

  lemma AppendBehindLine(c: Codec, r: Record, rest: seq<Byte>, next: Record)
    requires LawfulAt(c, r)
    ensures var line := Encode(c.format(r));
            && Read(c, line + [10] + rest + Added(c, next)) ==
               (if Read(c, rest + Added(c, next)).Some? then Some([r] + Read(c, rest + Added(c, next)).value) else None)
            && (AtLineEnd(line + [10] + rest) <==> AtLineEnd(rest))
  {
    var line, added := Encode(c.format(r)), Added(c, next);
    assert line + [10] + rest + added == line + [10] + (rest + added);
    ReadBehindLine(c, r, rest + added);
    AtLineEndBehind(line, rest);
  }

  lemma FirstOfMore(log: seq<Record>, n: nat, next: Record)
    requires n < |log|
    ensures [log[0]] + (log[1..][..n] + [next]) == log[..1 + n] + [next]
  {
  }

  lemma NoSurvivors(c: Codec, log: seq<Record>)
    requires Lawful(c)
    ensures Survivors(c, log, 0) == 0
  {
    if |log| > 0 {
      assert LawfulAt(c, log[0]);
      assert |Encode(c.format(log[0]))| > 0;
    }
  }

  /** A process that resumes from what a crash left of a valid journal and appends a legal record
      leaves a journal that loads exactly when the cut fell on the end of a line. */
  lemma AppendAfterTearLoadsIffLineEnd(c: Codec, log: seq<Record>, k: nat, e: Entry)
    requires Lawful(c) && k <= |File(c, log)| && ValidJournal(log)
    requires CheckEntries(Entries(log[..Survivors(c, log, k)]) + [e]).Some?
    ensures var n := Survivors(c, log, k);
            var next := BuildRecord(e, n + 1, LastChecksum(log[..n]));
            Loads(c, File(c, log)[..k] + Added(c, next)) <==> AtLineEnd(File(c, log)[..k])
  {
    var n := Survivors(c, log, k);
    var next := BuildRecord(e, n + 1, LastChecksum(log[..n]));
    AppendAfterTearReads(c, log, k, next);
    ValidPrefix(log, n);
    ChainedAppend(log[..n], next);
    assert Entries(log[..n] + [next]) == Entries(log[..n]) + [e];
  }
}
