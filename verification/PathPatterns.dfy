/** The keys under which the scope policy counts URLs (src/url/path-pattern.ts). */
module PathPatterns {
  import opened Prelude

  function Split(s: string, c: char): (parts: seq<string>)
    ensures |parts| > 0
    ensures forall p :: p in parts ==> c !in p
    ensures Join(parts, c) == s
  {
    if |s| == 0 then [""]
    else
      var rest := Split(s[1..], c);
      if s[0] == c then [""] + rest else [[s[0]] + rest[0]] + rest[1..]
  }

  function Join(parts: seq<string>, c: char): string
  {
    if |parts| == 0 then ""
    else if |parts| == 1 then parts[0]
    else parts[0] + [c] + Join(parts[1..], c)
  }

  predicate IsNumber(segment: string) {
    |segment| > 0 && forall k :: 0 <= k < |segment| ==> '0' <= segment[k] <= '9'
  }

  function PatternSegment(segment: string): string {
    if IsNumber(segment) then ":number" else if |segment| > 24 then ":long" else segment
  }

  function PathPattern(pathname: string): string {
    Join(PatternSegments(Split(pathname, '/')), '/')
  }

  function PatternSegments(segments: seq<string>): (r: seq<string>)
    ensures |r| == |segments|
  {
    seq(|segments|, k requires 0 <= k < |segments| => PatternSegment(segments[k]))
  }

  /** The index behind the last slash, 0 when there is none. */
  function AfterLastSlash(s: string): (n: nat)
    ensures n <= |s| && (n == 0 <==> '/' !in s)
    ensures n > 0 ==> s[n - 1] == '/' && '/' !in s[n..]
  {
    if |s| == 0 then 0
    else if s[|s| - 1] == '/' then |s|
    else
      var n := AfterLastSlash(s[..|s| - 1]);
      assert s == s[..|s| - 1] + [s[|s| - 1]];
      assert n > 0 ==> s[n..] == s[..|s| - 1][n..] + [s[|s| - 1]];
      n
  }

  function DirectoryOf(pathname: string): string {
    var n := AfterLastSlash(pathname);
    if n <= 1 then "/" else pathname[..n]
  }

  /** Strings compare character by character. Array.prototype.sort compares UTF-16 code units, which
      places characters beyond U+FFFF differently; what is proved below needs a total order only. */
  predicate Less(a: string, b: string) {
    |b| > 0 && (|a| == 0 || a[0] < b[0] || (a[0] == b[0] && Less(a[1..], b[1..])))
  }

  function QueryPattern(keys: seq<string>): string {
    Join(StableSort(keys, Less), '&')
  }

  // ---------------------------------------------------------------------------------------

  lemma {:induction false} SplitOfJoin(parts: seq<string>, c: char)
    requires |parts| > 0 && forall p :: p in parts ==> c !in p
    ensures Split(Join(parts, c), c) == parts
    decreases |parts|, |parts[0]|
  {
    var s := Join(parts, c);
    if |parts[0]| > 0 {
      var shorter := [parts[0][1..]] + parts[1..];
      assert Join(shorter, c) == s[1..];
      forall p | p in shorter ensures c !in p {
        if p == parts[0][1..] {
          assert forall x :: x in p ==> x in parts[0];
        } else {
          assert p in parts[1..];
        }
      }
      SplitOfJoin(shorter, c);
      assert parts[0] in parts && parts[0][0] in parts[0];
      assert s[0] == parts[0][0] != c;
      assert [s[0]] + shorter[0] == parts[0];
    } else if |parts| > 1 {
      assert s == [c] + Join(parts[1..], c);
      SplitOfJoin(parts[1..], c);
      assert [""] + parts[1..] == parts;
    } else {
      assert parts == [""];
    }
  }

  /** A pattern is its own pattern: the pages counted under it include a page spelled like it. */
  lemma PatternIsFixed(pathname: string)
    ensures PathPattern(PathPattern(pathname)) == PathPattern(pathname)
  {
    var segments := Split(pathname, '/');
    var patterns := PatternSegments(segments);
    forall p | p in patterns ensures '/' !in p {
      var k :| 0 <= k < |patterns| && patterns[k] == p;
      assert segments[k] in segments;
    }
    SplitOfJoin(patterns, '/');
    assert PatternSegments(patterns) == patterns;
  }

  /** A directory is its own directory, and lies at the front of every path in it. */
  lemma DirectoryIsFixed(pathname: string)
    ensures DirectoryOf(DirectoryOf(pathname)) == DirectoryOf(pathname)
    ensures |pathname| > 0 && pathname[0] == '/' ==> DirectoryOf(pathname) <= pathname && '/' !in pathname[|DirectoryOf(pathname)|..]
  {
    var n := AfterLastSlash(pathname);
    if n > 1 {
      assert pathname[..n][n - 1] == '/';
    } else if |pathname| > 0 && pathname[0] == '/' {
      assert n == 1;
    }
  }

  lemma {:induction false} LessIsTotal(a: string, b: string)
    ensures a == b || Less(a, b) || Less(b, a)
    ensures !(Less(a, b) && Less(b, a)) && !Less(a, a)
    decreases |a|
  {
    if |a| > 0 {
      LessIsTotal(a[1..], a[1..]);
      if |b| > 0 {
        LessIsTotal(a[1..], b[1..]);
        assert a[0] == b[0] && a[1..] == b[1..] ==> a == [a[0]] + a[1..] == b;
      }
    }
  }

  lemma {:induction false} LessIsTransitive(a: string, b: string, c: string)
    requires Less(a, b) && Less(b, c)
    ensures Less(a, c)
    decreases |a|
  {
    if |a| > 0 && a[0] == b[0] == c[0] {
      LessIsTransitive(a[1..], b[1..], c[1..]);
    }
  }

  lemma LessIsStrictWeak()
    ensures StrictWeak(Less)
  {
    forall x ensures !Less(x, x) {
      LessIsTotal(x, x);
    }
    forall x, y, z | Less(x, y) && Less(y, z) ensures Less(x, z) {
      LessIsTransitive(x, y, z);
    }
    forall x, y, z | !Less(x, y) && !Less(y, z) ensures !Less(x, z) {
      LessIsTotal(x, y);
      LessIsTotal(y, z);
      LessIsTotal(x, z);
      if Less(x, z) && y != z && x != y {
        LessIsTransitive(x, z, y);
      }
    }
  }

  lemma FirstIsLeast(s: seq<string>, x: string)
    requires SortedBy(s, Less) && x in multiset(s)
    ensures |s| > 0 && !Less(x, s[0])
  {
    assert x in s;
    var k :| 0 <= k < |s| && s[k] == x;
    LessIsTotal(x, x);
  }

  lemma TailCount(s: seq<string>)
    requires |s| > 0
    ensures multiset(s[1..]) == multiset(s) - multiset{s[0]}
  {
    assert s == [s[0]] + s[1..];
  }

  lemma {:induction false} SortedOnce(a: seq<string>, b: seq<string>)
    requires SortedBy(a, Less) && SortedBy(b, Less) && multiset(a) == multiset(b)
    ensures a == b
  {
    if |a| > 0 {
      assert a[0] in multiset(a);
      FirstIsLeast(b, a[0]);
      assert b[0] in multiset(b);
      FirstIsLeast(a, b[0]);
      LessIsTotal(a[0], b[0]);
      TailCount(a);
      TailCount(b);
      SortedOnce(a[1..], b[1..]);
      assert a == [a[0]] + a[1..] && b == [b[0]] + b[1..];
    } else {
      assert |multiset(b)| == |b|;
    }
  }

  /** The order of the query parameters does not matter. */
  lemma QueryOrderIsIgnored(keys: seq<string>, other: seq<string>)
    requires multiset(keys) == multiset(other)
    ensures QueryPattern(keys) == QueryPattern(other)
  {
    LessIsStrictWeak();
    StableSortSorted(keys, Less);
    StableSortSorted(other, Less);
    SortPermutes(keys, Less);
    SortPermutes(other, Less);
    SortedOnce(StableSort(keys, Less), StableSort(other, Less));
  }
}
