/** Which URLs the scope policy counts together: same directory, same shape of path, same query keys. */
module UrlKeys {
  import opened Prelude
  import opened PathPatterns

  lemma SameJoin(a: seq<string>, b: seq<string>, c: char)
    requires |a| > 0 && |b| > 0 && (forall p :: p in a ==> c !in p) && (forall p :: p in b ==> c !in p)
    ensures Join(a, c) == Join(b, c) ==> a == b
  {
    SplitOfJoin(a, c);
    SplitOfJoin(b, c);
  }

  // ---------------------------------------------------------------------------------------
  // Paths

  /** Only digits, or spelled like the mark for that. */
  ghost predicate CountsAsNumber(segment: string) {
    segment == ":number" || (segment != "" && forall k :: 0 <= k < |segment| ==> segment[k] in "0123456789")
  }

  /** More than 24 characters that are not all digits, or spelled like the mark for that. */
  ghost predicate CountsAsLong(segment: string) {
    segment == ":long" || (|segment| > 24 && exists k :: 0 <= k < |segment| && segment[k] !in "0123456789")
  }

  ghost predicate SegmentsAlike(a: string, b: string) {
    a == b || (CountsAsNumber(a) && CountsAsNumber(b)) || (CountsAsLong(a) && CountsAsLong(b))
  }

  ghost predicate PathsAlike(a: string, b: string) {
    var s, t := Split(a, '/'), Split(b, '/');
    |s| == |t| && forall k :: 0 <= k < |s| ==> SegmentsAlike(s[k], t[k])
  }

  lemma MarkOf(segment: string)
    ensures PatternSegment(segment) ==
            if CountsAsNumber(segment) then ":number" else if CountsAsLong(segment) then ":long" else segment
  {
    assert !CountsAsLong(":number");
  }

  lemma SameSegmentIff(a: string, b: string)
    ensures PatternSegment(a) == PatternSegment(b) <==> SegmentsAlike(a, b)
  {
    MarkOf(a);
    MarkOf(b);
    assert CountsAsNumber(":number") && CountsAsLong(":long");
    NotBoth(a);
    NotBoth(b);
  }

  lemma NotBoth(segment: string)
    ensures !(CountsAsNumber(segment) && CountsAsLong(segment))
  {
    assert ":long"[0] == ':' && ":number"[0] == ':' && ':' !in "0123456789";
  }

  lemma PatternsHaveNo(segments: seq<string>, c: char)
    requires c !in ":number" && c !in ":long" && forall p :: p in segments ==> c !in p
    ensures forall p :: p in PatternSegments(segments) ==> c !in p
  {
    forall p | p in PatternSegments(segments) ensures c !in p {
      var k :| 0 <= k < |segments| && PatternSegments(segments)[k] == p;
      assert segments[k] in segments;
    }
  }

  /** Two paths have one pattern exactly when they agree segment by segment, any number counting as
      any other and anything long as anything long. */
  lemma SamePatternIff(a: string, b: string)
    ensures PathPattern(a) == PathPattern(b) <==> PathsAlike(a, b)
  {
    var s, t := Split(a, '/'), Split(b, '/');
    PatternsHaveNo(s, '/');
    PatternsHaveNo(t, '/');
    SameJoin(PatternSegments(s), PatternSegments(t), '/');
    forall k | 0 <= k < |s| && k < |t|
      ensures PatternSegments(s)[k] == PatternSegments(t)[k] <==> SegmentsAlike(s[k], t[k])
    {
      SameSegmentIff(s[k], t[k]);
    }
    if PathsAlike(a, b) {
      assert PatternSegments(s) == PatternSegments(t);
    }
    if PathPattern(a) == PathPattern(b) {
      assert |s| == |t|;
    }
  }

  // ---------------------------------------------------------------------------------------
  // Directories

  lemma OnlyLastSlash(s: string, n: nat, m: nat)
    requires 0 < n <= |s| && s[n - 1] == '/' && '/' !in s[n..]
    requires 0 < m <= |s| && s[m - 1] == '/' && '/' !in s[m..]
    ensures n == m
  {
    assert forall i :: n <= i < |s| ==> s[i] == s[n..][i - n];
    assert forall i :: m <= i < |s| ==> s[i] == s[m..][i - m];
  }

  /** The directory of a file is what stands before its name, the slash included. */
  lemma DirectoryIs(directory: string, file: string)
    requires directory != "" && directory[|directory| - 1] == '/' && '/' !in file
    ensures DirectoryOf(directory + file) == directory
  {
    var s := directory + file;
    assert s[|directory| - 1] == '/' && s[|directory|..] == file;
    assert '/' in s;
    OnlyLastSlash(s, AfterLastSlash(s), |directory|);
    if |directory| == 1 {
      assert directory == "/";
    }
  }

  /** Both paths begin with the same directory and have no further slash. */
  ghost predicate InOneDirectory(a: string, b: string) {
    exists n :: 0 < n <= |a| && n <= |b| && a[..n] == b[..n] && a[n - 1] == '/' && '/' !in a[n..] && '/' !in b[n..]
  }

  lemma SplitAtDirectory(path: string) returns (n: nat)
    requires path != "" && path[0] == '/'
    ensures 0 < n <= |path| && path[n - 1] == '/' && '/' !in path[n..] && DirectoryOf(path) == path[..n]
  {
    n := AfterLastSlash(path);
    assert '/' in path;
    DirectoryIs(path[..n], path[n..]);
    assert path == path[..n] + path[n..];
  }

  lemma SameDirectoryIff(a: string, b: string)
    requires a != "" && a[0] == '/' && b != "" && b[0] == '/'
    ensures DirectoryOf(a) == DirectoryOf(b) <==> InOneDirectory(a, b)
  {
    if InOneDirectory(a, b) {
      var n :| 0 < n <= |a| && n <= |b| && a[..n] == b[..n] && a[n - 1] == '/' && '/' !in a[n..] && '/' !in b[n..];
      assert a == a[..n] + a[n..] && b == b[..n] + b[n..];
      assert b[..n][n - 1] == a[..n][n - 1];
      DirectoryIs(a[..n], a[n..]);
      DirectoryIs(b[..n], b[n..]);
    }
    if DirectoryOf(a) == DirectoryOf(b) {
      var n := SplitAtDirectory(a);
      var m := SplitAtDirectory(b);
      assert |a[..n]| == n && |b[..m]| == m;
    }
  }

  // ---------------------------------------------------------------------------------------
  // Queries

  lemma SortedKeys(keys: seq<string>)
    ensures multiset(StableSort(keys, Less)) == multiset(keys)
  {
    SortPermutes(keys, Less);
  }

  lemma MembersOf(a: seq<string>, b: seq<string>)
    requires multiset(a) == multiset(b)
    ensures |a| == |b| && forall x :: x in a <==> x in b
  {
    assert |multiset(a)| == |a| && |multiset(b)| == |b|;
    forall x ensures x in a <==> x in b {
      assert x in a <==> x in multiset(a);
      assert x in b <==> x in multiset(b);
    }
  }

  /** Keys that have no ampersand in them make one pattern exactly when they are the same keys, each
      as often, in whatever order; having no key at all counts as having one empty key. */
  lemma SameQueryIff(a: seq<string>, b: seq<string>)
    requires (forall k :: k in a ==> '&' !in k) && (forall k :: k in b ==> '&' !in k)
    ensures QueryPattern(a) == QueryPattern(b) <==> multiset(a) == multiset(b) || (a in {[], [""]} && b in {[], [""]})
  {
    var s, t := StableSort(a, Less), StableSort(b, Less);
    SortedKeys(a);
    SortedKeys(b);
    MembersOf(s, a);
    MembersOf(t, b);
    if multiset(a) == multiset(b) {
      QueryOrderIsIgnored(a, b);
    }
    if |a| > 0 && |b| > 0 {
      SameJoin(s, t, '&');
    } else {
      EmptyJoin(s);
      EmptyJoin(t);
      OnlyKeys(a, s);
      OnlyKeys(b, t);
      if QueryPattern(a) == QueryPattern(b) {
        assert s in {[], [""]} && t in {[], [""]};
      }
    }
  }

  lemma EmptyJoin(parts: seq<string>)
    ensures Join(parts, '&') == "" <==> parts in {[], [""]}
  {
    if |parts| == 1 {
      assert parts == [parts[0]];
    }
  }

  lemma OnlyKeys(a: seq<string>, s: seq<string>)
    requires |a| == |s| && forall x :: x in s <==> x in a
    ensures a in {[], [""]} <==> s in {[], [""]}
  {
    if |a| == 1 {
      assert a == [a[0]] && s == [s[0]] && a[0] in s && s[0] in a;
    }
  }

  /** A key with an ampersand in it counts as two. */
  lemma AmpersandIsTwoKeys(x: string, y: string)
    requires Less(x, y)
    ensures QueryPattern([x + ['&'] + y]) == QueryPattern([x, y])
  {
    var one, two := [x + ['&'] + y], [x, y];
    LessIsStrictWeak();
    LessIsTotal(x, y);
    AlreadySorted(one);
    AlreadySorted(two);
    assert two[1..] == [y] && Join([y], '&') == y;
  }

  lemma AlreadySorted(keys: seq<string>)
    requires SortedBy(keys, Less)
    ensures StableSort(keys, Less) == keys
  {
    LessIsStrictWeak();
    StableSortSorted(keys, Less);
    SortedKeys(keys);
    SortedOnce(StableSort(keys, Less), keys);
  }
}
