/** What the quotas count, in terms of the URLs the frontier knows. */
module QuotaLaws {
  import opened Prelude
  import opened Runs
  import opened Requests
  import opened PathPatterns
  import opened UrlKeys
  import opened Admission
  import opened AdmissionTheorems

  // ---------------------------------------------------------------------------------------
  // Keys

  /** Scheme, colon and slashes, authority: two slashes side by side and no other. */
  ghost predicate IsOrigin(o: string) {
    exists i: nat :: SlashesAt(o, i)
  }

  ghost predicate SlashesAt(o: string, i: nat) {
    && i + 1 < |o| && o[i] == '/' && o[i + 1] == '/'
    && forall k :: 0 <= k < |o| && o[k] == '/' ==> k == i || k == i + 1
  }

  /** What a URL parser makes of a web address: the path starts with a slash and holds no query. */
  ghost predicate IsWebUrl(url: Parsed) {
    IsOrigin(url.origin) && url.pathname != "" && url.pathname[0] == '/' && '?' !in url.pathname
  }

  ghost predicate ParsesWebUrls(p: Policy) {
    p.Valid() && forall u :: p.parse(u).Some? ==> IsWebUrl(p.parse(u).value)
  }

  lemma OriginIsNoLonger(o: string, x: string, q: string, y: string)
    requires IsOrigin(o) && IsOrigin(q) && x != "" && x[0] == '/' && o + x == q + y
    ensures |q| <= |o|
  {
    var i: nat :| SlashesAt(o, i);
    assert forall k :: 0 <= k < |o| ==> o[k] == (o + x)[k];
    assert forall k :: 0 <= k < |q| ==> q[k] == (q + y)[k];
    assert (o + x)[|o|] == '/';
    assert i + 1 < |q| ==> q[i] == '/' && q[i + 1] == '/';
  }

  lemma OriginEnds(o: string, x: string, q: string, y: string)
    requires IsOrigin(o) && IsOrigin(q) && x != "" && x[0] == '/' && y != "" && y[0] == '/'
    ensures o + x == q + y <==> o == q && x == y
  {
    if o + x == q + y {
      OriginIsNoLonger(o, x, q, y);
      OriginIsNoLonger(q, y, o, x);
      assert o == (o + x)[..|o|] && q == (q + y)[..|q|];
      assert x == (o + x)[|o|..] && y == (q + y)[|q|..];
    }
  }

  lemma ScopedIff(p: Policy, s: string, x: string, t: string, y: string)
    requires p.Valid()
    ensures Scoped(p, s, x) == Scoped(p, t, y) <==> p.scopeKey(s) == p.scopeKey(t) && x == y
  {
    if Scoped(p, s, x) == Scoped(p, t, y) {
      SamePlaceSameScope(p, s, x, t, y);
      var n := |p.scopeKey(s)| + 1;
      assert x == Scoped(p, s, x)[n..] && y == Scoped(p, t, y)[n..];
    }
  }

  lemma DirectoryStarts(pathname: string)
    requires pathname != "" && pathname[0] == '/'
    ensures DirectoryOf(pathname) != "" && DirectoryOf(pathname)[0] == '/'
  {
  }

  /** Two URLs share a directory count exactly when scope, origin and directory are the same. */
  lemma SameDirectoryKeyIff(p: Policy, u: Parsed, s: string, v: Parsed, t: string)
    requires p.Valid() && IsWebUrl(u) && IsWebUrl(v)
    ensures DirectoryKey(p, u, s) == DirectoryKey(p, v, t) <==>
              p.scopeKey(s) == p.scopeKey(t) && u.origin == v.origin && InOneDirectory(u.pathname, v.pathname)
  {
    ScopedIff(p, s, u.origin + DirectoryOf(u.pathname), t, v.origin + DirectoryOf(v.pathname));
    DirectoryStarts(u.pathname);
    DirectoryStarts(v.pathname);
    OriginEnds(u.origin, DirectoryOf(u.pathname), v.origin, DirectoryOf(v.pathname));
    SameDirectoryIff(u.pathname, v.pathname);
  }

  lemma {:induction false} PartsHaveNo(s: string, c: char, x: char)
    requires x !in s
    ensures forall p :: p in Split(s, c) ==> x !in p
  {
    if |s| > 0 {
      assert s[0] in s && forall y :: y in s[1..] ==> y in s;
      PartsHaveNo(s[1..], c, x);
      var rest := Split(s[1..], c);
      assert rest[0] in rest;
      assert x !in [s[0]] + rest[0];
      assert forall p :: p in rest[1..] ==> p in rest;
    }
  }

  lemma {:induction false} JoinHasNo(parts: seq<string>, c: char, x: char)
    requires x != c && forall p :: p in parts ==> x !in p
    ensures x !in Join(parts, c)
  {
    if |parts| > 1 {
      assert parts[0] in parts && forall p :: p in parts[1..] ==> p in parts;
      JoinHasNo(parts[1..], c, x);
    }
  }

  lemma {:induction false} SplitStarts(s: string, c: char)
    requires s != "" && s[0] == c
    ensures |Split(s, c)| > 1 && Split(s, c)[0] == ""
  {
  }

  lemma PatternOfWebPath(pathname: string)
    requires pathname != "" && pathname[0] == '/' && '?' !in pathname
    ensures '?' !in PathPattern(pathname) && PathPattern(pathname) != "" && PathPattern(pathname)[0] == '/'
  {
    PartsHaveNo(pathname, '/', '?');
    PatternsHaveNo(Split(pathname, '/'), '?');
    JoinHasNo(PatternSegments(Split(pathname, '/')), '/', '?');
    SplitStarts(pathname, '/');
    assert PatternSegments(Split(pathname, '/'))[0] == "";
  }

  lemma QuestionMarkOnce(a: string, x: string, b: string, y: string)
    requires '?' !in a && '?' !in b
    ensures a + "?" + x == b + "?" + y <==> a == b && x == y
  {
    var s, t := a + "?" + x, b + "?" + y;
    assert s[|a|] == '?' && t[|b|] == '?';
    assert forall k :: 0 <= k < |a| ==> s[k] == a[k] && a[k] in a;
    assert forall k :: 0 <= k < |b| ==> t[k] == b[k] && b[k] in b;
    if s == t {
      assert |a| == |b|;
      assert a == s[..|a|] && b == t[..|b|];
      assert x == s[|a| + 1..] && y == t[|b| + 1..];
    }
  }

  /** Two URLs share a pattern count exactly when scope and origin are the same, the paths are alike
      and the queries have one pattern. */
  lemma SamePatternKeyIff(p: Policy, u: Parsed, s: string, v: Parsed, t: string)
    requires p.Valid() && IsWebUrl(u) && IsWebUrl(v)
    ensures PatternKey(p, u, s) == PatternKey(p, v, t) <==>
              && p.scopeKey(s) == p.scopeKey(t) && u.origin == v.origin && PathsAlike(u.pathname, v.pathname)
              && QueryPattern(u.queryKeys) == QueryPattern(v.queryKeys)
  {
    var a, b := PathPattern(u.pathname), PathPattern(v.pathname);
    var x, y := QueryPattern(u.queryKeys), QueryPattern(v.queryKeys);
    PatternOfWebPath(u.pathname);
    PatternOfWebPath(v.pathname);
    ScopedIff(p, s, u.origin + a + "?" + x, t, v.origin + b + "?" + y);
    assert u.origin + a + "?" + x == u.origin + (a + "?" + x);
    assert v.origin + b + "?" + y == v.origin + (b + "?" + y);
    OriginEnds(u.origin, a + "?" + x, v.origin, b + "?" + y);
    QuestionMarkOnce(a, x, b, y);
    SamePatternIff(u.pathname, v.pathname);
  }

  /** Two URLs share a place in the frontier only when they are the same. */
  lemma SameUniqueKeyIff(a: string, b: string)
    ensures UniqueKey(a) == UniqueKey(b) <==> a == b
  {
    assert UniqueKey(a)[..|UniqueKey(a)| - 4] == a && UniqueKey(b)[..|UniqueKey(b)| - 4] == b;
  }

  // ---------------------------------------------------------------------------------------
  // Counts

  /** How many of the requests have the property. */
  ghost function HowMany(known: seq<Known>, has: Known -> bool): nat {
    if |known| == 0 then 0
    else HowMany(known[..|known| - 1], has) + if has(known[|known| - 1]) then 1 else 0
  }

  ghost predicate SharesDirectory(p: Policy, k: Known, url: Parsed, seedUrl: string) {
    && p.parse(k.normalizedUrl).Some?
    && var v := p.parse(k.normalizedUrl).value;
       p.scopeKey(k.seedUrl) == p.scopeKey(seedUrl) && v.origin == url.origin && InOneDirectory(v.pathname, url.pathname)
  }

  ghost predicate SharesPattern(p: Policy, k: Known, url: Parsed, seedUrl: string) {
    && p.parse(k.normalizedUrl).Some?
    && var v := p.parse(k.normalizedUrl).value;
       && p.scopeKey(k.seedUrl) == p.scopeKey(seedUrl) && v.origin == url.origin
       && PathsAlike(v.pathname, url.pathname) && QueryPattern(v.queryKeys) == QueryPattern(url.queryKeys)
  }

  lemma CountAppend(keys: seq<string>, more: seq<string>, key: string)
    requires |more| <= 1
    ensures multiset(keys + more)[key] == multiset(keys)[key] + if more == [key] then 1 else 0
  {
    if |more| == 1 {
      assert more == [more[0]];
    } else {
      assert keys + more == keys;
    }
  }

  lemma {:induction false} DirectoriesCounted(p: Policy, known: seq<Known>, url: Parsed, seedUrl: string)
    requires ParsesWebUrls(p) && IsWebUrl(url)
    ensures multiset(DirectoryKeys(p, known))[DirectoryKey(p, url, seedUrl)]
            == HowMany(known, (k: Known) => SharesDirectory(p, k, url, seedUrl))
  {
    if |known| > 0 {
      var n := |known| - 1;
      DirectoriesCounted(p, known[..n], url, seedUrl);
      var parsed := p.parse(known[n].normalizedUrl);
      var more := if parsed.Some? then [DirectoryKey(p, parsed.value, known[n].seedUrl)] else [];
      assert DirectoryKeys(p, known) == DirectoryKeys(p, known[..n]) + more;
      CountAppend(DirectoryKeys(p, known[..n]), more, DirectoryKey(p, url, seedUrl));
      if parsed.Some? {
        SameDirectoryKeyIff(p, parsed.value, known[n].seedUrl, url, seedUrl);
      }
    }
  }

  lemma {:induction false} PatternsCounted(p: Policy, known: seq<Known>, url: Parsed, seedUrl: string)
    requires ParsesWebUrls(p) && IsWebUrl(url)
    ensures multiset(PatternKeys(p, known))[PatternKey(p, url, seedUrl)]
            == HowMany(known, (k: Known) => SharesPattern(p, k, url, seedUrl))
  {
    if |known| > 0 {
      var n := |known| - 1;
      PatternsCounted(p, known[..n], url, seedUrl);
      var parsed := p.parse(known[n].normalizedUrl);
      var more := if parsed.Some? then [PatternKey(p, parsed.value, known[n].seedUrl)] else [];
      assert PatternKeys(p, known) == PatternKeys(p, known[..n]) + more;
      CountAppend(PatternKeys(p, known[..n]), more, PatternKey(p, url, seedUrl));
      if parsed.Some? {
        SamePatternKeyIff(p, parsed.value, known[n].seedUrl, url, seedUrl);
      }
    }
  }

  lemma {:induction false} SeedsCounted(known: seq<Known>, seedUrl: string)
    ensures multiset(SeedKeys(known))[seedUrl] == HowMany(known, (k: Known) => k.seedUrl == seedUrl)
  {
    if |known| > 0 {
      var n := |known| - 1;
      SeedsCounted(known[..n], seedUrl);
      assert SeedKeys(known) == SeedKeys(known[..n]) + [known[n].seedUrl];
      CountAppend(SeedKeys(known[..n]), [known[n].seedUrl], seedUrl);
    }
  }

  /** Every quota of the URL has room: of its seed, of its directory, of its shape. */
  ghost predicate HasRoom(p: Policy, known: seq<Known>, url: Parsed, seed: SeedRef) {
    var s := seed.normalizedUrl;
    && (seed.maxScheduledRequests.Some? ==>
          HowMany(known, (k: Known) => k.seedUrl == s) < seed.maxScheduledRequests.value)
    && HowMany(known, (k: Known) => SharesDirectory(p, k, url, s)) < p.maxUrlsPerDirectory(p.scopeKey(s))
    && HowMany(known, (k: Known) => SharesPattern(p, k, url, s)) < p.maxUrlsPerPathPattern(p.scopeKey(s))
  }

  lemma RoomIff(p: Policy, known: seq<Known>, url: Parsed, seed: SeedRef)
    requires ParsesWebUrls(p) && IsWebUrl(url)
    ensures QuotasHaveRoom(p, known, url, seed) <==> HasRoom(p, known, url, seed)
  {
    SeedsCounted(known, seed.normalizedUrl);
    DirectoriesCounted(p, known, url, seed.normalizedUrl);
    PatternsCounted(p, known, url, seed.normalizedUrl);
  }

  /** Every request is known under its own URL, as all those admitted are. */
  ghost predicate KeyedByUrl(known: seq<Known>) {
    forall i :: 0 <= i < |known| ==> known[i].uniqueKey == UniqueKey(known[i].normalizedUrl)
  }

  lemma KnownByUrl(known: seq<Known>, url: string)
    requires KeyedByUrl(known)
    ensures IsKnown(known, UniqueKey(url)) <==> exists i :: 0 <= i < |known| && known[i].normalizedUrl == url
  {
    forall i | 0 <= i < |known|
      ensures known[i].uniqueKey == UniqueKey(url) <==> known[i].normalizedUrl == url
    {
      SameUniqueKeyIff(known[i].normalizedUrl, url);
    }
  }

  /** Between admissions a URL becomes known exactly when it is valid and in scope, no request has the
      same URL, fewer requests are scheduled than may be, fewer sitemap files when it is one, the
      frontier takes it, and fewer known requests than allowed share its seed, its directory and its
      shape. */
  lemma AdmittedByLikeness(p: Policy, b: Books, input: Input, accepts: bool)
    requires Exact(p, b) && ParsesWebUrls(p) && KeyedByUrl(b.known)
    ensures Admit(p, b, input, accepts).known != b.known <==>
              && accepts
              && input.normalizedUrl.Some?
              && !(exists i :: 0 <= i < |b.known| && b.known[i].normalizedUrl == input.normalizedUrl.value)
              && p.parse(input.normalizedUrl.value).Some?
              && p.inScope(input.normalizedUrl.value, input.depth, input.seed.normalizedUrl)
              && b.scheduled < p.maxScheduledRequests
              && (input.source == RobotsSitemap || input.source == SitemapIndex ==> b.sitemapFiles < p.maxSitemapFiles)
              && HasRoom(p, b.known, p.parse(input.normalizedUrl.value).value, input.seed)
    ensures KeyedByUrl(Admit(p, b, input, accepts).known)
  {
    AdmittedIff(p, b, input, accepts);
    AdmitKeepsKeys(p, b, input, accepts);
    if input.normalizedUrl.Some? {
      KnownByUrl(b.known, input.normalizedUrl.value);
      if p.parse(input.normalizedUrl.value).Some? {
        RoomIff(p, b.known, p.parse(input.normalizedUrl.value).value, input.seed);
      }
    }
  }

  lemma AdmitKeepsKeys(p: Policy, b: Books, input: Input, accepts: bool)
    requires KeyedByUrl(b.known)
    ensures KeyedByUrl(Admit(p, b, input, accepts).known)
  {
  }

  // ---------------------------------------------------------------------------------------
  // The counters

  ghost predicate IsSitemap(k: Known) {
    k.source == RobotsSitemap || k.source == SitemapIndex
  }

  ghost predicate CountersMatch(start: Books, b: Books) {
    && b.scheduled - start.scheduled == |b.known| - |start.known|
    && b.sitemapFiles - start.sitemapFiles
       == HowMany(b.known, (k: Known) => IsSitemap(k)) - HowMany(start.known, (k: Known) => IsSitemap(k))
  }

  lemma AdmitCounts(p: Policy, start: Books, b: Books, c: Call)
    requires CountersMatch(start, b) && !c.stage.Enqueued? && !c.stage.Counted?
    ensures CountersMatch(start, Share(p, b, c))
  {
    if c.input.normalizedUrl.Some? {
      assert (b.known + [Entry(c.input)])[..|b.known|] == b.known;
    }
  }

  lemma {:induction false} SerialCounts(p: Policy, start: Books, calls: seq<Call>)
    requires AtRest(calls)
    ensures CountersMatch(start, Serial(p, start, calls))
  {
    if |calls| > 0 {
      SerialCounts(p, start, calls[..|calls| - 1]);
      AdmitCounts(p, start, Serial(p, start, calls[..|calls| - 1]), calls[|calls| - 1]);
    }
  }

  /** Whenever no admission is past the frontier, the counters have grown by exactly the requests, and
      the sitemap files among them, that have become known. */
  lemma CountersCountTheKnown(p: Policy, start: Books, acts: seq<Act>, w: World)
    requires Reaches(Machine(p), World(start, []), acts, w) && AtRest(w.calls)
    ensures CountersMatch(start, w.books)
  {
    AdmissionsAreSerial(p, start, acts, w);
    SerialCounts(p, start, w.calls);
  }
}
