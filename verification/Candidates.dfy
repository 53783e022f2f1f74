/** The bounded sets of URLs found in stylesheets and scripts (src/css/scanner.ts,
    src/javascript/candidates.ts): one candidate per URL, the best that fit are kept while they
    stream in. What a URL is once cleaned, and how two URLs collate, are parameters. */
module Candidates {
  import opened Prelude

  /** The two sets differ only in what they call better. */
  datatype Ranking<!C(!new)> = Ranking(url: C -> string, better: (C, C) -> bool) {

    ghost predicate Lawful() {
      && StrictWeak(better)
      && forall a, b :: url(a) != url(b) ==> better(a, b) || better(b, a)
    }
  }

  /** Keep the better of two candidates for one URL, the earlier when neither is. */
  function Improve<C(!new)>(r: Ranking<C>, m: OrderedMap<string, C>, c: C): (n: OrderedMap<string, C>)
    ensures m.Valid() ==> n.Valid()
  {
    if r.url(c) in m.entries && !r.better(c, m.entries[r.url(c)]) then m else m.Set(r.url(c), c)
  }

  function Best<C(!new)>(r: Ranking<C>, offered: seq<C>): (m: OrderedMap<string, C>)
    ensures m.Valid()
  {
    if |offered| == 0 then EmptyMap()
    else Improve(r, Best(r, offered[..|offered| - 1]), offered[|offered| - 1])
  }

  function Ascending<C(!new,==)>(r: Ranking<C>, m: OrderedMap<string, C>): (s: seq<C>)
    requires m.Valid()
    ensures |s| == |m.keys|
  {
    StableSort(m.Values(), (a, b) => r.better(b, a))
  }

  function Descending<C(!new,==)>(r: Ranking<C>, m: OrderedMap<string, C>): (s: seq<C>)
    requires m.Valid()
    ensures |s| == |m.keys|
  {
    StableSort(m.Values(), r.better)
  }

  /** Take a candidate into a set of at most maximum. */
  function Offer<C(!new,==)>(r: Ranking<C>, maximum: int, m: OrderedMap<string, C>, c: C): (n: OrderedMap<string, C>)
    requires m.Valid()
    ensures n.Valid()
  {
    if r.url(c) in m.entries then
      if r.better(c, m.entries[r.url(c)]) then m.Set(r.url(c), c) else m
    else if maximum <= 0 then m
    else if |m.keys| < maximum then m.Set(r.url(c), c)
    else
      var worst := Ascending(r, m)[0];
      if r.better(c, worst) then m.Delete(r.url(worst)).Set(r.url(c), c) else m
  }

  function Stream<C(!new,==)>(r: Ranking<C>, maximum: int, offered: seq<C>): (m: OrderedMap<string, C>)
    ensures m.Valid()
  {
    if |offered| == 0 then EmptyMap()
    else Offer(r, maximum, Stream(r, maximum, offered[..|offered| - 1]), offered[|offered| - 1])
  }

  function Limit(maximum: int): nat {
    if maximum <= 0 then 0 else maximum
  }

  // ---------------------------------------------------------------------------------------

  ghost predicate Keyed<C(!new)>(r: Ranking<C>, m: OrderedMap<string, C>) {
    m.Valid() && forall u :: u in m.entries ==> r.url(m.entries[u]) == u
  }

  /** As many are kept as fit, each the best known for its URL. */
  ghost predicate Agrees<C(!new)>(r: Ranking<C>, maximum: int, kept: OrderedMap<string, C>, all: OrderedMap<string, C>) {
    && Keyed(r, kept) && Keyed(r, all)
    && (forall u :: u in kept.entries ==> u in all.entries && kept.entries[u] == all.entries[u])
    && |kept.keys| == (if |all.keys| <= Limit(maximum) then |all.keys| else Limit(maximum))
  }

  /** The kept candidates are the best of all: as many as fit, each better than any left out. */
  ghost predicate Tops<C(!new)>(r: Ranking<C>, maximum: int, kept: OrderedMap<string, C>, all: OrderedMap<string, C>) {
    Agrees(r, maximum, kept, all) && Outrank(r, kept.entries.Keys, all.entries)
  }

  /** Every candidate among those kept is better than every other. */
  ghost predicate Outrank<C(!new)>(r: Ranking<C>, kept: set<string>, all: map<string, C>) {
    forall u, v :: u in kept && u in all && v in all && v !in kept ==> r.better(all[u], all[v])
  }

  lemma KeysCounted<C(!new)>(m: OrderedMap<string, C>)
    requires m.Valid()
    ensures |m.keys| == |m.entries.Keys|
  {
    DistinctSize(m.keys);
    assert m.entries.Keys == set k | k in m.keys;
  }

  /** When nothing has been left out, every URL known is kept. */
  lemma NothingLeftOut<C(!new)>(r: Ranking<C>, maximum: int, kept: OrderedMap<string, C>, all: OrderedMap<string, C>)
    requires Tops(r, maximum, kept, all) && |kept.keys| < Limit(maximum)
    ensures kept.entries.Keys == all.entries.Keys
  {
    KeysCounted(kept);
    KeysCounted(all);
    SameSize(kept.entries.Keys, all.entries.Keys);
  }

  lemma SameSize(a: set<string>, b: set<string>)
    requires a <= b && |a| == |b|
    ensures a == b
  {
    assert b == a + (b - a);
    assert |b - a| == 0;
  }

  lemma InValues<C(!new)>(m: OrderedMap<string, C>, c: C)
    requires m.Valid()
    ensures c in m.Values() <==> exists u :: u in m.entries && m.entries[u] == c
  {
    if u :| u in m.entries && m.entries[u] == c {
      var i :| 0 <= i < |m.keys| && m.keys[i] == u;
      assert m.Values()[i] == c;
    }
    if c in m.Values() {
      var i :| 0 <= i < |m.keys| && m.Values()[i] == c;
      assert m.keys[i] in m.keys;
    }
  }

  lemma WorstIsWorst<C(!new)>(r: Ranking<C>, m: OrderedMap<string, C>)
    requires r.Lawful() && Keyed(r, m) && |m.keys| > 0
    ensures var worst := Ascending(r, m)[0];
            && r.url(worst) in m.entries && m.entries[r.url(worst)] == worst
            && forall u :: u in m.entries && u != r.url(worst) ==> r.better(m.entries[u], worst)
  {
    var before := (a, b) => r.better(b, a);
    var s := Ascending(r, m);
    var worst := s[0];
    assert StrictWeak(before);
    StableSortSorted(m.Values(), before);
    assert worst in s;
    InValues(m, worst);
    forall u | u in m.entries && u != r.url(worst)
      ensures r.better(m.entries[u], worst)
    {
      var c := m.entries[u];
      InValues(m, c);
      var i :| 0 <= i < |s| && s[i] == c;
      assert i > 0;
      assert !before(s[i], s[0]);
    }
  }

  lemma ReplaceKeepsTops<C(!new)>(
      r: Ranking<C>, maximum: int, kept: OrderedMap<string, C>, all: OrderedMap<string, C>, c: C)
    requires r.Lawful() && Tops(r, maximum, kept, all) && r.url(c) in kept.entries
    ensures Tops(r, maximum, Offer(r, maximum, kept, c), Improve(r, all, c))
  {
    if r.better(c, kept.entries[r.url(c)]) {
      ReplaceOutranks(r, kept.entries.Keys, all.entries, c);
      assert kept.Set(r.url(c), c).entries.Keys == kept.entries.Keys;
    }
  }

  lemma ReplaceOutranks<C(!new)>(r: Ranking<C>, kept: set<string>, all: map<string, C>, c: C)
    requires r.Lawful() && Outrank(r, kept, all) && r.url(c) in kept && r.url(c) in all && r.better(c, all[r.url(c)])
    ensures Outrank(r, kept, all[r.url(c) := c])
  {
    forall v | v in all && v !in kept ensures r.better(c, all[v]) {
      assert r.better(all[r.url(c)], all[v]);
    }
  }

  lemma RoomKeepsTops<C(!new)>(
      r: Ranking<C>, maximum: int, kept: OrderedMap<string, C>, all: OrderedMap<string, C>, c: C)
    requires r.Lawful() && Tops(r, maximum, kept, all) && r.url(c) !in kept.entries && |kept.keys| < Limit(maximum)
    ensures Tops(r, maximum, Offer(r, maximum, kept, c), Improve(r, all, c))
  {
    NothingLeftOut(r, maximum, kept, all);
  }

  lemma EvictionKeepsTops<C(!new)>(
      r: Ranking<C>, maximum: int, kept: OrderedMap<string, C>, all: OrderedMap<string, C>, c: C)
    requires r.Lawful() && Tops(r, maximum, kept, all)
    requires r.url(c) !in kept.entries && |kept.keys| >= Limit(maximum) > 0
    ensures Tops(r, maximum, Offer(r, maximum, kept, c), Improve(r, all, c))
  {
    WorstIsWorst(r, kept);
    var worst := Ascending(r, kept)[0];
    OfferWhenFull(r, maximum, kept, c, worst);
    if r.better(c, worst) {
      assert Improve(r, all, c) == all.Set(r.url(c), c) by {
        assert r.url(c) in all.entries ==> r.better(worst, all.entries[r.url(c)]);
      }
      SwapOutranks(r, kept.entries.Keys, all.entries, worst, c);
      SwapAgrees(r, maximum, kept, all, r.url(worst), c);
    } else {
      RejectKeepsTops(r, maximum, kept, all, worst, c);
    }
  }

  lemma OfferWhenFull<C(!new)>(r: Ranking<C>, maximum: int, kept: OrderedMap<string, C>, c: C, worst: C)
    requires kept.Valid() && r.url(c) !in kept.entries && |kept.keys| >= Limit(maximum) > 0
    requires worst == Ascending(r, kept)[0]
    ensures Offer(r, maximum, kept, c) ==
            if r.better(c, worst) then kept.Delete(r.url(worst)).Set(r.url(c), c) else kept
  {
  }

  lemma RejectKeepsTops<C(!new)>(
      r: Ranking<C>, maximum: int, kept: OrderedMap<string, C>, all: OrderedMap<string, C>, worst: C, c: C)
    requires r.Lawful() && Tops(r, maximum, kept, all) && r.url(c) !in kept.entries && |kept.keys| >= Limit(maximum)
    requires r.url(worst) in kept.entries && kept.entries[r.url(worst)] == worst && !r.better(c, worst)
    requires forall u :: u in kept.entries && u != r.url(worst) ==> r.better(kept.entries[u], worst)
    ensures Tops(r, maximum, kept, Improve(r, all, c))
  {
    assert r.better(worst, c);
    assert forall u :: u in kept.entries ==> r.better(kept.entries[u], c);
  }

  /** A candidate makes way for one of another URL. */
  lemma SwapAgrees<C(!new)>(
      r: Ranking<C>, maximum: int, kept: OrderedMap<string, C>, all: OrderedMap<string, C>, w: string, c: C)
    requires Agrees(r, maximum, kept, all) && |kept.keys| >= Limit(maximum) > 0
    requires w in kept.entries && r.url(c) !in kept.entries
    ensures var kept' := kept.Delete(w).Set(r.url(c), c);
            Agrees(r, maximum, kept', all.Set(r.url(c), c)) &&
            kept'.entries.Keys == kept.entries.Keys - {w} + {r.url(c)}
  {
    var kept' := kept.Delete(w).Set(r.url(c), c);
    assert kept'.entries.Keys == kept.entries.Keys - {w} + {r.url(c)};
    SameCount(kept, w, r.url(c), c);
  }

  lemma SameCount<C(!new)>(m: OrderedMap<string, C>, w: string, u: string, c: C)
    requires m.Valid() && w in m.entries && u !in m.entries
    ensures |m.Delete(w).Set(u, c).keys| == |m.keys|
  {
    assert |m.Delete(w).keys| == |m.keys| - 1;
  }

  lemma SwapOutranks<C(!new)>(r: Ranking<C>, kept: set<string>, all: map<string, C>, worst: C, c: C)
    requires r.Lawful() && Outrank(r, kept, all) && kept <= all.Keys
    requires r.url(worst) in kept && all[r.url(worst)] == worst && r.url(c) !in kept && r.better(c, worst)
    requires forall u :: u in kept && u != r.url(worst) ==> r.better(all[u], worst)
    ensures Outrank(r, kept - {r.url(worst)} + {r.url(c)}, all[r.url(c) := c])
  {
    var kept', all' := kept - {r.url(worst)} + {r.url(c)}, all[r.url(c) := c];
    forall u, v | u in kept' && v in all' && v !in kept'
      ensures r.better(all'[u], all'[v])
    {
      assert v == r.url(worst) || (v !in kept && r.better(worst, all[v]));
      assert u == r.url(c) || r.better(all[u], worst);
    }
  }

  lemma StepKeepsTops<C(!new)>(
      r: Ranking<C>, maximum: int, kept: OrderedMap<string, C>, all: OrderedMap<string, C>, c: C)
    requires r.Lawful() && Tops(r, maximum, kept, all)
    ensures Tops(r, maximum, Offer(r, maximum, kept, c), Improve(r, all, c))
  {
    if r.url(c) in kept.entries {
      ReplaceKeepsTops(r, maximum, kept, all, c);
    } else if maximum > 0 && |kept.keys| < maximum {
      RoomKeepsTops(r, maximum, kept, all, c);
    } else if maximum > 0 {
      EvictionKeepsTops(r, maximum, kept, all, c);
    }
  }

  lemma {:induction false} StreamHoldsTheBest<C(!new)>(r: Ranking<C>, maximum: int, offered: seq<C>)
    requires r.Lawful()
    ensures Tops(r, maximum, Stream(r, maximum, offered), Best(r, offered))
  {
    if |offered| > 0 {
      var n := |offered| - 1;
      StreamHoldsTheBest(r, maximum, offered[..n]);
      StepKeepsTops(r, maximum, Stream(r, maximum, offered[..n]), Best(r, offered[..n]), offered[n]);
    }
  }

  // ---------------------------------------------------------------------------------------

  ghost predicate StrictlySorted<C(!new)>(s: seq<C>, better: (C, C) -> bool) {
    forall i, j :: 0 <= i < j < |s| ==> better(s[i], s[j])
  }

  lemma DescendingIsStrict<C(!new)>(r: Ranking<C>, m: OrderedMap<string, C>)
    requires r.Lawful() && Keyed(r, m)
    ensures StrictlySorted(Descending(r, m), r.better)
    ensures forall c :: c in Descending(r, m) <==> exists u :: u in m.entries && m.entries[u] == c
  {
    var vs := m.Values();
    var s := Descending(r, m);
    forall i, j | 0 <= i < j < |vs| ensures r.url(vs[i]) != r.url(vs[j]) {
      assert m.keys[i] in m.keys && m.keys[j] in m.keys;
    }
    SortDistinct(vs, r.better, r.url);
    StableSortSorted(vs, r.better);
    forall c ensures c in s <==> exists u :: u in m.entries && m.entries[u] == c {
      InValues(m, c);
    }
  }

  /** A sorted list of the best of another sorted list is its beginning. */
  lemma {:induction false} BestAreFirst<C(!new)>(s: seq<C>, t: seq<C>, better: (C, C) -> bool)
    requires StrictWeak(better) && StrictlySorted(s, better) && StrictlySorted(t, better)
    requires forall c :: c in s ==> c in t
    requires forall c, d :: c in s && d in t && d !in s ==> better(c, d)
    ensures |s| <= |t| && s == t[..|s|]
  {
    if |s| > 0 {
      assert s[0] in s;
      assert t[0] == s[0] by {
        assert forall c :: c in t ==> c == t[0] || better(t[0], c);
        assert forall c :: c in s ==> c == s[0] || better(s[0], c);
        var a, b := s[0], t[0];
        assert a == b || better(b, a);
        assert a == b || better(a, b);
      }
      forall c | c in s[1..] ensures c in t[1..] {
        var i :| 0 <= i < |s[1..]| && s[1..][i] == c;
        assert better(s[0], s[i + 1]);
        assert c in s;
        var n :| 0 <= n < |t| && t[n] == c;
        assert t[1..][n - 1] == c;
      }
      forall c, d | c in s[1..] && d in t[1..] && d !in s[1..] ensures better(c, d) {
        assert c in s && d in t;
        var n :| 0 <= n < |t[1..]| && t[1..][n] == d;
        assert better(t[0], t[n + 1]);
      }
      BestAreFirst(s[1..], t[1..], better);
    }
  }

  /** What streaming keeps, in descending order, is the beginning of the descending list of the best
      candidate of every URL ever offered: neither eviction nor a later return changes it. */
  lemma StreamingEqualsBatch<C(!new)>(r: Ranking<C>, maximum: int, offered: seq<C>)
    requires r.Lawful()
    ensures var all := Descending(r, Best(r, offered));
            Descending(r, Stream(r, maximum, offered)) == if |all| <= Limit(maximum) then all else all[..Limit(maximum)]
  {
    StreamHoldsTheBest(r, maximum, offered);
    var kept, all := Stream(r, maximum, offered), Best(r, offered);
    DescendingIsStrict(r, kept);
    DescendingIsStrict(r, all);
    var s, t := Descending(r, kept), Descending(r, all);
    forall c, d | c in s && d in t && d !in s
      ensures r.better(c, d)
    {
      var u :| u in kept.entries && kept.entries[u] == c;
      var v :| v in all.entries && all.entries[v] == d;
      assert v !in kept.entries;
    }
    BestAreFirst(s, t, r.better);
    assert t[..|t|] == t;
  }

  // ---------------------------------------------------------------------------------------
  // What each set holds on to

  /** The best candidate of a URL: it was offered, and nothing offered for the URL beats it. */
  lemma {:induction false} BestIsBest<C(!new)>(r: Ranking<C>, offered: seq<C>)
    requires r.Lawful()
    ensures Keyed(r, Best(r, offered))
    ensures forall c :: c in offered ==>
              var u := r.url(c); u in Best(r, offered).entries && !r.better(c, Best(r, offered).entries[u])
    ensures forall u :: u in Best(r, offered).entries ==> Best(r, offered).entries[u] in offered
  {
    if |offered| > 0 {
      var n := |offered| - 1;
      BestIsBest(r, offered[..n]);
      assert offered == offered[..n] + [offered[n]];
    }
  }

  /** What a bounded list of candidates is to be: each was offered and is better than all behind it,
      nothing offered for its URL is better, and a URL is missing only when the list is full and
      everything in it is better than what was offered for that URL. */
  ghost predicate IsBestList<C(!new)>(
      url: C -> string, better: (C, C) -> bool, maximum: int, offered: seq<C>, list: seq<C>)
  {
    && (|list| <= maximum || list == [])
    && (forall i, j :: 0 <= i < j < |list| ==> better(list[i], list[j]))
    && (forall c :: c in list ==> c in offered)
    && (forall c, d :: c in list && d in offered && url(c) == url(d) ==> !better(d, c))
    && (forall d :: d in offered && !HasUrl(url, list, url(d)) ==>
          (|list| == maximum || maximum <= 0) && forall c :: c in list ==> better(c, d))
  }

  ghost predicate HasUrl<C(!new)>(url: C -> string, list: seq<C>, u: string) {
    exists c :: c in list && url(c) == u
  }

  lemma LeftOutAreWorse<C(!new)>(r: Ranking<C>, maximum: int, offered: seq<C>, d: C)
    requires r.Lawful() && d in offered && r.url(d) !in Stream(r, maximum, offered).entries
    ensures |Stream(r, maximum, offered).keys| == Limit(maximum)
    ensures forall u :: u in Stream(r, maximum, offered).entries ==> r.better(Stream(r, maximum, offered).entries[u], d)
  {
    StreamHoldsTheBest(r, maximum, offered);
    BestIsBest(r, offered);
    var kept, all := Stream(r, maximum, offered), Best(r, offered);
    if |kept.keys| < Limit(maximum) {
      NothingLeftOut(r, maximum, kept, all);
    }
    forall u | u in kept.entries ensures r.better(kept.entries[u], d) {
      assert r.better(all.entries[u], all.entries[r.url(d)]);
    }
  }

  lemma KeptAreBest<C(!new)>(r: Ranking<C>, maximum: int, offered: seq<C>, u: string)
    requires r.Lawful() && u in Stream(r, maximum, offered).entries
    ensures var c := Stream(r, maximum, offered).entries[u];
            && r.url(c) == u && c in offered
            && forall d :: d in offered && r.url(d) == u ==> !r.better(d, c)
  {
    StreamHoldsTheBest(r, maximum, offered);
    BestIsBest(r, offered);
  }

  lemma KeptAreListed<C(!new)>(r: Ranking<C>, maximum: int, offered: seq<C>)
    requires r.Lawful()
    ensures var kept := Stream(r, maximum, offered);
            var list := Descending(r, kept);
            && StrictlySorted(list, r.better) && |list| == |kept.keys| <= Limit(maximum)
            && forall c :: c in list <==> exists u :: u in kept.entries && kept.entries[u] == c
  {
    StreamHoldsTheBest(r, maximum, offered);
    DescendingIsStrict(r, Stream(r, maximum, offered));
  }

  /** What streaming keeps is such a list, however often a URL came back or was evicted. */
  lemma StreamYieldsBestList<C(!new)>(r: Ranking<C>, maximum: int, offered: seq<C>)
    requires r.Lawful()
    ensures IsBestList(r.url, r.better, maximum, offered, Descending(r, Stream(r, maximum, offered)))
  {
    var kept := Stream(r, maximum, offered);
    var list := Descending(r, kept);
    KeptAreListed(r, maximum, offered);
    forall u | u in kept.entries
      ensures HasUrl(r.url, list, u) && r.url(kept.entries[u]) == u && kept.entries[u] in offered
      ensures forall d :: d in offered && r.url(d) == u ==> !r.better(d, kept.entries[u])
    {
      KeptAreBest(r, maximum, offered, u);
    }
    forall d | d in offered && !HasUrl(r.url, list, r.url(d))
      ensures (|list| == maximum || maximum <= 0) && forall c :: c in list ==> r.better(c, d)
    {
      LeftOutAreWorse(r, maximum, offered, d);
    }
  }

  lemma SameBestList<C(!new)>(
      url: C -> string, other: C -> string, better: (C, C) -> bool, before: (C, C) -> bool,
      maximum: int, offered: seq<C>, list: seq<C>)
    requires IsBestList(url, better, maximum, offered, list)
    requires (forall c :: url(c) == other(c)) && forall c, d :: better(c, d) <==> before(c, d)
    ensures IsBestList(other, before, maximum, offered, list)
  {
    forall d | d in offered && !HasUrl(other, list, other(d)) ensures !HasUrl(url, list, url(d)) {
    }
  }

  ghost predicate Collation(compare: (string, string) -> int) {
    && (forall a, b :: compare(a, b) == 0 <==> a == b)
    && (forall a, b :: compare(a, b) > 0 <==> compare(b, a) < 0)
    && (forall a, b, c :: compare(a, b) < 0 && compare(b, c) < 0 ==> compare(a, c) < 0)
  }
}

module CssCandidates {
  import opened Prelude
  import opened Candidates

  datatype Method = SourceMap | Import | Url
  datatype Confidence = High | Medium | Low

  datatype Candidate = Candidate(rawUrl: string, how: Method, confidence: Confidence, offset: int)

  function Priority(m: Method): int {
    match m
    case SourceMap => 3
    case Import => 2
    case Url => 1
  }

  function Compare(locale: (string, string) -> int, left: Candidate, right: Candidate): int {
    var priority := Priority(left.how) - Priority(right.how);
    if priority != 0 then priority
    else if left.offset != right.offset then right.offset - left.offset
    else locale(right.rawUrl, left.rawUrl)
  }

  function ByRank(locale: (string, string) -> int): Ranking<Candidate> {
    Ranking((c: Candidate) => c.rawUrl, (a, b) => Compare(locale, a, b) > 0)
  }

  lemma RankIsLawful(locale: (string, string) -> int)
    requires Collation(locale)
    ensures ByRank(locale).Lawful()
  {
  }

  /** A source map comes before an import and an import before any other URL; then the earlier in the
      stylesheet; then the order of the URLs. */
  ghost predicate ComesFirst(locale: (string, string) -> int, a: Candidate, b: Candidate) {
    || (a.how == SourceMap && b.how != SourceMap)
    || (a.how == Import && b.how == Url)
    || (a.how == b.how && a.offset < b.offset)
    || (a.how == b.how && a.offset == b.offset && locale(a.rawUrl, b.rawUrl) < 0)
  }

  lemma BetterComesFirst(locale: (string, string) -> int, a: Candidate, b: Candidate)
    requires Collation(locale)
    ensures ByRank(locale).better(a, b) <==> ComesFirst(locale, a, b)
  {
  }

  /** What streaming keeps is the best list, best by that order. */
  lemma ListComesFirst(locale: (string, string) -> int, maximum: int, offered: seq<Candidate>)
    requires Collation(locale)
    ensures IsBestList((c: Candidate) => c.rawUrl, (a, b) => ComesFirst(locale, a, b), maximum, offered,
                       Descending(ByRank(locale), Stream(ByRank(locale), maximum, offered)))
  {
    var r := ByRank(locale);
    RankIsLawful(locale);
    StreamYieldsBestList(r, maximum, offered);
    forall a, b ensures r.better(a, b) <==> ComesFirst(locale, a, b) {
      BetterComesFirst(locale, a, b);
    }
    SameBestList(r.url, (c: Candidate) => c.rawUrl, r.better, (a, b) => ComesFirst(locale, a, b), maximum, offered,
                 Descending(r, Stream(r, maximum, offered)));
  }

  class CssCandidateSet {
    const maximum: int
    const clean: string -> Option<string>
    const locale: (string, string) -> int
    var found: OrderedMap<string, Candidate>
    ghost var offered: seq<Candidate>

    ghost predicate Valid()
      reads this
    {
      Collation(locale) && found == Stream(ByRank(locale), maximum, offered)
    }

    constructor (maximum: int, clean: string -> Option<string>, locale: (string, string) -> int)
      requires Collation(locale)
      ensures Valid() && offered == []
      ensures this.maximum == maximum && this.clean == clean && this.locale == locale
    {
      this.maximum, this.clean, this.locale := maximum, clean, locale;
      found, offered := EmptyMap(), [];
    }

    method Add(rawUrl: string, how: Method, confidence: Confidence, offset: int)
      requires Valid()
      modifies this
      ensures Valid()
      ensures offered == match clean(rawUrl)
                         case None => old(offered)
                         case Some(url) => old(offered) + [Candidate(url, how, confidence, offset)]
    {
      var normalized := clean(rawUrl);
      if normalized.None? {
        return;
      }
      var candidate := Candidate(normalized.value, how, confidence, offset);
      RankIsLawful(locale);
      StreamHoldsTheBest(ByRank(locale), maximum, offered);
      offered := offered + [candidate];
      assert offered[..|offered| - 1] == old(offered);
      if maximum <= 0 {
        assert found.keys == [];
        return;
      }
      if candidate.rawUrl in found.entries {
        if Compare(locale, candidate, found.entries[candidate.rawUrl]) > 0 {
          found := found.Set(candidate.rawUrl, candidate);
        }
        return;
      }
      if |found.keys| < maximum {
        found := found.Set(candidate.rawUrl, candidate);
        return;
      }
      var worst := Ascending(ByRank(locale), found)[0];
      if Compare(locale, candidate, worst) > 0 {
        found := found.Delete(worst.rawUrl);
        found := found.Set(candidate.rawUrl, candidate);
      }
    }

    /** The best candidates of all that were ever offered, best first. */
    method Values() returns (vs: seq<Candidate>)
      requires Valid()
      ensures var all := Descending(ByRank(locale), Best(ByRank(locale), offered));
              vs == if |all| <= Limit(maximum) then all else all[..Limit(maximum)]
      ensures IsBestList((c: Candidate) => c.rawUrl, (a, b) => ComesFirst(locale, a, b), maximum, offered, vs)
    {
      RankIsLawful(locale);
      StreamingEqualsBatch(ByRank(locale), maximum, offered);
      ListComesFirst(locale, maximum, offered);
      return Descending(ByRank(locale), found);
    }
  }
}

module JavascriptCandidates {
  import opened Prelude
  import opened Candidates

  datatype Method =
    | FetchCall | XhrOpen | DynamicImport | UrlConstructor | SourceMap | AbsoluteLiteral | RelativeLiteral
  datatype Confidence = High | Medium | Low

  const MAX_SAFE_INTEGER := 0x1F_FFFF_FFFF_FFFF

  datatype Candidate = Candidate(rawUrl: string, how: Method, confidence: Confidence, offset: Option<int>)

  function MethodPriority(m: Method): int {
    match m
    case FetchCall | XhrOpen | DynamicImport | UrlConstructor => 8
    case SourceMap => 7
    case AbsoluteLiteral => 5
    case RelativeLiteral => 4
  }

  function ConfidencePriority(c: Confidence): int {
    match c
    case High => 3
    case Medium => 2
    case Low => 1
  }

  function OffsetOf(c: Candidate): int {
    if c.offset.Some? then c.offset.value else MAX_SAFE_INTEGER
  }

  function Compare(locale: (string, string) -> int, left: Candidate, right: Candidate): int {
    var how := MethodPriority(left.how) - MethodPriority(right.how);
    var confidence := ConfidencePriority(left.confidence) - ConfidencePriority(right.confidence);
    if how != 0 then how
    else if confidence != 0 then confidence
    else if OffsetOf(left) != OffsetOf(right) then OffsetOf(right) - OffsetOf(left)
    else locale(right.rawUrl, left.rawUrl)
  }

  function ByRank(locale: (string, string) -> int): Ranking<Candidate> {
    Ranking((c: Candidate) => c.rawUrl, (a, b) => Compare(locale, a, b) > 0)
  }

  lemma RankIsLawful(locale: (string, string) -> int)
    requires Collation(locale)
    ensures ByRank(locale).Lawful()
  {
  }

  /** What calls for a URL comes before a source map, that before an absolute literal, and that before
      a relative one. */
  ghost predicate Outweighs(a: Method, b: Method) {
    || (a in {FetchCall, XhrOpen, DynamicImport, UrlConstructor} && b in {SourceMap, AbsoluteLiteral, RelativeLiteral})
    || (a == SourceMap && b in {AbsoluteLiteral, RelativeLiteral})
    || (a == AbsoluteLiteral && b == RelativeLiteral)
  }

  ghost predicate Surer(a: Confidence, b: Confidence) {
    (a == High && b != High) || (a == Medium && b == Low)
  }

  /** Offsets compare as they stand; a missing one is 2 to the 53rd less one. */
  ghost predicate Earlier(a: Option<int>, b: Option<int>) {
    match (a, b)
    case (Some(i), Some(j)) => i < j
    case (Some(i), None) => i < 9007199254740991
    case (None, Some(j)) => 9007199254740991 < j
    case (None, None) => false
  }

  ghost predicate ComesFirst(locale: (string, string) -> int, a: Candidate, b: Candidate) {
    if Outweighs(a.how, b.how) || Outweighs(b.how, a.how) then Outweighs(a.how, b.how)
    else if a.confidence != b.confidence then Surer(a.confidence, b.confidence)
    else if Earlier(a.offset, b.offset) || Earlier(b.offset, a.offset) then Earlier(a.offset, b.offset)
    else locale(a.rawUrl, b.rawUrl) < 0
  }

  lemma MethodsWeigh(a: Method, b: Method)
    ensures MethodPriority(a) > MethodPriority(b) <==> Outweighs(a, b)
  {
  }

  lemma BetterComesFirst(locale: (string, string) -> int, a: Candidate, b: Candidate)
    requires Collation(locale)
    ensures ByRank(locale).better(a, b) <==> ComesFirst(locale, a, b)
  {
    MethodsWeigh(a.how, b.how);
    MethodsWeigh(b.how, a.how);
    assert ConfidencePriority(a.confidence) > ConfidencePriority(b.confidence) <==> Surer(a.confidence, b.confidence);
    assert OffsetOf(a) < OffsetOf(b) <==> Earlier(a.offset, b.offset);
    assert OffsetOf(b) < OffsetOf(a) <==> Earlier(b.offset, a.offset);
  }

  /** What streaming keeps is the best list, best by that order. */
  lemma ListComesFirst(locale: (string, string) -> int, maximum: int, offered: seq<Candidate>)
    requires Collation(locale)
    ensures IsBestList((c: Candidate) => c.rawUrl, (a, b) => ComesFirst(locale, a, b), maximum, offered,
                       Descending(ByRank(locale), Stream(ByRank(locale), maximum, offered)))
  {
    var r := ByRank(locale);
    RankIsLawful(locale);
    StreamYieldsBestList(r, maximum, offered);
    forall a, b ensures r.better(a, b) <==> ComesFirst(locale, a, b) {
      BetterComesFirst(locale, a, b);
    }
    SameBestList(r.url, (c: Candidate) => c.rawUrl, r.better, (a, b) => ComesFirst(locale, a, b), maximum, offered,
                 Descending(r, Stream(r, maximum, offered)));
  }

  class JavascriptCandidateSet {
    const maximum: int
    const clean: string -> Option<string>
    const locale: (string, string) -> int
    var candidates: OrderedMap<string, Candidate>
    ghost var offered: seq<Candidate>

    ghost predicate Valid()
      reads this
    {
      Collation(locale) && candidates == Stream(ByRank(locale), maximum, offered)
    }

    constructor (maximum: int, clean: string -> Option<string>, locale: (string, string) -> int)
      requires Collation(locale)
      ensures Valid() && offered == []
      ensures this.maximum == maximum && this.clean == clean && this.locale == locale
    {
      this.maximum, this.clean, this.locale := maximum, clean, locale;
      candidates, offered := EmptyMap(), [];
    }

    method Add(rawUrl: string, how: Method, confidence: Confidence, offset: Option<int>)
      requires Valid()
      modifies this
      ensures Valid()
      ensures offered == match clean(rawUrl)
                         case None => old(offered)
                         case Some(url) => old(offered) + [Candidate(url, how, confidence, offset)]
    {
      var normalized := clean(rawUrl);
      if normalized.None? {
        return;
      }
      var next := Candidate(normalized.value, how, confidence, offset);
      offered := offered + [next];
      assert offered[..|offered| - 1] == old(offered);
      if next.rawUrl in candidates.entries {
        if Compare(locale, next, candidates.entries[next.rawUrl]) > 0 {
          candidates := candidates.Set(next.rawUrl, next);
        }
        return;
      }
      if maximum <= 0 {
        return;
      }
      if |candidates.keys| < maximum {
        candidates := candidates.Set(next.rawUrl, next);
        return;
      }
      var worst := Ascending(ByRank(locale), candidates)[0];
      if Compare(locale, next, worst) > 0 {
        candidates := candidates.Delete(worst.rawUrl);
        candidates := candidates.Set(next.rawUrl, next);
      }
    }

    /** The best candidates of all that were ever offered, best first. */
    method Values() returns (vs: seq<Candidate>)
      requires Valid()
      ensures var all := Descending(ByRank(locale), Best(ByRank(locale), offered));
              vs == if |all| <= Limit(maximum) then all else all[..Limit(maximum)]
      ensures IsBestList((c: Candidate) => c.rawUrl, (a, b) => ComesFirst(locale, a, b), maximum, offered, vs)
    {
      RankIsLawful(locale);
      StreamingEqualsBatch(ByRank(locale), maximum, offered);
      ListComesFirst(locale, maximum, offered);
      return Descending(ByRank(locale), candidates);
    }
  }
}
