/** Admission of URLs under quotas (src/crawler/request-scheduler.ts, src/url/scope-policy.ts). */
module Admission {
  import opened Prelude
  import opened Requests
  import opened PathPatterns

  /** What new URL makes of a normalized URL. */
  datatype Parsed = Parsed(origin: string, pathname: string, queryKeys: seq<string>)

  datatype SeedRef = SeedRef(normalizedUrl: string, maxScheduledRequests: Option<nat>)

  /** normalizedUrl is None when the raw URL cannot be normalized. */
  datatype Input = Input(normalizedUrl: Option<string>, source: Source, depth: int, seed: SeedRef)

  datatype Known = Known(uniqueKey: string, normalizedUrl: string, source: Source, seedUrl: string)

  type Counts = map<string, nat>

  /** The configuration. A seed URL selects a scope, named by its key; the limits go with the scope. */
  datatype Policy = Policy(
    parse: string -> Option<Parsed>,
    scopeKey: string -> string,
    maxUrlsPerDirectory: string -> nat,
    maxUrlsPerPathPattern: string -> nat,
    inScope: (string, int, string) -> bool,
    maxScheduledRequests: nat,
    maxSitemapFiles: nat)
  {
    /** A scope key is "global" or a normalized URL, which has no NUL in it. */
    ghost predicate Valid() {
      forall seedUrl :: NUL !in scopeKey(seedUrl)
    }
  }

  const NUL: char := '\0'

  datatype Reservation = Reservation(directoryKey: string, directoryCount: nat, patternKey: string, patternCount: nat)

  datatype Refusal =
    | SitemapLimit | ScheduledLimit | OutOfScope | SeedLimit | InvalidUrl | DirectoryLimit | PatternLimit

  /** Through: the frontier will turn the URL down by itself. */
  datatype Verdict = Through | Refused(why: Refusal) | Passes(reservation: Reservation)

  datatype Books = Books(
    known: seq<Known>,
    scheduled: nat,
    sitemapFiles: nat,
    seedCounts: Counts,
    directoryCounts: Counts,
    patternCounts: Counts)

  predicate IsSitemapFile(source: Source) {
    source.RobotsSitemap? || source.SitemapIndex?
  }

  function CountOf(m: Counts, k: string): nat {
    if k in m then m[k] else 0
  }

  function Bump(m: Counts, k: string): Counts {
    m[k := CountOf(m, k) + 1]
  }

  function Scoped(p: Policy, seedUrl: string, place: string): string {
    p.scopeKey(seedUrl) + [NUL] + place
  }

  function DirectoryKey(p: Policy, url: Parsed, seedUrl: string): string {
    Scoped(p, seedUrl, url.origin + DirectoryOf(url.pathname))
  }

  function PatternKey(p: Policy, url: Parsed, seedUrl: string): string {
    Scoped(p, seedUrl, url.origin + PathPattern(url.pathname) + "?" + QueryPattern(url.queryKeys))
  }

  function UniqueKey(normalizedUrl: string): string {
    normalizedUrl + "#GET"
  }

  function KeyOf(k: Known): string { k.uniqueKey }

  predicate IsKnown(known: seq<Known>, uniqueKey: string) {
    exists i :: 0 <= i < |known| && known[i].uniqueKey == uniqueKey
  }

  function Entry(input: Input): Known
    requires input.normalizedUrl.Some?
  {
    Known(UniqueKey(input.normalizedUrl.value), input.normalizedUrl.value, input.source, input.seed.normalizedUrl)
  }

  /** prepareReservation */
  function Prepare(p: Policy, directoryCounts: Counts, patternCounts: Counts, url: string, seedUrl: string): Verdict {
    match p.parse(url)
    case None => Refused(InvalidUrl)
    case Some(parsed) =>
      var scope := p.scopeKey(seedUrl);
      var dk, pk := DirectoryKey(p, parsed, seedUrl), PatternKey(p, parsed, seedUrl);
      if CountOf(directoryCounts, dk) + 1 > p.maxUrlsPerDirectory(scope) then Refused(DirectoryLimit)
      else if CountOf(patternCounts, pk) + 1 > p.maxUrlsPerPathPattern(scope) then Refused(PatternLimit)
      else Passes(Reservation(dk, CountOf(directoryCounts, dk) + 1, pk, CountOf(patternCounts, pk) + 1))
  }

  /** Everything admit asks before it turns to the frontier. */
  function Check(p: Policy, b: Books, input: Input): Verdict {
    match input.normalizedUrl
    case None => Through
    case Some(url) =>
      if IsKnown(b.known, UniqueKey(url)) then Through
      else if IsSitemapFile(input.source) && b.sitemapFiles >= p.maxSitemapFiles then Refused(SitemapLimit)
      else if b.scheduled >= p.maxScheduledRequests then Refused(ScheduledLimit)
      else if !p.inScope(url, input.depth, input.seed.normalizedUrl) then Refused(OutOfScope)
      else if input.seed.maxScheduledRequests.Some?
              && CountOf(b.seedCounts, input.seed.normalizedUrl) >= input.seed.maxScheduledRequests.value then Refused(SeedLimit)
      else Prepare(p, b.directoryCounts, b.patternCounts, url, input.seed.normalizedUrl)
  }

  /** The frontier remembers the request. */
  function Appended(b: Books, input: Input): Books
    requires input.normalizedUrl.Some?
  {
    b.(known := b.known + [Entry(input)])
  }

  /** persistAdmission */
  function Accounted(b: Books, input: Input): Books {
    b.(scheduled := b.scheduled + 1,
       sitemapFiles := b.sitemapFiles + if IsSitemapFile(input.source) then 1 else 0,
       seedCounts := Bump(b.seedCounts, input.seed.normalizedUrl))
  }

  function Committed(b: Books, r: Reservation): Books {
    b.(directoryCounts := b.directoryCounts[r.directoryKey := r.directoryCount],
       patternCounts := b.patternCounts[r.patternKey := r.patternCount])
  }

  /** One admission from beginning to end; accepts is whether the frontier has room for it. */
  function Admit(p: Policy, b: Books, input: Input, accepts: bool): Books {
    match Check(p, b, input)
    case Passes(r) => if accepts then Committed(Accounted(Appended(b, input), input), r) else b
    case _ => b
  }

  // ---------------------------------------------------------------------------------------
  // Counting from scratch

  function Tally(keys: seq<string>): Counts {
    if |keys| == 0 then map[] else Bump(Tally(keys[..|keys| - 1]), keys[|keys| - 1])
  }

  lemma {:induction false} TallyCounts(keys: seq<string>, k: string)
    ensures CountOf(Tally(keys), k) == multiset(keys)[k]
    ensures k in Tally(keys) <==> k in keys
  {
    if |keys| > 0 {
      assert keys == keys[..|keys| - 1] + [keys[|keys| - 1]];
      TallyCounts(keys[..|keys| - 1], k);
    }
  }

  lemma TallyAppend(keys: seq<string>, k: string)
    ensures Tally(keys + [k]) == Bump(Tally(keys), k)
  {
    assert (keys + [k])[..|keys|] == keys;
  }

  function SeedKeys(known: seq<Known>): (keys: seq<string>)
    ensures |keys| == |known|
  {
    seq(|known|, i requires 0 <= i < |known| => known[i].seedUrl)
  }

  function DirectoryKeys(p: Policy, known: seq<Known>): seq<string> {
    if |known| == 0 then [] else
      var r := known[|known| - 1];
      DirectoryKeys(p, known[..|known| - 1]) +
      if p.parse(r.normalizedUrl).Some? then [DirectoryKey(p, p.parse(r.normalizedUrl).value, r.seedUrl)] else []
  }

  function PatternKeys(p: Policy, known: seq<Known>): seq<string> {
    if |known| == 0 then [] else
      var r := known[|known| - 1];
      PatternKeys(p, known[..|known| - 1]) +
      if p.parse(r.normalizedUrl).Some? then [PatternKey(p, p.parse(r.normalizedUrl).value, r.seedUrl)] else []
  }

  /** restoreAccounting: the maps counted anew from the requests the frontier knows. */
  function Restored(p: Policy, b: Books): Books {
    b.(seedCounts := Tally(SeedKeys(b.known)),
       directoryCounts := Tally(DirectoryKeys(p, b.known)),
       patternCounts := Tally(PatternKeys(p, b.known)))
  }

  // ---------------------------------------------------------------------------------------
  // The objects

  class ScopePolicy {
    const policy: Policy
    var directoryCounts: Counts
    var patternCounts: Counts

    constructor (policy: Policy)
      ensures this.policy == policy && directoryCounts == map[] && patternCounts == map[]
    {
      this.policy, directoryCounts, patternCounts := policy, map[], map[];
    }

    function PrepareReservation(url: string, seedUrl: string): Verdict
      reads this
    {
      Prepare(policy, directoryCounts, patternCounts, url, seedUrl)
    }

    method RestoreReservations(requests: seq<Known>)
      modifies this
      ensures directoryCounts == Tally(DirectoryKeys(policy, requests))
      ensures patternCounts == Tally(PatternKeys(policy, requests))
    {
      directoryCounts, patternCounts := map[], map[];
      for i := 0 to |requests|
        invariant directoryCounts == Tally(DirectoryKeys(policy, requests[..i]))
        invariant patternCounts == Tally(PatternKeys(policy, requests[..i]))
      {
        assert requests[..i + 1][..i] == requests[..i];
        var parsed := policy.parse(requests[i].normalizedUrl);
        if parsed.Some? {
          var dk, pk := DirectoryKey(policy, parsed.value, requests[i].seedUrl), PatternKey(policy, parsed.value, requests[i].seedUrl);
          TallyAppend(DirectoryKeys(policy, requests[..i]), dk);
          TallyAppend(PatternKeys(policy, requests[..i]), pk);
          directoryCounts := Bump(directoryCounts, dk);
          patternCounts := Bump(patternCounts, pk);
        } else {
          assert DirectoryKeys(policy, requests[..i + 1]) == DirectoryKeys(policy, requests[..i]);
          assert PatternKeys(policy, requests[..i + 1]) == PatternKeys(policy, requests[..i]);
        }
      }
      assert requests[..|requests|] == requests;
    }
  }

  /** A reservation writes its counts once, however often it is committed. */
  class ScopeReservation {
    const scope: ScopePolicy
    const reservation: Reservation
    var committed: bool

    constructor (scope: ScopePolicy, reservation: Reservation)
      ensures this.scope == scope && this.reservation == reservation && !committed
    {
      this.scope, this.reservation, committed := scope, reservation, false;
    }

    method Commit()
      modifies this, scope
      ensures committed
      ensures old(committed) ==>
                scope.directoryCounts == old(scope.directoryCounts) && scope.patternCounts == old(scope.patternCounts)
      ensures !old(committed) ==>
                && scope.directoryCounts == old(scope.directoryCounts)[reservation.directoryKey := reservation.directoryCount]
                && scope.patternCounts == old(scope.patternCounts)[reservation.patternKey := reservation.patternCount]
    {
      if committed {
        return;
      }
      committed := true;
      scope.directoryCounts := scope.directoryCounts[reservation.directoryKey := reservation.directoryCount];
      scope.patternCounts := scope.patternCounts[reservation.patternKey := reservation.patternCount];
    }
  }

  class RequestScheduler {
    const scope: ScopePolicy
    var known: seq<Known>
    var scheduled: nat
    var sitemapFiles: nat
    var seedCounts: Counts

    constructor (scope: ScopePolicy)
      ensures this.scope == scope
      ensures CurrentBooks() == Books([], 0, 0, map[], scope.directoryCounts, scope.patternCounts)
    {
      this.scope, known, scheduled, sitemapFiles, seedCounts := scope, [], 0, 0, map[];
    }

    function CurrentBooks(): Books
      reads this, scope
    {
      Books(known, scheduled, sitemapFiles, seedCounts, scope.directoryCounts, scope.patternCounts)
    }

    method RestoreAccounting()
      modifies this, scope
      ensures CurrentBooks() == Restored(scope.policy, old(CurrentBooks()))
    {
      var requests := known;
      seedCounts := map[];
      for i := 0 to |requests|
        invariant known == old(known) == requests && seedCounts == Tally(SeedKeys(known[..i]))
        invariant scheduled == old(scheduled) && sitemapFiles == old(sitemapFiles)
      {
        assert SeedKeys(known[..i + 1]) == SeedKeys(known[..i]) + [known[i].seedUrl];
        TallyAppend(SeedKeys(known[..i]), known[i].seedUrl);
        seedCounts := Bump(seedCounts, known[i].seedUrl);
      }
      assert known[..|known|] == known;
      scope.RestoreReservations(known);
    }

    /** Everything that is asked before the frontier is. */
    method CheckLimits(input: Input) returns (verdict: Verdict)
      ensures verdict == Check(scope.policy, CurrentBooks(), input)
    {
      if input.normalizedUrl.None? {
        return Through;
      }
      var url := input.normalizedUrl.value;
      if IsKnown(known, UniqueKey(url)) {
        return Through;
      }
      if IsSitemapFile(input.source) && sitemapFiles >= scope.policy.maxSitemapFiles {
        return Refused(SitemapLimit);
      }
      if scheduled >= scope.policy.maxScheduledRequests {
        return Refused(ScheduledLimit);
      }
      if !scope.policy.inScope(url, input.depth, input.seed.normalizedUrl) {
        return Refused(OutOfScope);
      }
      if input.seed.maxScheduledRequests.Some?
         && CountOf(seedCounts, input.seed.normalizedUrl) >= input.seed.maxScheduledRequests.value {
        return Refused(SeedLimit);
      }
      return scope.PrepareReservation(url, input.seed.normalizedUrl);
    }

    method PersistAdmission(input: Input)
      requires input.normalizedUrl.Some?
      modifies this
      ensures CurrentBooks() == Accounted(Appended(old(CurrentBooks()), input), input)
    {
      known := known + [Entry(input)];
      scheduled := scheduled + 1;
      if IsSitemapFile(input.source) {
        sitemapFiles := sitemapFiles + 1;
      }
      seedCounts := seedCounts[input.seed.normalizedUrl := CountOf(seedCounts, input.seed.normalizedUrl) + 1];
    }

    /** One admission, run under the lock. */
    method AdmitUrl(input: Input, accepts: bool) returns (verdict: Verdict, admitted: bool)
      modifies this, scope
      ensures verdict == Check(scope.policy, old(CurrentBooks()), input)
      ensures admitted <==> verdict.Passes? && accepts
      ensures CurrentBooks() == Admit(scope.policy, old(CurrentBooks()), input, accepts)
    {
      verdict := CheckLimits(input);
      admitted := verdict.Passes? && accepts;
      if admitted {
        var reservation := new ScopeReservation(scope, verdict.reservation);
        PersistAdmission(input);
        reservation.Commit();
      }
    }
  }
}
