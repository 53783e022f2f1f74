/** Requests, leases and the order in which a frontier hands requests out
    (src/frontier/types.ts, src/frontier/queue-order.ts). */
module Requests {
  import opened Prelude

  /** Milliseconds since the epoch. ISO timestamps compare like the numbers they print. */
  type Instant = int

  /** Identifiers are truncated hashes of their inputs; the free constructors below take the hash
      to be injective and say nothing else about it. */
  datatype RequestId = RequestId(runId: string, uniqueKey: string)
  datatype LeaseId = LeaseId(requestId: RequestId, leasedAt: Instant)

  datatype Source =
    | Seed | RobotsSitemap | SitemapIndex | Sitemap | HtmlLink | JavascriptStatic
    | CssStatic | Feed | Redirect | Manual | Hook

  datatype Request = Request(
    id: RequestId,
    uniqueKey: string,
    origin: string,
    source: Source,
    seedUrl: string,
    depth: int,
    priority: int,
    createdAt: Instant)

  datatype Lease = Lease(leaseId: LeaseId, request: Request, leasedAt: Instant, expiresAt: Instant)

  /** A request whose lease another process may still hold. */
  datatype Deferred = Deferred(request: Request, expiresAt: Instant)

  datatype Order = Bfs | Dfs | Priority

  datatype Terminal = Handled | Failed | Skipped | Cancelled

  function PriorityForSource(source: Source): int {
    match source
    case Seed => 100
    case RobotsSitemap => 90
    case SitemapIndex => 80
    case Sitemap => 70
    case HtmlLink => 60
    case JavascriptStatic => 50
    case CssStatic => 45
    case Feed => 40
    case Redirect => 30
    case Manual => 20
    case Hook => 10
  }

  /** Seeds come first, then what sitemaps name, then links, then what was found in scripts, in
      stylesheets and in feeds, then redirects, and last what was added by hand or by a hook. */
  lemma SourcesAreRanked(i: nat, j: nat)
    requires i < j < 11
    ensures var ranked := [Seed, RobotsSitemap, SitemapIndex, Sitemap, HtmlLink, JavascriptStatic, CssStatic, Feed, Redirect, Manual, Hook];
            && PriorityForSource(ranked[i]) > PriorityForSource(ranked[j])
            && PriorityForSource(ranked[i]) == [100, 90, 80, 70, 60, 50, 45, 40, 30, 20, 10][i]
            && PriorityForSource(ranked[j]) == [100, 90, 80, 70, 60, 50, 45, 40, 30, 20, 10][j]
  {
  }

  function IdOf(r: Request): RequestId { r.id }

  function DeferredId(d: Deferred): RequestId { d.request.id }

  /** The sign of the comparator that sortRequests passes to Array.prototype.sort. */
  predicate Precedes(a: Request, b: Request) {
    || a.priority > b.priority
    || (a.priority == b.priority && a.depth < b.depth)
    || (a.priority == b.priority && a.depth == b.depth && a.createdAt < b.createdAt)
  }

  predicate ExpiresBefore(a: Deferred, b: Deferred) { a.expiresAt < b.expiresAt }

  /** sortRequests: only the priority order sorts, the other two rely on positions. */
  function SortRequests(queue: seq<Request>, order: Order): (sorted: seq<Request>)
    ensures |sorted| == |queue|
    ensures forall r :: r in sorted <==> r in queue
  {
    if order == Priority then StableSort(queue, Precedes) else queue
  }

  lemma SortRequestsDistinct(queue: seq<Request>, order: Order)
    requires DistinctBy(queue, IdOf)
    ensures DistinctBy(SortRequests(queue, order), IdOf)
    ensures KeysOf(SortRequests(queue, order), IdOf) == KeysOf(queue, IdOf)
  {
    SortDistinct(queue, Precedes, IdOf);
  }
}
