/** Following redirects (src/http/fetcher.ts). The transport, the session, the cache and the hook that
    judges redirect targets may do anything, including throw; what they do at each hop is given. */
module Fetcher {
  import opened Prelude

  /** Bodies are files or buffers that somebody has to dispose of. */
  type Body = nat

  datatype Reply = Reply(failed: bool, status: Option<int>, body: Option<Body>, hasLocation: bool)

  datatype Decision = Decision(allowed: bool, lookupFailed: bool)

  datatype Exchange = Exchange(
    prepareThrows: bool,          // the cache or the session throw before anything is sent
    fetched: Option<Reply>,       // None: the transport throws
    captureThrows: bool,          // the session throws on the response
    applied: Option<Reply>,       // what the cache makes of the response; None: it throws
    target: Option<string>,       // where Location points; None: nowhere
    decision: Option<Decision>,   // None: the hook throws
    rebuildThrows: bool)          // the request to the target cannot be built

  datatype Hop = Hop(fromUrl: string, toUrl: string, statusCode: int, hopIndex: nat, validTarget: bool)

  datatype Failure = InvalidTarget | RedirectLoop | LookupFailed | TargetRejected | TooManyRedirects

  datatype Outcome =
    | Threw
    | Answer(reply: Reply, hops: seq<Hop>)
    | Failed(why: Failure, url: string, hops: seq<Hop>)

  predicate IsRedirect(status: int) {
    status in {301, 302, 303, 307, 308}
  }

  /** A response to be handed out as it is. */
  predicate IsFinal(reply: Reply) {
    reply.failed || reply.status.None? || !IsRedirect(reply.status.value) || !reply.hasLocation
  }

  // ---------------------------------------------------------------------------------------
  // What one exchange leads to

  datatype Verdict = Breaks | Ends | Fails(why: Failure) | Follows(url: string)

  function Judge(e: Exchange, visited: set<string>, identity: string -> string): Verdict {
    if e.prepareThrows || e.fetched.None? || e.captureThrows || e.applied.None? then Breaks
    else if IsFinal(e.applied.value) then Ends
    else if e.target.None? then Fails(InvalidTarget)
    else if identity(e.target.value) in visited then Fails(RedirectLoop)
    else if e.decision.None? then Breaks
    else if e.decision.value.lookupFailed then Fails(LookupFailed)
    else if !e.decision.value.allowed then Fails(TargetRejected)
    else if e.rebuildThrows then Breaks
    else Follows(e.target.value)
  }

  function Bodies(body: Option<Body>): multiset<Body> {
    if body.Some? then multiset{body.value} else multiset{}
  }

  /** The transport or the cache handed over this body in the exchange. */
  ghost predicate Brought(e: Exchange, body: Body) {
    && !e.prepareThrows && e.fetched.Some?
    && (e.fetched.value.body == Some(body)
        || (!e.captureThrows && e.applied.Some? && e.applied.value.body == Some(body)))
  }

  /** The caller gets this body to keep. */
  ghost predicate HandsOut(leave: Option<Outcome>, body: Body) {
    leave.Some? && leave.value.Answer? && leave.value.reply.body == Some(body)
  }

  /** Both bodies are disposed of once, but not the result when it is transferred. */
  ghost predicate DisposedOf(fetched: Option<Body>, result: Option<Body>, transferResult: bool, disposed: multiset<Body>) {
    forall body :: disposed[body] ==
      if (fetched == Some(body) && result != Some(body)) || (result == Some(body) && !transferResult) then 1 else 0
  }

  /** One exchange disposes once of every body it brought, but for the one it hands out. */
  ghost predicate Settled(e: Exchange, disposed: multiset<Body>, leave: Option<Outcome>) {
    forall body :: disposed[body] + (if HandsOut(leave, body) then 1 else 0) == if Brought(e, body) then 1 else 0
  }

  ghost function HowOften(script: nat -> Exchange, n: nat, body: Body): nat {
    if n == 0 then 0 else HowOften(script, n - 1, body) + if Brought(script(n - 1), body) then 1 else 0
  }

  /** So do the first n exchanges: once for each exchange that brought it. */
  ghost predicate AllSettled(script: nat -> Exchange, n: nat, disposed: multiset<Body>, leave: Option<Outcome>) {
    forall body :: disposed[body] + (if HandsOut(leave, body) then 1 else 0) == HowOften(script, n, body)
  }

  /** The chain of URLs: each was where the redirect before it led. */
  ghost predicate IsChain(urls: seq<string>, script: nat -> Exchange, identity: string -> string) {
    forall k :: 0 < k < |urls| ==> IsLink(urls, k, script, identity)
  }

  ghost predicate IsLink(urls: seq<string>, k: nat, script: nat -> Exchange, identity: string -> string)
    requires 0 < k < |urls|
  {
    Judge(script(k - 1), KeysOf(urls[..k], identity), identity) == Follows(urls[k])
  }

  /** The recorded hops lead from URL to URL along the chain, without a gap. */
  ghost predicate Contiguous(hops: seq<Hop>, urls: seq<string>, script: nat -> Exchange) {
    && |hops| <= |urls|
    && (forall k {:trigger hops[k]} :: 0 <= k < |hops| ==> IsHop(hops[k], urls[k], k, script(k)))
    && (forall k {:trigger hops[k]} :: 0 <= k < |hops| && k + 1 < |urls| ==> hops[k].toUrl == urls[k + 1] && hops[k].validTarget)
  }

  /** The outcome that the verdict on the last exchange calls for. */
  ghost predicate Matches(outcome: Outcome, verdict: Verdict, e: Exchange, asked: string) {
    match verdict
    case Breaks => outcome.Threw?
    case Ends => outcome.Answer? && e.applied == Some(outcome.reply)
    case Fails(why) =>
      outcome.Failed? && outcome.why == why && if why.InvalidTarget? then outcome.url == asked else Some(outcome.url) == e.target
    case Follows(target) => outcome.Failed? && outcome.why == TooManyRedirects && outcome.url == target
  }

  /** The loop between two exchanges: the last URL of the chain is the one to be asked for next. */
  ghost predicate Underway(
      chain: seq<string>, hops: seq<Hop>, url: string, visited: set<string>, script: nat -> Exchange, identity: string -> string)
  {
    && |chain| == |hops| + 1 && chain[0] == url
    && IsChain(chain, script, identity)
    && DistinctBy(chain, identity) && visited == KeysOf(chain, identity)
    && Contiguous(hops, chain, script)
  }

  predicate IsHop(hop: Hop, from: string, hopIndex: nat, e: Exchange) {
    && hop.fromUrl == from && hop.hopIndex == hopIndex
    && e.applied.Some? && e.applied.value.status == Some(hop.statusCode) && Some(hop.toUrl) == e.target
  }

  /** The URLs asked for form a chain from the first one, no identity twice and at most
      maxRedirects + 1 of them; it ends where the last exchange says it does; and the hops that are
      reported lead along it. Nothing is asked for when the first URL is none. */
  ghost predicate IsFetch(
      outcome: Outcome, urls: seq<string>, url: string, isUrl: bool, maxRedirects: int, script: nat -> Exchange,
      identity: string -> string)
  {
    && |urls| <= (if maxRedirects < 0 then 0 else maxRedirects + 1)
    && (urls != [] ==> urls[0] == url)
    && IsChain(urls, script, identity) && DistinctBy(urls, identity)
    && (!isUrl ==> urls == [] && outcome == Threw)
    && (isUrl && urls == [] ==> maxRedirects < 0 && outcome == Failed(TooManyRedirects, url, []))
    && (urls != [] ==>
          var n := |urls| - 1;
          var verdict := Judge(script(n), KeysOf(urls, identity), identity);
          Matches(outcome, verdict, script(n), urls[n]) && (verdict.Follows? ==> n == maxRedirects))
    && (!outcome.Threw? ==> Contiguous(outcome.hops, urls, script))
    && (outcome.Answer? ==> |outcome.hops| == |urls| - 1)
    && (outcome.Failed? && !outcome.why.InvalidTarget? ==> |outcome.hops| == |urls|)
  }

  /** How one exchange is dealt with: the loop goes on to next or is left, with at most one more hop. */
  ghost predicate IsHandled(
      e: Exchange, currentUrl: string, hopIndex: nat, visited: set<string>, hops: seq<Hop>, identity: string -> string,
      leave: Option<Outcome>, next: string, hop: seq<Hop>)
  {
    && (match Judge(e, visited, identity)
        case Follows(url) => leave.None? && next == url
        case Breaks => leave == Some(Threw)
        case Ends => leave == Some(Answer(e.applied.value, hops))
        case Fails(why) =>
          if why.InvalidTarget? then leave == Some(Failed(InvalidTarget, currentUrl, []))
          else leave == Some(Failed(why, e.target.value, hops + hop)))
    && (leave.None? || (leave.value.Failed? && !leave.value.why.InvalidTarget?) ==>
          |hop| == 1 && IsHop(hop[0], currentUrl, hopIndex, e) && (hop[0].validTarget <==> identity(hop[0].toUrl) !in visited))
  }

  class HttpFetcher {

    /** isUrl says whether new URL takes the first URL. urls lists what was asked for, one exchange
        each; disposed counts every disposal. */
    method Fetch(url: string, isUrl: bool, maxRedirects: int, script: nat -> Exchange, identity: string -> string)
      returns (outcome: Outcome, urls: seq<string>, disposed: multiset<Body>)
      ensures IsFetch(outcome, urls, url, isUrl, maxRedirects, script, identity)
      ensures AllSettled(script, |urls|, disposed, Some(outcome))
    {
      urls, disposed := [], multiset{};
      if !isUrl {
        return Threw, urls, disposed;
      }
      var hops: seq<Hop> := [];
      var visited := {identity(url)};
      var currentUrl := url;
      var hopIndex: nat := 0;
      StartsUnderway(url, script, identity);
      assert urls + [currentUrl] == [url];
      while hopIndex <= maxRedirects
        invariant |urls| == hopIndex && (hopIndex == 0 || hopIndex <= maxRedirects + 1)
        invariant Underway(urls + [currentUrl], hops, url, visited, script, identity)
        invariant AllSettled(script, hopIndex, disposed, None)
        decreases maxRedirects + 1 - hopIndex
      {
        var e := script(hopIndex);
        urls := urls + [currentUrl];
        var leave, next, hop, discarded := Handle(e, currentUrl, hopIndex, visited, hops, identity);
        GoesOnOrEnds(urls, hops, url, maxRedirects, visited, script, identity, leave, next, hop);
        NothingLeaks(script, hopIndex, disposed, discarded, leave);
        disposed := disposed + discarded;
        if leave.Some? {
          return leave.value, urls, disposed;
        }
        hops := hops + hop;
        visited := visited + {identity(next)};
        currentUrl := next;
        hopIndex := hopIndex + 1;
      }
      LeavesLoop(urls, currentUrl, hops, url, maxRedirects, visited, script, identity);
      return Failed(TooManyRedirects, currentUrl, hops), urls, disposed;
    }

    /** One exchange, with the finally clause that ends it: leave is how the loop is left, if it is. */
    method Handle(e: Exchange, currentUrl: string, hopIndex: nat, visited: set<string>, hops: seq<Hop>, identity: string -> string)
      returns (leave: Option<Outcome>, next: string, hop: seq<Hop>, disposed: multiset<Body>)
      ensures IsHandled(e, currentUrl, hopIndex, visited, hops, identity, leave, next, hop)
      ensures Settled(e, disposed, leave)
    {
      hop, next, disposed := [], currentUrl, multiset{};
      if e.prepareThrows || e.fetched.None? {
        leave := Some(Threw);
        return;
      }
      var fetched := e.fetched.value;
      var result := fetched;
      var transfer := false;
      if e.captureThrows || e.applied.None? {
        leave := Some(Threw);
      } else {
        result := e.applied.value;
        if IsFinal(result) {
          transfer := true;
          leave := Some(Answer(result, hops));
        } else if e.target.None? {
          leave := Some(Failed(InvalidTarget, currentUrl, []));
        } else {
          var target := e.target.value;
          var isLoop := identity(target) in visited;
          if !isLoop && e.decision.None? {
            leave := Some(Threw);
          } else {
            hop := [Hop(currentUrl, target, result.status.value, hopIndex, !isLoop)];
            if isLoop {
              leave := Some(Failed(RedirectLoop, target, hops + hop));
            } else if e.decision.value.lookupFailed {
              leave := Some(Failed(LookupFailed, target, hops + hop));
            } else if !e.decision.value.allowed {
              leave := Some(Failed(TargetRejected, target, hops + hop));
            } else if e.rebuildThrows {
              leave := Some(Threw);
            } else {
              leave, next := None, target;
            }
          }
        }
      }
      disposed := DisposeUntransferredBodies(fetched.body, result.body, transfer);
      SettledBy(e, result.body, transfer, disposed, leave);
    }

    method DisposeUntransferredBodies(fetched: Option<Body>, result: Option<Body>, transferResult: bool)
      returns (disposed: multiset<Body>)
      ensures DisposedOf(fetched, result, transferResult, disposed)
    {
      disposed := multiset{};
      if fetched != result {
        disposed := disposed + Bodies(fetched);
      }
      if !transferResult {
        disposed := disposed + Bodies(result);
      }
    }
  }

  lemma SettledBy(e: Exchange, result: Option<Body>, transfer: bool, disposed: multiset<Body>, leave: Option<Outcome>)
    requires !e.prepareThrows && e.fetched.Some?
    requires result == if e.captureThrows || e.applied.None? then e.fetched.value.body else e.applied.value.body
    requires DisposedOf(e.fetched.value.body, result, transfer, disposed)
    requires forall body: Body :: HandsOut(leave, body) <==> transfer && result == Some(body)
    ensures Settled(e, disposed, leave)
  {
    forall body
      ensures disposed[body] + (if HandsOut(leave, body) then 1 else 0) == if Brought(e, body) then 1 else 0
    {
    }
  }

  lemma StartsUnderway(url: string, script: nat -> Exchange, identity: string -> string)
    ensures Underway([url], [], url, {identity(url)}, script, identity)
  {
    assert KeysOf([url], identity) == {identity(url)};
  }

  lemma StaysUnderway(
      chain: seq<string>, hops: seq<Hop>, url: string, visited: set<string>, script: nat -> Exchange, identity: string -> string,
      next: string, hop: seq<Hop>)
    requires Underway(chain, hops, url, visited, script, identity)
    requires Judge(script(|hops|), visited, identity) == Follows(next)
    requires |hop| == 1 && IsHop(hop[0], chain[|hops|], |hops|, script(|hops|)) && hop[0].toUrl == next && hop[0].validTarget
    ensures Underway(chain + [next], hops + hop, url, visited + {identity(next)}, script, identity)
  {
    DistinctAppend(chain, next, identity);
    ChainGrows(chain, next, script, identity);
    HopsGrow(chain, next, hops, hop, script);
  }

  lemma ChainGrows(chain: seq<string>, next: string, script: nat -> Exchange, identity: string -> string)
    requires |chain| > 0 && IsChain(chain, script, identity)
    requires Judge(script(|chain| - 1), KeysOf(chain, identity), identity) == Follows(next)
    ensures IsChain(chain + [next], script, identity)
  {
    var longer := chain + [next];
    forall k | 0 < k < |longer|
      ensures IsLink(longer, k, script, identity)
    {
      assert k < |chain| ==> IsLink(chain, k, script, identity);
      assert longer[..k] == chain[..k];
      assert chain[..|chain|] == chain;
    }
  }

  lemma HopsGrow(chain: seq<string>, next: string, hops: seq<Hop>, hop: seq<Hop>, script: nat -> Exchange)
    requires |chain| == |hops| + 1 && Contiguous(hops, chain, script)
    requires |hop| == 1 && IsHop(hop[0], chain[|hops|], |hops|, script(|hops|)) && hop[0].toUrl == next && hop[0].validTarget
    ensures Contiguous(hops + hop, chain + [next], script)
  {
  }

  lemma GoesOnOrEnds(
      chain: seq<string>, hops: seq<Hop>, url: string, maxRedirects: int, visited: set<string>, script: nat -> Exchange,
      identity: string -> string, leave: Option<Outcome>, next: string, hop: seq<Hop>)
    requires Underway(chain, hops, url, visited, script, identity) && |chain| <= maxRedirects + 1
    requires IsHandled(script(|hops|), chain[|hops|], |hops|, visited, hops, identity, leave, next, hop)
    ensures leave.None? ==> Underway(chain + [next], hops + hop, url, visited + {identity(next)}, script, identity)
    ensures leave.Some? ==> IsFetch(leave.value, chain, url, true, maxRedirects, script, identity)
  {
    if leave.None? {
      StaysUnderway(chain, hops, url, visited, script, identity, next, hop);
    } else {
      LeavesByVerdict(leave.value, chain, hops, hop, url, maxRedirects, visited, script, identity);
    }
  }

  lemma NothingLeaks(script: nat -> Exchange, n: nat, before: multiset<Body>, discarded: multiset<Body>, leave: Option<Outcome>)
    requires AllSettled(script, n, before, None) && Settled(script(n), discarded, leave)
    ensures AllSettled(script, n + 1, before + discarded, leave)
  {
    forall body
      ensures (before + discarded)[body] + (if HandsOut(leave, body) then 1 else 0) == HowOften(script, n + 1, body)
    {
      assert before[body] + (if HandsOut(None, body) then 1 else 0) == HowOften(script, n, body);
      assert discarded[body] + (if HandsOut(leave, body) then 1 else 0) == if Brought(script(n), body) then 1 else 0;
    }
  }

  lemma LastHop(chain: seq<string>, hops: seq<Hop>, hop: seq<Hop>, script: nat -> Exchange)
    requires |chain| == |hops| + 1 && Contiguous(hops, chain, script)
    requires |hop| == 1 && IsHop(hop[0], chain[|hops|], |hops|, script(|hops|))
    ensures Contiguous(hops + hop, chain, script)
  {
  }

  lemma LeavesByVerdict(
      outcome: Outcome, chain: seq<string>, hops: seq<Hop>, hop: seq<Hop>, url: string, maxRedirects: int, visited: set<string>,
      script: nat -> Exchange, identity: string -> string)
    requires Underway(chain, hops, url, visited, script, identity) && |chain| <= maxRedirects + 1
    requires match Judge(script(|hops|), visited, identity)
             case Follows(_) => false
             case Breaks => outcome == Threw
             case Ends => outcome == Answer(script(|hops|).applied.value, hops)
             case Fails(why) =>
               outcome.Failed? && outcome.why == why &&
               if why.InvalidTarget? then outcome.hops == [] && outcome.url == chain[|hops|]
               else Some(outcome.url) == script(|hops|).target && |hop| == 1 && IsHop(hop[0], chain[|hops|], |hops|, script(|hops|)) && outcome.hops == hops + hop
    ensures IsFetch(outcome, chain, url, true, maxRedirects, script, identity)
  {
    if outcome.Failed? && !outcome.why.InvalidTarget? {
      LastHop(chain, hops, hop, script);
    }
  }

  lemma LeavesLoop(
      urls: seq<string>, next: string, hops: seq<Hop>, url: string, maxRedirects: int, visited: set<string>,
      script: nat -> Exchange, identity: string -> string)
    requires Underway(urls + [next], hops, url, visited, script, identity)
    requires |urls| == if maxRedirects < 0 then 0 else maxRedirects + 1
    ensures IsFetch(Failed(TooManyRedirects, next, hops), urls, url, true, maxRedirects, script, identity)
  {
    var chain := urls + [next];
    assert urls != [] ==> IsLink(chain, |urls|, script, identity);
    assert chain[..|urls|] == urls;
    assert forall i :: 0 <= i < |urls| ==> chain[i] == urls[i];
    forall k | 0 < k < |urls|
      ensures IsLink(urls, k, script, identity)
    {
      assert IsLink(chain, k, script, identity);
      assert chain[..k] == urls[..k];
    }
  }

  // ---------------------------------------------------------------------------------------
  // In plain terms

  /** A response that redirects: 301, 302, 303, 307 or 308, with a Location. */
  ghost predicate Redirects(reply: Reply) {
    && !reply.failed && reply.hasLocation && reply.status.Some?
    && (301 <= reply.status.value <= 303 || 307 <= reply.status.value <= 308)
  }

  /** Nothing but the first URL is asked for unless a redirect led there and the hook allowed it. */
  lemma OnlyAllowedTargets(
      outcome: Outcome, urls: seq<string>, url: string, isUrl: bool, maxRedirects: int, script: nat -> Exchange,
      identity: string -> string, k: nat)
    requires IsFetch(outcome, urls, url, isUrl, maxRedirects, script, identity) && 0 < k < |urls|
    ensures script(k - 1).applied.Some? && Redirects(script(k - 1).applied.value)
    ensures script(k - 1).target == Some(urls[k]) && script(k - 1).decision == Some(Decision(true, false))
    ensures forall j :: 0 <= j < k ==> identity(urls[j]) != identity(urls[k])
  {
    assert IsLink(urls, k, script, identity);
    assert forall j :: 0 <= j < k ==> urls[..k][j] == urls[j];
  }

  /** An answer is what the last exchange brought, unbroken and no redirect; and such a reply is always
      the answer. */
  lemma AnsweredIff(
      outcome: Outcome, urls: seq<string>, url: string, isUrl: bool, maxRedirects: int, script: nat -> Exchange,
      identity: string -> string)
    requires IsFetch(outcome, urls, url, isUrl, maxRedirects, script, identity) && urls != []
    ensures var e := script(|urls| - 1);
            outcome.Answer? <==>
              !e.prepareThrows && e.fetched.Some? && !e.captureThrows && e.applied.Some? && !Redirects(e.applied.value)
  {
  }

  /** A fetch is given up for too many redirects only after maxRedirects of them and one more, and for a
      loop only when the redirect leads to what was asked for before. */
  lemma GivenUpFor(
      outcome: Outcome, urls: seq<string>, url: string, isUrl: bool, maxRedirects: int, script: nat -> Exchange,
      identity: string -> string)
    requires IsFetch(outcome, urls, url, isUrl, maxRedirects, script, identity) && outcome.Failed?
    ensures outcome.why == TooManyRedirects ==> |urls| == if maxRedirects < 0 then 0 else maxRedirects + 1
    ensures outcome.why == RedirectLoop ==>
              exists j :: 0 <= j < |urls| && identity(urls[j]) == identity(outcome.url)
  {
    if outcome.why == RedirectLoop {
      assert Judge(script(|urls| - 1), KeysOf(urls, identity), identity).Fails?;
      assert identity(outcome.url) in KeysOf(urls, identity);
    }
  }

  ghost predicate AskedBefore(urls: seq<string>, target: string, identity: string -> string) {
    exists j :: 0 <= j < |urls| && identity(urls[j]) == identity(target)
  }

  lemma AskedBeforeIff(urls: seq<string>, target: string, identity: string -> string)
    ensures identity(target) in KeysOf(urls, identity) <==> AskedBefore(urls, target, identity)
  {
  }

  /** What a fetch makes of a redirect that it does not follow any further. */
  lemma RedirectEndsFor(
      outcome: Outcome, urls: seq<string>, url: string, isUrl: bool, maxRedirects: int, script: nat -> Exchange,
      identity: string -> string)
    requires IsFetch(outcome, urls, url, isUrl, maxRedirects, script, identity) && urls != []
    requires var e := script(|urls| - 1);
             && !e.prepareThrows && e.fetched.Some? && !e.captureThrows
             && e.applied.Some? && Redirects(e.applied.value)
    ensures var e := script(|urls| - 1);
            match e.target
            case None => outcome == Failed(InvalidTarget, urls[|urls| - 1], outcome.hops)
            case Some(target) =>
              if AskedBefore(urls, target, identity) then outcome == Failed(RedirectLoop, target, outcome.hops)
              else match e.decision
                case None => outcome.Threw?
                case Some(Decision(_, true)) => outcome == Failed(LookupFailed, target, outcome.hops)
                case Some(Decision(false, false)) => outcome == Failed(TargetRejected, target, outcome.hops)
                case Some(Decision(true, false)) =>
                  if e.rebuildThrows then outcome.Threw?
                  else outcome == Failed(TooManyRedirects, target, outcome.hops) && |urls| == maxRedirects + 1
  {
    var e := script(|urls| - 1);
    if e.target.Some? {
      AskedBeforeIff(urls, e.target.value, identity);
    }
  }

  /** The hops reported lead along the URLs asked for, each with the status that sent it on. */
  lemma HopsLead(
      outcome: Outcome, urls: seq<string>, url: string, isUrl: bool, maxRedirects: int, script: nat -> Exchange,
      identity: string -> string, k: nat)
    requires IsFetch(outcome, urls, url, isUrl, maxRedirects, script, identity)
    requires !outcome.Threw? && k < |outcome.hops|
    ensures k < |urls| && outcome.hops[k].fromUrl == urls[k] && outcome.hops[k].hopIndex == k
    ensures script(k).target == Some(outcome.hops[k].toUrl) && (k + 1 < |urls| ==> outcome.hops[k].toUrl == urls[k + 1])
    ensures script(k).applied.Some? && script(k).applied.value.status == Some(outcome.hops[k].statusCode)
  {
    var hop := outcome.hops[k];
  }
}
