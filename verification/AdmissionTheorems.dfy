/** Admissions that overlap: hooks and workers may call enqueue while another admission is between
    two of its awaits. The lock makes every run equal to admitting one URL after the other. */
module AdmissionTheorems {
  import opened Prelude
  import opened Runs
  import opened Requests
  import opened Admission
  import Mutex
  import opened PathPatterns

  /** How far an admission has come. It can be left waiting between any two stages. */
  datatype Stage =
    | Queued
    | Reserved(reservation: Reservation)
    | Enqueued(reservation: Reservation)
    | Counted(reservation: Reservation)
    | Finished(admitted: bool)

  datatype Call = Call(input: Input, stage: Stage)

  datatype World = World(books: Books, calls: seq<Call>)

  datatype Act = Arrive(input: Input) | Begin(i: nat) | Append(i: nat, accepts: bool) | Account(i: nat) | Commit(i: nat)

  function PhaseOf(s: Stage): Mutex.Phase {
    if s.Queued? then Mutex.Waiting else if s.Finished? then Mutex.Done else Mutex.Running
  }

  function Phases(calls: seq<Call>): (ps: seq<Mutex.Phase>)
    ensures |ps| == |calls|
  {
    seq(|calls|, i requires 0 <= i < |calls| => PhaseOf(calls[i].stage))
  }

  function To(calls: seq<Call>, i: nat, s: Stage): (after: seq<Call>)
    requires i < |calls|
    ensures |after| == |calls|
  {
    calls[i := calls[i].(stage := s)]
  }

  function Do(p: Policy, w: World, a: Act): Option<World> {
    match a
    case Arrive(input) => Some(w.(calls := w.calls + [Call(input, Queued)]))
    case Begin(i) =>
      if i < |w.calls| && w.calls[i].stage.Queued? && Mutex.Settled(Phases(w.calls), i) then
        match Check(p, w.books, w.calls[i].input)
        case Passes(r) => Some(w.(calls := To(w.calls, i, Reserved(r))))
        case _ => Some(w.(calls := To(w.calls, i, Finished(false))))
      else None
    case Append(i, accepts) =>
      if i < |w.calls| && w.calls[i].stage.Reserved? then
        var input := w.calls[i].input;
        if accepts && input.normalizedUrl.Some? && !IsKnown(w.books.known, UniqueKey(input.normalizedUrl.value)) then
          Some(World(Appended(w.books, input), To(w.calls, i, Enqueued(w.calls[i].stage.reservation))))
        else
          Some(w.(calls := To(w.calls, i, Finished(false))))
      else None
    case Account(i) =>
      if i < |w.calls| && w.calls[i].stage.Enqueued? then
        Some(World(Accounted(w.books, w.calls[i].input), To(w.calls, i, Counted(w.calls[i].stage.reservation))))
      else None
    case Commit(i) =>
      if i < |w.calls| && w.calls[i].stage.Counted? then
        Some(World(Committed(w.books, w.calls[i].stage.reservation), To(w.calls, i, Finished(true))))
      else None
  }

  ghost function Machine(p: Policy): (World, Act) -> Option<World> {
    (w: World, a: Act) => Do(p, w, a)
  }

  /** What one call has made of the books so far. */
  function Share(p: Policy, before: Books, c: Call): Books {
    if c.input.normalizedUrl.None? then before
    else if c.stage.Enqueued? then Appended(before, c.input)
    else if c.stage.Counted? then Accounted(Appended(before, c.input), c.input)
    else if c.stage.Finished? then Admit(p, before, c.input, c.stage.admitted)
    else before
  }

  /** The books after admitting the calls one by one, each as far as it has come. */
  function Serial(p: Policy, start: Books, calls: seq<Call>): Books {
    if |calls| == 0 then start
    else Share(p, Serial(p, start, calls[..|calls| - 1]), calls[|calls| - 1])
  }

  ghost predicate HoldsReservation(p: Policy, start: Books, calls: seq<Call>, i: nat)
    requires i < |calls|
  {
    match calls[i].stage
    case Reserved(r) => Check(p, Serial(p, start, calls[..i]), calls[i].input) == Passes(r)
    case Enqueued(r) => Check(p, Serial(p, start, calls[..i]), calls[i].input) == Passes(r)
    case Counted(r) => Check(p, Serial(p, start, calls[..i]), calls[i].input) == Passes(r)
    case _ => true
  }

  ghost predicate Inv(p: Policy, start: Books, w: World) {
    && Mutex.Orderly(Phases(w.calls))
    && w.books == Serial(p, start, w.calls)
    && forall i :: 0 <= i < |w.calls| ==> HoldsReservation(p, start, w.calls, i)
  }

  lemma {:induction false} WaitingChangesNothing(p: Policy, start: Books, calls: seq<Call>, k: nat)
    requires k <= |calls| && forall j :: k <= j < |calls| ==> calls[j].stage.Queued?
    ensures Serial(p, start, calls) == Serial(p, start, calls[..k])
  {
    if k < |calls| {
      WaitingChangesNothing(p, start, calls[..|calls| - 1], k);
      assert calls[..|calls| - 1][..k] == calls[..k];
    } else {
      assert calls[..k] == calls;
    }
  }

  /** Only one admission at a time is neither waiting nor done. */
  lemma OthersRest(calls: seq<Call>, i: nat)
    requires Mutex.Orderly(Phases(calls)) && i < |calls|
    requires PhaseOf(calls[i].stage).Running? || (calls[i].stage.Queued? && Mutex.Settled(Phases(calls), i))
    ensures forall j :: 0 <= j < i ==> calls[j].stage.Finished?
    ensures forall j :: i < j < |calls| ==> calls[j].stage.Queued?
  {
    var ps := Phases(calls);
    Mutex.SettledMeansDone(ps, i);
    forall j | 0 <= j < i ensures calls[j].stage.Finished? {
      assert !ps[i].Waiting? || Mutex.Settled(ps, i);
      assert PhaseOf(calls[j].stage) == ps[j] == Mutex.Done;
    }
    forall j | i < j < |calls| ensures calls[j].stage.Queued? {
      assert !ps[i].Done?;
      assert ps[j].Waiting?;
    }
  }

  lemma SerialUpTo(p: Policy, start: Books, calls: seq<Call>, i: nat)
    requires i < |calls| && forall j :: i < j < |calls| ==> calls[j].stage.Queued?
    ensures calls[..i + 1] == calls[..i] + [calls[i]]
    ensures Serial(p, start, calls) == Serial(p, start, calls[..i] + [calls[i]])
  {
    WaitingChangesNothing(p, start, calls, i + 1);
    assert calls[..i + 1] == calls[..i] + [calls[i]];
  }

  lemma StaysOrderly(calls: seq<Call>, i: nat, s: Stage)
    requires i < |calls| && !s.Queued?
    requires forall j :: 0 <= j < i ==> calls[j].stage.Finished?
    requires forall j :: i < j < |calls| ==> calls[j].stage.Queued?
    ensures Mutex.Orderly(Phases(To(calls, i, s)))
  {
    var ps := Phases(To(calls, i, s));
    forall j, k | 0 <= j < k < |ps| && !ps[k].Waiting? ensures ps[j].Done? {
      assert k <= i;
    }
  }

  /** Moving the one admission under way changes the books by its own share alone. */
  lemma MoveOne(p: Policy, start: Books, calls: seq<Call>, i: nat, s: Stage)
    requires Mutex.Orderly(Phases(calls)) && i < |calls| && !s.Queued?
    requires PhaseOf(calls[i].stage).Running? || (calls[i].stage.Queued? && Mutex.Settled(Phases(calls), i))
    ensures var after := To(calls, i, s);
            && Mutex.Orderly(Phases(after))
            && after[..i] == calls[..i]
            && after[..i + 1] == calls[..i] + [calls[i].(stage := s)]
            && Serial(p, start, after) == Serial(p, start, calls[..i] + [calls[i].(stage := s)])
            && Serial(p, start, calls) == Serial(p, start, calls[..i] + [calls[i]])
    ensures forall j :: 0 <= j < i ==> calls[j].stage.Finished?
    ensures forall j :: i < j < |calls| ==> calls[j].stage.Queued?
  {
    OthersRest(calls, i);
    StaysOrderly(calls, i, s);
    var after := To(calls, i, s);
    assert after[..i] == calls[..i];
    SerialUpTo(p, start, after, i);
    SerialUpTo(p, start, calls, i);
  }

  lemma SerialLast(p: Policy, start: Books, calls: seq<Call>, c: Call)
    ensures Serial(p, start, calls + [c]) == Share(p, Serial(p, start, calls), c)
  {
    assert (calls + [c])[..|calls|] == calls;
  }

  lemma MovedInv(p: Policy, start: Books, w: World, i: nat, s: Stage, books: Books)
    requires Inv(p, start, w) && i < |w.calls| && !s.Queued?
    requires PhaseOf(w.calls[i].stage).Running? || (w.calls[i].stage.Queued? && Mutex.Settled(Phases(w.calls), i))
    requires HoldsReservation(p, start, w.calls[..i] + [w.calls[i].(stage := s)], i)
    requires books == Serial(p, start, w.calls[..i] + [w.calls[i].(stage := s)])
    ensures Inv(p, start, World(books, To(w.calls, i, s)))
  {
    MoveOne(p, start, w.calls, i, s);
    var after := To(w.calls, i, s);
    assert (w.calls[..i] + [w.calls[i].(stage := s)])[..i] == w.calls[..i];
    forall j | 0 <= j < |after| ensures HoldsReservation(p, start, after, j) {
      if j == i {
        assert after[..i] == w.calls[..i];
      }
    }
  }

  lemma StepKeepsInv(p: Policy, start: Books, w: World, a: Act)
    requires Inv(p, start, w) && Do(p, w, a).Some?
    ensures Inv(p, start, Do(p, w, a).value)
  {
    var w' := Do(p, w, a).value;
    if a.Arrive? {
      ArriveKeepsInv(p, start, w, a.input);
    } else {
      var i, front, c := a.i, w.calls[..a.i], w.calls[a.i];
      var s := w'.calls[i].stage;
      MoveOne(p, start, w.calls, i, s);
      assert (front + [c.(stage := s)])[..i] == front;
      assert HoldsReservation(p, start, w.calls, i);
      SerialLast(p, start, front, c);
      SerialLast(p, start, front, c.(stage := s));
      ShareMoves(p, w, a, Serial(p, start, front));
      MovedInv(p, start, w, i, s, w'.books);
    }
  }

  /** The books are as the one admission leaves them, and it stands by the reservation it holds. */
  predicate InStep(p: Policy, w: World, i: nat, before: Books)
    requires i < |w.calls|
  {
    && w.books == Share(p, before, w.calls[i])
    && (PhaseOf(w.calls[i].stage).Running? ==>
          Check(p, before, w.calls[i].input) == Passes(w.calls[i].stage.reservation))
  }

  lemma BeginInStep(p: Policy, w: World, i: nat, before: Books)
    requires Do(p, w, Begin(i)).Some? && InStep(p, w, i, before)
    ensures InStep(p, Do(p, w, Begin(i)).value, i, before)
  {
    assert w.books == before;
    NotAdmitted(p, before, w.calls[i].input);
  }

  lemma AppendInStep(p: Policy, w: World, i: nat, accepts: bool, before: Books)
    requires Do(p, w, Append(i, accepts)).Some? && InStep(p, w, i, before)
    ensures InStep(p, Do(p, w, Append(i, accepts)).value, i, before)
  {
    assert w.books == before;
    PassesMeans(p, before, w.calls[i].input);
    NotAdmitted(p, before, w.calls[i].input);
  }

  lemma AccountInStep(p: Policy, w: World, i: nat, before: Books)
    requires Do(p, w, Account(i)).Some? && InStep(p, w, i, before)
    ensures InStep(p, Do(p, w, Account(i)).value, i, before)
  {
    PassesMeans(p, before, w.calls[i].input);
  }

  lemma CommitInStep(p: Policy, w: World, i: nat, before: Books)
    requires Do(p, w, Commit(i)).Some? && InStep(p, w, i, before)
    ensures InStep(p, Do(p, w, Commit(i)).value, i, before)
  {
    PassesMeans(p, before, w.calls[i].input);
    AdmitInFull(p, before, w.calls[i].input, w.calls[i].stage.reservation);
  }

  lemma NotAdmitted(p: Policy, b: Books, input: Input)
    ensures Admit(p, b, input, false) == b
  {
  }

  lemma AdmitInFull(p: Policy, b: Books, input: Input, r: Reservation)
    requires input.normalizedUrl.Some? && Check(p, b, input) == Passes(r)
    ensures Admit(p, b, input, true) == Committed(Accounted(Appended(b, input), input), r)
  {
  }

  /** A step of one admission moves the books by what the admission adds to its share. */
  lemma ShareMoves(p: Policy, w: World, a: Act, before: Books)
    requires !a.Arrive? && Do(p, w, a).Some? && InStep(p, w, a.i, before)
    ensures InStep(p, Do(p, w, a).value, a.i, before)
  {
    match a {
      case Begin(i) => BeginInStep(p, w, i, before);
      case Append(i, accepts) => AppendInStep(p, w, i, accepts, before);
      case Account(i) => AccountInStep(p, w, i, before);
      case Commit(i) => CommitInStep(p, w, i, before);
    }
  }

  lemma ArriveKeepsInv(p: Policy, start: Books, w: World, input: Input)
    requires Inv(p, start, w)
    ensures Inv(p, start, w.(calls := w.calls + [Call(input, Queued)]))
  {
    var calls' := w.calls + [Call(input, Queued)];
    var ps, ps' := Phases(w.calls), Phases(calls');
    assert forall j :: 0 <= j < |ps| ==> ps'[j] == ps[j];
    assert calls'[..|w.calls|] == w.calls;
    WaitingChangesNothing(p, start, calls', |w.calls|);
    forall j | 0 <= j < |calls'| ensures HoldsReservation(p, start, calls', j) {
      if j < |w.calls| {
        assert calls'[..j] == w.calls[..j];
        assert HoldsReservation(p, start, w.calls, j);
      }
    }
  }

  lemma {:induction false} RunKeepsInv(p: Policy, start: Books, w: World, acts: seq<Act>, w': World)
    requires Inv(p, start, w) && Reaches(Machine(p), w, acts, w')
    ensures Inv(p, start, w')
    decreases acts
  {
    if |acts| > 0 {
      StepKeepsInv(p, start, w, acts[0]);
      RunKeepsInv(p, start, Do(p, w, acts[0]).value, acts[1..], w');
    }
  }

  // ---------------------------------------------------------------------------------------
  // What every run keeps

  /** The maps are what counting the known requests gives, and no request is known twice. */
  ghost predicate Exact(p: Policy, b: Books) {
    DistinctBy(b.known, KeyOf) && MapsExact(p, b)
  }

  ghost predicate MapsExact(p: Policy, b: Books) {
    && b.seedCounts == Tally(SeedKeys(b.known))
    && b.directoryCounts == Tally(DirectoryKeys(p, b.known))
    && b.patternCounts == Tally(PatternKeys(p, b.known))
  }

  ghost function FirstNul(s: string): nat {
    if |s| == 0 || s[0] == NUL then 0 else 1 + FirstNul(s[1..])
  }

  lemma {:induction false} NulEndsScope(a: string, x: string)
    requires NUL !in a
    ensures FirstNul(a + [NUL] + x) == |a|
  {
    if |a| > 0 {
      assert a[0] in a;
      assert forall c :: c in a[1..] ==> c in a;
      NulEndsScope(a[1..], x);
      assert (a + [NUL] + x)[1..] == a[1..] + [NUL] + x;
    }
  }

  /** The scope a counting key belongs to can be read off it. */
  lemma ScopeOfKey(a: string, b: string, x: string, y: string)
    requires NUL !in a && NUL !in b && a + [NUL] + x == b + [NUL] + y
    ensures a == b
  {
    NulEndsScope(a, x);
    NulEndsScope(b, y);
    assert a == (a + [NUL] + x)[..|a|] && b == (b + [NUL] + y)[..|b|];
  }

  /** No directory and no path pattern of a scope has more requests than the scope allows. */
  ghost predicate ScopesWithin(p: Policy, known: seq<Known>) {
    forall i :: 0 <= i < |known| && p.parse(known[i].normalizedUrl).Some? ==>
      var url, seedUrl := p.parse(known[i].normalizedUrl).value, known[i].seedUrl;
      && multiset(DirectoryKeys(p, known))[DirectoryKey(p, url, seedUrl)] <= p.maxUrlsPerDirectory(p.scopeKey(seedUrl))
      && multiset(PatternKeys(p, known))[PatternKey(p, url, seedUrl)] <= p.maxUrlsPerPathPattern(p.scopeKey(seedUrl))
  }

  lemma KeysAppend(p: Policy, known: seq<Known>, r: Known)
    requires p.parse(r.normalizedUrl).Some?
    ensures SeedKeys(known + [r]) == SeedKeys(known) + [r.seedUrl]
    ensures DirectoryKeys(p, known + [r]) == DirectoryKeys(p, known) + [DirectoryKey(p, p.parse(r.normalizedUrl).value, r.seedUrl)]
    ensures PatternKeys(p, known + [r]) == PatternKeys(p, known) + [PatternKey(p, p.parse(r.normalizedUrl).value, r.seedUrl)]
  {
    assert (known + [r])[..|known|] == known;
  }

  lemma AdmitKeepsExact(p: Policy, b: Books, input: Input, accepts: bool)
    requires Exact(p, b)
    ensures Exact(p, Admit(p, b, input, accepts))
  {
    if accepts && Check(p, b, input).Passes? {
      PassesMeans(p, b, input);
      CountsStayExact(p, b, input, Check(p, b, input).reservation);
      KnownOnce(b.known, Entry(input));
    }
  }

  lemma KnownOnce(known: seq<Known>, r: Known)
    requires DistinctBy(known, KeyOf) && !IsKnown(known, r.uniqueKey)
    ensures DistinctBy(known + [r], KeyOf)
  {
    forall k | k in KeysOf(known, KeyOf) ensures k != r.uniqueKey {
      var i :| 0 <= i < |known| && KeyOf(known[i]) == k;
    }
    DistinctAppend(known, r, KeyOf);
  }

  lemma PassesMeans(p: Policy, b: Books, input: Input)
    requires Check(p, b, input).Passes?
    ensures input.normalizedUrl.Some? && !IsKnown(b.known, UniqueKey(input.normalizedUrl.value))
    ensures p.parse(input.normalizedUrl.value).Some?
    ensures var url, seedUrl := p.parse(input.normalizedUrl.value).value, input.seed.normalizedUrl;
            var dk, pk := DirectoryKey(p, url, seedUrl), PatternKey(p, url, seedUrl);
            && Check(p, b, input).reservation
               == Reservation(dk, CountOf(b.directoryCounts, dk) + 1, pk, CountOf(b.patternCounts, pk) + 1)
            && CountOf(b.directoryCounts, dk) + 1 <= p.maxUrlsPerDirectory(p.scopeKey(seedUrl))
            && CountOf(b.patternCounts, pk) + 1 <= p.maxUrlsPerPathPattern(p.scopeKey(seedUrl))
  {
  }

  lemma TalliesAppend(p: Policy, known: seq<Known>, r: Known)
    requires p.parse(r.normalizedUrl).Some?
    ensures var url := p.parse(r.normalizedUrl).value;
            && Tally(SeedKeys(known + [r])) == Bump(Tally(SeedKeys(known)), r.seedUrl)
            && Tally(DirectoryKeys(p, known + [r])) == Bump(Tally(DirectoryKeys(p, known)), DirectoryKey(p, url, r.seedUrl))
            && Tally(PatternKeys(p, known + [r])) == Bump(Tally(PatternKeys(p, known)), PatternKey(p, url, r.seedUrl))
  {
    var url := p.parse(r.normalizedUrl).value;
    KeysAppend(p, known, r);
    TallyAppend(SeedKeys(known), r.seedUrl);
    TallyAppend(DirectoryKeys(p, known), DirectoryKey(p, url, r.seedUrl));
    TallyAppend(PatternKeys(p, known), PatternKey(p, url, r.seedUrl));
  }

  lemma CountsStayExact(p: Policy, b: Books, input: Input, r: Reservation)
    requires MapsExact(p, b) && input.normalizedUrl.Some? && p.parse(input.normalizedUrl.value).Some?
    requires var url, seedUrl := p.parse(input.normalizedUrl.value).value, input.seed.normalizedUrl;
             var dk, pk := DirectoryKey(p, url, seedUrl), PatternKey(p, url, seedUrl);
             r == Reservation(dk, CountOf(b.directoryCounts, dk) + 1, pk, CountOf(b.patternCounts, pk) + 1)
    ensures MapsExact(p, Committed(Accounted(Appended(b, input), input), r))
  {
    TalliesAppend(p, b.known, Entry(input));
    AdmittedBooks(b, input, r);
  }

  lemma AdmittedBooks(b: Books, input: Input, r: Reservation)
    requires input.normalizedUrl.Some?
    requires r.directoryCount == CountOf(b.directoryCounts, r.directoryKey) + 1
    requires r.patternCount == CountOf(b.patternCounts, r.patternKey) + 1
    ensures var b' := Committed(Accounted(Appended(b, input), input), r);
            && b'.known == b.known + [Entry(input)]
            && b'.seedCounts == Bump(b.seedCounts, input.seed.normalizedUrl)
            && b'.directoryCounts == Bump(b.directoryCounts, r.directoryKey)
            && b'.patternCounts == Bump(b.patternCounts, r.patternKey)
  {
  }

  /** A request that still fits its scope leaves every scope within its limits. */
  lemma AppendKeepsScopes(p: Policy, known: seq<Known>, r: Known)
    requires p.Valid() && ScopesWithin(p, known) && p.parse(r.normalizedUrl).Some?
    requires var url, scope := p.parse(r.normalizedUrl).value, p.scopeKey(r.seedUrl);
             && multiset(DirectoryKeys(p, known))[DirectoryKey(p, url, r.seedUrl)] + 1 <= p.maxUrlsPerDirectory(scope)
             && multiset(PatternKeys(p, known))[PatternKey(p, url, r.seedUrl)] + 1 <= p.maxUrlsPerPathPattern(scope)
    ensures ScopesWithin(p, known + [r])
  {
    var known' := known + [r];
    var url := p.parse(r.normalizedUrl).value;
    KeysAppend(p, known, r);
    forall i | 0 <= i < |known'| && p.parse(known'[i].normalizedUrl).Some?
      ensures var u, s := p.parse(known'[i].normalizedUrl).value, known'[i].seedUrl;
              && multiset(DirectoryKeys(p, known'))[DirectoryKey(p, u, s)] <= p.maxUrlsPerDirectory(p.scopeKey(s))
              && multiset(PatternKeys(p, known'))[PatternKey(p, u, s)] <= p.maxUrlsPerPathPattern(p.scopeKey(s))
    {
      var u, s := p.parse(known'[i].normalizedUrl).value, known'[i].seedUrl;
      assert i < |known| ==> known'[i] == known[i];
      SameKeySameScope(p, u, s, url, r.seedUrl);
    }
  }

  lemma AdmitKeepsScopes(p: Policy, b: Books, input: Input)
    requires p.Valid() && Exact(p, b) && ScopesWithin(p, b.known) && Check(p, b, input).Passes?
    ensures ScopesWithin(p, b.known + [Entry(input)])
  {
    PassesMeans(p, b, input);
    var url := p.parse(input.normalizedUrl.value).value;
    TallyCounts(DirectoryKeys(p, b.known), DirectoryKey(p, url, input.seed.normalizedUrl));
    TallyCounts(PatternKeys(p, b.known), PatternKey(p, url, input.seed.normalizedUrl));
    AppendKeepsScopes(p, b.known, Entry(input));
  }

  lemma SameKeySameScope(p: Policy, u: Parsed, s: string, v: Parsed, t: string)
    requires p.Valid()
    ensures DirectoryKey(p, u, s) == DirectoryKey(p, v, t) ==> p.scopeKey(s) == p.scopeKey(t)
    ensures PatternKey(p, u, s) == PatternKey(p, v, t) ==> p.scopeKey(s) == p.scopeKey(t)
  {
    if DirectoryKey(p, u, s) == DirectoryKey(p, v, t) {
      SamePlaceSameScope(p, s, u.origin + DirectoryOf(u.pathname), t, v.origin + DirectoryOf(v.pathname));
    }
    if PatternKey(p, u, s) == PatternKey(p, v, t) {
      SamePlaceSameScope(p, s, u.origin + PathPattern(u.pathname) + "?" + QueryPattern(u.queryKeys),
                         t, v.origin + PathPattern(v.pathname) + "?" + QueryPattern(v.queryKeys));
    }
  }

  lemma SamePlaceSameScope(p: Policy, s: string, x: string, t: string, y: string)
    requires p.Valid() && Scoped(p, s, x) == Scoped(p, t, y)
    ensures p.scopeKey(s) == p.scopeKey(t)
  {
    ScopeOfKey(p.scopeKey(s), p.scopeKey(t), x, y);
  }

  /** However the admissions of a run overlap, the books are what admitting the URLs one after the
      other, in the order of the calls, makes of them. */
  lemma AdmissionsAreSerial(p: Policy, start: Books, acts: seq<Act>, w: World)
    requires Reaches(Machine(p), World(start, []), acts, w)
    ensures Inv(p, start, w) && w.books == Serial(p, start, w.calls)
  {
    RunKeepsInv(p, start, World(start, []), acts, w);
  }

  /** What the books would be if the admission under way went through. */
  function Completed(calls: seq<Call>): (r: seq<Call>)
    ensures |r| == |calls|
  {
    seq(|calls|, i requires 0 <= i < |calls| =>
      if calls[i].stage.Enqueued? || calls[i].stage.Counted? then calls[i].(stage := Finished(true)) else calls[i])
  }

  ghost predicate AtRest(calls: seq<Call>) {
    forall i :: 0 <= i < |calls| ==> !calls[i].stage.Enqueued? && !calls[i].stage.Counted?
  }

  lemma {:induction false} SerialKeepsExact(p: Policy, start: Books, calls: seq<Call>)
    requires p.Valid() && Exact(p, start) && ScopesWithin(p, start.known) && AtRest(calls)
    ensures Exact(p, Serial(p, start, calls)) && ScopesWithin(p, Serial(p, start, calls).known)
  {
    if |calls| > 0 {
      var front, last := calls[..|calls| - 1], calls[|calls| - 1];
      SerialKeepsExact(p, start, front);
      var before := Serial(p, start, front);
      if last.input.normalizedUrl.Some? && last.stage.Finished? {
        AdmitKeepsExact(p, before, last.input, last.stage.admitted);
        if last.stage.admitted && Check(p, before, last.input).Passes? {
          AdmitKeepsScopes(p, before, last.input);
        }
      }
    }
  }

  /** What is left to do of an admission past the frontier concerns the counters and maps alone. */
  lemma RestOfAdmission(p: Policy, before: Books, c: Call)
    requires c.stage.Enqueued? || c.stage.Counted?
    requires c.input.normalizedUrl.Some? && Check(p, before, c.input) == Passes(c.stage.reservation)
    ensures var b, b' := Share(p, before, c), Share(p, before, c.(stage := Finished(true)));
            b.known == b'.known && b.scheduled <= b'.scheduled && b.sitemapFiles <= b'.sitemapFiles
  {
    var r := c.stage.reservation;
    assert Admit(p, before, c.input, true) == Committed(Accounted(Appended(before, c.input), c.input), r);
  }

  /** The frontier knows what it will know after the admission under way; the counters lag behind. */
  lemma SameKnown(p: Policy, start: Books, calls: seq<Call>)
    requires Mutex.Orderly(Phases(calls)) && forall i :: 0 <= i < |calls| ==> HoldsReservation(p, start, calls, i)
    ensures var b, b' := Serial(p, start, calls), Serial(p, start, Completed(calls));
            b.known == b'.known && b.scheduled <= b'.scheduled && b.sitemapFiles <= b'.sitemapFiles
  {
    if AtRest(calls) {
      assert Completed(calls) == calls;
    } else {
      var i :| 0 <= i < |calls| && (calls[i].stage.Enqueued? || calls[i].stage.Counted?);
      SameKnownAt(p, start, calls, i);
    }
  }

  lemma SameKnownAt(p: Policy, start: Books, calls: seq<Call>, i: nat)
    requires Mutex.Orderly(Phases(calls)) && i < |calls| && HoldsReservation(p, start, calls, i)
    requires calls[i].stage.Enqueued? || calls[i].stage.Counted?
    ensures var b, b' := Serial(p, start, calls), Serial(p, start, Completed(calls));
            b.known == b'.known && b.scheduled <= b'.scheduled && b.sitemapFiles <= b'.sitemapFiles
  {
    var before, c := Serial(p, start, calls[..i]), calls[i];
    MoveOne(p, start, calls, i, Finished(true));
    assert Completed(calls) == To(calls, i, Finished(true));
    SerialLast(p, start, calls[..i], c);
    SerialLast(p, start, calls[..i], c.(stage := Finished(true)));
    PassesMeans(p, before, c.input);
    RestOfAdmission(p, before, c);
  }

  /** In every reachable state, in the middle of an admission too, every directory and path pattern
      is within its limit and every URL is known at most once. So whenever the process dies, the
      accounting restored from the frontier starts from exact maps that are within the limits. */
  lemma LimitsAreNeverPassed(p: Policy, start: Books, acts: seq<Act>, w: World)
    requires p.Valid() && Exact(p, start) && ScopesWithin(p, start.known)
    requires Reaches(Machine(p), World(start, []), acts, w)
    ensures DistinctBy(w.books.known, KeyOf) && ScopesWithin(p, w.books.known)
    ensures Exact(p, Restored(p, w.books))
  {
    AdmissionsAreSerial(p, start, acts, w);
    SameKnown(p, start, w.calls);
    SerialKeepsExact(p, start, Completed(w.calls));
  }

  /** Whenever no admission is past the frontier, restoring the accounting changes nothing: the maps
      kept step by step are the maps counted from the requests the frontier knows. */
  lemma RestoringRebuildsTheMaps(p: Policy, start: Books, acts: seq<Act>, w: World)
    requires p.Valid() && Exact(p, start) && ScopesWithin(p, start.known)
    requires Reaches(Machine(p), World(start, []), acts, w) && AtRest(w.calls)
    ensures Restored(p, w.books) == w.books
  {
    AdmissionsAreSerial(p, start, acts, w);
    SerialKeepsExact(p, start, w.calls);
  }

  // ---------------------------------------------------------------------------------------
  // Seeds and totals

  /** A bound on the requests of one seed that every call for that seed asks for. */
  ghost predicate SeedBounded(calls: seq<Call>, seedUrl: string, max: nat) {
    forall i :: 0 <= i < |calls| && calls[i].input.seed.normalizedUrl == seedUrl ==>
      calls[i].input.seed.maxScheduledRequests.Some? && calls[i].input.seed.maxScheduledRequests.value <= max
  }

  ghost predicate CountersWithin(p: Policy, b: Books) {
    b.scheduled <= p.maxScheduledRequests && b.sitemapFiles <= p.maxSitemapFiles
  }

  lemma {:induction false} SerialKeepsTotals(p: Policy, start: Books, calls: seq<Call>, seedUrl: string, max: nat)
    requires p.Valid() && Exact(p, start) && ScopesWithin(p, start.known) && AtRest(calls)
    requires CountersWithin(p, start)
    requires SeedBounded(calls, seedUrl, max) && multiset(SeedKeys(start.known))[seedUrl] <= max
    ensures var b := Serial(p, start, calls);
            && CountersWithin(p, b)
            && b.scheduled - start.scheduled == |b.known| - |start.known|
            && multiset(SeedKeys(b.known))[seedUrl] <= max
  {
    if |calls| > 0 {
      var front, last := calls[..|calls| - 1], calls[|calls| - 1];
      SerialKeepsTotals(p, start, front, seedUrl, max);
      SerialKeepsExact(p, start, front);
      AdmitKeepsTotals(p, Serial(p, start, front), last, seedUrl, max);
    }
  }

  lemma AdmitKeepsTotals(p: Policy, b: Books, c: Call, seedUrl: string, max: nat)
    requires MapsExact(p, b) && CountersWithin(p, b) && multiset(SeedKeys(b.known))[seedUrl] <= max
    requires SeedBounded([c], seedUrl, max) && !c.stage.Enqueued? && !c.stage.Counted?
    ensures var b' := Share(p, b, c);
            && CountersWithin(p, b')
            && b'.scheduled - b.scheduled == |b'.known| - |b.known|
            && multiset(SeedKeys(b'.known))[seedUrl] <= max
  {
    if c.input.normalizedUrl.Some? && c.stage.Finished? && c.stage.admitted && Check(p, b, c.input).Passes? {
      AdmitRespectsTotals(p, b, c.input);
      assert [c][0] == c;
      SeedShare(b, c.input, seedUrl, max);
    }
  }

  lemma SeedShare(b: Books, input: Input, seedUrl: string, max: nat)
    requires input.normalizedUrl.Some? && b.seedCounts == Tally(SeedKeys(b.known)) && multiset(SeedKeys(b.known))[seedUrl] <= max
    requires input.seed.normalizedUrl == seedUrl ==> CountOf(b.seedCounts, seedUrl) < max
    ensures multiset(SeedKeys(b.known + [Entry(input)]))[seedUrl] <= max
  {
    TallyCounts(SeedKeys(b.known), seedUrl);
    assert SeedKeys(b.known + [Entry(input)]) == SeedKeys(b.known) + [input.seed.normalizedUrl];
  }

  lemma AdmitRespectsTotals(p: Policy, b: Books, input: Input)
    requires Check(p, b, input).Passes?
    ensures b.scheduled < p.maxScheduledRequests
    ensures IsSitemapFile(input.source) ==> b.sitemapFiles < p.maxSitemapFiles
    ensures input.seed.maxScheduledRequests.Some? ==>
              CountOf(b.seedCounts, input.seed.normalizedUrl) < input.seed.maxScheduledRequests.value
  {
  }

  /** In every reachable state the seed has at most its share of the known requests, and the counters
      for all requests and for sitemap files are within their limits. */
  lemma SeedsAndTotalsAreNeverPassed(p: Policy, start: Books, acts: seq<Act>, w: World, seedUrl: string, max: nat)
    requires p.Valid() && Exact(p, start) && ScopesWithin(p, start.known) && CountersWithin(p, start)
    requires Reaches(Machine(p), World(start, []), acts, w)
    requires SeedBounded(w.calls, seedUrl, max) && multiset(SeedKeys(start.known))[seedUrl] <= max
    ensures multiset(SeedKeys(w.books.known))[seedUrl] <= max
    ensures |w.books.known| - |start.known| <= p.maxScheduledRequests - start.scheduled
    ensures CountersWithin(p, w.books)
  {
    AdmissionsAreSerial(p, start, acts, w);
    SameKnown(p, start, w.calls);
    SerialKeepsTotals(p, start, Completed(w.calls), seedUrl, max);
  }

  // ---------------------------------------------------------------------------------------

  /** The quotas of a URL have room, by the requests the frontier knows. */
  ghost predicate QuotasHaveRoom(p: Policy, known: seq<Known>, url: Parsed, seed: SeedRef) {
    var s := seed.normalizedUrl;
    && (seed.maxScheduledRequests.Some? ==> multiset(SeedKeys(known))[s] < seed.maxScheduledRequests.value)
    && multiset(DirectoryKeys(p, known))[DirectoryKey(p, url, s)] < p.maxUrlsPerDirectory(p.scopeKey(s))
    && multiset(PatternKeys(p, known))[PatternKey(p, url, s)] < p.maxUrlsPerPathPattern(p.scopeKey(s))
  }

  predicate CountsHaveRoom(p: Policy, b: Books, url: Parsed, seed: SeedRef) {
    var s := seed.normalizedUrl;
    && (seed.maxScheduledRequests.Some? ==> CountOf(b.seedCounts, s) < seed.maxScheduledRequests.value)
    && CountOf(b.directoryCounts, DirectoryKey(p, url, s)) < p.maxUrlsPerDirectory(p.scopeKey(s))
    && CountOf(b.patternCounts, PatternKey(p, url, s)) < p.maxUrlsPerPathPattern(p.scopeKey(s))
  }

  lemma QuotasByCounts(p: Policy, b: Books, url: Parsed, seed: SeedRef)
    requires MapsExact(p, b)
    ensures QuotasHaveRoom(p, b.known, url, seed) <==> CountsHaveRoom(p, b, url, seed)
  {
    TallyCounts(SeedKeys(b.known), seed.normalizedUrl);
    TallyCounts(DirectoryKeys(p, b.known), DirectoryKey(p, url, seed.normalizedUrl));
    TallyCounts(PatternKeys(p, b.known), PatternKey(p, url, seed.normalizedUrl));
  }

  lemma PassesIff(p: Policy, b: Books, input: Input)
    ensures Check(p, b, input).Passes? <==>
              && input.normalizedUrl.Some?
              && !IsKnown(b.known, UniqueKey(input.normalizedUrl.value))
              && p.parse(input.normalizedUrl.value).Some?
              && p.inScope(input.normalizedUrl.value, input.depth, input.seed.normalizedUrl)
              && b.scheduled < p.maxScheduledRequests
              && (IsSitemapFile(input.source) ==> b.sitemapFiles < p.maxSitemapFiles)
              && CountsHaveRoom(p, b, p.parse(input.normalizedUrl.value).value, input.seed)
  {
  }

  lemma AdmitsWhatPasses(p: Policy, b: Books, input: Input, accepts: bool)
    ensures Admit(p, b, input, accepts).known != b.known <==> accepts && Check(p, b, input).Passes?
  {
    if accepts && Check(p, b, input).Passes? {
      assert |Admit(p, b, input, accepts).known| == |b.known| + 1;
    }
  }

  /** Between admissions, a URL becomes known exactly when it is valid, new, in scope, wanted by the
      frontier, and every one of its quotas has room by the requests the frontier knows. */
  lemma AdmittedIff(p: Policy, b: Books, input: Input, accepts: bool)
    requires Exact(p, b)
    ensures Admit(p, b, input, accepts).known != b.known <==>
              && accepts
              && input.normalizedUrl.Some?
              && !IsKnown(b.known, UniqueKey(input.normalizedUrl.value))
              && p.parse(input.normalizedUrl.value).Some?
              && p.inScope(input.normalizedUrl.value, input.depth, input.seed.normalizedUrl)
              && b.scheduled < p.maxScheduledRequests
              && (IsSitemapFile(input.source) ==> b.sitemapFiles < p.maxSitemapFiles)
              && QuotasHaveRoom(p, b.known, p.parse(input.normalizedUrl.value).value, input.seed)
  {
    PassesIff(p, b, input);
    AdmitsWhatPasses(p, b, input, accepts);
    if input.normalizedUrl.Some? && p.parse(input.normalizedUrl.value).Some? {
      QuotasByCounts(p, b, p.parse(input.normalizedUrl.value).value, input.seed);
    }
  }
}
