/** The promise chain that serialises admissions, enqueues and lease transitions
    (src/core/concurrency/mutex.ts). */
module Mutex {
  import opened Prelude
  import opened Runs

  datatype Phase = Waiting | Running | Done

  datatype Act = Call | Start(i: nat) | Finish(i: nat)

  /** The promise that call i awaits: the tail it found. The tail it leaves behind settles when that
      one has settled and the call has released, whether its operation returned or threw. */
  predicate Settled(calls: seq<Phase>, i: nat)
    requires i <= |calls|
  {
    i == 0 || (Settled(calls, i - 1) && calls[i - 1].Done?)
  }

  function Do(calls: seq<Phase>, a: Act): Option<seq<Phase>> {
    match a
    case Call => Some(calls + [Waiting])
    case Start(i) =>
      if i < |calls| && calls[i].Waiting? && Settled(calls, i) then Some(calls[i := Running]) else None
    case Finish(i) =>
      if i < |calls| && calls[i].Running? then Some(calls[i := Done]) else None
  }

  /** Nobody has started before everyone ahead was done. */
  ghost predicate Orderly(calls: seq<Phase>) {
    forall i, j :: 0 <= i < j < |calls| && !calls[j].Waiting? ==> calls[i].Done?
  }

  lemma {:induction false} SettledMeansDone(calls: seq<Phase>, i: nat)
    requires i <= |calls|
    ensures Settled(calls, i) <==> forall j :: 0 <= j < i ==> calls[j].Done?
  {
    if i > 0 {
      SettledMeansDone(calls, i - 1);
    }
  }

  lemma StepKeepsOrder(calls: seq<Phase>, a: Act)
    requires Orderly(calls) && Do(calls, a).Some?
    ensures Orderly(Do(calls, a).value)
  {
    if a.Start? {
      SettledMeansDone(calls, a.i);
    }
  }

  lemma {:induction false} RunKeepsOrder(calls: seq<Phase>, acts: seq<Act>, calls': seq<Phase>)
    requires Orderly(calls) && Reaches(Do, calls, acts, calls')
    ensures Orderly(calls')
    decreases acts
  {
    if |acts| > 0 {
      StepKeepsOrder(calls, acts[0]);
      RunKeepsOrder(Do(calls, acts[0]).value, acts[1..], calls');
    }
  }

  /** At most one operation is under way, in any run. */
  lemma OneAtATime(acts: seq<Act>, calls: seq<Phase>, i: nat, j: nat)
    requires Reaches(Do, [], acts, calls) && i < |calls| && j < |calls|
    requires calls[i].Running? && calls[j].Running?
    ensures i == j
  {
    RunKeepsOrder([], acts, calls);
  }

  /** Operations start in the order of the calls: one can start exactly when all before it are done,
      and nothing behind one that waits has started. */
  lemma FirstComeFirstServed(acts: seq<Act>, calls: seq<Phase>, i: nat)
    requires Reaches(Do, [], acts, calls) && i < |calls| && calls[i].Waiting?
    ensures Do(calls, Start(i)).Some? <==> forall j :: 0 <= j < i ==> calls[j].Done?
    ensures forall j :: i <= j < |calls| ==> calls[j].Waiting?
  {
    RunKeepsOrder([], acts, calls);
    SettledMeansDone(calls, i);
  }

  /** As long as a call is not done, one that was called no later can start or finish. */
  lemma {:induction false} NeverStuck(acts: seq<Act>, calls: seq<Phase>, i: nat) returns (next: nat)
    requires Reaches(Do, [], acts, calls) && i < |calls| && !calls[i].Done?
    ensures next <= i
    ensures Do(calls, Start(next)).Some? || Do(calls, Finish(next)).Some?
    decreases i
  {
    if j: nat :| j < i && !calls[j].Done? {
      next := NeverStuck(acts, calls, j);
    } else {
      next := i;
      SettledMeansDone(calls, i);
    }
  }

  lemma ServeNext(calls: seq<Phase>, i: nat) returns (more: seq<Act>, calls': seq<Phase>)
    requires i < |calls| && forall j :: 0 <= j < i ==> calls[j].Done?
    ensures Reaches(Do, calls, more, calls') && |calls'| == |calls| && forall j :: 0 <= j <= i ==> calls'[j].Done?
  {
    SettledMeansDone(calls, i);
    calls' := calls[i := Done];
    match calls[i] {
      case Done =>
        more := [];
        assert calls' == calls;
      case Running =>
        more := [Finish(i)];
        assert Reaches(Do, calls, [], calls);
        RunSnoc(Do, calls, [], calls, Finish(i), calls');
        assert [] + [Finish(i)] == more;
      case Waiting =>
        more := [Start(i), Finish(i)];
        assert calls[i := Running][i := Done] == calls';
        RunTwo(Do, calls, Start(i), calls[i := Running], Finish(i), calls');
    }
  }

  /** From every reachable state all calls up to any one of them can be brought to an end. */
  lemma {:induction false} EveryCallIsServed(acts: seq<Act>, calls: seq<Phase>, i: nat)
    returns (more: seq<Act>, calls': seq<Phase>)
    requires Reaches(Do, [], acts, calls) && i < |calls|
    ensures Reaches(Do, calls, more, calls') && |calls'| == |calls| && forall j :: 0 <= j <= i ==> calls'[j].Done?
    decreases i
  {
    if i == 0 {
      more, calls' := ServeNext(calls, 0);
    } else {
      var first, mid := EveryCallIsServed(acts, calls, i - 1);
      var second;
      second, calls' := ServeNext(mid, i);
      more := first + second;
      RunsChain(Do, calls, first, mid, second, calls');
    }
  }
}
