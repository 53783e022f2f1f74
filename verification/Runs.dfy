/** Runs of a machine whose steps may be refused. */
module Runs {
  import opened Prelude

  ghost predicate Reaches<S(!new), A(!new)>(step: (S, A) -> Option<S>, s: S, actions: seq<A>, s': S)
    decreases actions
  {
    if |actions| == 0 then s' == s
    else step(s, actions[0]).Some? && Reaches(step, step(s, actions[0]).value, actions[1..], s')
  }

  lemma RunCons<S(!new), A(!new)>(step: (S, A) -> Option<S>, s: S, a: A, next: S, actions: seq<A>, s': S)
    requires step(s, a) == Some(next) && Reaches(step, next, actions, s')
    ensures Reaches(step, s, [a] + actions, s')
  {
    assert ([a] + actions)[1..] == actions;
  }

  lemma {:induction false} RunsChain<S(!new), A(!new)>(
      step: (S, A) -> Option<S>, s: S, actions: seq<A>, mid: S, more: seq<A>, s': S)
    requires Reaches(step, s, actions, mid) && Reaches(step, mid, more, s')
    ensures Reaches(step, s, actions + more, s')
    decreases actions
  {
    if |actions| == 0 {
      assert actions + more == more;
    } else {
      var next := step(s, actions[0]).value;
      RunsChain(step, next, actions[1..], mid, more, s');
      RunCons(step, s, actions[0], next, actions[1..] + more, s');
      assert actions + more == [actions[0]] + (actions[1..] + more);
    }
  }

  lemma RunSnoc<S(!new), A(!new)>(step: (S, A) -> Option<S>, s: S, actions: seq<A>, mid: S, a: A, s': S)
    requires Reaches(step, s, actions, mid) && step(mid, a) == Some(s')
    ensures Reaches(step, s, actions + [a], s')
  {
    assert Reaches(step, s', [], s');
    RunCons(step, mid, a, s', [], s');
    assert [a] + [] == [a];
    RunsChain(step, s, actions, mid, [a], s');
  }

  lemma RunTwo<S(!new), A(!new)>(step: (S, A) -> Option<S>, s: S, a: A, mid: S, b: A, s': S)
    requires step(s, a) == Some(mid) && step(mid, b) == Some(s')
    ensures Reaches(step, s, [a, b], s')
  {
    assert Reaches(step, s', [], s');
    RunCons(step, mid, b, s', [], s');
    RunCons(step, s, a, mid, [b] + [], s');
    assert [a] + ([b] + []) == [a, b];
  }

  lemma RunFour<S(!new), A(!new)>(
      step: (S, A) -> Option<S>, s: S, a: A, s1: S, b: A, s2: S, c: A, s3: S, d: A, s': S)
    requires step(s, a) == Some(s1) && step(s1, b) == Some(s2) && step(s2, c) == Some(s3) && step(s3, d) == Some(s')
    ensures Reaches(step, s, [a, b, c, d], s')
  {
    RunTwo(step, s, a, s1, b, s2);
    RunTwo(step, s2, c, s3, d, s');
    RunsChain(step, s, [a, b], s2, [c, d], s');
    assert [a, b] + [c, d] == [a, b, c, d];
  }

  lemma RunThree<S(!new), A(!new)>(step: (S, A) -> Option<S>, s: S, a: A, s1: S, b: A, s2: S, c: A, s': S)
    requires step(s, a) == Some(s1) && step(s1, b) == Some(s2) && step(s2, c) == Some(s')
    ensures Reaches(step, s, [a, b, c], s')
  {
    RunTwo(step, s1, b, s2, c, s');
    RunCons(step, s, a, s1, [b, c], s');
    assert [a] + [b, c] == [a, b, c];
  }
}
