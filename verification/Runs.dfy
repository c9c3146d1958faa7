/** Runs of a machine: finite sequences of steps, and the state each leads to. */
module Runs {
  import opened Bytes

  function Run<S, T>(next: (S, T) -> S, s: S, steps: seq<T>): S
    decreases |steps|
  {
    if steps == [] then s else next(Run(next, s, steps[..|steps| - 1]), steps[|steps| - 1])
  }

  lemma RunSnoc<S, T>(next: (S, T) -> S, s: S, steps: seq<T>, step: T)
    ensures Run(next, s, steps + [step]) == next(Run(next, s, steps), step)
  {
    assert (steps + [step])[..|steps|] == steps;
  }

  lemma RunFour<S, T>(next: (S, T) -> S, s: S, a: T, b: T, c: T, d: T)
    ensures Run(next, s, [a, b, c, d]) == next(next(next(next(s, a), b), c), d)
  {
    RunSnoc(next, s, [], a);
    RunSnoc(next, s, [a], b);
    RunSnoc(next, s, [a, b], c);
    RunSnoc(next, s, [a, b, c], d);
    assert [] + [a] == [a] && [a] + [b] == [a, b] && [a, b] + [c] == [a, b, c] && [a, b, c] + [d] == [a, b, c, d];
  }

  lemma {:induction false} RunConcat<S, T>(next: (S, T) -> S, s: S, a: seq<T>, b: seq<T>)
    ensures Run(next, s, a + b) == Run(next, Run(next, s, a), b)
    decreases |b|
  {
    if b == [] {
      assert a + b == a;
    } else {
      RunConcat(next, s, a, b[..|b| - 1]);
      assert (a + b)[..|a + b| - 1] == a + b[..|b| - 1];
    }
  }

  // ---- Schedules ----

  /** The parts of a run that the choices of a schedule come to, one after the other. */
  ghost predicate Follows<S, C, T>(next: (S, T) -> S, served: (S, C, seq<T>) -> bool, s: S,
                                   schedule: seq<C>, parts: seq<seq<T>>)
  {
    && |parts| == |schedule|
    && forall k | 0 <= k < |schedule| :: served(Run(next, s, Concat(parts[..k])), schedule[k], parts[k])
  }

  lemma NothingFollows<S, C, T>(next: (S, T) -> S, served: (S, C, seq<T>) -> bool, s: S)
    ensures Follows(next, served, s, [], []) && Run(next, s, Concat([])) == s
  {
  }

  lemma FollowsSnoc<S, C, T>(next: (S, T) -> S, served: (S, C, seq<T>) -> bool, s: S,
                             schedule: seq<C>, parts: seq<seq<T>>, choice: C, more: seq<T>)
    requires Follows(next, served, s, schedule, parts)
    requires served(Run(next, s, Concat(parts)), choice, more)
    ensures Follows(next, served, s, schedule + [choice], parts + [more])
    ensures Run(next, s, Concat(parts + [more])) == Run(next, Run(next, s, Concat(parts)), more)
  {
    ConcatAppend(parts, [more]);
    assert Concat([more]) == more + [] == more;
    RunConcat(next, s, Concat(parts), more);
    assert (parts + [more])[..|parts|] == parts;
    forall k | 0 <= k < |schedule|
      ensures served(Run(next, s, Concat((parts + [more])[..k])), (schedule + [choice])[k], (parts + [more])[k])
    {
      assert (parts + [more])[..k] == parts[..k];
    }
  }
}
