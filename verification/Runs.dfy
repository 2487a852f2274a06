/** Runs of a transition system, given by its partial step function. */
module Runs {
  import opened Options

  function Exec<S, A>(next: (S, A) -> Option<S>, s: S, run: seq<A>): Option<S>
    decreases |run|
  {
    if |run| == 0 then Some(s)
    else
      match next(s, run[0])
      case None => None
      case Some(s') => Exec(next, s', run[1..])
  }

  lemma {:induction false} ExecJoin<S, A>(next: (S, A) -> Option<S>, s: S, first: seq<A>, second: seq<A>)
    requires Exec(next, s, first).Some?
    ensures Exec(next, s, first + second) == Exec(next, Exec(next, s, first).value, second)
    decreases |first|
  {
    if |first| == 0 {
      assert first + second == second;
    } else {
      assert (first + second)[1..] == first[1..] + second;
      ExecJoin(next, next(s, first[0]).value, first[1..], second);
    }
  }

  lemma One<S, A>(next: (S, A) -> Option<S>, s: S, a: A)
    ensures Exec(next, s, [a]) == next(s, a)
  {
    assert [a][1..] == [];
    assert next(s, a).Some? ==> Exec(next, next(s, a).value, []) == next(s, a);
  }

  /** Appends one step to a run already known. */
  lemma Step<S, A>(next: (S, A) -> Option<S>, start: S, run: seq<A>, s: S, a: A) returns (run': seq<A>, s': S)
    requires Exec(next, start, run) == Some(s) && next(s, a).Some?
    ensures next(s, a) == Some(s') && Exec(next, start, run') == Some(s')
  {
    run', s' := run + [a], next(s, a).value;
    ExecJoin(next, start, run, [a]);
    One(next, s, a);
  }

  lemma Start<S, A>(next: (S, A) -> Option<S>, s: S)
    ensures Exec(next, s, []) == Some(s)
  {
  }
}
