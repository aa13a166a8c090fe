/** Runs of a deterministic machine. */
module Runs {

  datatype Step<+S, +E> = Go(state: S) | Stop(end: E)

  /** `n` steps, or fewer if one of them stops the run. */
  function Run<S, E>(step: S -> Step<S, E>, s: S, n: nat): Step<S, E> {
    if n == 0 then Go(s)
    else
      var next := step(s);
      if next.Go? then Run(step, next.state, n - 1) else next
  }

  /** What every step keeps, every run keeps. */
  lemma {:induction false} RunKeeps<S(!new), E>(step: S -> Step<S, E>, keeps: S -> bool, s: S, n: nat)
    requires keeps(s)
    requires forall x :: keeps(x) && step(x).Go? ==> keeps(step(x).state)
    ensures Run(step, s, n).Go? ==> keeps(Run(step, s, n).state)
    decreases n
  {
    if n > 0 && step(s).Go? {
      RunKeeps(step, keeps, step(s).state, n - 1);
    }
  }

  /** A run is a run of its beginning followed by a run of the rest. */
  lemma {:induction false} RunAdds<S, E>(step: S -> Step<S, E>, s: S, m: nat, n: nat)
    ensures Run(step, s, m + n) ==
            if Run(step, s, m).Go? then Run(step, Run(step, s, m).state, n) else Run(step, s, m)
    decreases m
  {
    if m > 0 && step(s).Go? {
      RunAdds(step, step(s).state, m - 1, n);
    }
  }

  /** Once a run has stopped, more steps change nothing. */
  lemma RunStops<S, E>(step: S -> Step<S, E>, s: S, n: nat, limit: nat)
    requires n <= limit && (Run(step, s, n).Go? ==> n == limit)
    ensures Run(step, s, limit) == Run(step, s, n)
  {
    RunAdds(step, s, n, limit - n);
  }

  lemma OneStep<S, E>(step: S -> Step<S, E>, s: S)
    ensures Run(step, s, 1) == step(s)
  {
  }

  /** A run that stops does so in some state it reaches. */
  lemma {:induction false} StopsSomewhere<S, E>(step: S -> Step<S, E>, s: S, n: nat) returns (last: S)
    requires Run(step, s, n).Stop?
    ensures step(last) == Run(step, s, n)
    decreases n
  {
    last := s;
    if step(s).Go? {
      last := StopsSomewhere(step, step(s).state, n - 1);
    }
  }
}
