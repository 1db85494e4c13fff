/**
 Facts that some calls of a run establish and others end: after the run such a fact holds exactly if
 it has been established and not ended since.
 */
module Histories {
  import opened Registry
  import opened Stealing

  // The state before the i-th call of a run.
  function At(cfg: Config, s: State, run: seq<Action>, i: nat): State
    requires Inv(cfg, s) && AllWellFormed(cfg, run) && i <= |run|
  {
    Exec(cfg, s, run[..i])
  }

  lemma AtNext(cfg: Config, s: State, run: seq<Action>, i: nat)
    requires Inv(cfg, s) && AllWellFormed(cfg, run) && i < |run|
    ensures At(cfg, s, run, i + 1) == Step(cfg, At(cfg, s, run, i), run[i])
  {
    assert run[..i + 1] == run[..i] + [run[i]];
    ExecSnoc(cfg, s, run[..i], run[i]);
  }

  lemma AtEnds(cfg: Config, s: State, run: seq<Action>)
    requires Inv(cfg, s) && AllWellFormed(cfg, run)
    ensures At(cfg, s, run, 0) == s && At(cfg, s, run, |run|) == Exec(cfg, s, run)
  {
    assert run[..0] == [] && run[..|run|] == run;
  }

  // Before every call p holds or not; the call starts it, or ends it, or leaves it.
  ghost predicate Governs(cfg: Config, p: State -> bool, starts: (State, Action) -> bool,
                          ends: (State, Action) -> bool)
  {
    forall s, a | Inv(cfg, s) && WellFormed(cfg, a) :: Governed(cfg, p, starts, ends, s, a)
  }

  predicate Governed(cfg: Config, p: State -> bool, starts: (State, Action) -> bool, ends: (State, Action) -> bool,
                     s: State, a: Action)
    requires Inv(cfg, s) && WellFormed(cfg, a)
  {
    p(Step(cfg, s, a)) <==> starts(s, a) || (p(s) && !ends(s, a))
  }

  // Before call n, call i is one that started the fact, and none has ended it since.
  ghost predicate SinceAt(cfg: Config, s: State, run: seq<Action>, starts: (State, Action) -> bool,
                          ends: (State, Action) -> bool, i: nat, n: nat)
    requires Inv(cfg, s) && AllWellFormed(cfg, run) && n <= |run|
  {
    && i < n && starts(At(cfg, s, run, i), run[i])
    && forall j :: i < j < n ==> !ends(At(cfg, s, run, j), run[j])
  }

  lemma Turn(cfg: Config, s: State, run: seq<Action>, p: State -> bool, starts: (State, Action) -> bool,
             ends: (State, Action) -> bool, n: nat)
    requires Inv(cfg, s) && AllWellFormed(cfg, run) && n < |run| && Governs(cfg, p, starts, ends)
    ensures var t := At(cfg, s, run, n);
            p(At(cfg, s, run, n + 1)) <==> starts(t, run[n]) || (p(t) && !ends(t, run[n]))
  {
    AtNext(cfg, s, run, n);
    assert Governed(cfg, p, starts, ends, At(cfg, s, run, n), run[n]);
  }

  ghost predicate SinceSome(cfg: Config, s: State, run: seq<Action>, starts: (State, Action) -> bool,
                            ends: (State, Action) -> bool, n: nat)
    requires Inv(cfg, s) && AllWellFormed(cfg, run) && n <= |run|
  {
    exists i: nat :: SinceAt(cfg, s, run, starts, ends, i, n)
  }

  // One call more.
  lemma SinceNext(cfg: Config, s: State, run: seq<Action>, starts: (State, Action) -> bool,
                  ends: (State, Action) -> bool, n: nat, m: nat)
    requires Inv(cfg, s) && AllWellFormed(cfg, run) && n < |run| && m == n + 1
    ensures SinceSome(cfg, s, run, starts, ends, m) <==>
            || starts(At(cfg, s, run, n), run[n])
            || (SinceSome(cfg, s, run, starts, ends, n) && !ends(At(cfg, s, run, n), run[n]))
  {
    assert SinceAt(cfg, s, run, starts, ends, n, m) <==> starts(At(cfg, s, run, n), run[n]);
    if i: nat :| SinceAt(cfg, s, run, starts, ends, i, m) {
      assert i == n || SinceAt(cfg, s, run, starts, ends, i, n);
    }
    if i: nat :| SinceAt(cfg, s, run, starts, ends, i, n) {
      assert !ends(At(cfg, s, run, n), run[n]) ==> SinceAt(cfg, s, run, starts, ends, i, m);
    }
  }

  lemma {:induction false} Since(cfg: Config, s: State, run: seq<Action>, p: State -> bool,
                                 starts: (State, Action) -> bool, ends: (State, Action) -> bool, n: nat)
    requires Inv(cfg, s) && AllWellFormed(cfg, run) && n <= |run| && !p(s) && Governs(cfg, p, starts, ends)
    ensures p(At(cfg, s, run, n)) <==> SinceSome(cfg, s, run, starts, ends, n)
    decreases n
  {
    if n == 0 {
      AtEnds(cfg, s, run);
    } else {
      Since(cfg, s, run, p, starts, ends, n - 1);
      Turn(cfg, s, run, p, starts, ends, n - 1);
      SinceNext(cfg, s, run, starts, ends, n - 1, n);
    }
  }
}
