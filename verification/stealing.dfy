/**
 Exactly when a disable or a close can detach a tracepoint that another consumer still
 asks for.
 */
module Stealing {
  import opened Tracepoints
  import opened Registry
  import opened Requests

  // The step detaches a tracepoint that is in the mask of a consumer other than the caller.
  ghost predicate Steals(cfg: Config, s: State, a: Action)
    requires Inv(cfg, s) && WellFormed(cfg, a)
  {
    StepInv(cfg, s, a);
    exists j, i :: 0 <= j < |s.list| && 0 <= i < PROGRAMS && Taken(s, Step(cfg, s, a), a, j, i)
  }

  predicate Taken(s: State, t: State, a: Action, j: nat, i: nat)
    requires j < |s.list| && i < |s.slots| && i < |t.slots|
  {
    s.list[j].task != a.task && i in s.list[j].mask && s.slots[i].attached && !t.slots[i].attached
  }

  // Disables, closes and enables whose registrations succeed.
  predicate Quiet(a: Action) {
    !a.Open? && Succeeds(a)
  }

  predicate AllQuiet(run: seq<Action>) {
    forall i :: 0 <= i < |run| ==> Quiet(run[i])
  }

  // A run of such steps leads from s to t.
  ghost predicate Reaches(cfg: Config, s: State, t: State)
    requires Inv(cfg, s)
  {
    exists run :: AllWellFormed(cfg, run) && AllQuiet(run) && Exec(cfg, s, run) == t
  }

  ghost predicate StealsFrom(cfg: Config, s: State, t: State, a: Action)
    requires Inv(cfg, s)
  {
    Reaches(cfg, s, t) && Inv(cfg, t) && WellFormed(cfg, a) && Quiet(a) && Steals(cfg, t, a)
  }

  ghost predicate CanSteal(cfg: Config, s: State)
    requires Inv(cfg, s)
  {
    exists t, a :: StealsFrom(cfg, s, t, a)
  }

  // What keeps every consumer's tracepoints its own.
  predicate Secure(s: State) {
    |s.list| <= 1 || (DistinctIds(s.list) && Requested(s.list, s.slots))
  }

  lemma QuietKeepsSecure(cfg: Config, s: State, a: Action)
    requires Inv(cfg, s) && WellFormed(cfg, a) && Quiet(a) && Secure(s)
    ensures Secure(Step(cfg, s, a))
  {
    if |s.list| > 1 {
      match a
      case Release(task, ring) => ReleasedKeeps(cfg, s, task, ring);
      case SetTp(task, tp, on, fails) => TpSetKeeps(cfg, s, task, tp, on, fails);
    }
  }

  // A settled request detaches a tracepoint exactly when its consumer was the only one referring to it.
  lemma TraceDetachesIff(cfg: Config, s: State, k: nat, wants: set<nat>, i: nat)
    requires Inv(cfg, s) && k < |s.list| && i < PROGRAMS && s.slots[i].attached
    ensures !Trace(cfg, s, k, wants, {}).slots[i].attached <==> i !in wants && s.slots[i].refs == {s.list[k].id}
  {
  }

  // A secure state lets nobody steal.
  lemma SecureStep(cfg: Config, s: State, a: Action)
    requires Inv(cfg, s) && WellFormed(cfg, a) && Quiet(a) && Secure(s)
    ensures !Steals(cfg, s, a)
  {
    StepInv(cfg, s, a);
    var t := Step(cfg, s, a);
    forall j, i | 0 <= j < |s.list| && 0 <= i < PROGRAMS
      ensures !Taken(s, t, a, j, i)
    {
      NotTaken(cfg, s, a, j, i);
    }
  }

  lemma NotTaken(cfg: Config, s: State, a: Action, j: nat, i: nat)
    requires Inv(cfg, s) && WellFormed(cfg, a) && Quiet(a) && Secure(s)
    requires j < |s.list| && i < PROGRAMS && |Step(cfg, s, a).slots| == PROGRAMS
    ensures !Taken(s, Step(cfg, s, a), a, j, i)
  {
    var k := Find(s.list, a.task);
    if k < |s.list| && s.list[j].task != a.task && i in s.list[j].mask && s.slots[i].attached {
      assert s.list[j].id in s.slots[i].refs && s.list[j].id != s.list[k].id;
      StepKeepsAttached(cfg, s, a, k, i);
    }
  }

  lemma ReleaseKeepsAttached(cfg: Config, s: State, task: nat, ring: nat, k: nat, i: nat)
    requires Inv(cfg, s) && ring < cfg.cpus && k == Find(s.list, task) < |s.list| && i < PROGRAMS
    requires s.slots[i].attached && s.slots[i].refs != {s.list[k].id}
    ensures Released(cfg, s, task, ring).0.slots[i].attached
  {
  }

  lemma StepKeepsAttached(cfg: Config, s: State, a: Action, k: nat, i: nat)
    requires Inv(cfg, s) && WellFormed(cfg, a) && Quiet(a)
    requires k == Find(s.list, a.task) < |s.list| && i < PROGRAMS
    requires s.slots[i].attached && s.slots[i].refs != {s.list[k].id}
    ensures Step(cfg, s, a).slots[i].attached
  {
    match a
    case Release(task, ring) => ReleaseKeepsAttached(cfg, s, task, ring, k, i);
    case SetTp(task, tp, on, fails) =>
      TraceDetachesIff(cfg, s, k, Refer(s.list[k].mask, tp, on), i);
  }

  lemma {:induction false} SecureRun(cfg: Config, s: State, run: seq<Action>)
    requires Inv(cfg, s) && Secure(s) && AllWellFormed(cfg, run) && AllQuiet(run)
    ensures Secure(Exec(cfg, s, run))
    decreases |run|
  {
    if run != [] {
      StepInv(cfg, s, run[0]);
      QuietKeepsSecure(cfg, s, run[0]);
      SecureRun(cfg, Step(cfg, s, run[0]), run[1..]);
    }
  }

  lemma FindTask(list: seq<Consumer>, k: nat)
    requires OnePerTask(list) && k < |list|
    ensures Find(list, list[k].task) == k
  {
  }

  // t is s after the k-th consumer asked for tracepoint i, or gave it up, and no registration failed.
  predicate Toggled(cfg: Config, s: State, t: State, k: nat, i: nat, on: bool)
    requires Inv(cfg, s) && k < |s.list| && i < PROGRAMS
  {
    && Inv(cfg, t) && SameConsumers(s.list, t.list)
    && (forall j :: 0 <= j < |s.list| && j != k ==> t.list[j] == s.list[j])
    && (i in t.list[k].mask <==> on)
    && t.slots[i].refs == Refer(s.slots[i].refs, s.list[k].id, on)
  }

  lemma TraceToggles(cfg: Config, s: State, k: nat, i: nat, on: bool)
    requires Inv(cfg, s) && k < |s.list| && i < PROGRAMS
    ensures Toggled(cfg, s, Trace(cfg, s, k, Refer(s.list[k].mask, i, on), {}), k, i, on)
  {
    var wants := Refer(s.list[k].mask, i, on);
    assert ConsumerInv(cfg, s.list[k]);
    TraceInv(cfg, s, k, wants, {});
    ForcedAll(s.slots, cfg.managed, s.list[k].id, wants, {});
  }

  lemma Toggle(cfg: Config, s: State, k: nat, i: nat, on: bool)
    requires Inv(cfg, s) && k < |s.list| && i < PROGRAMS
    ensures Toggled(cfg, s, Step(cfg, s, SetTp(s.list[k].task, i, on, {})), k, i, on)
  {
    FindTask(s.list, k);
    TraceToggles(cfg, s, k, i, on);
  }

  lemma {:induction false} ExecSnoc(cfg: Config, s: State, run: seq<Action>, a: Action)
    requires Inv(cfg, s) && AllWellFormed(cfg, run) && WellFormed(cfg, a)
    ensures AllWellFormed(cfg, run + [a]) && Exec(cfg, s, run + [a]) == Step(cfg, Exec(cfg, s, run), a)
    decreases |run|
  {
    if run == [] {
      OneMore(cfg, s, a, run);
      assert run + [a] == [a] + run;
    } else {
      var first, rest := run[0], run[1..];
      OneMore(cfg, s, first, rest);
      ExecSnoc(cfg, Step(cfg, s, first), rest, a);
      OneMore(cfg, s, first, rest + [a]);
      assert run == [first] + rest && run + [a] == [first] + (rest + [a]);
    }
  }

  lemma OneMore(cfg: Config, s: State, a: Action, run: seq<Action>)
    requires Inv(cfg, s) && WellFormed(cfg, a) && AllWellFormed(cfg, run)
    ensures Inv(cfg, Step(cfg, s, a)) && AllWellFormed(cfg, [a] + run)
    ensures Exec(cfg, s, [a] + run) == Exec(cfg, Step(cfg, s, a), run)
  {
    StepInv(cfg, s, a);
    var all := [a] + run;
    assert all[0] == a && all[1..] == run && all != [];
  }

  lemma ReachesItself(cfg: Config, s: State)
    requires Inv(cfg, s)
    ensures Reaches(cfg, s, s)
  {
    assert Exec(cfg, s, []) == s;
  }

  lemma ReachesNext(cfg: Config, s: State, t: State, a: Action)
    requires Inv(cfg, s) && Inv(cfg, t) && Reaches(cfg, s, t) && WellFormed(cfg, a) && Quiet(a)
    ensures Reaches(cfg, s, Step(cfg, t, a))
  {
    var run :| AllWellFormed(cfg, run) && AllQuiet(run) && Exec(cfg, s, run) == t;
    ExecSnoc(cfg, s, run, a);
    assert AllQuiet(run + [a]);
  }

  lemma ReachesToggled(cfg: Config, s: State, t: State, k: nat, i: nat, on: bool) returns (u: State)
    requires Inv(cfg, s) && Inv(cfg, t) && Reaches(cfg, s, t) && k < |t.list| && i < PROGRAMS
    ensures Toggled(cfg, t, u, k, i, on) && Reaches(cfg, s, u)
  {
    var a := SetTp(t.list[k].task, i, on, {});
    u := Step(cfg, t, a);
    Toggle(cfg, t, k, i, on);
    ReachesNext(cfg, s, t, a);
  }

  // The first n consumers, all but the b-th, give up tracepoint i one after the other.
  lemma {:induction false} OthersLetGo(cfg: Config, s: State, i: nat, b: nat, n: nat) returns (t: State)
    requires Inv(cfg, s) && i < PROGRAMS && b < |s.list| && n <= |s.list|
    ensures Inv(cfg, t) && Reaches(cfg, s, t)
    ensures SameConsumers(s.list, t.list) && t.list[b] == s.list[b]
    ensures t.slots[i].refs <= s.slots[i].refs
    ensures forall k :: 0 <= k < n && k != b ==> s.list[k].id !in t.slots[i].refs
  {
    if n == 0 {
      t := s;
      ReachesItself(cfg, s);
    } else {
      t := OthersLetGo(cfg, s, i, b, n - 1);
      if n - 1 != b {
        t := ReachesToggled(cfg, s, t, n - 1, i, false);
      }
    }
  }

  lemma OnlyOwnReference(cfg: Config, s: State, i: nat, b: nat)
    requires Inv(cfg, s) && i < PROGRAMS && b < |s.list|
    requires forall k :: 0 <= k < |s.list| && k != b ==> s.list[k].id !in s.slots[i].refs
    ensures s.slots[i].refs <= {s.list[b].id}
  {
  }

  // When the a-th consumer alone refers to a tracepoint in the b-th consumer's mask, its disable steals it.
  lemma DisableSteals(cfg: Config, s: State, a: nat, b: nat, i: nat)
    requires Inv(cfg, s) && a < |s.list| && b < |s.list| && a != b && i < PROGRAMS
    requires i in s.list[b].mask && s.slots[i].refs == {s.list[a].id}
    ensures Steals(cfg, s, SetTp(s.list[a].task, i, false, {}))
  {
    var off := SetTp(s.list[a].task, i, false, {});
    StepInv(cfg, s, off);
    var t := Step(cfg, s, off);
    Toggle(cfg, s, a, i, false);
    assert SlotInv(s.slots[i], i in cfg.managed) && SlotInv(t.slots[i], i in cfg.managed);
    assert t.slots[i].refs == {};
    assert Taken(s, t, off, b, i);
  }

  // Two consumers with one id: one enables a tracepoint, the other's disable detaches it.
  // A consumer without its bit: another consumer enables the tracepoint and disables it again.
  lemma InsecureCanSteal(cfg: Config, s: State, a: nat, b: nat, i: nat)
    requires Inv(cfg, s) && a < |s.list| && b < |s.list| && a != b && i < PROGRAMS
    requires s.list[a].id == s.list[b].id || (i in s.list[b].mask && s.list[b].id !in s.slots[i].refs)
    ensures CanSteal(cfg, s)
  {
    var t := OthersLetGo(cfg, s, i, b, |s.list|);
    OnlyOwnReference(cfg, t, i, b);
    var u := ReachesToggled(cfg, s, t, if s.list[a].id == s.list[b].id then b else a, i, true);
    assert u.slots[i].refs == {u.list[a].id};
    DisableSteals(cfg, u, a, b, i);
    assert StealsFrom(cfg, s, u, SetTp(u.list[a].task, i, false, {}));
  }

  // Among the consumers that are listed, somebody can be robbed by a disable or a close exactly when
  // there are two of them and either two ids coincide or one lacks its bit for a tracepoint in its mask.
  lemma CanStealIff(cfg: Config, s: State)
    requires Inv(cfg, s)
    ensures CanSteal(cfg, s) <==> !Secure(s)
  {
    if Secure(s) {
      forall t, a | Reaches(cfg, s, t) && WellFormed(cfg, a) && Quiet(a)
        ensures !StealsFrom(cfg, s, t, a)
      {
        var run :| AllWellFormed(cfg, run) && AllQuiet(run) && Exec(cfg, s, run) == t;
        SecureRun(cfg, s, run);
        SecureStep(cfg, t, a);
      }
    } else if !DistinctIds(s.list) {
      var j, k :| 0 <= j < k < |s.list| && s.list[j].id == s.list[k].id;
      InsecureCanSteal(cfg, s, j, k, 0);
    } else {
      var k, i :| 0 <= k < |s.list| && 0 <= i < PROGRAMS && i in s.list[k].mask && s.list[k].id !in s.slots[i].refs;
      InsecureCanSteal(cfg, s, if k == 0 then 1 else 0, k, i);
    }
  }
}
