/**
 A new consumer takes the number of listed consumers as its id. When a listed one holds that
 number already, an open can do harm: a failed one at once, a successful one later. In runs
 where that never happens nobody loses a tracepoint.
 */
module Collisions {
  import opened Tracepoints
  import opened Registry
  import opened Requests
  import opened Stealing

  // A first open whose rings cannot be set up gives up every tracepoint for the id it would have had.
  lemma StripDetachesIff(cfg: Config, s: State, id: nat, i: nat)
    requires Inv(cfg, s) && i < PROGRAMS && s.slots[i].attached
    ensures !Forced(s.slots, cfg.managed, id, {}, {})[i].attached <==> s.slots[i].refs == {id}
  {
    ForcedAll(s.slots, cfg.managed, id, {}, {});
    assert SlotInv(s.slots[i], i in cfg.managed);
    if s.slots[i].refs - {id} == {} {
      assert s.slots[i].refs == {id};
    }
  }

  // A consumer asks for a tracepoint to which only the next id refers.
  predicate Exposed(s: State) {
    exists j, i :: 0 <= j < |s.list| && 0 <= i < |s.slots| && i in s.list[j].mask && s.slots[i].refs == {|s.list|}
  }

  // Exactly when a failed first open detaches a tracepoint that a listed consumer asks for. One
  // listed consumer is enough.
  lemma FailedOpenStealsIff(cfg: Config, s: State, task: nat, ring: nat)
    requires Inv(cfg, s) && ring < cfg.cpus
    ensures Steals(cfg, s, Open(task, ring, RingFails)) <==>
            Find(s.list, task) == |s.list| < cfg.max && Exposed(s)
  {
    var a := Open(task, ring, RingFails);
    StepInv(cfg, s, a);
    var t := Step(cfg, s, a);
    if Find(s.list, task) == |s.list| < cfg.max {
      forall j, i | 0 <= j < |s.list| && 0 <= i < PROGRAMS
        ensures Taken(s, t, a, j, i) <==> i in s.list[j].mask && s.slots[i].refs == {|s.list|}
      {
        TakenByOpenIff(cfg, s, task, ring, j, i);
      }
      if Exposed(s) {
        var j, i :| 0 <= j < |s.list| && 0 <= i < |s.slots| && i in s.list[j].mask && s.slots[i].refs == {|s.list|};
        assert Taken(s, t, a, j, i);
      }
    }
  }

  lemma TakenByOpenIff(cfg: Config, s: State, task: nat, ring: nat, j: nat, i: nat)
    requires Inv(cfg, s) && ring < cfg.cpus && Find(s.list, task) == |s.list| < cfg.max
    requires j < |s.list| && i < PROGRAMS && |Step(cfg, s, Open(task, ring, RingFails)).slots| == PROGRAMS
    ensures Taken(s, Step(cfg, s, Open(task, ring, RingFails)), Open(task, ring, RingFails), j, i) <==>
            i in s.list[j].mask && s.slots[i].refs == {|s.list|}
  {
    assert SlotInv(s.slots[i], i in cfg.managed);
    if s.slots[i].attached {
      StripDetachesIff(cfg, s, |s.list|, i);
    }
  }

  // The same after enables and disables of the consumers that are listed.
  ghost predicate OpenStealsFrom(cfg: Config, s: State, t: State, task: nat, ring: nat)
    requires Inv(cfg, s)
  {
    && Reaches(cfg, s, t) && Inv(cfg, t) && SameConsumers(s.list, t.list)
    && ring < cfg.cpus && Steals(cfg, t, Open(task, ring, RingFails))
  }

  ghost predicate OpenCanSteal(cfg: Config, s: State)
    requires Inv(cfg, s)
  {
    exists t, task, ring :: OpenStealsFrom(cfg, s, t, task, ring)
  }

  // A number above every task in the list.
  function Above(list: seq<Consumer>): (n: nat)
    ensures forall k :: 0 <= k < |list| ==> list[k].task < n
  {
    if list == [] then 0
    else
      var n := Above(list[1..]);
      assert forall k :: 0 < k < |list| ==> list[k] == list[1..][k - 1];
      if list[0].task < n then n else list[0].task + 1
  }

  // Some failed open can rob a listed consumer exactly when one of them holds the next id.
  lemma OpenCanStealIff(cfg: Config, s: State)
    requires Inv(cfg, s) && cfg.cpus > 0
    ensures OpenCanSteal(cfg, s) <==> |s.list| < cfg.max && |s.list| in Ids(s.list)
  {
    if |s.list| < cfg.max && |s.list| in Ids(s.list) {
      var b :| 0 <= b < |s.list| && s.list[b].id == |s.list|;
      var t := Expose(cfg, s, b);
      FailedOpenStealsIff(cfg, t, Above(t.list), 0);
      assert OpenStealsFrom(cfg, s, t, Above(t.list), 0);
    }
    forall t, task, ring | OpenStealsFrom(cfg, s, t, task, ring)
      ensures |s.list| < cfg.max && |s.list| in Ids(s.list)
    {
      FailedOpenStealsIff(cfg, t, task, ring);
      SameIds(s.list, t.list);
      ExposedId(cfg, t);
    }
  }

  lemma ExposedId(cfg: Config, s: State)
    requires Inv(cfg, s) && Exposed(s)
    ensures |s.list| in Ids(s.list)
  {
    var j, i :| 0 <= j < |s.list| && 0 <= i < |s.slots| && i in s.list[j].mask && s.slots[i].refs == {|s.list|};
    assert s.slots[i].refs <= Ids(s.list) && |s.list| in s.slots[i].refs;
  }

  // The others let go of tracepoint 0 and the holder of the next id enables it.
  lemma Expose(cfg: Config, s: State, b: nat) returns (t: State)
    requires Inv(cfg, s) && b < |s.list| && s.list[b].id == |s.list|
    ensures Reaches(cfg, s, t) && Inv(cfg, t) && SameConsumers(s.list, t.list) && Exposed(t)
  {
    var u := OthersLetGo(cfg, s, 0, b, |s.list|);
    OnlyOwnReference(cfg, u, 0, b);
    t := ReachesToggled(cfg, s, u, b, 0, true);
    assert t.slots[0].refs == {|t.list|} && 0 in t.list[b].mask;
  }

  // --------------------------------------------------------------------------------------
  // Runs where it never happens
  // --------------------------------------------------------------------------------------

  lemma FreshOpenNeverSteals(cfg: Config, s: State, a: Action)
    requires Inv(cfg, s) && WellFormed(cfg, a) && a.Open? && FreshId(s, a)
    ensures !Steals(cfg, s, a)
  {
    if a.alloc.RingFails? {
      FailedOpenStealsIff(cfg, s, a.task, a.ring);
      if Find(s.list, a.task) == |s.list| && Exposed(s) {
        ExposedId(cfg, s);
      }
    } else {
      assert Step(cfg, s, a).slots == s.slots;
    }
  }

  // As long as no first open finds its id in use and no registration fails, nobody ever loses a
  // tracepoint to somebody else's call, whatever that is.
  lemma FreshRunNeverSteals(cfg: Config, s: State, run: seq<Action>, a: Action)
    requires Initial(s) && AllWellFormed(cfg, run) && FreshRun(cfg, s, run)
    requires forall i :: 0 <= i < |run| ==> Succeeds(run[i])
    requires WellFormed(cfg, a) && FreshId(Exec(cfg, s, run), a) && Succeeds(a)
    ensures !Steals(cfg, Exec(cfg, s, run), a)
  {
    BitsFollowMasks(cfg, s, run);
    var t := Exec(cfg, s, run);
    if a.Open? {
      FreshOpenNeverSteals(cfg, t, a);
    } else {
      SecureStep(cfg, t, a);
    }
  }

  // --------------------------------------------------------------------------------------
  // Runs where it does
  // --------------------------------------------------------------------------------------

  lemma FirstOpen(cfg: Config, s: State, task: nat, online: seq<bool>)
    requires Inv(cfg, s) && Find(s.list, task) == |s.list| < cfg.max
    requires 0 < cfg.cpus == |online| && online[0]
    ensures var t := Step(cfg, s, Open(task, 0, Ready(online)));
            && t.slots == s.slots && |t.list| == |s.list| + 1 && t.list[1..] == s.list
            && t.list[0].task == task && t.list[0].id == |s.list|
            && (forall i :: 0 <= i < cfg.cpus ==> (t.list[0].rings[i].open <==> i == 0))
  {
  }

  // The second of two consumers closes its only ring and leaves the list.
  lemma LastRing(cfg: Config, s: State)
    requires Inv(cfg, s) && |s.list| == 2 && s.list[1].task == 0 && 0 < cfg.cpus
    requires forall i :: 0 <= i < cfg.cpus ==> (s.list[1].rings[i].open <==> i == 0)
    ensures Step(cfg, s, Release(0, 0)).list == [s.list[0]]
  {
  }

  function Prelude(online: seq<bool>): seq<Action> {
    [Open(0, 0, Ready(online))] + ([Open(1, 0, Ready(online))] + [Release(0, 0)])
  }

  // Task 0 opens, task 1 opens, task 0 closes: task 1 is left, with id 1.
  predicate OneLeft(list: seq<Consumer>) {
    |list| == 1 && list[0].task == 1 && list[0].id == 1
  }

  lemma SecondOpens(cfg: Config, s: State, online: seq<bool>)
    requires Inv(cfg, s) && |s.list| == 1 && 2 <= cfg.max && s.list[0].task == 0
    requires forall i :: 0 <= i < cfg.cpus ==> (s.list[0].rings[i].open <==> i == 0)
    requires 0 < cfg.cpus == |online| && online[0]
    ensures OneLeft(Exec(cfg, s, [Open(1, 0, Ready(online))] + [Release(0, 0)]).list)
  {
    var a := Open(1, 0, Ready(online));
    FirstOpen(cfg, s, 1, online);
    OneMore(cfg, s, a, [Release(0, 0)]);
    var t := Step(cfg, s, a);
    assert t.list[1] == t.list[1..][0];
    LastRing(cfg, t);
    assert [Release(0, 0)] + [] == [Release(0, 0)];
    OneMore(cfg, t, Release(0, 0), []);
  }

  lemma PreludeLeavesOne(cfg: Config, s: State, online: seq<bool>)
    requires Initial(s) && cfg.max >= 2 && 0 < cfg.cpus == |online| && online[0]
    ensures AllWellFormed(cfg, Prelude(online)) && OneLeft(Exec(cfg, s, Prelude(online)).list)
  {
    FirstOpen(cfg, s, 0, online);
    OneMore(cfg, s, Open(0, 0, Ready(online)), [Open(1, 0, Ready(online))] + [Release(0, 0)]);
    SecondOpens(cfg, Step(cfg, s, Open(0, 0, Ready(online))), online);
  }

  // Then a third task gets the id that task 1 still holds.
  lemma IdsCanCollide(cfg: Config, s: State, online: seq<bool>)
    requires Initial(s) && cfg.max >= 2 && 0 < cfg.cpus == |online| && online[0]
    ensures var run := Prelude(online) + [Open(2, 0, Ready(online))];
            AllWellFormed(cfg, run) && !DistinctIds(Exec(cfg, s, run).list) && CanSteal(cfg, Exec(cfg, s, run))
  {
    var a := Open(2, 0, Ready(online));
    PreludeLeavesOne(cfg, s, online);
    ExecSnoc(cfg, s, Prelude(online), a);
    SecondComer(cfg, Exec(cfg, s, Prelude(online)), online);
    CanStealIff(cfg, Exec(cfg, s, Prelude(online) + [a]));
  }

  lemma SecondComer(cfg: Config, s: State, online: seq<bool>)
    requires Inv(cfg, s) && OneLeft(s.list) && 1 < cfg.max && 0 < cfg.cpus == |online| && online[0]
    ensures !DistinctIds(Step(cfg, s, Open(2, 0, Ready(online))).list)
  {
    var a := Open(2, 0, Ready(online));
    FirstOpen(cfg, s, 2, online);
    var t := Step(cfg, s, a);
    assert t.list[0].id == 1 && t.list[1] == t.list[1..][0];
  }

  // Or task 1 enables a tracepoint, and a third task's open that fails detaches it.
  lemma FailedOpenRobs(cfg: Config, s: State, online: seq<bool>)
    requires Initial(s) && cfg.max >= 2 && 0 < cfg.cpus == |online| && online[0]
    ensures var run := Prelude(online) + [SetTp(1, 0, true, {})];
            AllWellFormed(cfg, run) && Steals(cfg, Exec(cfg, s, run), Open(2, 0, RingFails))
  {
    var a := SetTp(1, 0, true, {});
    PreludeLeavesOne(cfg, s, online);
    ExecSnoc(cfg, s, Prelude(online), a);
    LoneEnable(cfg, Exec(cfg, s, Prelude(online)));
    LoneRobbed(cfg, Exec(cfg, s, Prelude(online) + [a]));
  }

  lemma LoneRobbed(cfg: Config, s: State)
    requires Inv(cfg, s) && OneLeft(s.list) && Exposed(s) && cfg.max >= 2 && 0 < cfg.cpus
    ensures Steals(cfg, s, Open(2, 0, RingFails))
  {
    FailedOpenStealsIff(cfg, s, 2, 0);
  }

  lemma LoneEnable(cfg: Config, s: State)
    requires Inv(cfg, s) && OneLeft(s.list)
    ensures var t := Step(cfg, s, SetTp(1, 0, true, {})); Inv(cfg, t) && OneLeft(t.list) && Exposed(t)
  {
    Toggle(cfg, s, 0, 0, true);
    ToggledExposes(cfg, s, Step(cfg, s, SetTp(1, 0, true, {})));
  }

  lemma ToggledExposes(cfg: Config, s: State, t: State)
    requires Inv(cfg, s) && OneLeft(s.list) && Toggled(cfg, s, t, 0, 0, true)
    ensures OneLeft(t.list) && Exposed(t)
  {
    OnlyOwnReference(cfg, s, 0, 0);
    assert t.slots[0].refs == {|t.list|} && 0 in t.list[0].mask;
  }
}
