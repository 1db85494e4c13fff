/**
 A first open on a CPU that is not online lists its consumer and then fails. No close follows a
 failed open, so the consumer stays, without an open ring, and takes one of the places there
 are (driver/main.c).
 */
module Lingering {
  import opened Registry
  import opened Consumers
  import opened Histories

  // The task's consumer is listed and none of its rings is open.
  predicate Idle(list: seq<Consumer>, task: nat) {
    Of(list, task).Some? && !AnyOpen(Of(list, task).value.rings)
  }

  // A first open that lists a consumer although its ring is not online.
  predicate Lingers(cfg: Config, s: State, a: Action) {
    && WellFormed(cfg, a) && a.Open? && Of(s.list, a.task).None? && |s.list| < cfg.max
    && a.alloc.Ready? && !a.alloc.online[a.ring]
  }

  // An open of an online ring by a task that has a consumer.
  predicate Joins(s: State, a: Action, task: nat) {
    && a.Open? && a.task == task && Of(s.list, task).Some?
    && var rings := Of(s.list, task).value.rings; a.ring < |rings| && rings[a.ring].online
  }

  // What one call does: a task becomes idle only by such an open, and ceases to be idle only by
  // opening a ring that is online.
  lemma StepIdle(cfg: Config, s: State, a: Action, task: nat)
    requires Inv(cfg, s) && WellFormed(cfg, a)
    ensures Idle(Step(cfg, s, a).list, task) <==>
            (Lingers(cfg, s, a) && a.task == task) || (Idle(s.list, task) && !Joins(s, a, task))
  {
    match a
    case Open(_, ring, alloc) =>
      OpenOf(cfg, s, a, task);
      if Of(s.list, task).Some? && task == a.task {
        OpenedIdle(Of(s.list, task).value, ring);
      } else if task == a.task && alloc.Ready? {
        OpenedIdle(Consumer(task, |s.list|, {}, FreshRings(alloc.online)), ring);
      }
    case Release(_, _) => ReleaseOf(cfg, s, a, task);
    case SetTp(_, _, _, _) => SetTpOf(cfg, s, a, task);
  }

  lemma OpenedIdle(c: Consumer, ring: nat)
    requires ring < |c.rings|
    ensures AnyOpen(WithRing(c, ring).rings) <==> AnyOpen(c.rings) || c.rings[ring].online
  {
    var d := WithRing(c, ring);
    assert c.rings[ring].online ==> d.rings[ring].open;
    if i :| 0 <= i < |c.rings| && c.rings[i].open {
      assert d.rings[i].open;
    }
  }

  // The i-th call made the task's consumer linger, and the task has not opened an online ring since.
  ghost predicate LingersFrom(cfg: Config, s: State, run: seq<Action>, task: nat, i: nat)
    requires Inv(cfg, s) && AllWellFormed(cfg, run)
  {
    && i < |run| && run[i].task == task && Lingers(cfg, At(cfg, s, run, i), run[i])
    && forall j :: i < j < |run| ==> !Joins(At(cfg, s, run, j), run[j], task)
  }

  // In every run from module start exactly these consumers are listed without an open ring: those of
  // such an open whose task has not opened an online ring since. No close and no call of another task
  // removes them.
  lemma IdleIff(cfg: Config, s: State, run: seq<Action>, task: nat)
    requires Initial(s) && AllWellFormed(cfg, run)
    ensures Idle(Exec(cfg, s, run).list, task) <==> exists i: nat :: LingersFrom(cfg, s, run, task, i)
  {
    var p := (t: State) => Idle(t.list, task);
    var starts := (t: State, a: Action) => a.task == task && Lingers(cfg, t, a);
    var ends := (t: State, a: Action) => Joins(t, a, task);
    forall t, a | Inv(cfg, t) && WellFormed(cfg, a)
      ensures Governed(cfg, p, starts, ends, t, a)
    {
      StepIdle(cfg, t, a, task);
    }
    AtEnds(cfg, s, run);
    Since(cfg, s, run, p, starts, ends, |run|);
    assert forall i: nat :: SinceAt(cfg, s, run, starts, ends, i, |run|) <==> LingersFrom(cfg, s, run, task, i);
  }

  // Every listed consumer has an open ring.
  predicate AllOpen(list: seq<Consumer>) {
    forall k :: 0 <= k < |list| ==> AnyOpen(list[k].rings)
  }

  // So every place is taken by a consumer with an open ring exactly when each open of the other kind
  // was followed by one of an online ring.
  lemma AllOpenIff(cfg: Config, s: State, run: seq<Action>)
    requires Initial(s) && AllWellFormed(cfg, run)
    ensures AllOpen(Exec(cfg, s, run).list) <==>
            forall i | 0 <= i < |run| && Lingers(cfg, At(cfg, s, run, i), run[i]) ::
              exists j :: i < j < |run| && Joins(At(cfg, s, run, j), run[j], run[i].task)
  {
    var list := Exec(cfg, s, run).list;
    if !AllOpen(list) {
      var k :| 0 <= k < |list| && !AnyOpen(list[k].rings);
      OfAt(list, k);
      IdleIff(cfg, s, run, list[k].task);
    }
    forall i | 0 <= i < |run| && Lingers(cfg, At(cfg, s, run, i), run[i]) && AllOpen(list)
      ensures exists j :: i < j < |run| && Joins(At(cfg, s, run, j), run[j], run[i].task)
    {
      IdleIff(cfg, s, run, run[i].task);
      assert !LingersFrom(cfg, s, run, run[i].task, i);
    }
  }
}
