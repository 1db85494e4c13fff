/**
 Which opens, closes and tracepoint calls succeed, with which code the others fail, and what they
 leave: the rings that are open and the tracepoints that each task asks for (driver/main.c).
 */
module Sessions {
  import opened Bytes
  import opened Tracepoints
  import opened Registry
  import opened Consumers
  import opened Histories

  predicate IsOpen(list: seq<Consumer>, task: nat, ring: nat) {
    && Of(list, task).Some?
    && var rings := Of(list, task).value.rings; ring < |rings| && rings[ring].open
  }

  // The ring exists for the task and its CPU is online.
  predicate IsOnline(list: seq<Consumer>, task: nat, ring: nat) {
    && Of(list, task).Some?
    && var rings := Of(list, task).value.rings; ring < |rings| && rings[ring].online
  }

  function OpenCode(cfg: Config, s: State, a: Action): Code
    requires Inv(cfg, s) && WellFormed(cfg, a) && a.Open?
  {
    Opened(cfg, s, a.task, a.ring, a.alloc).1
  }

  function ReleaseCode(cfg: Config, s: State, a: Action): Code
    requires Inv(cfg, s) && WellFormed(cfg, a) && a.Release?
  {
    Released(cfg, s, a.task, a.ring).1
  }

  function SetTpCode(cfg: Config, s: State, a: Action): Code
    requires Inv(cfg, s) && WellFormed(cfg, a) && a.SetTp?
  {
    TpSet(cfg, s, a.task, a.tp, a.on, a.fails).1
  }

  // An open succeeds exactly if afterwards the ring is open and before it was not. It is out of memory
  // only for a task that is new and has a place, busy if there is no place or the ring is open
  // already, and without a device if the ring's CPU is not online.
  lemma OpenCodeIs(cfg: Config, s: State, a: Action)
    requires Inv(cfg, s) && WellFormed(cfg, a) && a.Open?
    ensures var t, first := Step(cfg, s, a).list, Of(s.list, a.task).None?;
            var code := OpenCode(cfg, s, a);
            && (code == NoMemory <==> first && |s.list| < cfg.max && !a.alloc.Ready?)
            && (code == NoDevice <==> Of(t, a.task).Some? && !IsOnline(t, a.task, a.ring))
            && (code == Busy <==> (first && |s.list| >= cfg.max) ||
                                  (IsOpen(s.list, a.task, a.ring) && IsOnline(s.list, a.task, a.ring)))
            && (code == Done <==> IsOnline(t, a.task, a.ring) && !IsOpen(s.list, a.task, a.ring))
            && (code == Done ==> IsOpen(t, a.task, a.ring))
            && code != Invalid
  {
    OpenOf(cfg, s, a, a.task);
  }

  // No call opens or closes any other ring.
  lemma OpenRings(cfg: Config, s: State, a: Action, task: nat, ring: nat)
    requires Inv(cfg, s) && WellFormed(cfg, a)
    ensures IsOpen(Step(cfg, s, a).list, task, ring) <==>
            || (a.Open? && a.task == task && a.ring == ring && OpenCode(cfg, s, a) == Done)
            || (IsOpen(s.list, task, ring) && !(a.Release? && a.task == task && a.ring == ring))
  {
    match a
    case Open(_, _, _) =>
      OpenOf(cfg, s, a, task);
      OpenCodeIs(cfg, s, a);
    case Release(_, _) =>
      ReleaseOf(cfg, s, a, task);
      if a.task == task && ring != a.ring && IsOpen(s.list, task, ring) {
        assert WithoutRing(Of(s.list, task).value, a.ring).rings[ring].open;
      }
    case SetTp(_, _, _, _) => SetTpOf(cfg, s, a, task);
  }

  // A close succeeds exactly on an open ring; otherwise it is busy and does nothing.
  lemma ReleaseCodeIs(cfg: Config, s: State, a: Action)
    requires Inv(cfg, s) && WellFormed(cfg, a) && a.Release?
    ensures ReleaseCode(cfg, s, a) == if IsOpen(s.list, a.task, a.ring) then Done else Busy
    ensures !IsOpen(s.list, a.task, a.ring) ==> Step(cfg, s, a) == s
  {
    RingsOf(cfg, s, a.task);
  }

  // A tracepoint call fails exactly for a task without a consumer or a tracepoint that does not exist,
  // and then does nothing.
  lemma SetTpCodeIs(cfg: Config, s: State, a: Action)
    requires Inv(cfg, s) && WellFormed(cfg, a) && a.SetTp?
    ensures SetTpCode(cfg, s, a) ==
            if Of(s.list, a.task).None? then Busy else if a.tp >= PROGRAMS then Invalid else Done
    ensures SetTpCode(cfg, s, a) != Done ==> Step(cfg, s, a) == s
  {
  }

  // The i-th call opened the ring and no call has closed it since.
  ghost predicate OpenFrom(cfg: Config, s: State, run: seq<Action>, task: nat, ring: nat, i: nat)
    requires Inv(cfg, s) && AllWellFormed(cfg, run)
  {
    && i < |run| && run[i].Open? && run[i].task == task && run[i].ring == ring
    && OpenCode(cfg, At(cfg, s, run, i), run[i]) == Done
    && forall j :: i < j < |run| ==> !(run[j].Release? && run[j].task == task && run[j].ring == ring)
  }

  // In every run from module start a ring is open exactly if an open of it has succeeded and the task
  // has not closed it since.
  lemma OpenIff(cfg: Config, s: State, run: seq<Action>, task: nat, ring: nat)
    requires Initial(s) && AllWellFormed(cfg, run)
    ensures IsOpen(Exec(cfg, s, run).list, task, ring) <==> exists i: nat :: OpenFrom(cfg, s, run, task, ring, i)
  {
    var p := (t: State) => IsOpen(t.list, task, ring);
    var starts := (t: State, a: Action) =>
      Inv(cfg, t) && WellFormed(cfg, a) && a.Open? && a.task == task && a.ring == ring && OpenCode(cfg, t, a) == Done;
    var ends := (t: State, a: Action) => a.Release? && a.task == task && a.ring == ring;
    forall t, a | Inv(cfg, t) && WellFormed(cfg, a)
      ensures Governed(cfg, p, starts, ends, t, a)
    {
      OpenRings(cfg, t, a, task, ring);
    }
    AtEnds(cfg, s, run);
    Since(cfg, s, run, p, starts, ends, |run|);
    assert forall i: nat :: SinceAt(cfg, s, run, starts, ends, i, |run|) <==> OpenFrom(cfg, s, run, task, ring, i);
  }

  // --------------------------------------------------------------------------------------
  // The tracepoints a task asks for
  // --------------------------------------------------------------------------------------

  predicate Asks(list: seq<Consumer>, task: nat, tp: nat) {
    Of(list, task).Some? && tp in Of(list, task).value.mask
  }

  // A call by the task that turns the tracepoint on or off, and gets to it.
  predicate Turns(cfg: Config, s: State, a: Action, task: nat, tp: nat, on: bool)
    requires |s.slots| == PROGRAMS
  {
    && a.SetTp? && a.task == task && a.tp == tp < PROGRAMS && a.on == on
    && Of(s.list, task).Some? && GetsTo(cfg, s, Of(s.list, task).value.mask, tp, a.fails)
  }

  // Where no registration fails every call gets to its tracepoint.
  lemma AlwaysTurns(cfg: Config, s: State, mask: set<nat>, tp: nat)
    requires |s.slots| == PROGRAMS && tp < PROGRAMS
    ensures GetsTo(cfg, s, mask, tp, {})
  {
  }

  // A call that turns the tracepoint off for the task, or after which the task has no consumer.
  predicate Ceases(cfg: Config, s: State, a: Action, task: nat, tp: nat)
    requires Inv(cfg, s) && WellFormed(cfg, a)
  {
    Turns(cfg, s, a, task, tp, false) || Of(Step(cfg, s, a).list, task).None?
  }

  // One call changes what one task asks for in one tracepoint, unless the task's consumer leaves.
  lemma StepAsks(cfg: Config, s: State, a: Action, task: nat, tp: nat)
    requires Inv(cfg, s) && WellFormed(cfg, a)
    ensures Asks(Step(cfg, s, a).list, task, tp) <==>
            || Turns(cfg, s, a, task, tp, true)
            || (Asks(s.list, task, tp) && !Ceases(cfg, s, a, task, tp))
  {
    match a
    case Open(_, _, _) => OpenOf(cfg, s, a, task);
    case Release(_, _) => ReleaseOf(cfg, s, a, task);
    case SetTp(_, _, _, _) => SetTpAsks(cfg, s, a, task, tp);
  }

  lemma SetTpAsks(cfg: Config, s: State, a: Action, task: nat, tp: nat)
    requires Inv(cfg, s) && WellFormed(cfg, a) && a.SetTp?
    ensures Of(Step(cfg, s, a).list, task).Some? <==> Of(s.list, task).Some?
    ensures Asks(Step(cfg, s, a).list, task, tp) <==>
            Turns(cfg, s, a, task, tp, true) || (Asks(s.list, task, tp) && !Turns(cfg, s, a, task, tp, false))
  {
    SetTpOf(cfg, s, a, task);
  }

  // The i-th call turned the tracepoint on for the task, and since then no call has turned it off and
  // the task has had a consumer.
  ghost predicate AsksFrom(cfg: Config, s: State, run: seq<Action>, task: nat, tp: nat, i: nat)
    requires Inv(cfg, s) && AllWellFormed(cfg, run)
  {
    && i < |run| && Turns(cfg, At(cfg, s, run, i), run[i], task, tp, true)
    && forall j :: i < j < |run| ==> !Ceases(cfg, At(cfg, s, run, j), run[j], task, tp)
  }

  // In every run from module start a task asks for exactly the tracepoints whose last call of its
  // consumer turned them on.
  lemma AsksIff(cfg: Config, s: State, run: seq<Action>, task: nat, tp: nat)
    requires Initial(s) && AllWellFormed(cfg, run)
    ensures Asks(Exec(cfg, s, run).list, task, tp) <==> exists i: nat :: AsksFrom(cfg, s, run, task, tp, i)
  {
    var p := (t: State) => Asks(t.list, task, tp);
    var starts := (t: State, a: Action) => |t.slots| == PROGRAMS && Turns(cfg, t, a, task, tp, true);
    var ends := (t: State, a: Action) => Inv(cfg, t) && WellFormed(cfg, a) && Ceases(cfg, t, a, task, tp);
    forall t, a | Inv(cfg, t) && WellFormed(cfg, a)
      ensures Governed(cfg, p, starts, ends, t, a)
    {
      StepAsks(cfg, t, a, task, tp);
    }
    AtEnds(cfg, s, run);
    Since(cfg, s, run, p, starts, ends, |run|);
    assert forall i: nat :: SinceAt(cfg, s, run, starts, ends, i, |run|) <==> AsksFrom(cfg, s, run, task, tp, i);
  }
}
