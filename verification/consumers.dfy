/**
 The registry from the point of view of one task: what each call does to the task's own consumer,
 and that it does nothing to the consumers of others.
 */
module Consumers {
  import opened Bytes
  import opened Tracepoints
  import opened Registry

  // The consumer of a task, if it has one.
  function Of(list: seq<Consumer>, task: nat): Option<Consumer> {
    var k := Find(list, task);
    if k < |list| then Some(list[k]) else None
  }

  lemma OfAt(list: seq<Consumer>, k: nat)
    requires OnePerTask(list) && k < |list|
    ensures Find(list, list[k].task) == k && Of(list, list[k].task) == Some(list[k])
  {
    assert forall j :: 0 <= j < k ==> list[j].task != list[k].task;
  }

  lemma OfUpdated(list: seq<Consumer>, k: nat, c: Consumer, task: nat)
    requires OnePerTask(list) && k < |list| && c.task == list[k].task
    ensures Of(list[k := c], task) == if task == c.task then Some(c) else Of(list, task)
  {
    var now := list[k := c];
    assert OnePerTask(now);
    if Find(list, task) < |list| {
      OfAt(now, Find(list, task));
    }
    OfAt(now, k);
  }

  lemma OfAdded(list: seq<Consumer>, c: Consumer, task: nat)
    ensures Of([c] + list, task) == if task == c.task then Some(c) else Of(list, task)
  {
    assert ([c] + list)[1..] == list;
  }

  // The list without its k-th consumer.
  predicate Lacks(list: seq<Consumer>, k: nat, now: seq<Consumer>) {
    k < |list| == |now| + 1 && forall i :: 0 <= i < |now| ==> now[i] == list[if i < k then i else i + 1]
  }

  lemma OfLacking(list: seq<Consumer>, k: nat, now: seq<Consumer>, task: nat)
    requires OnePerTask(list) && Lacks(list, k, now)
    ensures Of(now, task) == if task == list[k].task then None else Of(list, task)
  {
    assert OnePerTask(now);
    var j := Find(list, task);
    if task != list[k].task && j < |list| {
      OfAt(now, if j < k then j else j - 1);
    } else {
      OfAt(list, k);
      NotListed(now, task);
    }
  }

  lemma NotListed(list: seq<Consumer>, task: nat)
    requires forall i :: 0 <= i < |list| ==> list[i].task != task
    ensures Of(list, task) == None
  {
  }

  lemma OfRemoved(list: seq<Consumer>, k: nat, task: nat)
    requires OnePerTask(list) && k < |list|
    ensures Of(list[..k] + list[k + 1..], task) == if task == list[k].task then None else Of(list, task)
  {
    OfLacking(list, k, list[..k] + list[k + 1..], task);
  }

  // --------------------------------------------------------------------------------------
  // The three calls
  // --------------------------------------------------------------------------------------

  // The consumer with a ring open, if it is online.
  function WithRing(c: Consumer, ring: nat): Consumer
    requires ring < |c.rings|
  {
    if c.rings[ring].online then c.(rings := c.rings[ring := c.rings[ring].(open := true)]) else c
  }

  function WithoutRing(c: Consumer, ring: nat): Consumer
    requires ring < |c.rings|
  {
    c.(rings := c.rings[ring := c.rings[ring].(open := false)])
  }

  lemma RingsOf(cfg: Config, s: State, task: nat)
    requires Inv(cfg, s)
    ensures Of(s.list, task).Some? ==> |Of(s.list, task).value.rings| == cfg.cpus
  {
    var k := Find(s.list, task);
    assert k < |s.list| ==> ConsumerInv(cfg, s.list[k]);
  }

  lemma OpenRingOf(cfg: Config, s: State, k: nat, ring: nat, task: nat)
    requires Inv(cfg, s) && k < |s.list| && ring < cfg.cpus
    ensures ring < |s.list[k].rings|
    ensures Of(OpenRing(s, k, ring).0.list, task) ==
            if task == s.list[k].task then Some(WithRing(s.list[k], ring)) else Of(s.list, task)
  {
    var c := s.list[k];
    assert ConsumerInv(cfg, c);
    OfAt(s.list, k);
    OfUpdated(s.list, k, WithRing(c, ring), task);
    assert c.rings[ring].open ==> c.rings[ring := c.rings[ring].(open := true)] == c.rings;
  }

  // An open: a task without a consumer gets one if there is a place and memory, and its ring is opened
  // if it is online.
  lemma OpenOf(cfg: Config, s: State, a: Action, task: nat)
    requires Inv(cfg, s) && WellFormed(cfg, a) && a.Open?
    ensures task != a.task ==> Of(Step(cfg, s, a).list, task) == Of(s.list, task)
    ensures Of(s.list, a.task).Some? ==>
              && a.ring < |Of(s.list, a.task).value.rings|
              && Of(Step(cfg, s, a).list, a.task) == Some(WithRing(Of(s.list, a.task).value, a.ring))
    ensures Of(s.list, a.task).None? ==>
              Of(Step(cfg, s, a).list, a.task) ==
              if |s.list| < cfg.max && a.alloc.Ready?
              then Some(WithRing(Consumer(a.task, |s.list|, {}, FreshRings(a.alloc.online)), a.ring))
              else None
  {
    var k := Find(s.list, a.task);
    if k < |s.list| {
      OpenRingOf(cfg, s, k, a.ring, task);
      OpenRingOf(cfg, s, k, a.ring, a.task);
    } else if |s.list| < cfg.max && a.alloc.Ready? {
      var c := Consumer(a.task, |s.list|, {}, FreshRings(a.alloc.online));
      AddInv(cfg, s, c);
      OfAdded(s.list, c, task);
      OpenRingOf(cfg, s.(list := [c] + s.list), 0, a.ring, task);
      OpenRingOf(cfg, s.(list := [c] + s.list), 0, a.ring, a.task);
    }
  }

  // A close: the ring is closed if it was open, and a consumer without open rings leaves.
  lemma ReleaseOf(cfg: Config, s: State, a: Action, task: nat)
    requires Inv(cfg, s) && WellFormed(cfg, a) && a.Release?
    ensures task != a.task ==> Of(Step(cfg, s, a).list, task) == Of(s.list, task)
    ensures match Of(s.list, a.task)
            case None => Of(Step(cfg, s, a).list, a.task) == None
            case Some(c) =>
              && a.ring < |c.rings|
              && Of(Step(cfg, s, a).list, a.task) ==
                 if !c.rings[a.ring].open then Some(c)
                 else if AnyOpen(WithoutRing(c, a.ring).rings) then Some(WithoutRing(c, a.ring))
                 else None
  {
    RingsOf(cfg, s, a.task);
    var k := Find(s.list, a.task);
    if k < |s.list| && s.list[k].rings[a.ring].open {
      var t := RingClosed(s, k, a.ring);
      RingsInv(cfg, s, k, t.list[k].rings);
      OfUpdated(s.list, k, t.list[k], task);
      OfUpdated(s.list, k, t.list[k], a.task);
      if !AnyOpen(t.list[k].rings) {
        DismissedOf(cfg, t, k, task);
        DismissedOf(cfg, t, k, a.task);
      }
    }
  }

  lemma DismissedOf(cfg: Config, s: State, k: nat, task: nat)
    requires Inv(cfg, s) && k < |s.list|
    ensures Of(Dismissed(cfg, s, k).list, task) == if task == s.list[k].task then None else Of(s.list, task)
  {
    var t := Trace(cfg, s, k, {}, {});
    TraceInv(cfg, s, k, {}, {});
    OfUpdated(s.list, k, t.list[k], task);
    OfRemoved(t.list, k, task);
  }

  // No registration of a wanted tracepoint below tp fails, so the request gets as far as tp.
  predicate GetsTo(cfg: Config, s: State, mask: set<nat>, tp: nat, fails: set<nat>)
    requires |s.slots| == PROGRAMS && tp < PROGRAMS
  {
    forall j :: 0 <= j < tp ==> !Refused(s.slots[j], j in cfg.managed, j in mask, j in fails)
  }

  // A tracepoint call: only the tracepoint that is named enters or leaves the mask, and only if the
  // request gets to it.
  lemma TpMask(cfg: Config, s: State, k: nat, tp: nat, on: bool, fails: set<nat>)
    requires Inv(cfg, s) && k < |s.list| && tp < PROGRAMS
    ensures var mask := s.list[k].mask;
            var t := Trace(cfg, s, k, Refer(mask, tp, on), fails);
            && t.list[k] == s.list[k].(mask := t.list[k].mask)
            && forall i: nat :: i in t.list[k].mask <==>
                                if i == tp && GetsTo(cfg, s, mask, tp, fails) then on else i in mask
  {
    var mask := s.list[k].mask;
    var wants := Refer(mask, tp, on);
    var stop := Stop(s.slots, cfg.managed, wants, fails, 0);
    assert forall j :: 0 <= j < tp ==> (j in wants <==> j in mask);
    assert stop < tp ==> Refused(s.slots[stop], stop in cfg.managed, stop in mask, stop in fails);
    assert GetsTo(cfg, s, mask, tp, fails) <==> stop >= tp;
  }

  lemma SetTpOf(cfg: Config, s: State, a: Action, task: nat)
    requires Inv(cfg, s) && WellFormed(cfg, a) && a.SetTp?
    ensures task != a.task ==> Of(Step(cfg, s, a).list, task) == Of(s.list, task)
    ensures match Of(s.list, a.task)
            case None => Of(Step(cfg, s, a).list, a.task) == None
            case Some(c) =>
              match Of(Step(cfg, s, a).list, a.task)
              case None => false
              case Some(d) =>
                && d == c.(mask := d.mask)
                && forall i: nat :: i in d.mask <==>
                     if i == a.tp && a.tp < PROGRAMS && GetsTo(cfg, s, c.mask, a.tp, a.fails) then a.on else i in c.mask
  {
    var k := Find(s.list, a.task);
    if k < |s.list| && a.tp < PROGRAMS {
      var c := Trace(cfg, s, k, Refer(s.list[k].mask, a.tp, a.on), a.fails).list[k];
      TpMask(cfg, s, k, a.tp, a.on, a.fails);
      OfUpdated(s.list, k, c, task);
      OfUpdated(s.list, k, c, a.task);
    }
  }
}
