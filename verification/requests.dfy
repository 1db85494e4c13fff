/**
 When one consumer's disable or close can take away a tracepoint another consumer still
 asks for. Consumer ids are bit numbers in the reference sets, and a new consumer gets the
 number of consumers already listed, which another consumer may hold (driver/main.c).
 */
module Requests {
  import opened Tracepoints
  import opened Registry

  predicate DistinctIds(list: seq<Consumer>) {
    forall j, k :: 0 <= j < k < |list| ==> list[j].id != list[k].id
  }

  // A consumer's bit in a reference set means the tracepoint is in the consumer's own mask.
  predicate Masked(list: seq<Consumer>, slots: seq<Slot>) {
    forall k, i :: 0 <= k < |list| && 0 <= i < |slots| && list[k].id in slots[i].refs ==> i in list[k].mask
  }

  // Every tracepoint in a consumer's mask has the consumer's bit.
  predicate Requested(list: seq<Consumer>, slots: seq<Slot>) {
    forall k, i :: 0 <= k < |list| && 0 <= i < |slots| && i in list[k].mask ==> list[k].id in slots[i].refs
  }

  lemma TraceKeepsMasked(cfg: Config, s: State, k: nat, wants: set<nat>, fails: set<nat>)
    requires Inv(cfg, s) && k < |s.list| && DistinctIds(s.list) && Masked(s.list, s.slots)
    ensures var t := Trace(cfg, s, k, wants, fails); Masked(t.list, t.slots)
  {
  }

  lemma TraceKeepsRequested(cfg: Config, s: State, k: nat, wants: set<nat>)
    requires Inv(cfg, s) && k < |s.list| && DistinctIds(s.list) && Requested(s.list, s.slots)
    requires forall i :: i in wants ==> i < PROGRAMS
    ensures var t := Trace(cfg, s, k, wants, {}); Requested(t.list, t.slots) && t.list[k].mask == wants
  {
    var t := Trace(cfg, s, k, wants, {});
    ForcedAll(s.slots, cfg.managed, s.list[k].id, wants, {});
    assert ConsumerInv(cfg, s.list[k]);
    assert t.list[k].mask == wants;
    forall j, i | 0 <= j < |t.list| && 0 <= i < PROGRAMS && i in t.list[j].mask
      ensures t.list[j].id in t.slots[i].refs
    {
      if j != k {
        assert s.list[j].id != s.list[k].id;
        assert s.list[j].id in s.slots[i].refs;
      }
    }
  }

  // A first open keeps ids distinct exactly when no listed consumer holds the current count as its id.
  lemma OpenKeepsDistinctIff(cfg: Config, s: State, task: nat, ring: nat, online: seq<bool>)
    requires Inv(cfg, s) && WellFormed(cfg, Open(task, ring, Ready(online)))
    requires DistinctIds(s.list) && Find(s.list, task) == |s.list| < cfg.max
    ensures DistinctIds(Opened(cfg, s, task, ring, Ready(online)).0.list) <==> |s.list| !in Ids(s.list)
  {
    var t := Opened(cfg, s, task, ring, Ready(online)).0;
    assert t.list[0].id == |s.list|;
    assert forall k :: 0 < k < |t.list| ==> t.list[k] == s.list[k - 1];
    if |s.list| in Ids(s.list) {
      var j :| 0 <= j < |s.list| && s.list[j].id == |s.list|;
      assert t.list[j + 1].id == t.list[0].id;
    }
  }

  predicate Agrees(s: State) {
    DistinctIds(s.list) && Masked(s.list, s.slots)
  }

  // The step does not create a consumer whose id is in use; both the successful and the failed
  // first open use the current count as an id.
  predicate FreshId(s: State, a: Action) {
    a.Open? && Find(s.list, a.task) == |s.list| ==> |s.list| !in Ids(s.list)
  }

  predicate Succeeds(a: Action) {
    a.SetTp? ==> a.fails == {}
  }

  // A step from s to t leaves ids distinct and breaks neither direction of the agreement.
  predicate Keeps(s: State, t: State) {
    && DistinctIds(t.list)
    && (Masked(s.list, s.slots) ==> Masked(t.list, t.slots))
    && (Requested(s.list, s.slots) ==> Requested(t.list, t.slots))
  }

  lemma RingsKeep(s: State, k: nat, rings: seq<Ring>)
    requires k < |s.list| && DistinctIds(s.list)
    ensures Keeps(s, s.(list := s.list[k := s.list[k].(rings := rings)]))
  {
  }

  lemma UnlistKeeps(s: State, k: nat)
    requires k < |s.list| && DistinctIds(s.list)
    ensures Keeps(s, Unlisted(s, k))
  {
  }

  lemma AddKeeps(cfg: Config, s: State, c: Consumer)
    requires Inv(cfg, s) && c.id !in Ids(s.list) && c.mask == {} && DistinctIds(s.list)
    ensures Keeps(s, s.(list := [c] + s.list))
  {
  }

  // A failed first open strips the id it would have used, and nothing else.
  lemma StripKeeps(cfg: Config, s: State, id: nat)
    requires Inv(cfg, s) && id !in Ids(s.list)
    ensures forall i :: 0 <= i < PROGRAMS ==> Forced(s.slots, cfg.managed, id, {}, {})[i].refs == s.slots[i].refs
  {
  }

  lemma OpenRingKeeps(s: State, k: nat, ring: nat)
    requires k < |s.list| && ring < |s.list[k].rings| && DistinctIds(s.list)
    ensures Keeps(s, OpenRing(s, k, ring).0)
  {
  }

  lemma OpenedKeeps(cfg: Config, s: State, task: nat, ring: nat, alloc: Alloc)
    requires Inv(cfg, s) && WellFormed(cfg, Open(task, ring, alloc)) && DistinctIds(s.list)
    requires FreshId(s, Open(task, ring, alloc))
    ensures Keeps(s, Opened(cfg, s, task, ring, alloc).0)
  {
    var k := Find(s.list, task);
    if k < |s.list| {
      OpenRingKeeps(s, k, ring);
    } else if |s.list| < cfg.max {
      match alloc
      case Refuse =>
      case RingFails => StripKeeps(cfg, s, |s.list|);
      case Ready(online) =>
        var c := Consumer(task, |s.list|, {}, FreshRings(online));
        AddKeeps(cfg, s, c);
        OpenRingKeeps(s.(list := [c] + s.list), 0, ring);
    }
  }

  lemma ReleasedKeeps(cfg: Config, s: State, task: nat, ring: nat)
    requires Inv(cfg, s) && ring < cfg.cpus && DistinctIds(s.list)
    ensures Keeps(s, Released(cfg, s, task, ring).0)
  {
    var k := Find(s.list, task);
    if k < |s.list| && s.list[k].rings[ring].open {
      var t := RingClosed(s, k, ring);
      RingsKeep(s, k, t.list[k].rings);
      RingsInv(cfg, s, k, t.list[k].rings);
      if !AnyOpen(t.list[k].rings) {
        DismissedKeeps(cfg, t, k);
        assert Released(cfg, s, task, ring).0 == Dismissed(cfg, t, k);
      } else {
        assert Released(cfg, s, task, ring).0 == t;
      }
    }
  }

  lemma DismissedKeeps(cfg: Config, s: State, k: nat)
    requires Inv(cfg, s) && k < |s.list| && DistinctIds(s.list)
    ensures Keeps(s, Dismissed(cfg, s, k))
  {
    TraceKeeps(cfg, s, k, {}, {});
    UnlistKeeps(Trace(cfg, s, k, {}, {}), k);
  }

  lemma TraceKeeps(cfg: Config, s: State, k: nat, wants: set<nat>, fails: set<nat>)
    requires Inv(cfg, s) && k < |s.list| && DistinctIds(s.list)
    requires forall i :: i in wants ==> i < PROGRAMS
    ensures var t := Trace(cfg, s, k, wants, fails);
            && DistinctIds(t.list)
            && (Masked(s.list, s.slots) ==> Masked(t.list, t.slots))
            && (fails == {} && Requested(s.list, s.slots) ==> Requested(t.list, t.slots))
  {
    if Masked(s.list, s.slots) {
      TraceKeepsMasked(cfg, s, k, wants, fails);
    }
    if fails == {} && Requested(s.list, s.slots) {
      TraceKeepsRequested(cfg, s, k, wants);
    }
  }

  lemma TpSetKeeps(cfg: Config, s: State, task: nat, tp: nat, on: bool, fails: set<nat>)
    requires Inv(cfg, s) && DistinctIds(s.list)
    ensures var t := TpSet(cfg, s, task, tp, on, fails).0;
            && DistinctIds(t.list)
            && (Masked(s.list, s.slots) ==> Masked(t.list, t.slots))
            && (fails == {} && Requested(s.list, s.slots) ==> Requested(t.list, t.slots))
  {
    var k := Find(s.list, task);
    if k < |s.list| && tp < PROGRAMS {
      assert ConsumerInv(cfg, s.list[k]);
      TraceKeeps(cfg, s, k, Refer(s.list[k].mask, tp, on), fails);
    }
  }

  lemma StepKeeps(cfg: Config, s: State, a: Action)
    requires Inv(cfg, s) && WellFormed(cfg, a) && FreshId(s, a) && Agrees(s)
    ensures Agrees(Step(cfg, s, a))
    ensures var t := Step(cfg, s, a); Succeeds(a) && Requested(s.list, s.slots) ==> Requested(t.list, t.slots)
  {
    match a
    case Open(task, ring, alloc) => OpenedKeeps(cfg, s, task, ring, alloc);
    case Release(task, ring) => ReleasedKeeps(cfg, s, task, ring);
    case SetTp(task, tp, on, fails) => TpSetKeeps(cfg, s, task, tp, on, fails);
  }

  predicate FreshRun(cfg: Config, s: State, run: seq<Action>)
    requires Inv(cfg, s) && AllWellFormed(cfg, run)
    decreases |run|
  {
    run == [] ||
    (StepInv(cfg, s, run[0]);
     FreshId(s, run[0]) && FreshRun(cfg, Step(cfg, s, run[0]), run[1..]))
  }

  // While ids stay distinct a bit implies the mask, and where no registration failed the two are equal.
  lemma {:induction false} BitsFollowMasks(cfg: Config, s: State, run: seq<Action>)
    requires Inv(cfg, s) && Agrees(s) && AllWellFormed(cfg, run) && FreshRun(cfg, s, run)
    ensures Agrees(Exec(cfg, s, run))
    ensures var t := Exec(cfg, s, run);
            (forall i :: 0 <= i < |run| ==> Succeeds(run[i])) && Requested(s.list, s.slots) ==>
              Requested(t.list, t.slots)
    decreases |run|
  {
    if run != [] {
      StepInv(cfg, s, run[0]);
      StepKeeps(cfg, s, run[0]);
      BitsFollowMasks(cfg, Step(cfg, s, run[0]), run[1..]);
    }
  }
}
