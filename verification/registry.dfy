/**
 The consumers of the capture device: opening and closing their per-CPU rings, the
 tracepoints they ask for, and what every run of such calls keeps (driver/main.c).
 */
module Registry {
  import opened Tracepoints

  // cpus possible CPUs, at most max consumers, and the tracepoints this build can register.
  datatype Config = Config(cpus: nat, max: nat, managed: set<nat>)

  datatype Ring = Ring(online: bool, open: bool)

  // A consumer: the thread that opened the device (its task), its bit number in the reference sets, the
  // tracepoints it holds to be attached for it, and its rings.
  datatype Consumer = Consumer(task: nat, id: nat, mask: set<nat>, rings: seq<Ring>)

  datatype State = State(list: seq<Consumer>, slots: seq<Slot>)

  datatype Code = Done | Busy | NoMemory | NoDevice | Invalid

  // How the allocations of a first open turn out: nothing allocated, a ring that cannot be
  // initialized, or rings for the CPUs that are online.
  datatype Alloc = Refuse | RingFails | Ready(online: seq<bool>)

  datatype Action =
    | Open(task: nat, ring: nat, alloc: Alloc)
    | Release(task: nat, ring: nat)
    | SetTp(task: nat, tp: nat, on: bool, fails: set<nat>)

  // The index of the first consumer of a task, |list| when there is none.
  function Find(list: seq<Consumer>, task: nat): (k: nat)
    ensures k <= |list|
    ensures k < |list| ==> list[k].task == task
    ensures forall j :: 0 <= j < k ==> list[j].task != task
  {
    if list == [] || list[0].task == task then 0 else 1 + Find(list[1..], task)
  }

  function Ids(list: seq<Consumer>): set<nat> {
    set k | 0 <= k < |list| :: list[k].id
  }

  function NewMask(mask: set<nat>, wants: set<nat>, processed: nat): set<nat> {
    (set i | i in mask && i >= processed) + (set i | i in wants && i < processed)
  }

  // set_consumer_tracepoints for the k-th consumer.
  function Trace(cfg: Config, s: State, k: nat, wants: set<nat>, fails: set<nat>): State
    requires k < |s.list| && |s.slots| == PROGRAMS
  {
    var c := s.list[k];
    var mask := NewMask(c.mask, wants, Processed(s.slots, cfg.managed, wants, fails));
    State(s.list[k := c.(mask := mask)], Forced(s.slots, cfg.managed, c.id, wants, fails))
  }

  // The last part of opening: the ring must be online and not open yet.
  function OpenRing(s: State, k: nat, ring: nat): (State, Code)
    requires k < |s.list| && ring < |s.list[k].rings|
  {
    var c := s.list[k];
    if !c.rings[ring].online then (s, NoDevice)
    else if c.rings[ring].open then (s, Busy)
    else (s.(list := s.list[k := c.(rings := c.rings[ring := c.rings[ring].(open := true)])]), Done)
  }

  function FreshRings(online: seq<bool>): (rings: seq<Ring>)
    ensures |rings| == |online|
    ensures forall i :: 0 <= i < |rings| ==> rings[i] == Ring(online[i], false)
  {
    if online == [] then [] else [Ring(online[0], false)] + FreshRings(online[1..])
  }

  // A new consumer's id is the number of consumers already listed.
  function Opened(cfg: Config, s: State, task: nat, ring: nat, alloc: Alloc): (State, Code)
    requires Inv(cfg, s) && ring < cfg.cpus
    requires alloc.Ready? ==> |alloc.online| == cfg.cpus
  {
    var k := Find(s.list, task);
    if k < |s.list| then OpenRing(s, k, ring)
    else if |s.list| >= cfg.max then (s, Busy)
    else match alloc
      case Refuse => (s, NoMemory)
      case RingFails => (s.(slots := Forced(s.slots, cfg.managed, |s.list|, {}, {})), NoMemory)
      case Ready(online) =>
        var c := Consumer(task, |s.list|, {}, FreshRings(online));
        OpenRing(s.(list := [c] + s.list), 0, ring)
  }

  predicate AnyOpen(rings: seq<Ring>) {
    exists i :: 0 <= i < |rings| && rings[i].open
  }

  function Unlisted(s: State, k: nat): State
    requires k < |s.list|
  {
    s.(list := s.list[..k] + s.list[k + 1..])
  }

  function RingClosed(s: State, k: nat, ring: nat): State
    requires k < |s.list| && ring < |s.list[k].rings|
  {
    var c := s.list[k];
    s.(list := s.list[k := c.(rings := c.rings[ring := c.rings[ring].(open := false)])])
  }

  // A consumer leaves: it gives up every tracepoint and is taken off the list.
  function Dismissed(cfg: Config, s: State, k: nat): State
    requires k < |s.list| && |s.slots| == PROGRAMS
  {
    Unlisted(Trace(cfg, s, k, {}, {}), k)
  }

  function Released(cfg: Config, s: State, task: nat, ring: nat): (State, Code)
    requires Inv(cfg, s) && ring < cfg.cpus
  {
    var k := Find(s.list, task);
    if k == |s.list| || !s.list[k].rings[ring].open then (s, Busy)
    else
      var t := RingClosed(s, k, ring);
      (if AnyOpen(t.list[k].rings) then t else Dismissed(cfg, t, k), Done)
  }

  function TpSet(cfg: Config, s: State, task: nat, tp: nat, on: bool, fails: set<nat>): (State, Code)
    requires Inv(cfg, s)
  {
    var k := Find(s.list, task);
    if k == |s.list| then (s, Busy)
    else if tp >= PROGRAMS then (s, Invalid)
    else
      (Trace(cfg, s, k, Refer(s.list[k].mask, tp, on), fails), Done)
  }

  predicate WellFormed(cfg: Config, a: Action) {
    match a
    case Open(_, ring, alloc) => ring < cfg.cpus && (alloc.Ready? ==> |alloc.online| == cfg.cpus)
    case Release(_, ring) => ring < cfg.cpus
    case SetTp(_, _, _, _) => true
  }

  function Step(cfg: Config, s: State, a: Action): State
    requires Inv(cfg, s) && WellFormed(cfg, a)
  {
    match a
    case Open(task, ring, alloc) => Opened(cfg, s, task, ring, alloc).0
    case Release(task, ring) => Released(cfg, s, task, ring).0
    case SetTp(task, tp, on, fails) => TpSet(cfg, s, task, tp, on, fails).0
  }

  predicate ConsumerInv(cfg: Config, c: Consumer) {
    && |c.rings| == cfg.cpus
    && c.id < cfg.max
    && forall i :: i in c.mask ==> i < PROGRAMS
  }

  predicate OnePerTask(list: seq<Consumer>) {
    forall j, k :: 0 <= j < k < |list| ==> list[j].task != list[k].task
  }

  // Every reference belongs to a listed consumer.
  predicate Owned(list: seq<Consumer>, slots: seq<Slot>) {
    forall i :: 0 <= i < |slots| ==> slots[i].refs <= Ids(list)
  }

  predicate Inv(cfg: Config, s: State) {
    && SlotsInv(s.slots, cfg.managed)
    && |s.list| <= cfg.max
    && (forall k :: 0 <= k < |s.list| ==> ConsumerInv(cfg, s.list[k]))
    && OnePerTask(s.list)
    && Owned(s.list, s.slots)
  }

  predicate Initial(s: State) {
    s.list == [] && |s.slots| == PROGRAMS && forall i :: 0 <= i < PROGRAMS ==> s.slots[i] == Slot(false, {}, [])
  }

  // Same consumers in the same order; masks and rings may differ.
  predicate SameConsumers(a: seq<Consumer>, b: seq<Consumer>) {
    && |a| == |b|
    && forall k :: 0 <= k < |a| ==> a[k].task == b[k].task && a[k].id == b[k].id
  }

  lemma SameIds(a: seq<Consumer>, b: seq<Consumer>)
    requires SameConsumers(a, b)
    ensures Ids(a) == Ids(b)
  {
  }

  lemma TraceInv(cfg: Config, s: State, k: nat, wants: set<nat>, fails: set<nat>)
    requires Inv(cfg, s) && k < |s.list| && forall i :: i in wants ==> i < PROGRAMS
    ensures Inv(cfg, Trace(cfg, s, k, wants, fails))
    ensures SameConsumers(s.list, Trace(cfg, s, k, wants, fails).list)
  {
    var t := Trace(cfg, s, k, wants, fails);
    ForcedInv(s.slots, cfg.managed, s.list[k].id, wants, fails);
    SameIds(s.list, t.list);
    assert s.list[k].id in Ids(s.list);
    forall i | 0 <= i < PROGRAMS
      ensures t.slots[i].refs <= Ids(t.list)
    {
      ForcedRefs(s.slots, cfg.managed, s.list[k].id, wants, fails, i);
    }
  }

  // Once a consumer has given up every tracepoint, taking it off the list leaves no orphan reference.
  lemma UnlistInv(cfg: Config, s: State, k: nat)
    requires Inv(cfg, s) && k < |s.list|
    requires forall i :: 0 <= i < PROGRAMS ==> s.list[k].id !in s.slots[i].refs
    ensures Inv(cfg, Unlisted(s, k))
  {
    var t := Unlisted(s, k);
    forall x | x in Ids(s.list) && x != s.list[k].id
      ensures x in Ids(t.list)
    {
      var j :| 0 <= j < |s.list| && s.list[j].id == x;
      assert t.list[if j < k then j else j - 1].id == x;
    }
  }

  lemma RingsInv(cfg: Config, s: State, k: nat, rings: seq<Ring>)
    requires Inv(cfg, s) && k < |s.list| && |rings| == cfg.cpus
    ensures Inv(cfg, s.(list := s.list[k := s.list[k].(rings := rings)]))
  {
    SameIds(s.list, s.list[k := s.list[k].(rings := rings)]);
  }

  lemma AddInv(cfg: Config, s: State, c: Consumer)
    requires Inv(cfg, s) && ConsumerInv(cfg, c) && |s.list| < cfg.max
    requires Find(s.list, c.task) == |s.list|
    ensures Inv(cfg, s.(list := [c] + s.list))
  {
    var list := [c] + s.list;
    forall x | x in Ids(s.list)
      ensures x in Ids(list)
    {
      var j :| 0 <= j < |s.list| && s.list[j].id == x;
      assert list[j + 1].id == x;
    }
  }

  lemma OpenedInv(cfg: Config, s: State, task: nat, ring: nat, alloc: Alloc)
    requires Inv(cfg, s) && WellFormed(cfg, Open(task, ring, alloc))
    ensures Inv(cfg, Opened(cfg, s, task, ring, alloc).0)
  {
    var k := Find(s.list, task);
    if k < |s.list| {
      OpenRingInv(cfg, s, k, ring);
    } else if |s.list| < cfg.max {
      match alloc
      case Refuse =>
      case RingFails =>
        ForcedInv(s.slots, cfg.managed, |s.list|, {}, {});
        ForcedAll(s.slots, cfg.managed, |s.list|, {}, {});
      case Ready(online) =>
        var c := Consumer(task, |s.list|, {}, FreshRings(online));
        AddInv(cfg, s, c);
        OpenRingInv(cfg, s.(list := [c] + s.list), 0, ring);
    }
  }

  lemma OpenRingInv(cfg: Config, s: State, k: nat, ring: nat)
    requires Inv(cfg, s) && k < |s.list| && ring < cfg.cpus
    ensures Inv(cfg, OpenRing(s, k, ring).0)
  {
    var rings := s.list[k].rings;
    RingsInv(cfg, s, k, rings[ring := rings[ring].(open := true)]);
  }

  lemma ReleasedInv(cfg: Config, s: State, task: nat, ring: nat)
    requires Inv(cfg, s) && ring < cfg.cpus
    ensures Inv(cfg, Released(cfg, s, task, ring).0)
  {
    var k := Find(s.list, task);
    if k < |s.list| {
      RingsInv(cfg, s, k, RingClosed(s, k, ring).list[k].rings);
      DismissedInv(cfg, RingClosed(s, k, ring), k);
    }
  }

  lemma DismissedInv(cfg: Config, s: State, k: nat)
    requires Inv(cfg, s) && k < |s.list|
    ensures Inv(cfg, Dismissed(cfg, s, k))
  {
    TraceInv(cfg, s, k, {}, {});
    ForcedAll(s.slots, cfg.managed, s.list[k].id, {}, {});
    UnlistInv(cfg, Trace(cfg, s, k, {}, {}), k);
  }

  lemma StepInv(cfg: Config, s: State, a: Action)
    requires Inv(cfg, s) && WellFormed(cfg, a)
    ensures Inv(cfg, Step(cfg, s, a))
  {
    match a
    case Open(task, ring, alloc) => OpenedInv(cfg, s, task, ring, alloc);
    case Release(task, ring) => ReleasedInv(cfg, s, task, ring);
    case SetTp(task, tp, on, fails) =>
      var k := Find(s.list, task);
      if k < |s.list| && tp < PROGRAMS {
        assert ConsumerInv(cfg, s.list[k]);
        TraceInv(cfg, s, k, Refer(s.list[k].mask, tp, on), fails);
      }
  }

  predicate AllWellFormed(cfg: Config, run: seq<Action>) {
    forall i :: 0 <= i < |run| ==> WellFormed(cfg, run[i])
  }

  function Exec(cfg: Config, s: State, run: seq<Action>): (t: State)
    requires Inv(cfg, s) && AllWellFormed(cfg, run)
    ensures Inv(cfg, t)
    decreases |run|
  {
    if run == [] then s
    else
      StepInv(cfg, s, run[0]);
      Exec(cfg, Step(cfg, s, run[0]), run[1..])
  }

  // Over every run: a tracepoint is attached iff somebody refers to it, kernel calls alternate, no
  // task has two consumers, and once the last consumer is gone nothing is referred to or attached.
  lemma EveryRun(cfg: Config, s: State, run: seq<Action>)
    requires Initial(s) && AllWellFormed(cfg, run)
    ensures var t := Exec(cfg, s, run);
            && |t.list| <= cfg.max && OnePerTask(t.list)
            && (forall i :: 0 <= i < PROGRAMS ==> (t.slots[i].attached <==> t.slots[i].refs != {}))
            && (forall i :: 0 <= i < PROGRAMS && i in cfg.managed ==> Alternate(t.slots[i].calls, t.slots[i].attached))
            && (t.list == [] ==> forall i :: 0 <= i < PROGRAMS ==> t.slots[i].refs == {} && !t.slots[i].attached)
  {
  }
}
