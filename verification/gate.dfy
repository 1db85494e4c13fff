/**
 The preemption gate: a lock-free admission protocol on `preempt_count`. A context
 increments the counter, goes on only if it made it 1, and decrements it on the way out
 whether or not it was admitted. Reopening the ring resets everything but this counter.
 */
module Gate {
  // The contexts between increment and decrement, and whether each was admitted.
  datatype State = State(count: int, active: map<nat, bool>)

  datatype Action =
    | Enter(ctx: nat)     // atomic_inc_return and the branch on its result
    | Leave(ctx: nat)     // atomic_dec
    | Reopen              // reset_ring_buffer, at any time

  predicate Enabled(s: State, a: Action) {
    match a
    case Enter(c) => c !in s.active
    case Leave(c) => c in s.active
    case Reopen => true
  }

  // `zeroing` is the reset the driver avoids: one that also clears the counter.
  function Apply(s: State, a: Action, zeroing: bool): State
    requires Enabled(s, a)
  {
    match a
    case Enter(c) => State(s.count + 1, s.active[c := s.count + 1 == 1])
    case Leave(c) => State(s.count - 1, s.active - {c})
    case Reopen => if zeroing then s.(count := 0) else s
  }

  predicate Admitted(s: State, c: nat) {
    c in s.active && s.active[c]
  }

  // The counter is the number of contexts inside, and at most one of them was admitted.
  ghost predicate Inv(s: State) {
    && s.count == |s.active|
    && forall c, d | Admitted(s, c) && Admitted(s, d) :: c == d
  }

  lemma StepInv(s: State, a: Action)
    requires Inv(s) && Enabled(s, a)
    ensures Inv(Apply(s, a, false))
  {
    var s' := Apply(s, a, false);
    match a
    case Enter(c) =>
      assert s'.active.Keys == s.active.Keys + {c};
      assert s.count == 0 ==> s.active.Keys == {};
      forall d, e | Admitted(s', d) && Admitted(s', e)
        ensures d == e
      {
        assert s.count != 0 ==> Admitted(s, d) && Admitted(s, e);
      }
    case Leave(c) =>
      assert s'.active.Keys == s.active.Keys - {c};
      assert |s'.active.Keys| == |s.active.Keys| - 1;
      assert forall d | Admitted(s', d) :: Admitted(s, d);
    case Reopen =>
  }

  predicate Legal(s: State, run: seq<Action>, zeroing: bool)
    decreases |run|
  {
    run == [] || (Enabled(s, run[0]) && Legal(Apply(s, run[0], zeroing), run[1..], zeroing))
  }

  function Exec(s: State, run: seq<Action>, zeroing: bool): State
    requires Legal(s, run, zeroing)
    decreases |run|
  {
    if run == [] then s else Exec(Apply(s, run[0], zeroing), run[1..], zeroing)
  }

  lemma {:induction false} RunInv(s: State, run: seq<Action>)
    requires Inv(s) && Legal(s, run, false)
    ensures Inv(Exec(s, run, false))
    decreases |run|
  {
    if run != [] {
      StepInv(s, run[0]);
      RunInv(Apply(s, run[0], false), run[1..]);
    }
  }

  // Mutual exclusion in every run, with any nesting and any reopenings; the counter is exact,
  // never negative, and a context that comes alone is always admitted.
  lemma MutualExclusion(run: seq<Action>)
    requires Legal(State(0, map[]), run, false)
    ensures var s := Exec(State(0, map[]), run, false);
            && s.count == |s.active| >= 0
            && (forall c, d | Admitted(s, c) && Admitted(s, d) :: c == d)
            && (s.active == map[] ==> forall c :: Admitted(Apply(s, Enter(c), false), c))
  {
    RunInv(State(0, map[]), run);
  }

  // Why the reset must not clear the counter: with it, closing and reopening while a context
  // is inside admits a second one, and leaves the counter at -1 with nobody inside.
  lemma ZeroingBreaksTheGate()
    ensures var run := [Enter(0), Reopen, Enter(1)];
            && Legal(State(0, map[]), run, true)
            && var s := Exec(State(0, map[]), run, true);
               Admitted(s, 0) && Admitted(s, 1)
    ensures var run := [Enter(0), Reopen, Leave(0)];
            && Legal(State(0, map[]), run, true)
            && Exec(State(0, map[]), run, true) == State(-1, map[])
  {
  }

  // Contexts that come one after the other, each leaving before the next enters.
  function OneByOne(ctxs: seq<nat>): seq<Action> {
    if ctxs == [] then [] else [Enter(ctxs[0]), Leave(ctxs[0])] + OneByOne(ctxs[1..])
  }

  // Once the counter is negative with nobody inside, every event of that CPU is lost: however
  // many contexts come one by one, the counter stays where it is and none is admitted.
  lemma {:induction false} NegativeCounterLosesAll(s: State, ctxs: seq<nat>)
    requires s.count < 0 && s.active == map[]
    ensures Legal(s, OneByOne(ctxs), false) && Exec(s, OneByOne(ctxs), false) == s
    ensures forall c :: !Admitted(Apply(s, Enter(c), false), c)
  {
    if ctxs != [] {
      NegativeCounterLosesAll(s, ctxs[1..]);
      var c, run := ctxs[0], OneByOne(ctxs);
      var s1 := Apply(s, Enter(c), false);
      assert s1.active - {c} == map[];
      assert Apply(s1, Leave(c), false) == s;
      assert run[1..] == [Leave(c)] + OneByOne(ctxs[1..]);
      assert run[1..][1..] == OneByOne(ctxs[1..]);
    }
  }
}

/**
 The gate in front of the ring: any number of contexts may try to record, and only an
 admitted one takes producer steps. Every run of the whole is a run of the one-producer
 protocol, so its guarantees hold for any nesting of contexts.
 */
module GatedRing {
  import opened RingLayout
  import Gate
  import Ring = RingProtocol

  datatype State = State(gate: Gate.State, ring: Ring.State)

  datatype Action =
    | Enter(ctx: nat)
    | Leave(ctx: nat)
    | Produce(ctx: nat, step: Ring.Action)
    | Consume(step: Ring.Action)
    | Reopen

  predicate Enabled(g: Geometry, s: State, a: Action) {
    match a
    case Enter(c) => Gate.Enabled(s.gate, Gate.Enter(c))
    // An admitted context leaves only after its attempt was published or dropped.
    case Leave(c) =>
      Gate.Enabled(s.gate, Gate.Leave(c)) && (Gate.Admitted(s.gate, c) ==> s.ring.producer.Idle?)
    case Produce(c, r) => Gate.Admitted(s.gate, c) && Ring.ByProducer(r) && Ring.Enabled(g, s.ring, r)
    case Consume(r) => Ring.ByReader(r) && Ring.Enabled(g, s.ring, r)
    case Reopen => s.ring.producer.Idle?
  }

  function Apply(g: Geometry, s: State, a: Action): State
    requires Enabled(g, s, a)
  {
    match a
    case Enter(c) => s.(gate := Gate.Apply(s.gate, Gate.Enter(c), false))
    case Leave(c) => s.(gate := Gate.Apply(s.gate, Gate.Leave(c), false))
    case Produce(_, r) => s.(ring := Ring.Apply(g, s.ring, r))
    case Consume(r) => s.(ring := Ring.Apply(g, s.ring, r))
    case Reopen =>
      State(Gate.Apply(s.gate, Gate.Reopen, false), Ring.Apply(g, s.ring, Ring.Reset))
  }

  predicate Legal(g: Geometry, s: State, run: seq<Action>)
    decreases |run|
  {
    run == [] || (Enabled(g, s, run[0]) && Legal(g, Apply(g, s, run[0]), run[1..]))
  }

  function Exec(g: Geometry, s: State, run: seq<Action>): State
    requires Legal(g, s, run)
    decreases |run|
  {
    if run == [] then s else Exec(g, Apply(g, s, run[0]), run[1..])
  }

  // The ring's share of a run.
  function RingSteps(run: seq<Action>): seq<Ring.Action> {
    if run == [] then [] else
      (match run[0]
       case Produce(_, r) => [r]
       case Consume(r) => [r]
       case Reopen => [Ring.Reset]
       case _ => []) + RingSteps(run[1..])
  }

  // While an attempt is under way, the context that made it is still inside.
  ghost predicate Inv(s: State) {
    Gate.Inv(s.gate) && (!s.ring.producer.Idle? ==> exists c :: Gate.Admitted(s.gate, c))
  }

  lemma StepInv(g: Geometry, s: State, a: Action)
    requires Inv(s) && Enabled(g, s, a)
    ensures Inv(Apply(g, s, a))
  {
    var s' := Apply(g, s, a);
    match a
    case Enter(c) =>
      Gate.StepInv(s.gate, Gate.Enter(c));
      assert forall d | Gate.Admitted(s.gate, d) :: Gate.Admitted(s'.gate, d);
    case Leave(c) =>
      Gate.StepInv(s.gate, Gate.Leave(c));
      if !s.ring.producer.Idle? {
        var d :| Gate.Admitted(s.gate, d);
        assert Gate.Admitted(s'.gate, d);
      }
    case Produce(c, r) =>
    case Consume(r) =>
    case Reopen =>
  }

  // Refinement: whatever the contexts do, the ring goes through a legal run with one producer,
  // and any two producer steps that are possible at the same time belong to one context.
  lemma {:induction false} SingleProducer(g: Geometry, s: State, run: seq<Action>)
    requires Inv(s) && Legal(g, s, run)
    ensures Inv(Exec(g, s, run))
    ensures Ring.Legal(g, s.ring, RingSteps(run)) && Ring.Exec(g, s.ring, RingSteps(run)) == Exec(g, s, run).ring
    ensures forall c, d, r, r' | Enabled(g, Exec(g, s, run), Produce(c, r)) &&
                                 Enabled(g, Exec(g, s, run), Produce(d, r')) ::
              c == d
    decreases |run|
  {
    if run != [] {
      StepInv(g, s, run[0]);
      SingleProducer(g, Apply(g, s, run[0]), run[1..]);
      if run[0].Produce? || run[0].Consume? || run[0].Reopen? {
        assert RingSteps(run)[1..] == RingSteps(run[1..]);
      } else {
        assert RingSteps(run) == RingSteps(run[1..]);
      }
    }
  }

  // The FIFO guarantee for any number of contexts behind the gate.
  lemma GatedFifo(g: Geometry, ring: Ring.State, run: seq<Action>)
    requires Sound(g) && Ring.Initial(g, ring) && Legal(g, State(Gate.State(0, map[]), ring), run)
    ensures var s := Exec(g, State(Gate.State(0, map[]), ring), run);
            s.ring.delivered <= s.ring.recorded && !s.ring.faulted
  {
    SingleProducer(g, State(Gate.State(0, map[]), ring), run);
    Ring.FifoRefinement(g, ring, RingSteps(run));
  }
}
