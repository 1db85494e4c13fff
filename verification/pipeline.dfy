/**
 From the fillers in the kernel to the decoder in user space: recording attempts, each a fixed
 list of stores once it has read head and tail, and a reader whose steps fall anywhere between
 them.
 */
module Pipeline {
  import opened Bytes
  import opened RingLayout
  import opened RingStats
  import P = RingProtocol
  import opened Attempt
  import opened Filler
  import opened Decoder
  import opened Recorder

  // The ring, the stores the attempt under way has still to make, and the records of the attempts
  // that inserted an event: `before` the attempt under way, and `after` it.
  datatype State = State(ring: P.State, plan: seq<P.Action>, before: seq<Record>, after: seq<Record>)

  datatype Action =
    | Begin(r: Request, plan: seq<P.Action>)
    | Produce
    | Consume(step: P.Action)
    | Reset

  // An attempt begins with its snapshot, and its stores are then fixed.
  ghost predicate Enabled(g: Geometry, s: State, a: Action) {
    match a
    case Begin(r, plan) =>
      && s.plan == [] && P.Enabled(g, s.ring, P.Snapshot)
      && Attempts(g, P.Apply(g, s.ring, P.Snapshot), r, plan)
    case Produce => s.plan != [] && P.Enabled(g, s.ring, s.plan[0])
    case Consume(step) => P.ByReader(step) && P.Enabled(g, s.ring, step)
    case Reset => s.plan == [] && P.Enabled(g, s.ring, P.Reset)
  }

  ghost function Apply(g: Geometry, s: State, a: Action): State
    requires Enabled(g, s, a)
  {
    match a
    case Begin(r, plan) =>
      State(P.Apply(g, s.ring, P.Snapshot), plan, s.after, s.after + Inserts(g, s.ring.head, s.ring.tail, r))
    case Produce => s.(ring := P.Apply(g, s.ring, s.plan[0]), plan := s.plan[1..])
    case Consume(step) => s.(ring := P.Apply(g, s.ring, step))
    case Reset => State(P.Apply(g, s.ring, P.Reset), [], [], [])
  }

  // --------------------------------------------------------------------------------------
  // A reader step and a store of the producer do not disturb each other
  // --------------------------------------------------------------------------------------

  // The two states look the same to an attempt under way.
  predicate Alike(s: P.State, t: P.State) {
    s.buf == t.buf && s.head == t.head && s.stats == t.stats && s.producer == t.producer && s.recorded == t.recorded
  }

  lemma ReaderUnseen(g: Geometry, s: P.State, a: P.Action)
    requires P.Enabled(g, s, a) && P.ByReader(a)
    ensures Alike(s, P.Apply(g, s, a))
  {
  }

  lemma AlikeStep(g: Geometry, s: P.State, t: P.State, a: P.Action)
    requires Alike(s, t) && P.Enabled(g, s, a) && P.InAttempt(a)
    ensures P.Enabled(g, t, a) && Alike(P.Apply(g, s, a), P.Apply(g, t, a))
  {
  }

  predicate AllInAttempt(plan: seq<P.Action>) {
    forall a | a in plan :: P.InAttempt(a)
  }

  lemma {:induction false} AlikeRun(g: Geometry, s: P.State, t: P.State, plan: seq<P.Action>)
    requires Alike(s, t) && P.Legal(g, s, plan) && AllInAttempt(plan)
    ensures P.Legal(g, t, plan) && Alike(P.Exec(g, s, plan), P.Exec(g, t, plan))
    decreases |plan|
  {
    if plan != [] {
      AlikeStep(g, s, t, plan[0]);
      AlikeRun(g, P.Apply(g, s, plan[0]), P.Apply(g, t, plan[0]), plan[1..]);
    }
  }

  // An attempt only ever adds to what is recorded.
  lemma {:induction false} PlanGrows(g: Geometry, s: P.State, plan: seq<P.Action>)
    requires P.Legal(g, s, plan) && AllInAttempt(plan)
    ensures s.recorded <= P.Exec(g, s, plan).recorded
    decreases |plan|
  {
    if plan != [] {
      assert P.InAttempt(plan[0]);
      PlanGrows(g, P.Apply(g, s, plan[0]), plan[1..]);
    }
  }

  // --------------------------------------------------------------------------------------
  // Whole runs
  // --------------------------------------------------------------------------------------

  predicate AllPublish(records: seq<Record>) {
    forall i | 0 <= i < |records| :: Publishes(records[i], BytesOf(records[i]))
  }

  // What is left of the plan can be carried out, and leads to the records after it.
  ghost predicate Inv(g: Geometry, s: State) {
    && P.Inv(g, s.ring) && P.Legal(g, s.ring, s.plan) && AllInAttempt(s.plan)
    && P.Exec(g, s.ring, s.plan).producer.Idle? && P.Exec(g, s.ring, s.plan).recorded == Events(s.after)
    && Events(s.before) <= s.ring.recorded && s.before <= s.after && |s.after| <= |s.before| + 1
    && AllPublish(s.after)
  }

  lemma EventsAppend(a: seq<Record>, b: seq<Record>)
    ensures Events(a + b) == Events(a) + Events(b)
  {
  }

  lemma InsertsPublish(g: Geometry, h: nat, t: nat, r: Request)
    requires Sound(g) && h < g.dim && t < g.dim && ValidRequest(r)
    ensures AllPublish(Inserts(g, h, t, r)) && |Inserts(g, h, t, r)| <= 1
  {
    if EndingOf(g, h, t, r.params, r.filler, r.category) == Inserted {
      InsertionPublishes(g, h, t, r.ns, r.tid, r.ty, r.params, r.filler, r.category);
    }
  }

  lemma BeginInv(g: Geometry, s: State, r: Request, plan: seq<P.Action>)
    requires Sound(g) && Inv(g, s) && Enabled(g, s, Begin(r, plan))
    ensures Inv(g, Apply(g, s, Begin(r, plan)))
  {
    P.StepInv(g, s.ring, P.Snapshot);
    var more := Inserts(g, s.ring.head, s.ring.tail, r);
    InsertsPublish(g, s.ring.head, s.ring.tail, r);
    EventsAppend(s.after, more);
  }

  lemma ProduceInv(g: Geometry, s: State)
    requires Sound(g) && Inv(g, s) && Enabled(g, s, Produce)
    ensures Inv(g, Apply(g, s, Produce))
  {
    P.StepInv(g, s.ring, s.plan[0]);
    assert P.InAttempt(s.plan[0]);
    assert s.ring.recorded <= P.Apply(g, s.ring, s.plan[0]).recorded;
  }

  lemma ConsumeInv(g: Geometry, s: State, step: P.Action)
    requires Sound(g) && Inv(g, s) && Enabled(g, s, Consume(step))
    ensures Inv(g, Apply(g, s, Consume(step)))
  {
    P.StepInv(g, s.ring, step);
    ReaderUnseen(g, s.ring, step);
    AlikeRun(g, s.ring, P.Apply(g, s.ring, step), s.plan);
  }

  lemma StepInv(g: Geometry, s: State, a: Action)
    requires Sound(g) && Inv(g, s) && Enabled(g, s, a)
    ensures Inv(g, Apply(g, s, a))
  {
    match a
    case Begin(r, plan) => BeginInv(g, s, r, plan);
    case Produce => ProduceInv(g, s);
    case Consume(step) => ConsumeInv(g, s, step);
    case Reset => P.StepInv(g, s.ring, P.Reset);
  }

  ghost predicate Legal(g: Geometry, s: State, run: seq<Action>)
    decreases |run|
  {
    run == [] || (Enabled(g, s, run[0]) && Legal(g, Apply(g, s, run[0]), run[1..]))
  }

  ghost function Exec(g: Geometry, s: State, run: seq<Action>): State
    requires Legal(g, s, run)
    decreases |run|
  {
    if run == [] then s else Exec(g, Apply(g, s, run[0]), run[1..])
  }

  lemma {:induction false} RunInv(g: Geometry, s: State, run: seq<Action>)
    requires Sound(g) && Inv(g, s) && Legal(g, s, run)
    ensures Inv(g, Exec(g, s, run))
    decreases |run|
  {
    if run != [] {
      StepInv(g, s, run[0]);
      RunInv(g, Apply(g, s, run[0]), run[1..]);
    }
  }

  ghost predicate Initial(g: Geometry, s: State) {
    P.Initial(g, s.ring) && s.plan == [] && s.before == [] && s.after == []
  }

  // The header and the values that user space decodes from an event are those of a record.
  predicate DecodesTo(e: seq<byte>, r: Record) {
    && HEADER <= |e| && ReadHeader(e) == Header(r.ns, r.tid, |e|, r.ty, |r.params|)
    && Decoded(e, |r.params|, 2) == Some(r.values)
  }

  // The ring has recorded the events of the attempts that inserted one, short of the attempt under way.
  ghost predicate RecordsAll(s: State) {
    && Events(s.before) <= s.ring.recorded <= Events(s.after) && |s.after| <= |s.before| + 1
    && (s.plan == [] ==> s.ring.recorded == Events(s.after))
  }

  lemma InvRecordsAll(g: Geometry, s: State)
    requires Inv(g, s)
    ensures RecordsAll(s)
  {
    PlanGrows(g, s.ring, s.plan);
  }

  lemma DeliveredDecodes(g: Geometry, s: State, i: nat)
    requires Inv(g, s) && RecordsAll(s) && i < |s.ring.delivered|
    ensures i < |s.after| && DecodesTo(s.ring.delivered[i], s.after[i])
  {
    assert s.ring.recorded == s.ring.delivered + (s.ring.held + s.ring.newer);
    var r := s.after[i];
    assert s.ring.delivered[i] == Events(s.after)[i];
    assert Publishes(r, BytesOf(r));
    EventDecodes(r.ns, r.tid, r.ty, r.params, r.values);
  }

  // In every interleaving of attempts and reads the ring records exactly the events of the attempts
  // that insert one; and what user space has decoded so far is, in order, the headers and parameter
  // values of the first of them.
  lemma EndToEnd(g: Geometry, s0: State, run: seq<Action>)
    requires Sound(g) && Initial(g, s0) && Legal(g, s0, run)
    ensures var s := Exec(g, s0, run);
            && RecordsAll(s) && |s.ring.delivered| <= |s.after|
            && forall i | 0 <= i < |s.ring.delivered| :: DecodesTo(s.ring.delivered[i], s.after[i])
  {
    InitialInv(g, s0);
    RunInv(g, s0, run);
    var s := Exec(g, s0, run);
    InvRecordsAll(g, s);
    forall i | 0 <= i < |s.ring.delivered|
      ensures i < |s.after| && DecodesTo(s.ring.delivered[i], s.after[i])
    {
      DeliveredDecodes(g, s, i);
    }
    if |s.ring.delivered| > 0 {
      DeliveredDecodes(g, s, |s.ring.delivered| - 1);
    }
  }

  lemma InitialInv(g: Geometry, s: State)
    requires Sound(g) && Initial(g, s)
    ensures Inv(g, s)
  {
    P.InitialInv(g, s.ring);
  }

  // The stores that the attempt under way has left, one after the other.
  function Remaining(s: State): seq<Action> {
    seq(|s.plan|, _ => Produce)
  }

  lemma {:induction false} PlanFinishes(g: Geometry, s: State)
    requires Sound(g) && Inv(g, s)
    ensures Legal(g, s, Remaining(s))
    ensures var e := Exec(g, s, Remaining(s)); e.plan == [] && e.after == s.after && Inv(g, e)
    decreases |s.plan|
  {
    if s.plan != [] {
      var t := Apply(g, s, Produce);
      ProduceInv(g, s);
      PlanFinishes(g, t);
      assert Remaining(s)[1..] == Remaining(t);
    }
  }

  // Whatever run has led here, the attempt under way can make its remaining stores, and then the ring
  // has recorded exactly the events of all attempts that insert one.
  lemma NeverBlocked(g: Geometry, s0: State, run: seq<Action>)
    requires Sound(g) && Initial(g, s0) && Legal(g, s0, run)
    ensures var s := Exec(g, s0, run);
            && Legal(g, s, Remaining(s))
            && var e := Exec(g, s, Remaining(s)); e.plan == [] && e.ring.recorded == Events(s.after)
  {
    InitialInv(g, s0);
    RunInv(g, s0, run);
    PlanFinishes(g, Exec(g, s0, run));
  }

  // --------------------------------------------------------------------------------------
  // Every request can be attempted
  // --------------------------------------------------------------------------------------

  // The buffer with an event in place.
  function Placed(buf: seq<byte>, h: nat, e: seq<byte>): seq<byte>
    requires h + |e| <= |buf|
  {
    buf[..h] + e + buf[h + |e|..]
  }

  lemma PlacedFramed(buf: seq<byte>, h: nat, e: seq<byte>, n: nat)
    requires |e| <= n && h + n <= |buf|
    ensures var b := Placed(buf, h, e); Framed(buf, b, h, n) && b[h..h + |e|] == e
  {
  }

  // Whatever is to be recorded, there are stores that do it.
  lemma PlanExists(g: Geometry, s: P.State, r: Request) returns (plan: seq<P.Action>)
    requires Sound(g) && P.Inv(g, s) && s.producer.Filling? && ValidRequest(r)
    ensures Attempts(g, s, r, plan)
  {
    var h, t := s.producer.head, s.producer.tail;
    var o := EndingOf(g, h, t, r.params, r.filler, r.category);
    if o == Inserted {
      plan := InsertingPlan(g, s, r, Inserts(g, h, t, r)[0]);
    } else {
      plan := DropRun(g, s, s.buf, o);
    }
  }

  lemma InsertingPlan(g: Geometry, s: P.State, r: Request, rec: Record) returns (plan: seq<P.Action>)
    requires Sound(g) && P.Inv(g, s) && s.producer.Filling? && ValidRequest(r)
    requires Inserts(g, s.producer.head, s.producer.tail, r) == [rec]
    ensures Attempts(g, s, r, plan)
  {
    var buf := EventPlaced(g, s, r, rec);
    plan := RecordingPlan(g, s, buf, BytesOf(rec));
    RecordingAttempts(g, s, r, rec, plan);
  }

  // The steps record the event e.
  ghost predicate RecordsEvent(g: Geometry, s: P.State, e: seq<byte>, plan: seq<P.Action>) {
    && Sound(g) && |s.stats.byCategory| == CATEGORIES
    && P.Legal(g, s, plan) && (forall a | a in plan :: P.InAttempt(a))
    && var next := P.Exec(g, s, plan);
       next.producer == P.Idle && next.stats == Finish(s.stats, Inserted) && next.recorded == s.recorded + [e]
  }

  lemma RecordingPlan(g: Geometry, s: P.State, buf: seq<byte>, e: seq<byte>) returns (plan: seq<P.Action>)
    requires Sound(g) && P.Inv(g, s) && Complete(g, s, buf, |e|)
    requires s.producer.head + |e| <= |buf| && buf[s.producer.head..s.producer.head + |e|] == e
    ensures RecordsEvent(g, s, e, plan)
  {
    var h, next := s.producer.head, s;
    plan, next := RecordSafely(g, s, buf, h, |e|, P.Overrun(g, h, |e|));
  }

  lemma RecordingAttempts(g: Geometry, s: P.State, r: Request, rec: Record, plan: seq<P.Action>)
    requires ValidRequest(r) && s.producer.Filling? && s.producer.head < g.dim && s.producer.tail < g.dim
    requires RecordsEvent(g, s, BytesOf(rec), plan)
    requires Inserts(g, s.producer.head, s.producer.tail, r) == [rec]
    ensures Attempts(g, s, r, plan)
  {
    assert Events([rec]) == [BytesOf(rec)];
  }

  lemma EventPlaced(g: Geometry, s: P.State, r: Request, rec: Record) returns (buf: seq<byte>)
    requires Sound(g) && P.Inv(g, s) && s.producer.Filling? && ValidRequest(r)
    requires Inserts(g, s.producer.head, s.producer.tail, r) == [rec]
    ensures Complete(g, s, buf, |BytesOf(rec)|)
    ensures s.producer.head + |BytesOf(rec)| <= |buf|
    ensures buf[s.producer.head..s.producer.head + |BytesOf(rec)|] == BytesOf(rec)
  {
    var h, t, e := s.producer.head, s.producer.tail, BytesOf(rec);
    RunFits(r.params, [], DataRoom(g, h, t, |r.params|), false, r.filler.ops, r.filler.last);
    assert |e| <= Limit(g, h, t);
    buf := Placed(s.buf, h, e);
    PlacedFramed(s.buf, h, e, Limit(g, h, t));
    EventIsComplete(buf, h, r.ns, r.tid, r.ty, rec.values, |e|);
  }
}
