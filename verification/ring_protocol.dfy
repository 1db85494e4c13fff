/**
 The per-CPU ring as a protocol between one producer in the kernel and one reader in user
 space, interleaved at the grain of single stores: the producer's snapshot of head and
 tail, each byte it writes, each byte of the run-over it copies back, the store to head,
 and the reader's refill, event reads and store to tail. Stores become visible in program
 order, which is what the two memory barriers provide.
 */
module RingProtocol {
  import opened Bytes
  import opened RingLayout
  import opened RingStats

  datatype Producer =
    | Idle
    | Filling(head: nat, tail: nat)                                  // after the snapshot
    | Committing(head: nat, tail: nat, size: nat, copied: nat)       // event complete, copying the run-over

  // m_lastreadsize, m_sn_next_event and m_sn_len of struct scap_device.
  datatype Reader = Reader(last: nat, pos: nat, left: nat)

  // History since the last reset: `recorded` is every event published; `delivered` is the bytes
  // the reader has read, event by event; `released`, `read`, `held` and `newer` split the
  // recorded events into those given back, those of the reader's block handed out and still to
  // hand out, and those published after the block was taken. `faulted` is set by an access
  // outside a buffer and by the reader's "buffer corruption" error.
  datatype State = State(
    buf: seq<byte>, head: nat, tail: nat, stats: Stats,
    producer: Producer, reader: Reader, faulted: bool,
    recorded: seq<seq<byte>>, delivered: seq<seq<byte>>,
    released: seq<seq<byte>>, read: seq<seq<byte>>, held: seq<seq<byte>>, newer: seq<seq<byte>>)

  datatype Action =
    | Snapshot
    | Write(i: nat, b: byte)
    | Drop(ending: Ending)
    | Commit(size: nat)
    | CopyBack
    | Publish
    | Refill
    | Next
    | AdvanceTail
    | Reset

  function Overrun(g: Geometry, head: nat, size: nat): nat {
    if head + size > g.dim then head + size - g.dim else 0
  }

  // The length field of the event at index h of the buffer.
  function LenField(buf: seq<byte>, h: nat): nat
    requires h + HEADER <= |buf|
  {
    FromLE(buf[h + LEN_AT..h + TYPE_AT])
  }

  predicate WellFormed(e: seq<byte>) {
    HEADER <= |e| && LenField(e, 0) == |e|
  }

  // The order in which each side takes its steps. A producer only writes within the limit it
  // computed from its snapshot, and commits an event whose length field is its size.
  predicate Enabled(g: Geometry, s: State, a: Action) {
    match a
    case Snapshot => s.producer.Idle? && s.head < g.dim && s.tail < g.dim
    case Write(i, _) =>
      && s.producer.Filling? && s.producer.head < g.dim && s.producer.tail < g.dim
      && s.producer.head <= i < s.producer.head + Limit(g, s.producer.head, s.producer.tail)
    case Drop(o) => s.producer.Filling? && ValidEnding(o) && !o.Inserted? && |s.stats.byCategory| == CATEGORIES
    case Commit(size) =>
      && s.producer.Filling? && s.producer.head < g.dim && s.producer.tail < g.dim
      && HEADER <= size <= Limit(g, s.producer.head, s.producer.tail)
      && s.producer.head + HEADER <= |s.buf| && LenField(s.buf, s.producer.head) == size
    case CopyBack => s.producer.Committing? && s.producer.copied < Overrun(g, s.producer.head, s.producer.size)
    case Publish =>
      && s.producer.Committing? && s.producer.copied >= Overrun(g, s.producer.head, s.producer.size)
      && |s.stats.byCategory| == CATEGORIES
    case Refill => s.reader.last == 0 && s.reader.left == 0 && s.head < g.dim && s.tail < g.dim
    case Next => s.reader.left > 0
    case AdvanceTail => s.reader.left == 0 && s.reader.last > 0
    case Reset => s.producer.Idle?
  }

  function Put(s: State, i: nat, b: byte): State {
    if i < |s.buf| then s.(buf := s.buf[i := b]) else s.(faulted := true)
  }

  // ringbuffer_next on a block with bytes left: read the length through the doubled mapping,
  // refuse an event longer than what is left, hand out the event.
  function ReadNext(g: Geometry, s: State): State {
    if s.reader.pos + HEADER > 2 * g.dim || g.dim > |s.buf| then s.(faulted := true) else
    var len := FromLE(View(s.buf, g.dim, s.reader.pos + LEN_AT, 4));
    if len > s.reader.left || s.reader.pos + len > 2 * g.dim then s.(faulted := true) else
    var k := Min(1, |s.held|);
    s.(reader := s.reader.(pos := s.reader.pos + len, left := s.reader.left - len),
       delivered := s.delivered + [View(s.buf, g.dim, s.reader.pos, len)],
       read := s.read + s.held[..k], held := s.held[k..])
  }

  function PublishHead(g: Geometry, s: State): State
    requires s.producer.Committing? && |s.stats.byCategory| == CATEGORIES
  {
    var h, size := s.producer.head, s.producer.size;
    if h + size > |s.buf| then s.(faulted := true) else
    var next := h + size;
    s.(head := if next >= g.dim then next - g.dim else next,
       stats := Finish(s.stats, Inserted), producer := Idle,
       recorded := s.recorded + [s.buf[h..h + size]], newer := s.newer + [s.buf[h..h + size]])
  }

  function Apply(g: Geometry, s: State, a: Action): State
    requires Enabled(g, s, a)
  {
    match a
    case Snapshot => s.(producer := Filling(s.head, s.tail), stats := Admit(s.stats))
    case Write(i, b) => Put(s, i, b)
    case Drop(o) => s.(producer := Idle, stats := Finish(s.stats, o))
    case Commit(size) => s.(producer := Committing(s.producer.head, s.producer.tail, size, 0))
    case CopyBack =>
      var j := s.producer.copied;
      if g.dim + j >= |s.buf| then s.(faulted := true) else
      Put(s, j, s.buf[g.dim + j]).(producer := s.producer.(copied := j + 1))
    case Publish => PublishHead(g, s)
    case Refill =>
      var n := ReadSize(g.dim, s.head, s.tail);
      s.(reader := Reader(n, s.tail, n), held := s.held + s.newer, newer := [])
    case Next => ReadNext(g, s)
    case AdvanceTail =>
      var ttail := s.tail + s.reader.last;
      s.(tail := if ttail < g.dim then ttail else ttail - g.dim, reader := s.reader.(last := 0),
         released := s.released + s.read, read := [])
    case Reset =>
      s.(head := 0, tail := 0, stats := Cleared(s.stats), reader := Reader(0, 0, 0),
         recorded := [], delivered := [], released := [], read := [], held := [], newer := [])
  }

  predicate Initial(g: Geometry, s: State) {
    && |s.buf| == g.dim + 2 * g.page && |s.stats.byCategory| == CATEGORIES
    && s == State(s.buf, 0, 0, Cleared(s.stats), Idle, Reader(0, 0, 0), false, [], [], [], [], [], [])
  }

  // --------------------------------------------------------------------------------------
  // Invariants
  // --------------------------------------------------------------------------------------

  // The bytes of the events that are published and not given back.
  function Unread(s: State): seq<byte> {
    Concat(s.read) + Concat(s.held) + Concat(s.newer)
  }

  predicate AllWellFormed(events: seq<seq<byte>>) {
    forall e | e in events :: WellFormed(e)
  }

  // The circle from tail to head holds exactly the unread events.
  predicate QueueInv(g: Geometry, s: State) {
    && !s.faulted && |s.buf| == g.dim + 2 * g.page && s.head < g.dim && s.tail < g.dim
    && |Unread(s)| < g.dim
    && s.head == Wrap(g.dim, s.tail + |Unread(s)|)
    && View(s.buf, g.dim, s.tail, |Unread(s)|) == Unread(s)
  }

  predicate HistoryInv(s: State) {
    && s.recorded == s.released + s.read + s.held + s.newer
    && s.delivered == s.released + s.read && s.stats.inserted == |s.recorded|
    && AllWellFormed(s.read) && AllWellFormed(s.held) && AllWellFormed(s.newer)
  }

  // The reader holds a block of whole events and has handed out the first of them.
  predicate ReaderInv(s: State) {
    && s.reader.last == |Concat(s.read)| + |Concat(s.held)|
    && s.reader.left == |Concat(s.held)|
    && (s.reader.left > 0 ==> s.reader.pos == s.tail + |Concat(s.read)|)
  }

  // The producer's snapshot may be stale, but only on the safe side.
  predicate SnapshotInv(g: Geometry, s: State, h: nat, t: nat) {
    h == s.head && h < g.dim && t < g.dim && FreeSpace(g.dim, h, t) + |Unread(s)| <= g.dim - 1
  }

  predicate ProducerInv(g: Geometry, s: State) {
    match s.producer
    case Idle => true
    case Filling(h, t) => SnapshotInv(g, s, h, t)
    case Committing(h, t, size, copied) =>
      && SnapshotInv(g, s, h, t)
      && HEADER <= size <= Limit(g, h, t)
      && |s.buf| == g.dim + 2 * g.page
      && LenField(s.buf, h) == size
      && copied <= Overrun(g, h, size)
      && forall j | 0 <= j < copied :: s.buf[j] == s.buf[g.dim + j]
  }

  predicate Inv(g: Geometry, s: State) {
    && QueueInv(g, s) && HistoryInv(s) && ReaderInv(s) && ProducerInv(g, s)
    && Conserved(s.stats, if s.producer.Idle? then 0 else 1)
  }

  // Events have at least a header, so a list of events without bytes is empty.
  lemma {:induction false} NoEmptyEvents(events: seq<seq<byte>>)
    requires AllWellFormed(events)
    ensures |Concat(events)| >= HEADER * |events|
  {
    if events != [] {
      assert WellFormed(events[0]);
      NoEmptyEvents(events[1..]);
    }
  }

  lemma InitialInv(g: Geometry, s: State)
    requires Sound(g) && Initial(g, s)
    ensures Inv(g, s)
  {
    ClearedConserved(s.stats);
  }

  // A store into the free part keeps the unread bytes.
  lemma StoreKeeps(g: Geometry, s: State, h: nat, t: nat, i: nat, b: byte)
    requires Sound(g) && QueueInv(g, s) && SnapshotInv(g, s, h, t)
    requires i < |s.buf| && Writable(g.dim, h, FreeSpace(g.dim, h, t), i)
    ensures QueueInv(g, s.(buf := s.buf[i := b]))
  {
    UnreadKept(s.buf, s.buf[i := b], g.dim, s.tail, |Unread(s)|, FreeSpace(g.dim, h, t));
  }

  lemma WriteInv(g: Geometry, s: State, i: nat, b: byte)
    requires Sound(g) && Inv(g, s) && Enabled(g, s, Write(i, b))
    ensures Inv(g, Apply(g, s, Write(i, b)))
  {
    StoreKeeps(g, s, s.producer.head, s.producer.tail, i, b);
  }

  lemma CopyBackInv(g: Geometry, s: State)
    requires Sound(g) && Inv(g, s) && Enabled(g, s, CopyBack)
    ensures Inv(g, Apply(g, s, CopyBack))
  {
    var p := s.producer;
    StoreKeeps(g, s, p.head, p.tail, p.copied, s.buf[g.dim + p.copied]);
    CopyBackProducer(g, s);
  }

  lemma CopyBackProducer(g: Geometry, s: State)
    requires Sound(g) && QueueInv(g, s) && ProducerInv(g, s) && Enabled(g, s, CopyBack)
    ensures ProducerInv(g, Apply(g, s, CopyBack))
  {
    var p := s.producer;
    CopyByte(s.buf, g.dim, p.copied, p.head + LEN_AT, p.head + TYPE_AT);
  }

  // One more byte copied back changes neither its origin nor anything behind it.
  lemma CopyByte(buf: seq<byte>, dim: nat, c: nat, i: nat, j: nat)
    requires c < i <= j <= |buf| && c < dim && dim + c < |buf| && forall k | 0 <= k < c :: buf[k] == buf[dim + k]
    ensures var buf' := buf[c := buf[dim + c]];
            buf'[i..j] == buf[i..j] && forall k | 0 <= k < c + 1 :: buf'[k] == buf'[dim + k]
  {
  }

  // Only the list of newer events grows.
  lemma UnreadGrows(s: State, s': State, e: seq<byte>)
    requires s'.read == s.read && s'.held == s.held && s'.newer == s.newer + [e]
    ensures Unread(s') == Unread(s) + e
  {
    ConcatSnoc(s.newer, e);
  }

  // The new event lies right behind the unread ones, whole.
  lemma PublishQueue(g: Geometry, s: State)
    requires Sound(g) && QueueInv(g, s) && ProducerInv(g, s) && Enabled(g, s, Publish)
    ensures QueueInv(g, Apply(g, s, Publish))
  {
    var h, size := s.producer.head, s.producer.size;
    assert h + size <= |s.buf| && |Unread(s)| + size < g.dim;
    Publishing(s.buf, g.dim, s.tail, Unread(s), h, size);
    UnreadGrows(s, Apply(g, s, Publish), s.buf[h..h + size]);
  }

  lemma PublishInv(g: Geometry, s: State)
    requires Sound(g) && Inv(g, s) && Enabled(g, s, Publish)
    ensures Inv(g, Apply(g, s, Publish))
  {
    PublishQueue(g, s);
    PublishHistory(g, s);
    FinishConserves(s.stats, Inserted);
  }

  lemma PublishHistory(g: Geometry, s: State)
    requires Sound(g) && QueueInv(g, s) && HistoryInv(s) && ProducerInv(g, s) && Enabled(g, s, Publish)
    ensures HistoryInv(Apply(g, s, Publish))
  {
    var h, size := s.producer.head, s.producer.size;
    SliceOfSlice(s.buf, h, h + size, LEN_AT, TYPE_AT);
    assert WellFormed(s.buf[h..h + size]);
  }

  lemma RefillInv(g: Geometry, s: State)
    requires Sound(g) && Inv(g, s) && Enabled(g, s, Refill)
    ensures Inv(g, Apply(g, s, Refill))
  {
    NoEmptyEvents(s.read);
    NoEmptyEvents(s.held);
    assert s.read == [] && s.held == [];
    assert s.held + s.newer == s.newer;
    assert Unread(Apply(g, s, Refill)) == Unread(s) == Concat(s.newer);
  }

  // The next event of the block is read whole, byte for byte, and never reported as corrupt.
  lemma NextDelivers(g: Geometry, s: State)
    requires Sound(g) && QueueInv(g, s) && HistoryInv(s) && ReaderInv(s) && s.reader.left > 0
    ensures s.held != [] && |s.held[0]| <= s.reader.left
    ensures ReadNext(g, s) ==
            s.(reader := Reader(s.reader.last, s.reader.pos + |s.held[0]|, s.reader.left - |s.held[0]|),
               delivered := s.delivered + [s.held[0]], read := s.read + [s.held[0]], held := s.held[1..])
  {
    var e, pos, skip := s.held[0], s.reader.pos, |Concat(s.read)|;
    assert WellFormed(e);
    assert Unread(s) == Concat(s.read) + e + (Concat(s.held[1..]) + Concat(s.newer));
    ViewPart(s.buf, g.dim, s.tail, |Unread(s)|, skip, skip + |e|);
    assert View(s.buf, g.dim, pos, |e|) == e;
    ViewPart(s.buf, g.dim, pos, |e|, LEN_AT, TYPE_AT);
    assert View(s.buf, g.dim, pos + LEN_AT, 4) == e[LEN_AT..TYPE_AT];
  }

  lemma NextInv(g: Geometry, s: State)
    requires Sound(g) && Inv(g, s) && Enabled(g, s, Next)
    ensures Inv(g, Apply(g, s, Next))
  {
    NextDelivers(g, s);
    ConcatSnoc(s.read, s.held[0]);
    assert Unread(Apply(g, s, Next)) == Unread(s);
  }

  lemma AdvanceTailInv(g: Geometry, s: State)
    requires Sound(g) && Inv(g, s) && Enabled(g, s, AdvanceTail)
    ensures Inv(g, Apply(g, s, AdvanceTail))
  {
    NoEmptyEvents(s.held);
    assert s.held == [];
    assert Unread(s)[s.reader.last..] == Unread(Apply(g, s, AdvanceTail));
    GivingBack(s.buf, g.dim, s.tail, Unread(s), s.reader.last);
  }

  lemma DropInv(g: Geometry, s: State, o: Ending)
    requires Sound(g) && Inv(g, s) && Enabled(g, s, Drop(o))
    ensures Inv(g, Apply(g, s, Drop(o)))
  {
    FinishConserves(s.stats, o);
  }

  lemma SnapshotKeepsInv(g: Geometry, s: State)
    requires Sound(g) && Inv(g, s) && Enabled(g, s, Snapshot)
    ensures Inv(g, Apply(g, s, Snapshot))
  {
  }

  lemma StepInv(g: Geometry, s: State, a: Action)
    requires Sound(g) && Inv(g, s) && Enabled(g, s, a)
    ensures Inv(g, Apply(g, s, a))
  {
    match a
    case Snapshot => SnapshotKeepsInv(g, s);
    case Write(i, b) => WriteInv(g, s, i, b);
    case Drop(o) => DropInv(g, s, o);
    case Commit(size) =>
    case CopyBack => CopyBackInv(g, s);
    case Publish => PublishInv(g, s);
    case Refill => RefillInv(g, s);
    case Next => NextInv(g, s);
    case AdvanceTail => AdvanceTailInv(g, s);
    case Reset => ClearedConserved(s.stats);
  }

  // --------------------------------------------------------------------------------------
  // Whole runs
  // --------------------------------------------------------------------------------------

  predicate Legal(g: Geometry, s: State, run: seq<Action>)
    decreases |run|
  {
    run == [] || (Enabled(g, s, run[0]) && Legal(g, Apply(g, s, run[0]), run[1..]))
  }

  function Exec(g: Geometry, s: State, run: seq<Action>): State
    requires Legal(g, s, run)
    decreases |run|
  {
    if run == [] then s else Exec(g, Apply(g, s, run[0]), run[1..])
  }

  lemma {:induction false} RunInv(g: Geometry, s: State, run: seq<Action>)
    requires Sound(g) && Inv(g, s) && Legal(g, s, run)
    ensures Inv(g, Exec(g, s, run))
    decreases |run|
  {
    if run != [] {
      StepInv(g, s, run[0]);
      RunInv(g, Apply(g, s, run[0]), run[1..]);
    }
  }

  lemma {:induction false} ExecAppend(g: Geometry, s: State, run: seq<Action>, more: seq<Action>)
    requires Legal(g, s, run) && Legal(g, Exec(g, s, run), more)
    ensures Legal(g, s, run + more) && Exec(g, s, run + more) == Exec(g, Exec(g, s, run), more)
    decreases |run|
  {
    if run == [] {
      assert run + more == more;
    } else {
      ExecAppend(g, Apply(g, s, run[0]), run[1..], more);
      assert (run + more)[1..] == run[1..] + more;
    }
  }

  // FIFO refinement: in every interleaving, what the reader has read is a prefix of what was
  // recorded, byte for byte and in order; nothing is read or written outside the buffers, the
  // reader never sees a corrupt event, and head == tail exactly when nothing is unread.
  lemma FifoRefinement(g: Geometry, s0: State, run: seq<Action>)
    requires Sound(g) && Initial(g, s0) && Legal(g, s0, run)
    ensures var s := Exec(g, s0, run);
            && s.delivered <= s.recorded
            && s.released <= s.delivered
            && !s.faulted && |s.buf| == g.dim + 2 * g.page
            && s.head < g.dim && s.tail < g.dim
            && (s.head == s.tail <==> s.released == s.recorded)
  {
    InitialInv(g, s0);
    RunInv(g, s0, run);
    var s := Exec(g, s0, run);
    assert s.recorded == s.delivered + (s.held + s.newer);
    NoEmptyEvents(s.read);
    NoEmptyEvents(s.held);
    NoEmptyEvents(s.newer);
    if s.read == [] && s.held == [] && s.newer == [] {
      assert s.released == s.recorded;
      assert Concat(s.read) == [] && Concat(s.held) == [] && Concat(s.newer) == [];
    } else {
      assert |s.recorded| > |s.released|;
    }
  }

  // Counter conservation over every run since the last reset: every event counted is in the ring's
  // history, was dropped, was skipped, or is under way.
  lemma CountersConserved(g: Geometry, s0: State, run: seq<Action>)
    requires Sound(g) && Initial(g, s0) && Legal(g, s0, run)
    ensures var s := Exec(g, s0, run);
            && s.stats.inserted == |s.recorded|
            && s.stats.evts == |s.recorded| + s.stats.dropsBuffer + s.stats.dropsPf + s.stats.skipped
                               + (if s.producer.Idle? then 0 else 1)
            && Sum(s.stats.byCategory) <= s.stats.dropsBuffer
  {
    InitialInv(g, s0);
    RunInv(g, s0, run);
  }

  // The steps of an attempt after its snapshot.
  predicate InAttempt(a: Action) {
    a.Write? || a.Drop? || a.Commit? || a.CopyBack? || a.Publish?
  }

  predicate ByProducer(a: Action) {
    a.Snapshot? || InAttempt(a)
  }

  predicate ByReader(a: Action) {
    a.Refill? || a.Next? || a.AdvanceTail?
  }

  // The bytes from tail on are the events of the block the reader holds.
  lemma BlockBytes(g: Geometry, s: State)
    requires QueueInv(g, s) && ReaderInv(s)
    ensures s.tail + s.reader.last <= 2 * g.dim
    ensures View(s.buf, g.dim, s.tail, s.reader.last) == Concat(s.read) + Concat(s.held)
  {
    ViewPart(s.buf, g.dim, s.tail, |Unread(s)|, 0, s.reader.last);
    assert Unread(s)[..s.reader.last] == Concat(s.read) + Concat(s.held);
  }

  lemma {:induction false} ProducerRun(g: Geometry, s: State, run: seq<Action>)
    requires Sound(g) && Inv(g, s) && Legal(g, s, run) && (forall a | a in run :: ByProducer(a))
    ensures var s' := Exec(g, s, run);
            Inv(g, s') && s'.tail == s.tail && s'.reader == s.reader && s'.read == s.read && s'.held == s.held
    decreases |run|
  {
    if run != [] {
      StepInv(g, s, run[0]);
      assert ByProducer(run[0]);
      ProducerRun(g, Apply(g, s, run[0]), run[1..]);
    }
  }

  // Whatever the producer does, the block the reader holds stays as it was: user space may use
  // the event it was handed until it asks for the tail to move.
  lemma HeldBlockStable(g: Geometry, s: State, run: seq<Action>)
    requires Sound(g) && Inv(g, s) && Legal(g, s, run) && (forall a | a in run :: ByProducer(a))
    ensures var s' := Exec(g, s, run);
            && s'.tail == s.tail && s'.reader == s.reader && |s'.buf| == |s.buf|
            && View(s'.buf, g.dim, s.tail, s.reader.last) == View(s.buf, g.dim, s.tail, s.reader.last)
  {
    ProducerRun(g, s, run);
    BlockBytes(g, s);
    BlockBytes(g, Exec(g, s, run));
  }

  // No step of a recording attempt changes an unread byte, also with a stale tail.
  lemma UnreadStable(g: Geometry, s: State, a: Action)
    requires Sound(g) && Inv(g, s) && Enabled(g, s, a) && ByProducer(a)
    ensures |Apply(g, s, a).buf| == |s.buf|
    ensures View(Apply(g, s, a).buf, g.dim, s.tail, |Unread(s)|) == Unread(s)
    ensures Apply(g, s, a).recorded == s.recorded || (a.Publish? && |Apply(g, s, a).recorded| == |s.recorded| + 1)
  {
    StepInv(g, s, a);
    assert a.Publish? ==> Apply(g, s, a).buf == s.buf;
    assert !a.Publish? ==> Unread(Apply(g, s, a)) == Unread(s);
  }

  // The reader can always finish its block.
  lemma {:induction false} FinishBlock(g: Geometry, s: State) returns (run: seq<Action>)
    requires Sound(g) && Inv(g, s)
    ensures Legal(g, s, run) && (forall a | a in run :: ByReader(a))
    ensures var s' := Exec(g, s, run);
            && Inv(g, s') && s'.held == [] && s'.newer == s.newer && s'.recorded == s.recorded
            && s'.reader.last == s.reader.last
    decreases |s.held|
  {
    NoEmptyEvents(s.held);
    if s.held == [] {
      return [];
    }
    NextDelivers(g, s);
    StepInv(g, s, Next);
    var rest := FinishBlock(g, Apply(g, s, Next));
    run := [Next] + rest;
    assert run[1..] == rest;
  }

  // ... give it back ...
  lemma GiveBackBlock(g: Geometry, s: State) returns (run: seq<Action>)
    requires Sound(g) && Inv(g, s) && s.held == []
    ensures Legal(g, s, run) && (forall a | a in run :: ByReader(a))
    ensures var s' := Exec(g, s, run);
            && Inv(g, s') && s'.held == [] && s'.recorded == s.recorded
            && s'.reader.last == 0 && s'.reader.left == 0
  {
    assert Concat(s.held) == [];
    if s.reader.last == 0 {
      return [];
    }
    StepInv(g, s, AdvanceTail);
    run := [AdvanceTail];
    assert run[1..] == [];
    assert Exec(g, Apply(g, s, AdvanceTail), []) == Apply(g, s, AdvanceTail);
  }

  // ... and read everything there is by then.
  lemma ReadAll(g: Geometry, s: State) returns (run: seq<Action>)
    requires Sound(g) && Inv(g, s) && s.held == [] && s.reader.last == 0 && s.reader.left == 0
    ensures Legal(g, s, run) && (forall a | a in run :: ByReader(a))
    ensures Exec(g, s, run).delivered == s.recorded == Exec(g, s, run).recorded
  {
    StepInv(g, s, Refill);
    var s1 := Apply(g, s, Refill);
    var last := FinishBlock(g, s1);
    run := [Refill] + last;
    assert run[1..] == last;
    var s' := Exec(g, s1, last);
    assert s'.recorded == s'.delivered + (s'.held + s'.newer);
  }

  // Nothing recorded is lost: from every reachable state the reader alone can go on and read
  // everything that was recorded.
  lemma CatchUp(g: Geometry, s: State) returns (run: seq<Action>)
    requires Sound(g) && Inv(g, s)
    ensures Legal(g, s, run) && (forall a | a in run :: ByReader(a))
    ensures Exec(g, s, run).delivered == s.recorded == Exec(g, s, run).recorded
  {
    var first := FinishBlock(g, s);
    var s1 := Exec(g, s, first);
    var turn := GiveBackBlock(g, s1);
    var last := ReadAll(g, Exec(g, s1, turn));
    ExecAppend(g, s1, turn, last);
    ExecAppend(g, s, first, turn + last);
    run := first + (turn + last);
  }
}
