/**
 The recorder: the part of `record_event_consumer` behind the preemption gate, on the ring's
 buffer in place. Every recording attempt is shown to be a run of the ring protocol, and
 what a successful one publishes is the event of the values its filler pushed.
 */
module Recorder {
  import opened Bytes
  import opened RingLayout
  import opened RingStats
  import P = RingProtocol
  import opened Attempt
  import opened Payload
  import opened Params
  import opened Serializer
  import opened Filler
  import opened Decoder

  // The space for parameter data that an attempt with this snapshot has.
  function DataRoom(g: Geometry, h: nat, t: nat, n: nat): int
    requires h < g.dim
  {
    Limit(g, h, t) - HEADER - 2 * n
  }

  // How an attempt ends, as a function of the snapshot and of what the filler does.
  function EndingOf(g: Geometry, h: nat, t: nat, params: seq<ParamInfo>, f: Filler,
                     category: Option<nat>): Ending
    requires Sound(g) && h < g.dim && |params| <= MAX_PARAMS && Typed(params, 0, f.ops)
  {
    if FreeSpace(g.dim, h, t) < HEADER + 2 * |params| then NoRoom else
    match Run(params, [], DataRoom(g, h, t, |params|), false, f.ops, f.last)
    case Filled(values) => if |values| == |params| then Inserted else Misfit
    case Failed(code) => EndingOfFailure(code, category)
  }

  function EndingOfFailure(code: Code, category: Option<nat>): (o: Ending)
    ensures !o.Inserted?
  {
    match code
    case InvalidUserMemory => PageFault
    case BufferFull => OutOfSpace(category)
    case SkipEvent => Skipped
    case _ => Misfit
  }

  // The event that a successful attempt publishes.
  function EventOf(ns: nat, tid: nat, ty: nat, values: seq<seq<byte>>): seq<byte> {
    EventBytes(Header(ns, tid, HEADER + 2 * |values| + |Concat(values)|, ty, |values|), values)
  }

  // What an attempt is asked to record.
  datatype Request = Request(ns: nat, tid: nat, ty: nat, params: seq<ParamInfo>, filler: Filler, category: Option<nat>)

  predicate ValidRequest(r: Request) {
    && |r.params| <= MAX_PARAMS && Typed(r.params, 0, r.filler.ops)
    && r.ns < TWO64 && r.tid < TWO64 && r.ty < TWO16 && (r.category.Some? ==> r.category.value < CATEGORIES)
  }

  // What was recorded: the arguments of a successful attempt and the values its filler pushed.
  datatype Record = Record(ns: nat, tid: nat, ty: nat, params: seq<ParamInfo>, values: seq<seq<byte>>)

  function BytesOf(r: Record): seq<byte> {
    EventOf(r.ns, r.tid, r.ty, r.values)
  }

  predicate Publishes(r: Record, e: seq<byte>) {
    && r.ns < TWO64 && r.tid < TWO64 && r.ty < TWO16 && AllAllowed(r.params, r.values) && |r.values| == |r.params|
    && e == BytesOf(r) && |e| < TWO32
  }

  // What the attempt inserts: one record, or none.
  function Inserts(g: Geometry, h: nat, t: nat, r: Request): seq<Record>
    requires Sound(g) && h < g.dim && ValidRequest(r)
  {
    if EndingOf(g, h, t, r.params, r.filler, r.category) == Inserted then
      var fill := Run(r.params, [], DataRoom(g, h, t, |r.params|), false, r.filler.ops, r.filler.last);
      [Record(r.ns, r.tid, r.ty, r.params, fill.values)]
    else []
  }

  function Events(records: seq<Record>): (events: seq<seq<byte>>)
    ensures |events| == |records|
  {
    seq(|records|, i requires 0 <= i < |records| => BytesOf(records[i]))
  }

  // The steps `run`, taken from a state right after the snapshot, are an attempt at the request: they
  // end it as EndingOf says, and record exactly what it inserts.
  ghost predicate Attempts(g: Geometry, s: P.State, r: Request, run: seq<P.Action>) {
    && Sound(g) && ValidRequest(r) && s.producer.Filling? && s.producer.head < g.dim && s.producer.tail < g.dim
    && |s.stats.byCategory| == CATEGORIES
    && P.Legal(g, s, run) && (forall a | a in run :: P.InAttempt(a))
    && var h, t, e := s.producer.head, s.producer.tail, P.Exec(g, s, run);
       && e.producer.Idle? && e.stats == Finish(s.stats, EndingOf(g, h, t, r.params, r.filler, r.category))
       && e.recorded == s.recorded + Events(Inserts(g, h, t, r))
  }

  lemma Assembled(a: seq<byte>, h: nat, p: seq<byte>, l: seq<byte>, q: seq<byte>, lens: seq<byte>, data: seq<byte>,
                  k: nat, m: nat, end: nat)
    requires h + HEADER <= k <= end <= |a| && m == h + HEADER
    requires |p| == LEN_AT && |l| == 4 && |q| == 6
    requires a[h..h + LEN_AT] == p && a[h + LEN_AT..h + TYPE_AT] == l && a[h + TYPE_AT..m] == q
    requires a[m..k] == lens && a[k..end] == data
    ensures a[h..end] == p + l + q + lens + data
  {
  }

  class Ring {
    const g: Geometry
    const buffer: array<byte>
    var head: nat
    var tail: nat
    var stats: Stats
    ghost var proto: P.State      // the state of the protocol that this ring is in

    ghost predicate Valid()
      reads this, buffer
    {
      && Sound(g) && P.Inv(g, proto)
      && buffer[..] == proto.buf && head == proto.head && tail == proto.tail && stats == proto.stats
    }

    // What an attempt needs to stay within its memory. It says nothing of tail.
    ghost predicate Safe()
      reads this
    {
      Sound(g) && buffer.Length == g.dim + 2 * g.page && head < g.dim && |stats.byCategory| == CATEGORIES
    }

    // The header, except for the length.
    method WriteHeader(h: nat, ns: nat, tid: nat, ty: nat, nparams: nat)
      requires h + HEADER <= buffer.Length
      modifies buffer
      ensures Framed(old(buffer[..]), buffer[..], h, HEADER)
      ensures buffer[..][h..h + LEN_AT] == ToLE(ns, 8) + ToLE(tid, 8)
      ensures buffer[..][h + TYPE_AT..h + HEADER] == ToLE(ty, 2) + ToLE(nparams, 4)
    {
      ghost var s0 := buffer[..];
      Store(buffer, h, ns, 8);
      ghost var s1 := buffer[..];
      Store(buffer, h + 8, tid, 8);
      ghost var s2 := buffer[..];
      Store(buffer, h + TYPE_AT, ty, 2);
      ghost var s3 := buffer[..];
      Store(buffer, h + NPARAMS_AT, nparams, 4);
      FourStores(s0, s1, s2, s3, buffer[..], h, ToLE(ns, 8), ToLE(tid, 8), ToLE(ty, 2), ToLE(nparams, 4));
    }

    // The event at h, up to `limit` bytes: header, filler, length. The callback's code, and the size
    // of the event if it is complete.
    method WriteEvent(h: nat, limit: nat, ns: nat, tid: nat, ty: nat, params: seq<ParamInfo>, f: Filler,
                      ghost fill: Fill) returns (cbres: Code, complete: bool, size: nat)
      requires HEADER + 2 * |params| <= limit && h + limit <= buffer.Length && Typed(params, 0, f.ops)
      requires fill == Run(params, [], limit - HEADER - 2 * |params|, false, f.ops, f.last)
      modifies buffer
      ensures Framed(old(buffer[..]), buffer[..], h, limit)
      ensures match fill
              case Filled(values) =>
                && cbres == Success && (complete <==> |values| == |params|)
                && (complete ==> HEADER <= size <= limit && buffer[..][h..h + size] == EventOf(ns, tid, ty, values))
              case Failed(code) => cbres == code && code != Success && !complete
    {
      ghost var s0 := buffer[..];
      WriteHeader(h, ns, tid, ty, |params|);
      ghost var s1 := buffer[..];
      var args;
      cbres, args := Fill(h, limit, params, f, fill);
      ghost var s2 := buffer[..];
      complete, size := false, 0;
      FilledIn(s0, s1, s2, h, limit);
      if cbres == Success && args.curarg == |params| {
        size := CompleteHeader(h, limit, ns, tid, ty, args, s0, s1);
        complete := true;
      }
    }

    // The parameters: a cursor behind the header, and the callback on it.
    method Fill(h: nat, limit: nat, params: seq<ParamInfo>, f: Filler, ghost fill: Fill)
      returns (cbres: Code, args: FillerArgs)
      requires HEADER + 2 * |params| <= limit && h + limit <= buffer.Length && Typed(params, 0, f.ops)
      requires fill == Run(params, [], limit - HEADER - 2 * |params|, false, f.ops, f.last)
      modifies buffer
      ensures Framed(old(buffer[..]), buffer[..], h + HEADER, limit - HEADER)
      ensures args.buffer == buffer && args.base == h + HEADER && args.bufferSize == limit - HEADER
      ensures args.params == params
      ensures match fill
              case Filled(values) =>
                cbres == Success && args.Valid() && args.pushed == values && args.curarg == |values|
              case Failed(code) => cbres == code && code != Success
    {
      args := new FillerArgs(buffer, h + HEADER, limit - HEADER, params);
      assert fill == Run(args.params, args.pushed, args.dataSize, args.enforceSnaplen, f.ops, f.last);
      cbres := RunFiller(args, f);
    }

    // The length, once the filler has pushed all parameters.
    method CompleteHeader(h: nat, ghost limit: nat, ghost ns: nat, ghost tid: nat, ghost ty: nat, args: FillerArgs,
                          ghost s0: seq<byte>, ghost s1: seq<byte>) returns (size: nat)
      requires args.Valid() && args.curarg == |args.params| && args.buffer == buffer
      requires args.base == h + HEADER && HEADER <= limit && args.bufferSize == limit - HEADER
      requires Framed(s0, s1, h, HEADER) && Framed(s1, buffer[..], h + HEADER, limit - HEADER)
      requires s1[h..h + LEN_AT] == ToLE(ns, 8) + ToLE(tid, 8)
      requires s1[h + TYPE_AT..h + HEADER] == ToLE(ty, 2) + ToLE(|args.params|, 4)
      modifies buffer
      ensures HEADER <= size <= limit && Framed(s0, buffer[..], h, limit)
      ensures buffer[..][h..h + size] == EventOf(ns, tid, ty, args.pushed)
    {
      ghost var s2 := buffer[..];
      size := HEADER + args.dataOffset;
      Store(buffer, h + LEN_AT, size, 4);
      EventCompleted(s0, s1, s2, buffer[..], h, limit, ns, tid, ty, args.pushed, args.lens, args.data, size);
    }

    // init_ring_buffer
    constructor (g: Geometry)
      requires Sound(g)
      ensures Valid() && this.g == g && P.Initial(g, proto)
    {
      this.g := g;
      buffer := new byte[g.dim + 2 * g.page](_ => 0);
      head, tail, stats := 0, 0, Stats(0, 0, 0, seq(CATEGORIES, _ => 0), 0, 0);
      new;
      proto := P.State(buffer[..], 0, 0, stats, P.Idle, P.Reader(0, 0, 0), false, [], [], [], [], [], []);
      P.InitialInv(g, proto);
    }

    // reset_ring_buffer, with no attempt under way
    method Reset()
      requires Valid() && proto.producer.Idle?
      modifies this
      ensures Valid() && proto == P.Apply(g, old(proto), P.Reset)
    {
      P.StepInv(g, proto, P.Reset);
      head, tail, stats := 0, 0, Cleared(stats);
      proto := P.Apply(g, proto, P.Reset);
    }

    // What an admitted attempt does first: count the event, read head and tail.
    method Snapshot() returns (h: nat, t: nat)
      requires Valid() && proto.producer.Idle?
      modifies this
      ensures Valid() && h == head && t == tail
      ensures proto == P.Apply(g, old(proto), P.Snapshot) && proto.producer == P.Filling(h, t)
    {
      P.StepInv(g, proto, P.Snapshot);
      stats := stats.(evts := stats.evts + 1);
      h, t := head, tail;
      proto := P.Apply(g, proto, P.Snapshot);
    }

    // The end of a successful attempt: copy the run-over back, then move head.
    method Publish(h: nat, size: nat)
      requires Sound(g) && buffer.Length == g.dim + 2 * g.page && h < g.dim && h + size < buffer.Length
      modifies this`head, buffer
      ensures buffer[..] == CopiedBack(old(buffer[..]), g.dim, P.Overrun(g, h, size))
      ensures head == NextHead(g, h, size)
    {
      var next := h + size;
      ghost var was, over := buffer[..], P.Overrun(g, h, size);
      if next >= g.dim {
        if next > g.dim {
          CopyOver(next - g.dim);
        } else {
          CopiedBackNone(was, g.dim, over);
        }
        next := next - g.dim;
      } else {
        CopiedBackNone(was, g.dim, over);
      }
      head := next;
    }

    // memcpy of what lies behind the end of the ring to its beginning.
    method CopyOver(n: nat)
      requires n <= g.dim && g.dim + n <= buffer.Length
      modifies buffer
      ensures buffer[..] == CopiedBack(old(buffer[..]), g.dim, n)
    {
      ghost var was := buffer[..];
      Copy(buffer, 0, buffer[..][g.dim..], n);
      SliceOfSlice(was, g.dim, |was|, 0, n);
      assert was[g.dim..] == was[g.dim..|was|] && was[g.dim..|was|][0..n] == was[g.dim..][..n];
      CopiedBackIs(was, buffer[..], g.dim, n);
    }

    // The end of a failed attempt: one counter moves, and one of the categories.
    method CountDrop(cbres: Code, category: Option<nat>, ghost o: Ending)
      requires |stats.byCategory| == CATEGORIES && (category.Some? ==> category.value < CATEGORIES)
      requires if cbres == Success then o == NoRoom || o == Misfit else o == EndingOfFailure(cbres, category)
      modifies this`stats
      ensures stats == Finish(old(stats), o)
    {
      if cbres == Success {
        stats := stats.(dropsBuffer := stats.dropsBuffer + 1);
      } else if cbres == InvalidUserMemory {
        stats := stats.(dropsPf := stats.dropsPf + 1);
      } else if cbres == BufferFull {
        stats := stats.(dropsBuffer := stats.dropsBuffer + 1);
        if category.Some? {
          var c := category.value;
          stats := stats.(byCategory := stats.byCategory[c := stats.byCategory[c] + 1]);
        }
      } else if cbres == SkipEvent {
        stats := stats.(skipped := stats.skipped + 1);
      } else {
        stats := stats.(dropsBuffer := stats.dropsBuffer + 1);
      }
    }

    // The attempt up to its end: the event, if there is room for its header and length array.
    method TryEvent(h: nat, t: nat, ns: nat, tid: nat, ty: nat, params: seq<ParamInfo>, f: Filler,
                    ghost category: Option<nat>, ghost o: Ending, ghost fill: Fill)
      returns (cbres: Code, complete: bool, size: nat)
      requires Sound(g) && buffer.Length == g.dim + 2 * g.page && h < g.dim
      requires |params| <= MAX_PARAMS && Typed(params, 0, f.ops) && ns < TWO64 && tid < TWO64 && ty < TWO16
      requires o == EndingOf(g, h, t, params, f, category)
      requires DataRoom(g, h, t, |params|) >= 0 ==>
                 fill == Run(params, [], DataRoom(g, h, t, |params|), false, f.ops, f.last)
      modifies buffer
      ensures Framed(old(buffer[..]), buffer[..], h, Limit(g, h, t))
      ensures complete <==> o == Inserted
      ensures complete ==>
                && fill.Filled? && HEADER <= size <= Limit(g, h, t)
                && buffer[..][h..h + size] == EventOf(ns, tid, ty, fill.values)
      ensures !complete ==>
                if cbres == Success then o == NoRoom || o == Misfit else o == EndingOfFailure(cbres, category)
    {
      cbres, complete, size := Success, false, 0;
      var free := if t > h then t - h - 1 else g.dim + t - h - 1;
      var delta := g.dim + 2 * g.page - h - 1;
      var limit := if free < delta then free else delta;
      if free >= HEADER + 2 * |params| {
        cbres, complete, size := WriteEvent(h, limit, ns, tid, ty, params, f, fill);
      }
    }

    // The rest of the attempt in memory, with h and t as read, whatever t is: the event is written
    // within the limit, which is inside the buffer, giving `mid`; then its run-over is copied and head
    // moves, or the drop is counted.
    method Perform(h: nat, t: nat, ns: nat, tid: nat, ty: nat, params: seq<ParamInfo>, f: Filler,
                   category: Option<nat>, ghost o: Ending, ghost fill: Fill)
      returns (complete: bool, ghost size: nat, ghost mid: seq<byte>)
      requires Safe() && h == head && |params| <= MAX_PARAMS && Typed(params, 0, f.ops)
      requires ns < TWO64 && tid < TWO64 && ty < TWO16 && (category.Some? ==> category.value < CATEGORIES)
      requires o == EndingOf(g, h, t, params, f, category)
      requires DataRoom(g, h, t, |params|) >= 0 ==>
                 fill == Run(params, [], DataRoom(g, h, t, |params|), false, f.ops, f.last)
      modifies this`head, this`stats, buffer
      ensures Safe() && stats == Finish(old(stats), o)
      ensures Framed(old(buffer[..]), mid, h, Limit(g, h, t)) && h + Limit(g, h, t) < buffer.Length
      ensures complete <==> o == Inserted
      ensures complete ==>
                && fill.Filled? && HEADER <= size <= Limit(g, h, t)
                && mid[h..h + size] == EventOf(ns, tid, ty, fill.values)
                && buffer[..] == CopiedBack(mid, g.dim, P.Overrun(g, h, size)) && head == NextHead(g, h, size)
      ensures !complete ==> buffer[..] == mid && head == h
    {
      var cbres, n;
      cbres, complete, n := TryEvent(h, t, ns, tid, ty, params, f, category, o, fill);
      size, mid := n, buffer[..];
      AnyTailInside(g, h, t, if complete then n else 0);
      if complete {
        Publish(h, n);
        stats := stats.(inserted := stats.inserted + 1);
      } else {
        CountDrop(cbres, category, o);
      }
    }

    // The same with a tail that the reader has stored; it may have moved tail since. The attempt ends
    // as EndingOf says, it is a run of the protocol, and a successful one publishes exactly the event
    // of the values that the filler pushed. The steps `run` are what it does whatever the reader does
    // meanwhile.
    method Record(h: nat, t: nat, ns: nat, tid: nat, ty: nat, params: seq<ParamInfo>, f: Filler,
                  category: Option<nat>) returns (res: bool, ghost run: seq<P.Action>)
      requires Valid() && proto.producer == P.Filling(h, t)
      requires |params| <= MAX_PARAMS && Typed(params, 0, f.ops)
      requires ns < TWO64 && tid < TWO64 && ty < TWO16 && (category.Some? ==> category.value < CATEGORIES)
      modifies this, buffer
      ensures Valid() && proto.producer.Idle? && tail == old(tail)
      ensures stats == Finish(old(stats), EndingOf(g, h, t, params, f, category))
      ensures res <==> EndingOf(g, h, t, params, f, category) == Inserted
      ensures P.Legal(g, old(proto), run) && P.Exec(g, old(proto), run) == proto
      ensures forall a | a in run :: P.InAttempt(a)
      ensures res ==>
                var fill := Run(params, [], DataRoom(g, h, t, |params|), false, f.ops, f.last);
                fill.Filled? && proto.recorded == old(proto.recorded) + [EventOf(ns, tid, ty, fill.values)]
      ensures !res ==> proto.recorded == old(proto.recorded)
      ensures Attempts(g, old(proto), Request(ns, tid, ty, params, f, category), run)
    {
      ghost var o := EndingOf(g, h, t, params, f, category);
      ghost var room := DataRoom(g, h, t, |params|);
      ghost var fill := if room >= 0 then Run(params, [], room, false, f.ops, f.last) else Failed(Bug);
      ghost var size, mid;
      res, size, mid := Perform(h, t, ns, tid, ty, params, f, category, o, fill);
      run, proto := AttemptRuns(g, proto, Request(ns, tid, ty, params, f, category), mid, res, fill, size);
    }
  }

  // What an attempt has done in memory is a run of the protocol.
  lemma AttemptRuns(g: Geometry, s: P.State, r: Request, mid: seq<byte>, res: bool, fill: Fill, size: nat)
    returns (run: seq<P.Action>, next: P.State)
    requires Sound(g) && P.Inv(g, s) && s.producer.Filling? && ValidRequest(r)
    requires var h, t := s.producer.head, s.producer.tail;
             && h < g.dim && t < g.dim && Framed(s.buf, mid, h, Limit(g, h, t))
             && (DataRoom(g, h, t, |r.params|) >= 0 ==>
                   fill == Run(r.params, [], DataRoom(g, h, t, |r.params|), false, r.filler.ops, r.filler.last))
             && (res <==> EndingOf(g, h, t, r.params, r.filler, r.category) == Inserted)
             && (res ==> fill.Filled? && HEADER <= size <= Limit(g, h, t) &&
                         mid[h..h + size] == EventOf(r.ns, r.tid, r.ty, fill.values))
    ensures P.Inv(g, next) && next.producer.Idle? && next.tail == s.tail
    ensures Attempts(g, s, r, run) && P.Exec(g, s, run) == next
    ensures res ==>
              && fill.Filled? && next.recorded == s.recorded + [EventOf(r.ns, r.tid, r.ty, fill.values)]
              && next.head == NextHead(g, s.producer.head, size)
              && g.dim + P.Overrun(g, s.producer.head, size) <= |mid|
              && next.buf == CopiedBack(mid, g.dim, P.Overrun(g, s.producer.head, size))
    ensures !res ==> next.recorded == s.recorded && next.buf == mid && next.head == s.head
  {
    var h, t := s.producer.head, s.producer.tail;
    if res {
      EventIsComplete(mid, h, r.ns, r.tid, r.ty, fill.values, size);
      run, next := RecordSafely(g, s, mid, h, size, P.Overrun(g, h, size));
    } else {
      run, next := DropSafely(g, s, mid, EndingOf(g, h, t, r.params, r.filler, r.category));
    }
    AttemptEnds(g, h, t, r, s.recorded, next.recorded, res);
  }

  // One event more, or none.
  lemma AttemptEnds(g: Geometry, h: nat, t: nat, r: Request, before: seq<seq<byte>>, after: seq<seq<byte>>, res: bool)
    requires Sound(g) && h < g.dim && t < g.dim && ValidRequest(r)
    requires res <==> EndingOf(g, h, t, r.params, r.filler, r.category) == Inserted
    requires var fill := if DataRoom(g, h, t, |r.params|) >= 0
                         then Run(r.params, [], DataRoom(g, h, t, |r.params|), false, r.filler.ops, r.filler.last)
                         else Failed(Bug);
             after == before + if res && fill.Filled? then [EventOf(r.ns, r.tid, r.ty, fill.values)] else []
    ensures after == before + Events(Inserts(g, h, t, r))
  {
  }

  // The length field of a complete event is its size.
  lemma EventIsComplete(a: seq<byte>, h: nat, ns: nat, tid: nat, ty: nat, values: seq<seq<byte>>, size: nat)
    requires h + size <= |a| && |a| < TWO32 && a[h..h + size] == EventOf(ns, tid, ty, values)
    requires ns < TWO64 && tid < TWO64 && ty < TWO16
    ensures HEADER <= size && P.LenField(a, h) == size
  {
    EventOfLen(ns, tid, ty, values, size);
    LenInPlace(a, h, size, EventOf(ns, tid, ty, values));
  }

  lemma EventOfLen(ns: nat, tid: nat, ty: nat, values: seq<seq<byte>>, size: nat)
    requires size == |EventOf(ns, tid, ty, values)| < TWO32 && ns < TWO64 && tid < TWO64 && ty < TWO16
    ensures HEADER <= size && FromLE(EventOf(ns, tid, ty, values)[LEN_AT..TYPE_AT]) == size
  {
    EventLen(Header(ns, tid, size, ty, |values|), values);
  }

  lemma LenInPlace(a: seq<byte>, h: nat, size: nat, e: seq<byte>)
    requires h + size <= |a| && HEADER <= size && a[h..h + size] == e && FromLE(e[LEN_AT..TYPE_AT]) == size
    ensures P.LenField(a, h) == size
  {
    SliceOfSlice(a, h, h + size, LEN_AT, TYPE_AT);
  }

  lemma CopiedBackIs(s: seq<byte>, t: seq<byte>, dim: nat, n: nat)
    requires n <= dim && dim + n <= |s| && Framed(s, t, 0, n) && t[0..n] == s[dim..dim + n]
    ensures t == CopiedBack(s, dim, n)
  {
  }

  lemma CopiedBackNone(s: seq<byte>, dim: nat, n: nat)
    requires n == 0 && dim <= |s|
    ensures CopiedBack(s, dim, n) == s
  {
  }

  lemma FilledIn(s0: seq<byte>, s1: seq<byte>, s2: seq<byte>, h: nat, limit: nat)
    requires Framed(s0, s1, h, HEADER) && HEADER <= limit && Framed(s1, s2, h + HEADER, limit - HEADER)
    ensures Framed(s0, s2, h, limit)
  {
  }

  // The header without its length, then the parameters, then the length: the event is complete.
  lemma EventCompleted(s0: seq<byte>, s1: seq<byte>, s2: seq<byte>, s3: seq<byte>, h: nat, limit: nat,
                       ns: nat, tid: nat, ty: nat, values: seq<seq<byte>>, lens: seq<byte>, data: seq<byte>, size: nat)
    requires Framed(s0, s1, h, HEADER) && HEADER <= limit && Framed(s1, s2, h + HEADER, limit - HEADER)
    requires s1[h..h + LEN_AT] == ToLE(ns, 8) + ToLE(tid, 8)
    requires s1[h + TYPE_AT..h + HEADER] == ToLE(ty, 2) + ToLE(|values|, 4)
    requires Area(s2, h + HEADER, |values|, lens, data) && lens == LenArray(values) && data == Concat(values)
    requires size == HEADER + 2 * |values| + |data| <= limit
    requires Framed(s2, s3, h + LEN_AT, 4) && s3[h + LEN_AT..h + TYPE_AT] == ToLE(size, 4)
    ensures Framed(s0, s3, h, limit) && s3[h..h + size] == EventOf(ns, tid, ty, values)
  {
    Completed(s0, s1, s2, s3, h, limit, ToLE(ns, 8) + ToLE(tid, 8), ToLE(size, 4), ToLE(ty, 2) + ToLE(|values|, 4),
              |values|, lens, data, size);
    EventSpelledOut(ns, tid, ty, values, ToLE(ns, 8), ToLE(tid, 8), ToLE(size, 4), ToLE(ty, 2), ToLE(|values|, 4),
                    size);
  }

  lemma Completed(s0: seq<byte>, s1: seq<byte>, s2: seq<byte>, s3: seq<byte>, h: nat, limit: nat,
                  p: seq<byte>, l: seq<byte>, q: seq<byte>, n: nat, lens: seq<byte>, data: seq<byte>, size: nat)
    requires Framed(s0, s1, h, HEADER) && HEADER <= limit && Framed(s1, s2, h + HEADER, limit - HEADER)
    requires |p| == LEN_AT && |l| == 4 && |q| == 6
    requires s1[h..h + LEN_AT] == p && s1[h + TYPE_AT..h + HEADER] == q
    requires Area(s2, h + HEADER, n, lens, data) && |lens| == 2 * n && size == HEADER + 2 * n + |data| <= limit
    requires Framed(s2, s3, h + LEN_AT, 4) && s3[h + LEN_AT..h + TYPE_AT] == l
    ensures Framed(s0, s3, h, limit) && s3[h..h + size] == p + l + q + lens + data
  {
    FilledIn(s0, s1, s2, h, limit);
    Widened(s2, s3, h + LEN_AT, 4, h, limit);
    var m, k := h + HEADER, h + HEADER + 2 * n;
    Kept(s1, s2, m, limit - HEADER, h, h + LEN_AT);
    Kept(s1, s2, m, limit - HEADER, h + TYPE_AT, m);
    Kept(s2, s3, h + LEN_AT, 4, h, h + LEN_AT);
    Kept(s2, s3, h + LEN_AT, 4, h + TYPE_AT, m);
    Kept(s2, s3, h + LEN_AT, 4, m, k);
    Kept(s2, s3, h + LEN_AT, 4, k, h + size);
    Assembled(s3, h, p, l, q, lens, data, k, m, h + size);
  }

  lemma EventSpelledOut(ns: nat, tid: nat, ty: nat, values: seq<seq<byte>>, a: seq<byte>, b: seq<byte>, c: seq<byte>,
                        d: seq<byte>, f: seq<byte>, size: nat)
    requires a == ToLE(ns, 8) && b == ToLE(tid, 8) && c == ToLE(size, 4) && d == ToLE(ty, 2) && f == ToLE(|values|, 4)
    requires size == HEADER + 2 * |values| + |Concat(values)|
    ensures EventOf(ns, tid, ty, values) == (a + b) + c + (d + f) + LenArray(values) + Concat(values)
  {
    Grouped(a, b, c, d, f);
  }

  lemma Grouped(a: seq<byte>, b: seq<byte>, c: seq<byte>, d: seq<byte>, f: seq<byte>)
    ensures a + b + c + d + f == (a + b) + c + (d + f)
  {
  }

  lemma FourStores(s0: seq<byte>, s1: seq<byte>, s2: seq<byte>, s3: seq<byte>, s4: seq<byte>, h: nat,
                   a: seq<byte>, b: seq<byte>, d: seq<byte>, f: seq<byte>)
    requires Framed(s0, s1, h, 8) && Framed(s1, s2, h + 8, 8) && Framed(s2, s3, h + TYPE_AT, 2)
    requires Framed(s3, s4, h + NPARAMS_AT, 4) && h + HEADER <= |s0|
    requires s1[h..h + 8] == a && s2[h + 8..h + 16] == b && s3[h + TYPE_AT..h + NPARAMS_AT] == d
    requires s4[h + NPARAMS_AT..h + HEADER] == f
    ensures Framed(s0, s4, h, HEADER)
    ensures s4[h..h + LEN_AT] == a + b && s4[h + TYPE_AT..h + HEADER] == d + f
  {
    Widened(s0, s1, h, 8, h, HEADER);
    Widened(s1, s2, h + 8, 8, h, HEADER);
    Widened(s2, s3, h + TYPE_AT, 2, h, HEADER);
    Widened(s3, s4, h + NPARAMS_AT, 4, h, HEADER);
    Kept(s1, s2, h + 8, 8, h, h + 8);
    Joined(s2, h, h + 8, h + 16, a, b);
    Kept(s2, s3, h + TYPE_AT, 2, h, h + LEN_AT);
    Kept(s3, s4, h + NPARAMS_AT, 4, h, h + LEN_AT);
    Kept(s3, s4, h + NPARAMS_AT, 4, h + TYPE_AT, h + NPARAMS_AT);
    Joined(s4, h + TYPE_AT, h + NPARAMS_AT, h + HEADER, d, f);
  }

  // --------------------------------------------------------------------------------------
  // From the filler in the kernel to the decoder in user space
  // --------------------------------------------------------------------------------------

  // Every event that an attempt publishes decodes to its header and to the values pushed.
  lemma EventDecodes(ns: nat, tid: nat, ty: nat, params: seq<ParamInfo>, values: seq<seq<byte>>)
    requires ns < TWO64 && tid < TWO64 && ty < TWO16 && AllAllowed(params, values) && |values| == |params|
    requires |EventOf(ns, tid, ty, values)| < TWO32
    ensures var e := EventOf(ns, tid, ty, values);
            && ReadHeader(e) == Header(ns, tid, |e|, ty, |params|)
            && Decoded(e, |params|, 2) == Some(values)
  {
    var h := Header(ns, tid, |EventOf(ns, tid, ty, values)|, ty, |values|);
    assert forall i | 0 <= i < |values| :: Allowed(params[i], values[i]);
    EventRoundTrip(h, values, EventBytes(h, values));
  }

  // Whatever the filler, an attempt that ends in an insertion publishes such an event.
  lemma InsertionPublishes(g: Geometry, h: nat, t: nat, ns: nat, tid: nat, ty: nat, params: seq<ParamInfo>, f: Filler,
                           category: Option<nat>)
    requires Sound(g) && h < g.dim && |params| <= MAX_PARAMS && Typed(params, 0, f.ops)
    requires ns < TWO64 && tid < TWO64 && ty < TWO16
    requires EndingOf(g, h, t, params, f, category) == Inserted
    ensures var values := Run(params, [], DataRoom(g, h, t, |params|), false, f.ops, f.last).values;
            Publishes(Record(ns, tid, ty, params, values), EventOf(ns, tid, ty, values))
  {
    RunFits(params, [], DataRoom(g, h, t, |params|), false, f.ops, f.last);
  }
}
