/**
 When an attempt inserts its event: there is room exactly if the events that are not given back
 leave it, and each way to fail moves its own counter (driver/main.c).
 */
module Admission {
  import opened Bytes
  import opened RingLayout
  import opened RingStats
  import opened Params
  import opened Payload
  import opened Serializer
  import opened Filler
  import opened Recorder
  import opened Pushes
  import P = RingProtocol

  // The free space that a fresh snapshot sees is what the unread events leave of the ring.
  lemma FreeIsRest(g: Geometry, s: P.State)
    requires Sound(g) && P.Inv(g, s)
    ensures s.head < g.dim && s.tail < g.dim && FreeSpace(g.dim, s.head, s.tail) == g.dim - 1 - |P.Unread(s)|
  {
  }

  // An attempt finds no room exactly if header and length array do not fit behind the unread events,
  // with a byte to spare.
  lemma NoRoomIff(g: Geometry, s: P.State, params: seq<ParamInfo>, f: Filler, category: Option<nat>)
    requires Sound(g) && P.Inv(g, s) && |params| <= MAX_PARAMS && Typed(params, 0, f.ops)
    ensures s.head < g.dim
    ensures EndingOf(g, s.head, s.tail, params, f, category) == NoRoom <==>
            |P.Unread(s)| + HEADER + 2 * |params| >= g.dim
  {
    FreeIsRest(g, s);
  }

  // --------------------------------------------------------------------------------------
  // Events of numbers
  // --------------------------------------------------------------------------------------

  predicate NumberAt(params: seq<ParamInfo>, i: nat, op: Op) {
    && i < |params| && params[i].Plain? && KindOf(params[i].ty).Num?
    && op.Push? && op.v.Word? && op.v.w < TWO64
  }

  function WidthOf(p: ParamInfo): nat {
    if p.Plain? && KindOf(p.ty).Num? then KindOf(p.ty).width else 0
  }

  // The widths of the entries from i to j together.
  function Widths(params: seq<ParamInfo>, i: nat, j: nat): nat
    requires i <= j <= |params|
    decreases j - i
  {
    if i == j then 0 else WidthOf(params[i]) + Widths(params, i + 1, j)
  }

  // The value carries the number that was pushed, as far as its width goes.
  predicate Carries(v: seq<byte>, p: ParamInfo, op: Op)
    requires op.Push? && op.v.Word?
  {
    |v| == WidthOf(p) && FromLE(v) == op.v.w % Pow256(WidthOf(p))
  }

  // The operations push numbers into the table from entry n on.
  predicate Numbers(params: seq<ParamInfo>, n: nat, ops: seq<Op>) {
    forall i :: 0 <= i < |ops| ==> NumberAt(params, n + i, ops[i])
  }

  // Exactly the numbers that were pushed, behind the values that were there.
  predicate CarriesAll(params: seq<ParamInfo>, values: seq<seq<byte>>, ops: seq<Op>, all: seq<seq<byte>>)
    requires Numbers(params, |values|, ops)
  {
    && |all| == |values| + |ops| && values <= all
    && forall i :: 0 <= i < |ops| ==> NumberAt(params, |values| + i, ops[i]) &&
                                       Carries(all[|values| + i], params[|values| + i], ops[i])
  }

  lemma NumbersNext(params: seq<ParamInfo>, n: nat, ops: seq<Op>)
    requires Numbers(params, n, ops) && ops != []
    ensures NumberAt(params, n, ops[0]) && Numbers(params, n + 1, ops[1..])
  {
    assert NumberAt(params, n + 0, ops[0]);
    forall i | 0 <= i < |ops[1..]|
      ensures NumberAt(params, n + 1 + i, ops[1..][i])
    {
      assert NumberAt(params, n + (i + 1), ops[i + 1]);
    }
  }

  lemma {:induction false} NumbersTyped(params: seq<ParamInfo>, n: nat, ops: seq<Op>)
    requires Numbers(params, n, ops)
    ensures Typed(params, n, ops)
    decreases |ops|
  {
    if ops != [] {
      NumbersNext(params, n, ops);
      NumbersTyped(params, n + 1, ops[1..]);
    }
  }

  lemma FirstNumber(params: seq<ParamInfo>, values: seq<seq<byte>>, dataSize: nat, enforce: bool,
                    ops: seq<Op>, last: Code, fill: Fill) returns (b: seq<byte>)
    requires ops != [] && NumberAt(params, |values|, ops[0]) && Typed(params, |values|, ops)
    requires fill == Run(params, values, dataSize, enforce, ops, last)
    ensures WidthOf(params[|values|]) > dataSize ==> fill == Failed(BufferFull)
    ensures WidthOf(params[|values|]) <= dataSize ==>
              && Carries(b, params[|values|], ops[0]) && Typed(params, |values| + 1, ops[1..])
              && fill == Run(params, values + [b], dataSize - |b|, enforce, ops[1..], last)
  {
    var p, op := params[|values|], ops[0];
    var snap := if enforce then Some(op.snaplen) else None;
    RunNext(params, values, dataSize, enforce, ops, last);
    Number(p.ty, op.v.w, op.dynIdx, op.len, dataSize, snap);
    var out := Pushed(p, op.v, op.len, op.dynIdx, dataSize, snap);
    b := if out.Ok? then out.bytes else [];
  }

  lemma CarriesNext(params: seq<ParamInfo>, values: seq<seq<byte>>, b: seq<byte>, ops: seq<Op>, all: seq<seq<byte>>)
    requires Numbers(params, |values|, ops) && ops != [] && Numbers(params, |values| + 1, ops[1..])
    requires NumberAt(params, |values|, ops[0]) && Carries(b, params[|values|], ops[0])
    requires CarriesAll(params, values + [b], ops[1..], all)
    ensures CarriesAll(params, values, ops, all)
  {
    var n := |values|;
    assert values <= values + [b] && all[n] == (values + [b])[n];
    forall i | 0 <= i < |ops|
      ensures NumberAt(params, n + i, ops[i]) && Carries(all[n + i], params[n + i], ops[i])
    {
      if i > 0 {
        assert ops[i] == ops[1..][i - 1] && NumberAt(params, n + 1 + (i - 1), ops[1..][i - 1]);
      }
    }
  }

  // What a filler comes to that pushes numbers into `dataSize` bytes.
  predicate NumbersIn(params: seq<ParamInfo>, values: seq<seq<byte>>, dataSize: nat, ops: seq<Op>, last: Code,
                      fill: Fill)
    requires Numbers(params, |values|, ops) && |values| + |ops| <= |params|
  {
    if Widths(params, |values|, |values| + |ops|) > dataSize then fill == Failed(BufferFull)
    else if last != Success then fill == Failed(last)
    else fill.Filled? && CarriesAll(params, values, ops, fill.values)
  }

  lemma NumbersInNext(params: seq<ParamInfo>, values: seq<seq<byte>>, b: seq<byte>, dataSize: nat, ops: seq<Op>,
                      last: Code, fill: Fill)
    requires Numbers(params, |values|, ops) && ops != [] && |values| + |ops| <= |params|
    requires NumberAt(params, |values|, ops[0]) && Numbers(params, |values| + 1, ops[1..])
    requires Carries(b, params[|values|], ops[0]) && |b| <= dataSize
    requires NumbersIn(params, values + [b], dataSize - |b|, ops[1..], last, fill)
    ensures NumbersIn(params, values, dataSize, ops, last, fill)
  {
    if fill.Filled? {
      CarriesNext(params, values, b, ops, fill.values);
    }
  }

  lemma NumbersInFirst(params: seq<ParamInfo>, values: seq<seq<byte>>, dataSize: nat, ops: seq<Op>, last: Code,
                       fill: Fill)
    requires Numbers(params, |values|, ops) && |values| + |ops| <= |params|
    requires ops == [] ==> fill == if last == Success then Filled(values) else Failed(last)
    requires ops != [] ==> WidthOf(params[|values|]) > dataSize && fill == Failed(BufferFull)
    ensures NumbersIn(params, values, dataSize, ops, last, fill)
  {
  }

  lemma RunNothing(params: seq<ParamInfo>, values: seq<seq<byte>>, dataSize: nat, enforce: bool, last: Code)
    ensures Run(params, values, dataSize, enforce, [], last) == if last == Success then Filled(values) else Failed(last)
  {
  }

  // A filler that pushes numbers succeeds exactly if their widths fit, and leaves the numbers.
  lemma {:induction false} NumbersFill(params: seq<ParamInfo>, values: seq<seq<byte>>, dataSize: nat, enforce: bool,
                                       ops: seq<Op>, last: Code, fill: Fill)
    requires Numbers(params, |values|, ops) && Typed(params, |values|, ops) && |values| + |ops| <= |params|
    requires fill == Run(params, values, dataSize, enforce, ops, last)
    ensures NumbersIn(params, values, dataSize, ops, last, fill)
    decreases |ops|
  {
    if ops == [] {
      RunNothing(params, values, dataSize, enforce, last);
      NumbersInFirst(params, values, dataSize, ops, last, fill);
      return;
    }
    NumbersNext(params, |values|, ops);
    var b := FirstNumber(params, values, dataSize, enforce, ops, last, fill);
    if WidthOf(params[|values|]) > dataSize {
      NumbersInFirst(params, values, dataSize, ops, last, fill);
    } else {
      NumbersFill(params, values + [b], dataSize - |b|, enforce, ops[1..], last, fill);
      NumbersInNext(params, values, b, dataSize, ops, last, fill);
    }
  }

  lemma {:induction false} WidthsSmall(params: seq<ParamInfo>, i: nat, j: nat)
    requires i <= j <= |params|
    ensures Widths(params, i, j) <= 8 * (j - i)
    decreases j - i
  {
    if i < j {
      WidthsSmall(params, i + 1, j);
    }
  }

  // An attempt whose filler pushes numbers, as many as the table has or fewer: exactly how it ends.
  // It inserts its event iff header, length array and numbers fit behind the unread events.
  lemma NumbersEnding(g: Geometry, s: P.State, params: seq<ParamInfo>, f: Filler, category: Option<nat>)
    requires Sound(g) && P.Inv(g, s) && |f.ops| <= |params| <= MAX_PARAMS && Numbers(params, 0, f.ops)
    ensures s.head < g.dim && Typed(params, 0, f.ops)
    ensures var used := |P.Unread(s)| + HEADER + 2 * |params|;
            EndingOf(g, s.head, s.tail, params, f, category) ==
            if used >= g.dim then NoRoom
            else if used + Widths(params, 0, |f.ops|) >= g.dim then OutOfSpace(category)
            else if f.last != Success then EndingOfFailure(f.last, category)
            else if |f.ops| == |params| then Inserted
            else Misfit
  {
    FreeIsRest(g, s);
    NumbersTyped(params, 0, f.ops);
    NumbersEndingAt(g, s.head, s.tail, params, f, category, FreeSpace(g.dim, s.head, s.tail));
  }

  lemma NumbersEndingAt(g: Geometry, h: nat, t: nat, params: seq<ParamInfo>, f: Filler, category: Option<nat>,
                        free: nat)
    requires Sound(g) && h < g.dim && free == FreeSpace(g.dim, h, t)
    requires |f.ops| <= |params| <= MAX_PARAMS && Numbers(params, 0, f.ops) && Typed(params, 0, f.ops)
    ensures var size := HEADER + 2 * |params|;
            EndingOf(g, h, t, params, f, category) ==
            if size > free then NoRoom
            else if size + Widths(params, 0, |f.ops|) > free then OutOfSpace(category)
            else if f.last != Success then EndingOfFailure(f.last, category)
            else if |f.ops| == |params| then Inserted
            else Misfit
  {
    var room := DataRoom(g, h, t, |params|);
    WidthsSmall(params, 0, |f.ops|);
    if room >= 0 {
      NumbersFill(params, [], room, false, f.ops, f.last, Run(params, [], room, false, f.ops, f.last));
    }
  }

  // The event it inserts carries exactly the numbers pushed.
  lemma NumbersRecorded(g: Geometry, s: P.State, r: Request, rec: Record)
    requires Sound(g) && P.Inv(g, s) && ValidRequest(r) && s.head < g.dim
    requires |r.filler.ops| == |r.params| && Numbers(r.params, 0, r.filler.ops)
    requires Inserts(g, s.head, s.tail, r) == [rec]
    ensures rec == Record(r.ns, r.tid, r.ty, r.params, rec.values) && CarriesAll(r.params, [], r.filler.ops, rec.values)
  {
    var room := DataRoom(g, s.head, s.tail, |r.params|);
    var fill := Run(r.params, [], room, false, r.filler.ops, r.filler.last);
    NumbersFill(r.params, [], room, false, r.filler.ops, r.filler.last, fill);
  }

  // --------------------------------------------------------------------------------------
  // Which counter moves
  // --------------------------------------------------------------------------------------

  function One(b: bool): nat {
    if b then 1 else 0
  }

  // An attempt whose filler fails moves one counter, told by the code; the counter of its category
  // moves only for want of space.
  lemma FailureCounts(s: Stats, code: Code, category: Option<nat>)
    requires |s.byCategory| == CATEGORIES && code != Success && (category.Some? ==> category.value < CATEGORIES)
    ensures var t := Finish(s, EndingOfFailure(code, category));
            && t.evts == s.evts && t.inserted == s.inserted
            && t.dropsPf == s.dropsPf + One(code == InvalidUserMemory)
            && t.skipped == s.skipped + One(code == SkipEvent)
            && t.dropsBuffer == s.dropsBuffer + One(code == BufferFull || code == Bug)
            && |t.byCategory| == CATEGORIES
            && forall c :: 0 <= c < CATEGORIES ==>
                 t.byCategory[c] == s.byCategory[c] + One(code == BufferFull && category == Some(c))
  {
  }

  // An attempt that is inserted, finds no room or leaves a parameter out moves one counter as well, and
  // none of a category.
  lemma OtherCounts(s: Stats, o: Ending)
    requires |s.byCategory| == CATEGORIES && (o.Inserted? || o.NoRoom? || o.Misfit?)
    ensures var t := Finish(s, o);
            && t.evts == s.evts && t.dropsPf == s.dropsPf && t.skipped == s.skipped && t.byCategory == s.byCategory
            && t.inserted == s.inserted + One(o.Inserted?) && t.dropsBuffer == s.dropsBuffer + One(!o.Inserted?)
  {
  }
}
