/**
 A filler: a list of pushes that stops at the first failure and then reports a code of its
 own. What it leaves in an event is a function of the pushes and of the space.
 */
module Filler {
  import opened Bytes
  import opened Params
  import opened Payload
  import opened Serializer

  datatype Op =
    | Push(v: Val, len: nat, dynIdx: byte, snaplen: nat)    // val_to_ring; what compute_snaplen yields for it
    | PushEmpty                                             // push_empty_param
    | EnforceSnaplen                                        // args->enforce_snaplen = true

  datatype Filler = Filler(ops: seq<Op>, last: Code)

  // Every push hands in a value of the kind its parameter calls for.
  predicate Typed(params: seq<ParamInfo>, pos: nat, ops: seq<Op>)
    decreases |ops|
  {
    ops == [] ||
    match ops[0]
    case Push(v, len, dynIdx, snaplen) =>
      && (pos < |params| ==> WellTyped(ChosenKind(params[pos], dynIdx), v, len))
      && Typed(params, pos + 1, ops[1..])
    case PushEmpty => Typed(params, pos + 1, ops[1..])
    case EnforceSnaplen => Typed(params, pos, ops[1..])
  }

  datatype Fill = Filled(values: seq<seq<byte>>) | Failed(code: Code)

  // The values in the event when the filler goes on with `ops`, or the code it fails with.
  function Run(params: seq<ParamInfo>, values: seq<seq<byte>>, dataSize: nat, enforce: bool,
               ops: seq<Op>, last: Code): Fill
    requires Typed(params, |values|, ops)
    decreases |ops|
  {
    if ops == [] then
      if last == Success then Filled(values) else Failed(last)
    else match ops[0]
    case EnforceSnaplen => Run(params, values, dataSize, true, ops[1..], last)
    case PushEmpty =>
      if |values| >= |params| then Failed(Bug)
      else Run(params, values + [[]], dataSize, enforce, ops[1..], last)
    case Push(v, len, dynIdx, snaplen) =>
      if |values| >= |params| then Failed(Bug) else
      var out := Pushed(params[|values|], v, len, dynIdx, dataSize, if enforce then Some(snaplen) else None);
      if out.Fail? then Failed(out.code) else
      PushedFits(params[|values|], v, len, dynIdx, dataSize, if enforce then Some(snaplen) else None);
      Run(params, values + [out.bytes], dataSize - |out.bytes|, enforce, ops[1..], last)
  }

  // The filler callback, run on a cursor.
  method RunFiller(args: FillerArgs, f: Filler) returns (res: Code)
    requires args.Valid() && Typed(args.params, args.curarg, f.ops)
    modifies args, args.buffer
    ensures args.Bounds() && Framed(old(args.buffer[..]), args.buffer[..], args.base, args.bufferSize)
    ensures match old(Run(args.params, args.pushed, args.dataSize, args.enforceSnaplen, f.ops, f.last))
            case Filled(values) => res == Success && args.Valid() && args.pushed == values
            case Failed(c) => res == c && c != Success
  {
    var i := 0;
    ghost var all := Run(args.params, args.pushed, args.dataSize, args.enforceSnaplen, f.ops, f.last);
    ghost var was := args.buffer[..];
    assert f.ops[0..] == f.ops;
    while i < |f.ops|
      invariant 0 <= i <= |f.ops| && args.Valid() && Typed(args.params, args.curarg, f.ops[i..])
      invariant all == Run(args.params, args.pushed, args.dataSize, args.enforceSnaplen, f.ops[i..], f.last)
      invariant Framed(was, args.buffer[..], args.base, args.bufferSize)
    {
      assert f.ops[i..][0] == f.ops[i] && f.ops[i..][1..] == f.ops[i + 1..];
      ghost var now := args.buffer[..];
      res := Next(args, f.ops[i], f.ops[i..], f.last);
      FramedTwice(was, now, args.buffer[..], args.base, args.bufferSize);
      if res != Success {
        return;
      }
      i := i + 1;
    }
    return f.last;
  }

  // One iteration: the first of the operations that are left.
  method Next(args: FillerArgs, op: Op, ghost ops: seq<Op>, ghost last: Code) returns (res: Code)
    requires args.Valid() && ops != [] && ops[0] == op && Typed(args.params, args.curarg, ops)
    modifies args, args.buffer
    ensures args.Bounds() && Framed(old(args.buffer[..]), args.buffer[..], args.base, args.bufferSize)
    ensures res == Success ==>
              && args.Valid() && Typed(args.params, args.curarg, ops[1..])
              && old(Run(args.params, args.pushed, args.dataSize, args.enforceSnaplen, ops, last)) ==
                 Run(args.params, args.pushed, args.dataSize, args.enforceSnaplen, ops[1..], last)
    ensures res != Success ==>
              old(Run(args.params, args.pushed, args.dataSize, args.enforceSnaplen, ops, last)) == Failed(res)
  {
    if op.EnforceSnaplen? {
      args.enforceSnaplen := true;
      res := Success;
    } else {
      res := NextPush(args, op, ops, last);
    }
  }

  method NextPush(args: FillerArgs, op: Op, ghost ops: seq<Op>, ghost last: Code) returns (res: Code)
    requires args.Valid() && ops != [] && ops[0] == op && Typed(args.params, args.curarg, ops) && !op.EnforceSnaplen?
    modifies args, args.buffer
    ensures args.Bounds() && Framed(old(args.buffer[..]), args.buffer[..], args.base, args.bufferSize)
    ensures res == Success ==>
              && args.Valid() && Typed(args.params, args.curarg, ops[1..])
              && old(Run(args.params, args.pushed, args.dataSize, args.enforceSnaplen, ops, last)) ==
                 Run(args.params, args.pushed, args.dataSize, args.enforceSnaplen, ops[1..], last)
    ensures res != Success ==>
              old(Run(args.params, args.pushed, args.dataSize, args.enforceSnaplen, ops, last)) == Failed(res)
  {
    RunNext(args.params, args.pushed, args.dataSize, args.enforceSnaplen, ops, last);
    res := Step(args, op);
  }

  // What the first operation makes of the rest.
  lemma RunNext(params: seq<ParamInfo>, values: seq<seq<byte>>, dataSize: nat, enforce: bool,
                ops: seq<Op>, last: Code)
    requires ops != [] && Typed(params, |values|, ops)
    ensures Typed(params, |values|, [ops[0]])
    ensures Typed(params, |values| + (if ops[0].EnforceSnaplen? then 0 else 1), ops[1..])
    ensures ops[0].EnforceSnaplen? ==>
              Run(params, values, dataSize, enforce, ops, last) ==
              Run(params, values, dataSize, true, ops[1..], last)
    ensures !ops[0].EnforceSnaplen? && |values| >= |params| ==>
              Run(params, values, dataSize, enforce, ops, last) == Failed(Bug)
    ensures ops[0].PushEmpty? && |values| < |params| ==>
              Run(params, values, dataSize, enforce, ops, last) ==
              Run(params, values + [[]], dataSize, enforce, ops[1..], last)
    ensures ops[0].Push? && |values| < |params| ==>
              match Pushed(params[|values|], ops[0].v, ops[0].len, ops[0].dynIdx, dataSize,
                           if enforce then Some(ops[0].snaplen) else None)
              case Fail(c) => Run(params, values, dataSize, enforce, ops, last) == Failed(c)
              case Ok(b) =>
                && |b| <= dataSize
                && Run(params, values, dataSize, enforce, ops, last) ==
                   Run(params, values + [b], dataSize - |b|, enforce, ops[1..], last)
  {
    assert [ops[0]][1..] == [];
    if ops[0].Push? && |values| < |params| {
      var snap := if enforce then Some(ops[0].snaplen) else None;
      if Pushed(params[|values|], ops[0].v, ops[0].len, ops[0].dynIdx, dataSize, snap).Ok? {
        PushedFits(params[|values|], ops[0].v, ops[0].len, ops[0].dynIdx, dataSize, snap);
      }
    }
  }

  // --------------------------------------------------------------------------------------
  // Fillers in parts
  // --------------------------------------------------------------------------------------

  // What a filler has pushed so far, and the space and the mode it goes on with.
  datatype Cursor = Cursor(values: seq<seq<byte>>, dataSize: nat, enforce: bool)

  function RunFrom(params: seq<ParamInfo>, c: Cursor, ops: seq<Op>, last: Code): Fill
    requires Typed(params, |c.values|, ops)
  {
    Run(params, c.values, c.dataSize, c.enforce, ops, last)
  }

  // Where the first operation leaves the cursor, unless it fails.
  function After(params: seq<ParamInfo>, c: Cursor, op: Op): Option<Cursor>
    requires Typed(params, |c.values|, [op])
  {
    match op
    case EnforceSnaplen => Some(c.(enforce := true))
    case PushEmpty => if |c.values| < |params| then Some(c.(values := c.values + [[]])) else None
    case Push(v, len, dynIdx, snaplen) =>
      if |c.values| >= |params| then None else
      var snap := if c.enforce then Some(snaplen) else None;
      var out := Pushed(params[|c.values|], v, len, dynIdx, c.dataSize, snap);
      if out.Fail? then None else
      PushedFits(params[|c.values|], v, len, dynIdx, c.dataSize, snap);
      Some(Cursor(c.values + [out.bytes], c.dataSize - |out.bytes|, c.enforce))
  }

  lemma RunAfter(params: seq<ParamInfo>, c: Cursor, ops: seq<Op>, last: Code)
    requires ops != [] && Typed(params, |c.values|, ops)
    ensures Typed(params, |c.values|, [ops[0]])
    ensures match After(params, c, ops[0])
            case None => RunFrom(params, c, ops, last).Failed?
            case Some(d) =>
              && Typed(params, |d.values|, ops[1..])
              && RunFrom(params, c, ops, last) == RunFrom(params, d, ops[1..], last)
              && |Concat(d.values)| + d.dataSize == |Concat(c.values)| + c.dataSize
  {
    RunNext(params, c.values, c.dataSize, c.enforce, ops, last);
    var d := After(params, c, ops[0]);
    if d.Some? && !ops[0].EnforceSnaplen? {
      ConcatSnoc(c.values, d.value.values[|c.values|]);
    }
  }

  // Where a list of operations leaves the cursor.
  function AfterAll(params: seq<ParamInfo>, c: Cursor, ops: seq<Op>): Option<Cursor>
    requires Typed(params, |c.values|, ops)
    decreases |ops|
  {
    if ops == [] then Some(c) else
    RunAfter(params, c, ops, Success);
    match After(params, c, ops[0])
    case None => None
    case Some(d) => AfterAll(params, d, ops[1..])
  }

  // A filler in two parts: the second goes on where the first leaves the cursor.
  lemma {:induction false} RunParts(params: seq<ParamInfo>, c: Cursor, a: seq<Op>, b: seq<Op>, last: Code)
    requires Typed(params, |c.values|, a + b)
    ensures Typed(params, |c.values|, a)
    ensures match AfterAll(params, c, a)
            case None => RunFrom(params, c, a + b, last).Failed?
            case Some(d) =>
              && Typed(params, |d.values|, b)
              && RunFrom(params, c, a + b, last) == RunFrom(params, d, b, last)
    decreases |a|
  {
    if a == [] {
      assert a + b == b;
    } else {
      RunAfter(params, c, a + b, last);
      assert (a + b)[0] == a[0] && (a + b)[1..] == a[1..] + b;
      TypedFirst(params, |c.values|, a, b);
      RunAfter(params, c, a, last);
      var d := After(params, c, a[0]);
      if d.Some? {
        RunParts(params, d.value, a[1..], b, last);
      }
    }
  }

  // The same without an end.
  lemma {:induction false} AfterParts(params: seq<ParamInfo>, c: Cursor, a: seq<Op>, b: seq<Op>)
    requires Typed(params, |c.values|, a + b)
    ensures Typed(params, |c.values|, a)
    ensures match AfterAll(params, c, a)
            case None => AfterAll(params, c, a + b) == None
            case Some(d) =>
              && Typed(params, |d.values|, b)
              && AfterAll(params, c, a + b) == AfterAll(params, d, b)
    decreases |a|
  {
    if a == [] {
      assert a + b == b;
    } else {
      RunAfter(params, c, a + b, Success);
      assert (a + b)[0] == a[0] && (a + b)[1..] == a[1..] + b;
      TypedFirst(params, |c.values|, a, b);
      RunAfter(params, c, a, Success);
      var d := After(params, c, a[0]);
      if d.Some? {
        AfterParts(params, d.value, a[1..], b);
      }
    }
  }

  lemma {:induction false} TypedFirst(params: seq<ParamInfo>, pos: nat, a: seq<Op>, b: seq<Op>)
    requires Typed(params, pos, a + b)
    ensures Typed(params, pos, a)
    decreases |a|
  {
    if a != [] {
      assert (a + b)[0] == a[0] && (a + b)[1..] == a[1..] + b;
      TypedFirst(params, if a[0].EnforceSnaplen? then pos else pos + 1, a[1..], b);
    }
  }

  // One push.
  method Step(args: FillerArgs, op: Op) returns (res: Code)
    requires args.Valid() && !op.EnforceSnaplen? && Typed(args.params, args.curarg, [op])
    modifies args, args.buffer
    ensures args.Bounds() && Framed(old(args.buffer[..]), args.buffer[..], args.base, args.bufferSize)
    ensures old(args.curarg) >= |args.params| ==> res == Bug
    ensures args.enforceSnaplen == old(args.enforceSnaplen)
    ensures old(args.curarg) < |args.params| && op.PushEmpty? ==>
              && res == Success && args.Valid()
              && args.pushed == old(args.pushed) + [[]] && args.dataSize == old(args.dataSize)
    ensures old(args.curarg) < |args.params| && op.Push? ==>
              match Pushed(args.params[old(args.curarg)], op.v, op.len, op.dynIdx, old(args.dataSize),
                           old(args.Snap(op.snaplen)))
              case Ok(b) =>
                && res == Success && args.Valid() && args.pushed == old(args.pushed) + [b]
                && args.dataSize == old(args.dataSize) - |b|
              case Fail(c) => res == c && c != Success
  {
    ghost var values := args.pushed;
    if op.Push? {
      res := args.ValToRing(op.v, op.len, op.dynIdx, op.snaplen);
    } else {
      res := args.PushEmptyParam();
    }
    if res == Success {
      ConcatSnoc(values, args.pushed[|values|]);
    }
  }

  // A value that a push may leave for a parameter: empty, or of a length the decoder allows for
  // its type; never too long for the 16-bit length entry.
  predicate Allowed(p: ParamInfo, b: seq<byte>) {
    |b| <= MAX_ARG_SIZE &&
    (b == [] || (MinLen(TypeOf(p)).Some? && MinLen(TypeOf(p)).value <= |b| <= MaxLen(TypeOf(p), 2).value))
  }

  predicate AllAllowed(params: seq<ParamInfo>, values: seq<seq<byte>>) {
    |values| <= |params| && forall i | 0 <= i < |values| :: Allowed(params[i], values[i])
  }

  lemma AllowedNext(params: seq<ParamInfo>, values: seq<seq<byte>>, b: seq<byte>)
    requires AllAllowed(params, values) && |values| < |params| && Allowed(params[|values|], b)
    ensures AllAllowed(params, values + [b]) && |Concat(values + [b])| == |Concat(values)| + |b|
  {
    ConcatSnoc(values, b);
  }

  lemma {:induction false} FitsFrom(params: seq<ParamInfo>, c: Cursor, ops: seq<Op>, last: Code, all: seq<seq<byte>>)
    requires Typed(params, |c.values|, ops) && AllAllowed(params, c.values)
    requires RunFrom(params, c, ops, last) == Filled(all)
    ensures AllAllowed(params, all) && |Concat(all)| <= |Concat(c.values)| + c.dataSize
    decreases |ops|
  {
    if ops != [] {
      RunAfter(params, c, ops, last);
      var d := After(params, c, ops[0]).value;
      AfterAllowed(params, c, ops[0], d);
      FitsFrom(params, d, ops[1..], last, all);
    }
  }

  lemma AfterAllowed(params: seq<ParamInfo>, c: Cursor, op: Op, d: Cursor)
    requires Typed(params, |c.values|, [op]) && AllAllowed(params, c.values) && After(params, c, op) == Some(d)
    ensures AllAllowed(params, d.values)
  {
    match op
    case EnforceSnaplen =>
    case PushEmpty => AllowedNext(params, c.values, []);
    case Push(v, len, dynIdx, snaplen) =>
      var p, snap := params[|c.values|], if c.enforce then Some(snaplen) else None;
      PushedFits(p, v, len, dynIdx, c.dataSize, snap);
      AllowedNext(params, c.values, Pushed(p, v, len, dynIdx, c.dataSize, snap).bytes);
  }

  // Whatever the filler does, the values it leaves fit the space and are allowed.
  lemma RunFits(params: seq<ParamInfo>, values: seq<seq<byte>>, dataSize: nat, enforce: bool, ops: seq<Op>, last: Code)
    requires Typed(params, |values|, ops) && AllAllowed(params, values)
    requires Run(params, values, dataSize, enforce, ops, last).Filled?
    ensures var r := Run(params, values, dataSize, enforce, ops, last).values;
            AllAllowed(params, r) && |Concat(r)| <= |Concat(values)| + dataSize
  {
    var c := Cursor(values, dataSize, enforce);
    FitsFrom(params, c, ops, last, RunFrom(params, c, ops, last).values);
  }
}
