/**
 The index in front of a dynamic parameter, which tells the decoder the type of the value. One kind
 of push overwrites it; this follows the indices from the filler into the event.
 */
module DynamicIndex {
  import opened Bytes
  import opened RingLayout
  import opened Params
  import opened Payload
  import opened Filler
  import opened Recorder

  // Each dynamic parameter that the filler pushes has its index in front.
  predicate IndicesArrive(params: seq<ParamInfo>, pos: nat, ops: seq<Op>, values: seq<seq<byte>>)
    decreases |ops|
  {
    ops == [] ||
    match ops[0]
    case EnforceSnaplen => IndicesArrive(params, pos, ops[1..], values)
    case PushEmpty => IndicesArrive(params, pos + 1, ops[1..], values)
    case Push(_, _, dynIdx, _) =>
      IndexArrives(params, pos, dynIdx, values) && IndicesArrive(params, pos + 1, ops[1..], values)
  }

  predicate IndexArrives(params: seq<ParamInfo>, pos: nat, dynIdx: byte, values: seq<seq<byte>>) {
    && pos < |params| && pos < |values|
    && (params[pos].Dynamic? ==> values[pos] != [] && values[pos][0] == dynIdx)
  }

  // The push of a user string into space for nothing but the index, which it overwrites with 0.
  predicate Overwrites(p: ParamInfo, op: Op, dataSize: int) {
    p.Dynamic? && op.Push? && op.dynIdx != 0 && ChosenKind(p, op.dynIdx).Str? && op.v.User? && dataSize == 1
  }

  // The i-th operation overwrites an index, in the space that the operations before it leave.
  ghost predicate OverwritesAt(params: seq<ParamInfo>, c: Cursor, ops: seq<Op>, i: nat)
    requires Typed(params, |c.values|, ops)
  {
    && i < |ops|
    && (TypedPrefix(params, |c.values|, ops, i);
        match RunFrom(params, c, ops[..i], Success)
        case Filled(v) =>
          |v| < |params| && Overwrites(params[|v|], ops[i], c.dataSize + |Concat(c.values)| - |Concat(v)|)
        case Failed(_) => false)
  }

  lemma {:induction false} TypedPrefix(params: seq<ParamInfo>, pos: nat, ops: seq<Op>, i: nat)
    requires Typed(params, pos, ops) && i <= |ops|
    ensures Typed(params, pos, ops[..i])
    decreases |ops|
  {
    if i > 0 {
      assert ops[..i][1..] == ops[1..][..i - 1];
      TypedPrefix(params, if ops[0].EnforceSnaplen? then pos else pos + 1, ops[1..], i - 1);
    }
  }

  // The later operations overwrite what they overwrite in the run of the rest.
  lemma OverwritesNext(params: seq<ParamInfo>, c: Cursor, ops: seq<Op>, d: Cursor, i: nat)
    requires ops != [] && Typed(params, |c.values|, ops) && Typed(params, |c.values|, [ops[0]])
    requires After(params, c, ops[0]) == Some(d) && Typed(params, |d.values|, ops[1..])
    ensures OverwritesAt(params, c, ops, i + 1) <==> OverwritesAt(params, d, ops[1..], i)
  {
    if i + 1 < |ops| {
      TypedPrefix(params, |c.values|, ops, i + 1);
      RunAfter(params, c, ops[..i + 1], Success);
      assert ops[..i + 1][1..] == ops[1..][..i];
    }
  }

  lemma OverwritesFirst(params: seq<ParamInfo>, c: Cursor, ops: seq<Op>)
    requires ops != [] && Typed(params, |c.values|, ops)
    ensures OverwritesAt(params, c, ops, 0) <==>
            |c.values| < |params| && Overwrites(params[|c.values|], ops[0], c.dataSize)
  {
    assert ops[..0] == [];
  }

  lemma {:induction false} RunExtends(params: seq<ParamInfo>, c: Cursor, ops: seq<Op>, last: Code)
    requires Typed(params, |c.values|, ops) && RunFrom(params, c, ops, last).Filled?
    ensures c.values <= RunFrom(params, c, ops, last).values
    decreases |ops|
  {
    if ops != [] {
      RunAfter(params, c, ops, last);
      RunExtends(params, After(params, c, ops[0]).value, ops[1..], last);
    }
  }

  // One push: its index arrives unless it is overwritten.
  lemma FirstArrives(params: seq<ParamInfo>, c: Cursor, ops: seq<Op>, last: Code)
    requires ops != [] && ops[0].Push? && Typed(params, |c.values|, ops) && RunFrom(params, c, ops, last).Filled?
    ensures IndexArrives(params, |c.values|, ops[0].dynIdx, RunFrom(params, c, ops, last).values) <==>
            !OverwritesAt(params, c, ops, 0)
  {
    RunAfter(params, c, ops, last);
    OverwritesFirst(params, c, ops);
    var d, n := After(params, c, ops[0]).value, |c.values|;
    RunExtends(params, d, ops[1..], last);
    assert RunFrom(params, c, ops, last).values[n] == d.values[n];
    if params[n].Dynamic? {
      var snap := if c.enforce then Some(ops[0].snaplen) else None;
      DynamicIndexArrives(params[n].choices, ops[0].v, ops[0].len, ops[0].dynIdx, c.dataSize, snap);
    }
  }

  // In every event that is filled, all indices arrive exactly if no push overwrites one.
  lemma {:induction false} ArriveIff(params: seq<ParamInfo>, c: Cursor, ops: seq<Op>, last: Code)
    requires Typed(params, |c.values|, ops) && RunFrom(params, c, ops, last).Filled?
    ensures IndicesArrive(params, |c.values|, ops, RunFrom(params, c, ops, last).values) <==>
            forall i: nat :: !OverwritesAt(params, c, ops, i)
    decreases |ops|
  {
    if ops != [] {
      RunAfter(params, c, ops, last);
      OverwritesFirst(params, c, ops);
      var d := After(params, c, ops[0]).value;
      ArriveIff(params, d, ops[1..], last);
      forall i: nat | i > 0
        ensures OverwritesAt(params, c, ops, i) <==> OverwritesAt(params, d, ops[1..], i - 1)
      {
        OverwritesNext(params, c, ops, d, i - 1);
      }
      assert forall i: nat :: OverwritesAt(params, d, ops[1..], i) <==> OverwritesAt(params, c, ops, i + 1);
      if ops[0].Push? {
        FirstArrives(params, c, ops, last);
      }
    }
  }

  // Without space nothing can be pushed any more.
  lemma {:induction false} FullPushesNothing(params: seq<ParamInfo>, c: Cursor, ops: seq<Op>, last: Code)
    requires Typed(params, |c.values|, ops) && RunFrom(params, c, ops, last).Filled? && c.dataSize == 0
    ensures forall j :: 0 <= j < |ops| ==> !ops[j].Push?
    decreases |ops|
  {
    if ops != [] {
      RunAfter(params, c, ops, last);
      FullPushesNothing(params, After(params, c, ops[0]).value, ops[1..], last);
      assert forall j :: 0 < j < |ops| ==> ops[j] == ops[1..][j - 1];
    }
  }

  // So in an event that is recorded at most the last push has overwritten its index.
  lemma {:induction false} OverwriteIsLast(params: seq<ParamInfo>, c: Cursor, ops: seq<Op>, last: Code, i: nat)
    requires Typed(params, |c.values|, ops) && RunFrom(params, c, ops, last).Filled?
    requires OverwritesAt(params, c, ops, i)
    ensures forall j :: i < j < |ops| ==> !ops[j].Push?
    decreases |ops|
  {
    RunAfter(params, c, ops, last);
    var d := After(params, c, ops[0]).value;
    if i == 0 {
      OverwritesFirst(params, c, ops);
      FullPushesNothing(params, d, ops[1..], last);
    } else {
      OverwritesNext(params, c, ops, d, i - 1);
      OverwriteIsLast(params, d, ops[1..], last, i - 1);
    }
    assert forall j :: 0 < j < |ops| ==> ops[j] == ops[1..][j - 1];
  }

  // A filler whose last push is not of a user string delivers all its indices.
  lemma LastPushDelivers(params: seq<ParamInfo>, c: Cursor, ops: seq<Op>, last: Code)
    requires Typed(params, |c.values|, ops) && RunFrom(params, c, ops, last).Filled?
    requires ops != [] && ops[|ops| - 1].Push? && !ops[|ops| - 1].v.User?
    ensures IndicesArrive(params, |c.values|, ops, RunFrom(params, c, ops, last).values)
  {
    forall i: nat
      ensures !OverwritesAt(params, c, ops, i)
    {
      if OverwritesAt(params, c, ops, i) {
        OverwriteIsLast(params, c, ops, last, i);
      }
    }
    ArriveIff(params, c, ops, last);
  }

  // The same of what an attempt records.
  lemma RecordedIndices(g: Geometry, h: nat, t: nat, r: Request, rec: Record)
    requires Sound(g) && h < g.dim && ValidRequest(r) && Inserts(g, h, t, r) == [rec]
    ensures var c := Cursor([], DataRoom(g, h, t, |r.params|), false);
            && (IndicesArrive(r.params, 0, r.filler.ops, rec.values) <==>
                forall i: nat :: !OverwritesAt(r.params, c, r.filler.ops, i))
            && (forall i: nat, j | OverwritesAt(r.params, c, r.filler.ops, i) && i < j < |r.filler.ops| ::
                  !r.filler.ops[j].Push?)
  {
    var c := Cursor([], DataRoom(g, h, t, |r.params|), false);
    ArriveIff(r.params, c, r.filler.ops, r.filler.last);
    forall i: nat, j | OverwritesAt(r.params, c, r.filler.ops, i) && i < j < |r.filler.ops|
      ensures !r.filler.ops[j].Push?
    {
      OverwriteIsLast(r.params, c, r.filler.ops, r.filler.last, i);
    }
  }

  // --------------------------------------------------------------------------------------
  // keyctl, the one event with dynamic strings
  // --------------------------------------------------------------------------------------

  const KEYCTL_CHOICES: seq<ParamType> := [Int64, CharBuf]

  const KEYCTL_PARAMS: seq<ParamInfo> :=
    [Plain(Errno), Plain(EnumFlags32), Dynamic(KEYCTL_CHOICES), Dynamic(KEYCTL_CHOICES), Dynamic(KEYCTL_CHOICES),
     Dynamic(KEYCTL_CHOICES)]

  // An argument is pushed as a number or as a string; the string may be a null pointer.
  datatype Arg = Number(w: nat) | Text(src: Option<seq<byte>>)

  predicate ValidArg(a: Arg) {
    a.Number? ==> a.w < TWO64
  }

  function PushNumber(w: nat, dynIdx: byte): Op {
    Push(Word(w), 0, dynIdx, 0)
  }

  function PushArg(a: Arg): Op {
    match a
    case Number(w) => PushNumber(w, 0)
    case Text(None) => PushNumber(0, 1)
    case Text(Some(src)) => Push(User(src), 0, 1, 0)
  }

  // f_sys_keyctl_x: whatever the operation, the last argument is a number.
  function KeyctlOps(retval: nat, operation: nat, arg2: Arg, arg3: Arg, arg4: Arg, arg5: nat): seq<Op> {
    [PushNumber(retval, 0), PushNumber(operation, 0), PushArg(arg2), PushArg(arg3), PushArg(arg4), PushNumber(arg5, 0)]
  }

  predicate FitsAt(params: seq<ParamInfo>, pos: nat, op: Op) {
    op.Push? && pos < |params| && WellTyped(ChosenKind(params[pos], op.dynIdx), op.v, op.len)
  }

  lemma {:induction false} TypedEach(params: seq<ParamInfo>, pos: nat, ops: seq<Op>)
    requires forall i :: 0 <= i < |ops| ==> FitsAt(params, pos + i, ops[i])
    ensures Typed(params, pos, ops)
    decreases |ops|
  {
    if ops != [] {
      assert FitsAt(params, pos + 0, ops[0]);
      forall i | 0 <= i < |ops[1..]|
        ensures FitsAt(params, pos + 1 + i, ops[1..][i])
      {
        assert FitsAt(params, pos + (i + 1), ops[i + 1]);
      }
      TypedEach(params, pos + 1, ops[1..]);
    }
  }

  lemma ArgFits(a: Arg)
    requires ValidArg(a)
    ensures forall p :: 2 <= p < 6 ==> FitsAt(KEYCTL_PARAMS, p, PushArg(a))
  {
  }

  lemma KeyctlTyped(retval: nat, operation: nat, arg2: Arg, arg3: Arg, arg4: Arg, arg5: nat)
    requires retval < TWO64 && operation < TWO64 && arg5 < TWO64
    requires ValidArg(arg2) && ValidArg(arg3) && ValidArg(arg4)
    ensures Typed(KEYCTL_PARAMS, 0, KeyctlOps(retval, operation, arg2, arg3, arg4, arg5))
  {
    ArgFits(arg2);
    ArgFits(arg3);
    ArgFits(arg4);
    ArgFits(Number(arg5));
    assert FitsAt(KEYCTL_PARAMS, 0, PushNumber(retval, 0)) && FitsAt(KEYCTL_PARAMS, 1, PushNumber(operation, 0));
    TypedEach(KEYCTL_PARAMS, 0, KeyctlOps(retval, operation, arg2, arg3, arg4, arg5));
  }

  // Its strings always arrive as strings and its numbers as numbers.
  lemma KeyctlDelivers(retval: nat, operation: nat, arg2: Arg, arg3: Arg, arg4: Arg, arg5: nat, dataSize: nat)
    requires retval < TWO64 && operation < TWO64 && arg5 < TWO64
    requires ValidArg(arg2) && ValidArg(arg3) && ValidArg(arg4)
    ensures var ops := KeyctlOps(retval, operation, arg2, arg3, arg4, arg5);
            && Typed(KEYCTL_PARAMS, 0, ops)
            && match Run(KEYCTL_PARAMS, [], dataSize, false, ops, Success)
               case Filled(values) => IndicesArrive(KEYCTL_PARAMS, 0, ops, values)
               case Failed(_) => true
  {
    var ops := KeyctlOps(retval, operation, arg2, arg3, arg4, arg5);
    var c := Cursor([], dataSize, false);
    KeyctlTyped(retval, operation, arg2, arg3, arg4, arg5);
    if RunFrom(KEYCTL_PARAMS, c, ops, Success).Filled? {
      LastPushDelivers(KEYCTL_PARAMS, c, ops, Success);
    }
  }

  // A filler that ended in such a string could record a wrong index: index 1 as index 0.
  lemma IndexCanBeLost()
    ensures var params, ops := [Dynamic(KEYCTL_CHOICES)], [PushArg(Text(Some([])))];
            && Typed(params, 0, ops) && Run(params, [], 1, false, ops, Success) == Filled([[0]])
            && !IndicesArrive(params, 0, ops, [[0]])
  {
    var params, ops := [Dynamic(KEYCTL_CHOICES)], [PushArg(Text(Some([])))];
    assert ops[1..] == [];
    assert Pushed(params[0], User([]), 0, 1, 1, None) == Ok([0]);
  }
}
