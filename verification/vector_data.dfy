/**
 What a vectored call carries in its event: the data is the wanted prefix of the buffers, the numbers
 are those of the call (driver/ppm_events.c, driver/ppm_fillers.c).
 */
module VectorData {
  import opened Bytes
  import opened Params
  import opened Payload
  import opened Filler
  import opened Pushes
  import opened Scatter
  import opened VectorIo

  // The vector fits the scratch page, with a byte to spare, and can be read: its entries are iovs.
  predicate Given(page: nat, vec: Vector, iovs: seq<Iov>) {
    vec.count < 0xFFFF_FFFF && IOV_SIZE * vec.count < page && Entries(vec) == Some(iovs)
  }

  // How many bytes of the buffers are merged at most.
  function MergeRoom(page: nat, vec: Vector, retval: nat, write: bool): nat
    requires IOV_SIZE * vec.count < page
  {
    var rest := page - IOV_SIZE * vec.count - 1;
    if write || rest < retval then rest else retval
  }

  // Some buffer cannot be read as far as it is wanted.
  ghost predicate Unreadable(iovs: seq<Iov>, room: nat) {
    exists i: nat :: Faults(iovs, 0, room, i)
  }

  // Exactly how a request ends: refused if the vector does not fit the page, with a fault if the vector
  // or a wanted part of a buffer cannot be read.
  lemma ParsedEnds(page: nat, vec: Vector, retval: int, flags: Flags)
    requires -(TWO64 / 2) <= retval < TWO64 / 2
    ensures var full := vec.count >= 0xFFFF_FFFF || IOV_SIZE * vec.count >= page;
            Parsed(page, vec, retval, flags).last ==
            if full then BufferFull
            else if Entries(vec).None? then InvalidUserMemory
            else if flags.data && retval > 0 &&
                    Unreadable(Entries(vec).value, MergeRoom(page, vec, retval, flags.write)) then InvalidUserMemory
            else Success
  {
    if Entries(vec).Some? && IOV_SIZE * vec.count < page && retval > 0 {
      var iovs, room := Entries(vec).value, MergeRoom(page, vec, retval, flags.write);
      GatherFailsIff(iovs, 0, room);
    }
  }

  // The least of the bytes there are, the bytes that are merged and the snap length.
  function TakenBytes(iovs: seq<Iov>, room: nat, snaplen: nat): nat {
    Min(Min(Sum(iovs), room), snaplen)
  }

  // What the event then carries of the data.
  function Carried(page: nat, vec: Vector, iovs: seq<Iov>, retval: int, write: bool): (b: seq<byte>)
    requires IOV_SIZE * vec.count < page
  {
    if retval <= 0 || iovs == [] then [] else
    var n := TakenBytes(iovs, MergeRoom(page, vec, retval, write), vec.snaplen);
    if n <= |All(iovs)| then All(iovs)[..n] else All(iovs)
  }

  // A request for the data that succeeds pushes exactly that: the wanted prefix of the concatenated
  // buffers, which is all there; or nothing where the call transferred nothing or has no buffers.
  lemma DataPushed(params: seq<ParamInfo>, c: Cursor, page: nat, vec: Vector, iovs: seq<Iov>, retval: int, write: bool,
                   f: Filler, d: Cursor)
    requires -(TWO64 / 2) <= retval < TWO64 / 2 && Given(page, vec, iovs)
    requires |c.values| < |params| && params[|c.values|] == Plain(ByteBuf)
    requires f == Parsed(page, vec, retval, Flags(false, true, write)) && f.last == Success
    requires Typed(params, |c.values|, f.ops) && AfterAll(params, c, f.ops) == Some(d)
    ensures d.values == c.values + [Carried(page, vec, iovs, retval, write)]
    ensures retval > 0 && iovs != [] ==>
              TakenBytes(iovs, MergeRoom(page, vec, retval, write), vec.snaplen) <= |All(iovs)|
  {
    DataOps(page, vec, iovs, retval, write);
    if retval > 0 && iovs != [] {
      var room := MergeRoom(page, vec, retval, write);
      var b, m := Gather(iovs, 0, room).value, Min(Sum(iovs), room);
      GatherIsPrefix(iovs, room);
      MergedPushed(params, c, b, vec.snaplen, f.ops, d);
      CutTwice(All(iovs), b, m, vec.snaplen);
    } else {
      ZeroPushed(params, c, d);
    }
  }

  lemma CutTwice(a: seq<byte>, b: seq<byte>, m: nat, n: nat)
    requires m <= |a| && b == a[..m]
    ensures b[..Min(|b|, n)] == a[..Min(m, n)]
  {
  }

  // The pushes of such a request.
  lemma DataOps(page: nat, vec: Vector, iovs: seq<Iov>, retval: int, write: bool)
    requires -(TWO64 / 2) <= retval < TWO64 / 2 && Given(page, vec, iovs)
    requires Parsed(page, vec, retval, Flags(false, true, write)).last == Success
    ensures var ops := Parsed(page, vec, retval, Flags(false, true, write)).ops;
            if retval > 0 && iovs != [] then
              var out := Gather(iovs, 0, MergeRoom(page, vec, retval, write));
              out.Some? && ops == [EnforceSnaplen, Push(Kernel(out.value), |out.value|, 0, vec.snaplen)]
            else ops == [NUMBER_ZERO]
  {
    var part := VectorIo.DataPart(page - IOV_SIZE * vec.count, iovs, retval, write, vec.snaplen);
    assert [] + part.ops == part.ops;
  }

  lemma AfterOne(params: seq<ParamInfo>, c: Cursor, op: Op)
    requires Typed(params, |c.values|, [op])
    ensures AfterAll(params, c, [op]) == After(params, c, op)
  {
    assert [op][1..] == [];
  }

  lemma ZeroPushed(params: seq<ParamInfo>, c: Cursor, d: Cursor)
    requires |c.values| < |params| && params[|c.values|] == Plain(ByteBuf) && Typed(params, |c.values|, [NUMBER_ZERO])
    requires AfterAll(params, c, [NUMBER_ZERO]) == Some(d)
    ensures d.values == c.values + [[]]
  {
    AfterOne(params, c, NUMBER_ZERO);
    if c.dataSize > 0 {
      Nothing(ByteBuf, Word(0), 0, c.dataSize, if c.enforce then Some(0) else None);
    }
  }

  lemma MergedPushed(params: seq<ParamInfo>, c: Cursor, b: seq<byte>, snaplen: nat, ops: seq<Op>, d: Cursor)
    requires |c.values| < |params| && params[|c.values|] == Plain(ByteBuf)
    requires ops == [EnforceSnaplen, Push(Kernel(b), |b|, 0, snaplen)] && Typed(params, |c.values|, ops)
    requires AfterAll(params, c, ops) == Some(d)
    ensures d.values == c.values + [b[..Min(|b|, snaplen)]]
  {
    var op, c' := Push(Kernel(b), |b|, 0, snaplen), c.(enforce := true);
    assert ops[1..] == [op];
    RunAfter(params, c, ops, Success);
    AfterOne(params, c', op);
    BufferPushed(params, c', b, snaplen, d);
  }

  lemma BufferPushed(params: seq<ParamInfo>, c: Cursor, b: seq<byte>, snaplen: nat, d: Cursor)
    requires |c.values| < |params| && params[|c.values|] == Plain(ByteBuf) && c.enforce
    requires Typed(params, |c.values|, [Push(Kernel(b), |b|, 0, snaplen)])
    requires After(params, c, Push(Kernel(b), |b|, 0, snaplen)) == Some(d)
    ensures d.values == c.values + [b[..Min(|b|, snaplen)]]
  {
    if c.dataSize > 0 && b != [] {
      var n := KernelBuffer(b, |b|, c.dataSize, Some(snaplen));
      assert n == Min(|b|, snaplen);
    }
  }

  // The size a request reports: that of the vector, for a read at most the result. Both are 64-bit
  // words, so a negative result is a huge one.
  function SizeOf(sum: nat, retval: int, write: bool): nat
    requires 0 <= retval + TWO64
  {
    var size, most := sum % TWO64, if retval < 0 then retval + TWO64 else retval;
    if !write && most < size then most else size
  }

  function CarriedSize(iovs: seq<Iov>, retval: int, write: bool): nat
    requires 0 <= retval + TWO64
  {
    SizeOf(Sum(iovs), retval, write) % TWO32
  }

  // One value more.
  predicate Adds(c: Cursor, v: seq<byte>, d: Cursor) {
    d.values == c.values + [v]
  }

  // A request for the size that succeeds pushes exactly that.
  lemma SizePushed(params: seq<ParamInfo>, c: Cursor, page: nat, vec: Vector, iovs: seq<Iov>, retval: int, write: bool,
                   f: Filler, d: Cursor) returns (v: seq<byte>)
    requires -(TWO64 / 2) <= retval < TWO64 / 2 && Given(page, vec, iovs)
    requires |c.values| < |params| && params[|c.values|] == Plain(UInt32)
    requires f == Parsed(page, vec, retval, Flags(true, false, write))
    requires Typed(params, |c.values|, f.ops) && AfterAll(params, c, f.ops) == Some(d)
    ensures Adds(c, v, d) && FromLE(v) == CarriedSize(iovs, retval, write)
  {
    var size := ReportedSize(Sum(iovs), retval, write);
    assert f.ops == PushWord(size).ops + [];
    Pow256Values();
    ReportedIs(Sum(iovs), retval, write);
    v := WordStep(params, c, size, d);
  }

  lemma ReportedIs(sum: nat, retval: int, write: bool)
    requires -(TWO64 / 2) <= retval < TWO64 / 2
    ensures ReportedSize(sum, retval, write) == SizeOf(sum, retval, write)
  {
    if retval < 0 {
      DivModUnique(retval, TWO64, -1, retval + TWO64);
    } else {
      InWord(retval);
    }
  }

  // A table with an unsigned 32-bit entry and then a byte buffer suits a request for both.
  lemma BothTyped(params: seq<ParamInfo>, pos: nat, page: nat, vec: Vector, retval: int, write: bool)
    requires -(TWO64 / 2) <= retval < TWO64 / 2 && pos + 1 < |params|
    requires params[pos] == Plain(UInt32) && params[pos + 1] == Plain(ByteBuf)
    ensures Typed(params, pos, Parsed(page, vec, retval, Flags(true, true, write)).ops)
  {
    var f := Parsed(page, vec, retval, Flags(true, true, write));
    if vec.count < 0xFFFF_FFFF && IOV_SIZE * vec.count < page && Entries(vec).Some? {
      var part := VectorIo.DataPart(page - IOV_SIZE * vec.count, Entries(vec).value, retval, write, vec.snaplen);
      DataTyped(params, pos + 1, part.ops);
      assert f.ops[1..] == part.ops;
    }
  }

  // The push of a kernel buffer in its whole length.
  predicate PushesAll(op: Op) {
    op.Push? && op.v.Kernel? && op.len == |op.v.bytes|
  }

  lemma DataTyped(params: seq<ParamInfo>, pos: nat, ops: seq<Op>)
    requires pos < |params| && params[pos] == Plain(ByteBuf)
    requires ops == [] || ops == [NUMBER_ZERO] || (|ops| == 2 && ops[0] == EnforceSnaplen && PushesAll(ops[1]))
    ensures Typed(params, pos, ops)
  {
    if |ops| == 2 {
      assert ops[1..][1..] == [];
    }
  }

  // A request for both pushes the size and then the data.
  lemma BothPushed(params: seq<ParamInfo>, c: Cursor, page: nat, vec: Vector, iovs: seq<Iov>, retval: int, write: bool,
                   f: Filler, e: Cursor) returns (v: seq<byte>)
    requires -(TWO64 / 2) <= retval < TWO64 / 2 && Given(page, vec, iovs)
    requires |c.values| + 1 < |params| && params[|c.values|] == Plain(UInt32)
    requires params[|c.values| + 1] == Plain(ByteBuf)
    requires f == Parsed(page, vec, retval, Flags(true, true, write)) && f.last == Success
    requires Typed(params, |c.values|, f.ops) && AfterAll(params, c, f.ops) == Some(e)
    ensures FromLE(v) == CarriedSize(iovs, retval, write)
    ensures e.values == c.values + [v] + [Carried(page, vec, iovs, retval, write)]
  {
    var size := Parsed(page, vec, retval, Flags(true, false, write));
    var data := Parsed(page, vec, retval, Flags(false, true, write));
    assert f.ops == size.ops + data.ops && f.last == data.last;
    AfterParts(params, c, size.ops, data.ops);
    var d := AfterAll(params, c, size.ops).value;
    v := SizePushed(params, c, page, vec, iovs, retval, write, size, d);
    DataPushed(params, d, page, vec, iovs, retval, write, data, e);
  }

  lemma WordStep(params: seq<ParamInfo>, c: Cursor, w: nat, d: Cursor) returns (v: seq<byte>)
    requires |c.values| < |params| && params[|c.values|].Plain? && KindOf(params[|c.values|].ty).Num? && w < TWO64
    requires Typed(params, |c.values|, PushWord(w).ops) && AfterAll(params, c, PushWord(w).ops) == Some(d)
    ensures Adds(c, v, d) && FromLE(v) == w % Pow256(KindOf(params[|c.values|].ty).width)
  {
    var t, op := params[|c.values|].ty, Push(Word(w), 0, 0, 0);
    var snap := if c.enforce then Some(0) else None;
    AfterOne(params, c, op);
    Number(t, w, 0, 0, c.dataSize, snap);
    v := Pushed(Plain(t), Word(w), 0, 0, c.dataSize, snap).bytes;
  }

  // --------------------------------------------------------------------------------------
  // writev and pwritev
  // --------------------------------------------------------------------------------------

  // The data that a write carries: nothing where the vector or a wanted part of a buffer cannot be read.
  ghost function WrittenData(page: nat, vec: Vector, snaplen: nat): seq<byte>
    requires IOV_SIZE * vec.count < page
  {
    if Entries(vec).None? then []
    else if snaplen > 0 && Unreadable(Entries(vec).value, MergeRoom(page, vec, snaplen, true)) then []
    else Carried(page, vec, Entries(vec).value, snaplen, true)
  }

  function WrittenSize(vec: Vector): nat {
    if Entries(vec).None? then 0 else Sum(Entries(vec).value) % TWO32
  }

  lemma DataStep(params: seq<ParamInfo>, c: Cursor, page: nat, vec: Vector, snaplen: nat, f: Filler, d: Cursor)
    requires |c.values| < |params| && params[|c.values|] == Plain(ByteBuf) && snaplen < TWO32
    requires f == DataOrEmpty(page, vec, snaplen) && f.last == Success
    requires Typed(params, |c.values|, f.ops) && AfterAll(params, c, f.ops) == Some(d)
    ensures IOV_SIZE * vec.count < page && Adds(c, WrittenData(page, vec, snaplen), d)
  {
    var flags := Flags(false, true, true);
    ParsedEnds(page, vec, snaplen, flags);
    var p := Parsed(page, vec, snaplen, flags);
    if p.last == InvalidUserMemory {
      AfterOne(params, c, EMPTY_DATA);
    } else {
      DataPushed(params, c, page, vec, Entries(vec).value, snaplen, true, p, d);
    }
  }

  lemma SizeStep(params: seq<ParamInfo>, c: Cursor, page: nat, vec: Vector, snaplen: nat, f: Filler, d: Cursor)
    returns (v: seq<byte>)
    requires |c.values| < |params| && params[|c.values|] == Plain(UInt32) && snaplen < TWO32
    requires f == SizeOrZero(page, vec, snaplen) && f.last == Success
    requires Typed(params, |c.values|, f.ops) && AfterAll(params, c, f.ops) == Some(d)
    ensures Adds(c, v, d) && FromLE(v) == WrittenSize(vec)
  {
    var flags := Flags(true, false, true);
    ParsedEnds(page, vec, snaplen, flags);
    Pow256Values();
    if Entries(vec).None? {
      assert f.ops == PushWord(0).ops;
      v := WordStep(params, c, 0, d);
    } else {
      var size := Sum(Entries(vec).value);
      assert f.ops == PushWord(size % TWO64).ops + [];
      v := WordStep(params, c, size % TWO64, d);
      LowWord(size);
    }
  }

  lemma LowWord(x: nat)
    ensures x % TWO64 % TWO32 == x % TWO32
  {
    var q, r := x / TWO64, x % TWO64;
    assert x == TWO64 * q + r;
    assert TWO64 == TWO32 * TWO32;
    assert x == TWO32 * (TWO32 * q + r / TWO32) + r % TWO32;
    DivModUnique(x, TWO32, TWO32 * q + r / TWO32, r % TWO32);
  }

  // The first part of a filler that succeeds, and where it leaves the cursor.
  lemma FirstPart(params: seq<ParamInfo>, c: Cursor, f: Filler, rest: Filler, all: seq<seq<byte>>) returns (d: Cursor)
    requires Typed(params, |c.values|, Then(f, rest).ops)
    requires RunFrom(params, c, Then(f, rest).ops, Then(f, rest).last) == Filled(all)
    ensures f.last == Success && Typed(params, |c.values|, f.ops) && AfterAll(params, c, f.ops) == Some(d)
    ensures Typed(params, |d.values|, rest.ops) && RunFrom(params, d, rest.ops, rest.last) == Filled(all)
  {
    OnlySuccessFills(params, c.values, c.dataSize, c.enforce, Then(f, rest).ops, Then(f, rest).last);
    RunParts(params, c, f.ops, rest.ops, rest.last);
    d := AfterAll(params, c, f.ops).value;
  }

  // The last part: nothing is added any more.
  lemma LastPart(params: seq<ParamInfo>, c: Cursor, f: Filler, all: seq<seq<byte>>) returns (d: Cursor)
    requires Typed(params, |c.values|, f.ops) && RunFrom(params, c, f.ops, f.last) == Filled(all)
    ensures f.last == Success && AfterAll(params, c, f.ops) == Some(d) && d.values == all
  {
    assert f.ops + [] == f.ops;
    OnlySuccessFills(params, c.values, c.dataSize, c.enforce, f.ops, f.last);
    RunParts(params, c, f.ops, [], f.last);
    d := AfterAll(params, c, f.ops).value;
  }

  // The filler goes on from c and ends with all these values.
  predicate Ends(params: seq<ParamInfo>, c: Cursor, f: Filler, all: seq<seq<byte>>) {
    Typed(params, |c.values|, f.ops) && RunFrom(params, c, f.ops, f.last) == Filled(all)
  }

  predicate NumberOf(params: seq<ParamInfo>, i: nat, width: nat) {
    i < |params| && params[i].Plain? && KindOf(params[i].ty) == Num(width)
  }

  lemma FullWordPart(params: seq<ParamInfo>, c: Cursor, w: nat, rest: Filler, all: seq<seq<byte>>)
    returns (v: seq<byte>, d: Cursor)
    requires NumberOf(params, |c.values|, 8) && w < TWO64 && Ends(params, c, Then(PushWord(w), rest), all)
    ensures Adds(c, v, d) && FromLE(v) == w && Ends(params, d, rest, all)
  {
    d := FirstPart(params, c, PushWord(w), rest, all);
    v := FullWordStep(params, c, w, d);
  }

  lemma FullWordStep(params: seq<ParamInfo>, c: Cursor, w: nat, d: Cursor) returns (v: seq<byte>)
    requires NumberOf(params, |c.values|, 8) && w < TWO64
    requires Typed(params, |c.values|, PushWord(w).ops) && AfterAll(params, c, PushWord(w).ops) == Some(d)
    ensures Adds(c, v, d) && FromLE(v) == w
  {
    v := WordStep(params, c, w, d);
    Pow256Values();
  }

  lemma DataPart(params: seq<ParamInfo>, c: Cursor, page: nat, vec: Vector, snaplen: nat, f: Filler, rest: Filler,
                 all: seq<seq<byte>>) returns (v: seq<byte>, d: Cursor)
    requires |c.values| < |params| && params[|c.values|] == Plain(ByteBuf) && snaplen < TWO32
    requires f == DataOrEmpty(page, vec, snaplen) && Ends(params, c, Then(f, rest), all)
    ensures IOV_SIZE * vec.count < page && v == WrittenData(page, vec, snaplen)
    ensures Adds(c, v, d) && Ends(params, d, rest, all)
  {
    d := FirstPart(params, c, f, rest, all);
    DataStep(params, c, page, vec, snaplen, f, d);
    v := WrittenData(page, vec, snaplen);
  }

  lemma SizePart(params: seq<ParamInfo>, c: Cursor, page: nat, vec: Vector, snaplen: nat, f: Filler, rest: Filler,
                 all: seq<seq<byte>>) returns (v: seq<byte>, d: Cursor)
    requires |c.values| < |params| && params[|c.values|] == Plain(UInt32) && snaplen < TWO32
    requires f == SizeOrZero(page, vec, snaplen) && Ends(params, c, Then(f, rest), all)
    ensures Adds(c, v, d) && FromLE(v) == WrittenSize(vec) && Ends(params, d, rest, all)
  {
    d := FirstPart(params, c, f, rest, all);
    v := SizeStep(params, c, page, vec, snaplen, f, d);
  }

  lemma PosPart(params: seq<ParamInfo>, c: Cursor, pos: Option<nat>, f: Filler, all: seq<seq<byte>>)
    requires f == PushPos(pos) && Ends(params, c, f, all)
    requires pos.Some? ==> NumberOf(params, |c.values|, 8) && pos.value < TWO64
    ensures c.values <= all && |all| == |c.values| + if pos.Some? then 1 else 0
    ensures pos.Some? ==> FromLE(all[|c.values|]) == pos.value
  {
    var d := LastPart(params, c, f, all);
    if pos.Some? {
      var v := FullWordStep(params, c, pos.value, d);
    }
  }

  // A value that was added stays in its place.
  lemma StaysAt(c: Cursor, v: seq<byte>, d: Cursor, all: seq<seq<byte>>)
    requires Adds(c, v, d) && d.values <= all
    ensures c.values <= all && |all| > |c.values| && all[|c.values|] == v
  {
    assert all[..|d.values|] == d.values && d.values[..|c.values|] == c.values && d.values[|c.values|] == v;
    assert all[..|c.values|] == c.values;
  }

  // What the parameters after the data are to carry.
  predicate TailIn(all: seq<seq<byte>>, fd: nat, vec: Vector, pos: Option<nat>) {
    && |all| == 4 + (if pos.Some? then 1 else 0) && FromLE(all[2]) == fd
    && FromLE(all[3]) == WrittenSize(vec) && (pos.Some? ==> FromLE(all[4]) == pos.value)
  }

  // From the size on.
  lemma SizeOn(params: seq<ParamInfo>, page: nat, vec: Vector, snaplen: nat, pos: Option<nat>, size: Filler,
               last: Filler, c: Cursor, all: seq<seq<byte>>)
    requires |c.values| == 3 < |params| && params[3] == Plain(UInt32) && snaplen < TWO32
    requires size == SizeOrZero(page, vec, snaplen) && last == PushPos(pos)
    requires pos.Some? ==> pos.value < TWO64 && NumberOf(params, 4, 8)
    requires Ends(params, c, Then(size, last), all)
    ensures c.values <= all && |all| == 4 + (if pos.Some? then 1 else 0)
    ensures FromLE(all[3]) == WrittenSize(vec) && (pos.Some? ==> FromLE(all[4]) == pos.value)
  {
    var v, d := SizePart(params, c, page, vec, snaplen, size, last, all);
    PosPart(params, d, pos, last, all);
    StaysAt(c, v, d, all);
  }

  // From the descriptor on.
  lemma DescriptorOn(params: seq<ParamInfo>, page: nat, fd: nat, vec: Vector, snaplen: nat, pos: Option<nat>,
                     size: Filler, last: Filler, rest: Filler, c: Cursor, all: seq<seq<byte>>)
    requires |c.values| == 2 && NumberOf(params, 2, 8) && |params| > 3 && params[3] == Plain(UInt32)
    requires fd < TWO64 && snaplen < TWO32 && (pos.Some? ==> pos.value < TWO64 && NumberOf(params, 4, 8))
    requires size == SizeOrZero(page, vec, snaplen) && last == PushPos(pos) && rest == Then(size, last)
    requires Ends(params, c, Then(PushWord(fd), rest), all)
    ensures c.values <= all && TailIn(all, fd, vec, pos)
  {
    var v, d := FullWordPart(params, c, fd, rest, all);
    SizeOn(params, page, vec, snaplen, pos, size, last, d, all);
    StaysAt(c, v, d, all);
  }

  // From the data on.
  lemma DataOn(params: seq<ParamInfo>, page: nat, fd: nat, vec: Vector, snaplen: nat, pos: Option<nat>, data: Filler,
               size: Filler, last: Filler, tail: Filler, c: Cursor, all: seq<seq<byte>>)
    requires |c.values| == 1 && |params| > 3 && params[1] == Plain(ByteBuf)
    requires NumberOf(params, 2, 8) && params[3] == Plain(UInt32)
    requires fd < TWO64 && snaplen < TWO32 && (pos.Some? ==> pos.value < TWO64 && NumberOf(params, 4, 8))
    requires data == DataOrEmpty(page, vec, snaplen) && size == SizeOrZero(page, vec, snaplen) && last == PushPos(pos)
    requires tail == Then(PushWord(fd), Then(size, last)) && Ends(params, c, Then(data, tail), all)
    ensures IOV_SIZE * vec.count < page && c.values <= all && TailIn(all, fd, vec, pos)
    ensures all[1] == WrittenData(page, vec, snaplen)
  {
    var v, d := DataPart(params, c, page, vec, snaplen, data, tail, all);
    DescriptorOn(params, page, fd, vec, snaplen, pos, size, last, Then(size, last), d, all);
    StaysAt(c, v, d, all);
  }

  // The whole filler.
  lemma ResultOn(params: seq<ParamInfo>, page: nat, retval: nat, fd: nat, vec: Vector, snaplen: nat, pos: Option<nat>,
                 data: Filler, size: Filler, last: Filler, tail: Filler, rest: Filler, c: Cursor, all: seq<seq<byte>>)
    requires |c.values| == 0 && NumberOf(params, 0, 8) && |params| > 3 && params[1] == Plain(ByteBuf)
    requires NumberOf(params, 2, 8) && params[3] == Plain(UInt32) && retval < TWO64
    requires fd < TWO64 && snaplen < TWO32 && (pos.Some? ==> pos.value < TWO64 && NumberOf(params, 4, 8))
    requires data == DataOrEmpty(page, vec, snaplen) && size == SizeOrZero(page, vec, snaplen) && last == PushPos(pos)
    requires tail == Then(PushWord(fd), Then(size, last)) && rest == Then(data, tail)
    requires Ends(params, c, Then(PushWord(retval), rest), all)
    ensures IOV_SIZE * vec.count < page && TailIn(all, fd, vec, pos)
    ensures FromLE(all[0]) == retval && all[1] == WrittenData(page, vec, snaplen)
  {
    var v, d := FullWordPart(params, c, retval, rest, all);
    DataOn(params, page, fd, vec, snaplen, pos, data, size, last, tail, d, all);
    StaysAt(c, v, d, all);
  }

  // A writev or pwritev that succeeds carries its result, the wanted prefix of its buffers, its
  // descriptor, the size of its vector in 32 bits, and the position.
  lemma WritevCarries(page: nat, retval: nat, fd: nat, vec: Vector, snaplen: nat, pos: Option<nat>, dataSize: nat,
                      all: seq<seq<byte>>)
    requires retval < TWO64 && fd < TWO64 && snaplen < TWO32 && (pos.Some? ==> pos.value < TWO64)
    requires var f := WritevFiller(page, retval, fd, vec, snaplen, pos);
             && Typed(WritevParams(pos), 0, f.ops)
             && Run(WritevParams(pos), [], dataSize, false, f.ops, f.last) == Filled(all)
    ensures IOV_SIZE * vec.count < page && |all| == |WritevParams(pos)|
    ensures FromLE(all[0]) == retval && all[1] == WrittenData(page, vec, snaplen) && FromLE(all[2]) == fd
    ensures FromLE(all[3]) == WrittenSize(vec) && (pos.Some? ==> FromLE(all[4]) == pos.value)
  {
    var data, size, last := DataOrEmpty(page, vec, snaplen), SizeOrZero(page, vec, snaplen), PushPos(pos);
    var tail := Then(PushWord(fd), Then(size, last));
    ResultOn(WritevParams(pos), page, retval, fd, vec, snaplen, pos, data, size, last, tail, Then(data, tail),
             Cursor([], dataSize, false), all);
  }
}
