/**
 Pushing the size and the data of a vectored read or write, and what a filler does when the
 vector cannot be read (driver/ppm_events.c, driver/ppm_fillers.c).
 */
module VectorIo {
  import opened Bytes
  import opened Params
  import opened UserMemory
  import opened Payload
  import opened Serializer
  import opened Filler
  import opened Scatter

  // A vector as a call gives it: what can be read at its address, the number of its entries, the
  // memory they point into, and what compute_snaplen yields for the merged data.
  datatype Vector = Vector(src: seq<byte>, count: nat, mem: Memory, snaplen: nat)

  // The entries, if they can be read.
  function Entries(vec: Vector): Option<seq<Iov>> {
    if IOV_SIZE * vec.count <= |vec.src| then Some(Iovs(vec.src, vec.count, vec.mem)) else None
  }

  // The data part of a request: what is pushed, and the code it ends with.
  function DataPart(space: nat, iovs: seq<Iov>, retval: int, write: bool, snaplen: nat): Filler
    requires space > 0
  {
    if retval > 0 && iovs != [] then
      match Gather(iovs, 0, Room(space, retval, write))
      case None => Filler([], InvalidUserMemory)
      case Some(b) => Filler([EnforceSnaplen, Push(Kernel(b), |b|, 0, snaplen)], Success)
    else Filler([NUMBER_ZERO], Success)
  }

  const NUMBER_ZERO: Op := Push(Word(0), 0, 0, 0)

  function SizePart(iovs: seq<Iov>, retval: int, write: bool): seq<Op>
    requires -(TWO64 / 2) <= retval < TWO64 / 2
  {
    [Push(Word(ReportedSize(Sum(iovs), retval, write)), 0, 0, 0)]
  }

  // The whole request, in a scratch page that also has to hold the vector itself.
  function Parsed(page: nat, vec: Vector, retval: int, flags: Flags): Filler
    requires -(TWO64 / 2) <= retval < TWO64 / 2
  {
    if vec.count >= 0xFFFF_FFFF || IOV_SIZE * vec.count >= page then Filler([], BufferFull)
    else match Entries(vec)
      case None => Filler([], InvalidUserMemory)
      case Some(iovs) =>
        Parts(page - IOV_SIZE * vec.count, iovs, retval, flags, vec.snaplen)
  }

  // The size, then the data, as the flags ask for.
  function Parts(space: nat, iovs: seq<Iov>, retval: int, flags: Flags, snaplen: nat): Filler
    requires -(TWO64 / 2) <= retval < TWO64 / 2 && space > 0
  {
    var size := if flags.size then SizePart(iovs, retval, flags.write) else [];
    var data := if flags.data then DataPart(space, iovs, retval, flags.write, snaplen) else Filler([], Success);
    Filler(size + data.ops, data.last)
  }

  // One filler, and if it succeeds the other one on what it leaves.
  function Then(f: Filler, rest: Filler): Filler {
    if f.last != Success then f else Filler(f.ops + rest.ops, rest.last)
  }

  lemma ThenAssociates(ops: seq<Op>, f: Filler, rest: Filler)
    ensures Then(Filler(ops + f.ops, f.last), rest) == Filler(ops + Then(f, rest).ops, Then(f, rest).last)
  {
    assert ops + f.ops + rest.ops == ops + (f.ops + rest.ops);
  }

  // The outcome of running a filler on a cursor.
  ghost function FillOf(args: FillerArgs, f: Filler): Fill
    requires args.Valid() && Typed(args.params, args.curarg, f.ops)
    reads args, args.buffer
  {
    Run(args.params, args.pushed, args.dataSize, args.enforceSnaplen, f.ops, f.last)
  }

  // One push, in front of whatever follows.
  method PushOp(args: FillerArgs, op: Op, ghost rest: Filler) returns (res: Code)
    requires args.Valid() && Typed(args.params, args.curarg, [op] + rest.ops)
    modifies args, args.buffer
    ensures args.Bounds() && Framed(old(args.buffer[..]), args.buffer[..], args.base, args.bufferSize)
    ensures res == Success ==>
              && args.Valid() && Typed(args.params, args.curarg, rest.ops)
              && old(FillOf(args, Filler([op] + rest.ops, rest.last))) == FillOf(args, rest)
    ensures res != Success ==> old(FillOf(args, Filler([op] + rest.ops, rest.last))) == Failed(res)
  {
    ghost var ops := [op] + rest.ops;
    assert ops[0] == op && ops[1..] == rest.ops;
    res := Next(args, op, ops, rest.last);
  }

  method PushData(args: FillerArgs, storage: array<byte>, vec: Vector, retval: int, write: bool,
                  ghost iovs: seq<Iov>, ghost f: Filler, ghost rest: Filler) returns (res: Code)
    requires args.Valid() && storage != args.buffer && IOV_SIZE * vec.count < storage.Length
    requires iovs == Iovs(storage[..], vec.count, vec.mem)
    requires f == DataPart(storage.Length - IOV_SIZE * vec.count, iovs, retval, write, vec.snaplen)
    requires Typed(args.params, args.curarg, Then(f, rest).ops)
    modifies args, args.buffer, storage
    ensures args.Bounds() && Framed(old(args.buffer[..]), args.buffer[..], args.base, args.bufferSize)
    ensures res == Success ==>
              && f.last == Success && args.Valid() && Typed(args.params, args.curarg, rest.ops)
              && old(FillOf(args, Then(f, rest))) == FillOf(args, rest)
    ensures res != Success ==> old(FillOf(args, Then(f, rest))) == Failed(res)
    ensures f.ops == [] ==> unchanged(args) && unchanged(args.buffer)
  {
    if retval > 0 && vec.count > 0 {
      var at := IOV_SIZE * vec.count;
      var ok, n := Merge(storage, vec.count, vec.mem, retval, write, iovs);
      if !ok {
        return InvalidUserMemory;
      }
      assert storage[at..at + n] == storage[..][at..at + n];
      res := PushMerged(args, storage[at..at + n], vec.snaplen, f, rest);
    } else {
      res := PushOp(args, NUMBER_ZERO, rest);
    }
  }

  // The merged bytes, cut by the snaplen from here on.
  method PushMerged(args: FillerArgs, b: seq<byte>, snaplen: nat, ghost f: Filler, ghost rest: Filler)
    returns (res: Code)
    requires args.Valid() && f == Filler([EnforceSnaplen, Push(Kernel(b), |b|, 0, snaplen)], Success)
    requires Typed(args.params, args.curarg, Then(f, rest).ops)
    modifies args, args.buffer
    ensures args.Bounds() && Framed(old(args.buffer[..]), args.buffer[..], args.base, args.bufferSize)
    ensures res == Success ==>
              && f.last == Success && args.Valid() && Typed(args.params, args.curarg, rest.ops)
              && old(FillOf(args, Then(f, rest))) == FillOf(args, rest)
    ensures res != Success ==> old(FillOf(args, Then(f, rest))) == Failed(res)
  {
    var op := Push(Kernel(b), |b|, 0, snaplen);
    ghost var next := Filler([op] + rest.ops, rest.last);
    ghost var was := args.buffer[..];
    assert f.ops + rest.ops == [EnforceSnaplen] + next.ops;
    res := PushOp(args, EnforceSnaplen, next);
    if res == Success {
      ghost var mid := args.buffer[..];
      res := PushOp(args, op, rest);
      FramedTwice(was, mid, args.buffer[..], args.base, args.bufferSize);
    }
  }

  // parse_readv_writev_bufs, in front of whatever follows.
  method ParseBufs(args: FillerArgs, storage: array<byte>, vec: Vector, retval: int, flags: Flags,
                   ghost f: Filler, ghost rest: Filler) returns (res: Code)
    requires args.Valid() && storage != args.buffer && -(TWO64 / 2) <= retval < TWO64 / 2
    requires f == Parsed(storage.Length, vec, retval, flags)
    requires Typed(args.params, args.curarg, Then(f, rest).ops)
    modifies args, args.buffer, storage
    ensures args.Bounds() && Framed(old(args.buffer[..]), args.buffer[..], args.base, args.bufferSize)
    ensures res == Success ==>
              && f.last == Success && args.Valid() && Typed(args.params, args.curarg, rest.ops)
              && old(FillOf(args, Then(f, rest))) == FillOf(args, rest)
    ensures res != Success ==> old(FillOf(args, Then(f, rest))) == Failed(res)
    ensures f.ops == [] ==> unchanged(args) && unchanged(args.buffer)
  {
    if vec.count >= 0xFFFF_FFFF || IOV_SIZE * vec.count >= storage.Length {
      return BufferFull;
    }
    var fetched := FetchVector(storage, vec);
    if !fetched {
      return InvalidUserMemory;
    }
    res := PushParts(args, storage, vec, retval, flags, Entries(vec).value, f, rest);
  }

  // The vector, copied to the start of the page.
  method FetchVector(storage: array<byte>, vec: Vector) returns (ok: bool)
    requires IOV_SIZE * vec.count <= storage.Length
    modifies storage
    ensures ok == Entries(vec).Some?
    ensures ok ==> Entries(vec).value == Iovs(storage[..], vec.count, vec.mem)
  {
    var at := IOV_SIZE * vec.count;
    var left := CopyFromUser(storage, 0, vec.src, 0, at);
    ok := left == 0;
    if ok {
      assert storage[..][0..at] == storage[..][..at] && vec.src[0..at] == vec.src[..at];
      SameIovs(vec.src, storage[..], at, vec.count, vec.mem);
    }
  }

  method PushParts(args: FillerArgs, storage: array<byte>, vec: Vector, retval: int, flags: Flags,
                   ghost iovs: seq<Iov>, ghost f: Filler, ghost rest: Filler) returns (res: Code)
    requires args.Valid() && storage != args.buffer && -(TWO64 / 2) <= retval < TWO64 / 2
    requires IOV_SIZE * vec.count < storage.Length && iovs == Iovs(storage[..], vec.count, vec.mem)
    requires f == Parts(storage.Length - IOV_SIZE * vec.count, iovs, retval, flags, vec.snaplen)
    requires Typed(args.params, args.curarg, Then(f, rest).ops)
    modifies args, args.buffer, storage
    ensures args.Bounds() && Framed(old(args.buffer[..]), args.buffer[..], args.base, args.bufferSize)
    ensures res == Success ==>
              && f.last == Success && args.Valid() && Typed(args.params, args.curarg, rest.ops)
              && old(FillOf(args, Then(f, rest))) == FillOf(args, rest)
    ensures res != Success ==> old(FillOf(args, Then(f, rest))) == Failed(res)
    ensures f.ops == [] ==> unchanged(args) && unchanged(args.buffer)
  {
    ghost var was := args.buffer[..];
    ghost var data := if flags.data
                      then DataPart(storage.Length - IOV_SIZE * vec.count, iovs, retval, flags.write, vec.snaplen)
                      else Filler([], Success);
    if flags.size {
      ThenAssociates(SizePart(iovs, retval, flags.write), data, rest);
      res := PushTotal(args, storage, vec, retval, flags.write, iovs, Then(data, rest));
      if res != Success {
        return;
      }
    } else {
      assert [] + data.ops == data.ops;
    }
    ghost var mid := args.buffer[..];
    res := Success;
    if flags.data {
      res := PushData(args, storage, vec, retval, flags.write, iovs, data, rest);
      FramedTwice(was, mid, args.buffer[..], args.base, args.bufferSize);
    } else {
      assert [] + rest.ops == rest.ops;
    }
  }

  method PushTotal(args: FillerArgs, storage: array<byte>, vec: Vector, retval: int, write: bool,
                   ghost iovs: seq<Iov>, ghost rest: Filler) returns (res: Code)
    requires args.Valid() && -(TWO64 / 2) <= retval < TWO64 / 2
    requires IOV_SIZE * vec.count <= storage.Length && iovs == Iovs(storage[..], vec.count, vec.mem)
    requires storage != args.buffer
    requires Typed(args.params, args.curarg, SizePart(iovs, retval, write) + rest.ops)
    modifies args, args.buffer
    ensures args.Bounds() && Framed(old(args.buffer[..]), args.buffer[..], args.base, args.bufferSize)
    ensures res == Success ==>
              && args.Valid() && Typed(args.params, args.curarg, rest.ops)
              && old(FillOf(args, Filler(SizePart(iovs, retval, write) + rest.ops, rest.last))) == FillOf(args, rest)
    ensures res != Success ==>
              old(FillOf(args, Filler(SizePart(iovs, retval, write) + rest.ops, rest.last))) == Failed(res)
  {
    var size := TotalLen(storage, vec.count, vec.mem, iovs);
    if !write && size > retval % TWO64 {
      size := retval % TWO64;
    }
    res := PushOp(args, Push(Word(size), 0, 0, 0), rest);
  }

  // No push reports unreadable user memory, so only the parser itself does.
  lemma {:induction false} OnlyLastInvalid(params: seq<ParamInfo>, values: seq<seq<byte>>, dataSize: nat, enforce: bool,
                                           ops: seq<Op>, last: Code)
    requires Typed(params, |values|, ops)
    requires Run(params, values, dataSize, enforce, ops, last) == Failed(InvalidUserMemory)
    ensures last == InvalidUserMemory
    decreases |ops|
  {
    if ops != [] {
      RunNext(params, values, dataSize, enforce, ops, last);
      match ops[0]
      case EnforceSnaplen => OnlyLastInvalid(params, values, dataSize, true, ops[1..], last);
      case PushEmpty => OnlyLastInvalid(params, values + [[]], dataSize, enforce, ops[1..], last);
      case Push(v, len, dynIdx, snaplen) =>
        var snap := if enforce then Some(snaplen) else None;
        var out := Pushed(params[|values|], v, len, dynIdx, dataSize, snap);
        PushedFits(params[|values|], v, len, dynIdx, dataSize, snap);
        OnlyLastInvalid(params, values + [out.bytes], dataSize - |out.bytes|, enforce, ops[1..], last);
    }
  }

  // A request for the size alone or the data alone, with something to push instead when the
  // vector or a buffer cannot be read.
  function Recovered(f: Filler, instead: Op): Filler {
    if f.last == InvalidUserMemory then Filler([instead], Success) else f
  }

  // Either part alone pushes nothing before it finds memory it cannot read.
  lemma NothingBeforeFault(page: nat, vec: Vector, retval: int, flags: Flags)
    requires -(TWO64 / 2) <= retval < TWO64 / 2 && flags.size != flags.data
    requires Parsed(page, vec, retval, flags).last == InvalidUserMemory
    ensures Parsed(page, vec, retval, flags).ops == []
  {
  }

  // The error recovery of the writev fillers, for one of the two parts.
  method ParseOr(args: FillerArgs, storage: array<byte>, vec: Vector, retval: int, flags: Flags,
                 instead: Op, ghost f: Filler, ghost rest: Filler) returns (res: Code)
    requires args.Valid() && storage != args.buffer && -(TWO64 / 2) <= retval < TWO64 / 2
    requires flags.size != flags.data && rest.last != InvalidUserMemory
    requires f == Recovered(Parsed(storage.Length, vec, retval, flags), instead)
    requires Typed(args.params, args.curarg, Then(f, rest).ops)
    modifies args, args.buffer, storage
    ensures args.Bounds() && Framed(old(args.buffer[..]), args.buffer[..], args.base, args.bufferSize)
    ensures res == Success ==>
              && f.last == Success && args.Valid() && Typed(args.params, args.curarg, rest.ops)
              && old(FillOf(args, Then(f, rest))) == FillOf(args, rest)
    ensures res != Success ==> old(FillOf(args, Then(f, rest))) == Failed(res)
  {
    ghost var all := Parsed(storage.Length, vec, retval, flags);
    ghost var values, dataSize, enforce := args.pushed, args.dataSize, args.enforceSnaplen;
    if all.last == InvalidUserMemory {
      NothingBeforeFault(storage.Length, vec, retval, flags);
    }
    res := ParseBufs(args, storage, vec, retval, flags, all, rest);
    if res == InvalidUserMemory {
      OnlyLastInvalid(args.params, values, dataSize, enforce, Then(all, rest).ops, Then(all, rest).last);
      res := PushOp(args, instead, rest);
    }
  }

  function Pushes(ops: seq<Op>): nat {
    if ops == [] then 0 else (if ops[0].EnforceSnaplen? then 0 else 1) + Pushes(ops[1..])
  }

  // A filler that succeeds has added one entry per push, behind the entries that were there.
  lemma {:induction false} OneEntryPerPush(params: seq<ParamInfo>, values: seq<seq<byte>>, dataSize: nat, enforce: bool,
                                           ops: seq<Op>, last: Code)
    requires Typed(params, |values|, ops)
    requires Run(params, values, dataSize, enforce, ops, last).Filled?
    ensures var v := Run(params, values, dataSize, enforce, ops, last).values;
            |v| == |values| + Pushes(ops) && values <= v
    decreases |ops|
  {
    if ops != [] {
      RunNext(params, values, dataSize, enforce, ops, last);
      match ops[0]
      case EnforceSnaplen => OneEntryPerPush(params, values, dataSize, true, ops[1..], last);
      case PushEmpty => OneEntryPerPush(params, values + [[]], dataSize, enforce, ops[1..], last);
      case Push(v, len, dynIdx, snaplen) =>
        var snap := if enforce then Some(snaplen) else None;
        var out := Pushed(params[|values|], v, len, dynIdx, dataSize, snap);
        PushedFits(params[|values|], v, len, dynIdx, dataSize, snap);
        OneEntryPerPush(params, values + [out.bytes], dataSize - |out.bytes|, enforce, ops[1..], last);
    }
  }

  // With the recovery, either part alone pushes exactly one entry unless the vector is too long.
  lemma RecoveredPushesOne(page: nat, vec: Vector, retval: int, flags: Flags, instead: Op)
    requires -(TWO64 / 2) <= retval < TWO64 / 2 && flags.size != flags.data && !instead.EnforceSnaplen?
    ensures var f := Recovered(Parsed(page, vec, retval, flags), instead);
            if f.last == Success then Pushes(f.ops) == 1 else f == Filler([], BufferFull)
  {
    var f := Parsed(page, vec, retval, flags);
    assert [instead][1..] == [];
    if f.last == Success {
      if flags.data {
        assert f.ops == DataPart(page - IOV_SIZE * vec.count, Entries(vec).value, retval, flags.write, vec.snaplen).ops;
        if |f.ops| == 2 {
          assert f.ops[1..][1..] == [] && Pushes(f.ops[1..]) == 1;
        } else {
          assert f.ops[1..] == [];
        }
      } else {
        assert f.ops == SizePart(Entries(vec).value, retval, flags.write) && f.ops[1..] == [];
      }
    }
  }

  // --------------------------------------------------------------------------------------
  // writev and pwritev
  // --------------------------------------------------------------------------------------

  const EMPTY_DATA: Op := PushEmpty
  const ZERO_SIZE: Op := NUMBER_ZERO

  function DataOrEmpty(page: nat, vec: Vector, snaplen: nat): Filler
    requires snaplen < TWO32
  {
    Recovered(Parsed(page, vec, snaplen, Flags(false, true, true)), EMPTY_DATA)
  }

  function SizeOrZero(page: nat, vec: Vector, snaplen: nat): Filler
    requires snaplen < TWO32
  {
    Recovered(Parsed(page, vec, snaplen, Flags(true, false, true)), ZERO_SIZE)
  }

  function PushWord(w: nat): Filler {
    Filler([Push(Word(w), 0, 0, 0)], Success)
  }

  // The position, which only pwritev has.
  function PushPos(pos: Option<nat>): Filler {
    if pos.Some? then PushWord(pos.value) else Filler([], Success)
  }

  // The filler as a list of pushes: the result, the data, the descriptor, the size, the position.
  function WritevFiller(page: nat, retval: nat, fd: nat, vec: Vector, snaplen: nat, pos: Option<nat>): Filler
    requires snaplen < TWO32
  {
    Then(PushWord(retval), Then(DataOrEmpty(page, vec, snaplen), WritevTail(page, fd, vec, snaplen, pos)))
  }

  function WritevTail(page: nat, fd: nat, vec: Vector, snaplen: nat, pos: Option<nat>): (f: Filler)
    requires snaplen < TWO32
    ensures f.last != InvalidUserMemory
  {
    Then(PushWord(fd), Then(SizeOrZero(page, vec, snaplen), PushPos(pos)))
  }

  function WritevParams(pos: Option<nat>): seq<ParamInfo> {
    [Plain(Errno), Plain(ByteBuf), Plain(Fd), Plain(UInt32)] + (if pos.Some? then [Plain(UInt64)] else [])
  }

  // One number and one part of the vector, in front of whatever follows.
  method PushPair(args: FillerArgs, storage: array<byte>, w: nat, vec: Vector, snaplen: nat,
                  flags: Flags, instead: Op, ghost f: Filler, ghost rest: Filler) returns (res: Code)
    requires args.Valid() && storage != args.buffer && snaplen < TWO32
    requires flags.size != flags.data && rest.last != InvalidUserMemory
    requires f == Recovered(Parsed(storage.Length, vec, snaplen, flags), instead)
    requires Typed(args.params, args.curarg, Then(PushWord(w), Then(f, rest)).ops)
    modifies args, args.buffer, storage
    ensures args.Bounds() && Framed(old(args.buffer[..]), args.buffer[..], args.base, args.bufferSize)
    ensures res == Success ==>
              && args.Valid() && Typed(args.params, args.curarg, rest.ops)
              && old(FillOf(args, Then(PushWord(w), Then(f, rest)))) == FillOf(args, rest)
    ensures res != Success ==> old(FillOf(args, Then(PushWord(w), Then(f, rest)))) == Failed(res)
  {
    ghost var was := args.buffer[..];
    res := PushOp(args, Push(Word(w), 0, 0, 0), Then(f, rest));
    if res == Success {
      ghost var mid := args.buffer[..];
      res := ParseOr(args, storage, vec, snaplen, flags, instead, f, rest);
      FramedTwice(was, mid, args.buffer[..], args.base, args.bufferSize);
    }
  }

  // f_sys_writev_x, and with a position f_sys_pwritev_x
  method WritevX(args: FillerArgs, storage: array<byte>, retval: nat, fd: nat, vec: Vector,
                 snaplen: nat, pos: Option<nat>) returns (res: Code)
    requires args.Valid() && storage != args.buffer && snaplen < TWO32
    requires Typed(args.params, args.curarg, WritevFiller(storage.Length, retval, fd, vec, snaplen, pos).ops)
    modifies args, args.buffer, storage
    ensures args.Bounds() && Framed(old(args.buffer[..]), args.buffer[..], args.base, args.bufferSize)
    ensures match old(FillOf(args, WritevFiller(storage.Length, retval, fd, vec, snaplen, pos)))
            case Filled(values) => res == Success && args.Valid() && args.pushed == values
            case Failed(c) => res == c && c != Success
  {
    ghost var data := DataOrEmpty(storage.Length, vec, snaplen);
    ghost var rest := WritevTail(storage.Length, fd, vec, snaplen, pos);
    ghost var was := args.buffer[..];
    res := PushPair(args, storage, retval, vec, snaplen, Flags(false, true, true), EMPTY_DATA, data, rest);
    if res == Success {
      ghost var mid := args.buffer[..];
      res := WritevRest(args, storage, fd, vec, snaplen, pos, rest);
      FramedTwice(was, mid, args.buffer[..], args.base, args.bufferSize);
    }
  }

  // From the descriptor on.
  method WritevRest(args: FillerArgs, storage: array<byte>, fd: nat, vec: Vector,
                    snaplen: nat, pos: Option<nat>, ghost f: Filler) returns (res: Code)
    requires args.Valid() && storage != args.buffer && snaplen < TWO32
    requires f == WritevTail(storage.Length, fd, vec, snaplen, pos) && Typed(args.params, args.curarg, f.ops)
    modifies args, args.buffer, storage
    ensures args.Bounds() && Framed(old(args.buffer[..]), args.buffer[..], args.base, args.bufferSize)
    ensures match old(FillOf(args, f))
            case Filled(values) => res == Success && args.Valid() && args.pushed == values
            case Failed(c) => res == c && c != Success
  {
    ghost var size, last := SizeOrZero(storage.Length, vec, snaplen), PushPos(pos);
    ghost var was := args.buffer[..];
    res := PushPair(args, storage, fd, vec, snaplen, Flags(true, false, true), ZERO_SIZE, size, last);
    if res == Success && pos.Some? {
      ghost var mid := args.buffer[..];
      res := RunFiller(args, PushWord(pos.value));
      FramedTwice(was, mid, args.buffer[..], args.base, args.bufferSize);
    }
  }

  lemma {:induction false} TypedAppend(params: seq<ParamInfo>, pos: nat, a: seq<Op>, b: seq<Op>)
    requires Typed(params, pos, a) && Typed(params, pos + Pushes(a), b)
    ensures Typed(params, pos, a + b) && Pushes(a + b) == Pushes(a) + Pushes(b)
    decreases |a|
  {
    if a == [] {
      assert a + b == b;
    } else {
      var pos' := pos + if a[0].EnforceSnaplen? then 0 else 1;
      TypedAppend(params, pos', a[1..], b);
      assert (a + b)[0] == a[0] && (a + b)[1..] == a[1..] + b;
    }
  }

  // A filler that fits the table from pos on, and pushes n entries if it succeeds.
  predicate Suits(params: seq<ParamInfo>, pos: nat, f: Filler, n: nat) {
    Typed(params, pos, f.ops) && (f.last == Success ==> Pushes(f.ops) == n)
  }

  lemma SuitsThen(params: seq<ParamInfo>, pos: nat, f: Filler, m: nat, rest: Filler, n: nat)
    requires Suits(params, pos, f, m) && Suits(params, pos + m, rest, n)
    ensures Suits(params, pos, Then(f, rest), m + n)
  {
    if f.last == Success {
      TypedAppend(params, pos, f.ops, rest.ops);
    }
  }

  lemma PushWordSuits(params: seq<ParamInfo>, pos: nat, w: nat)
    requires w < TWO64 && pos < |params| && params[pos].Plain? && KindOf(params[pos].ty).Num?
    ensures Suits(params, pos, PushWord(w), 1)
  {
    assert PushWord(w).ops[1..] == [];
  }

  lemma {:induction false} SizeSuits(params: seq<ParamInfo>, pos: nat, page: nat, vec: Vector,
                                     snaplen: nat)
    requires snaplen < TWO32 && pos < |params| && params[pos] == Plain(UInt32)
    ensures Suits(params, pos, SizeOrZero(page, vec, snaplen), 1)
  {
    RecoveredPushesOne(page, vec, snaplen, Flags(true, false, true), ZERO_SIZE);
    var size := SizeOrZero(page, vec, snaplen).ops;
    assert |size| > 0 ==> size[1..] == [];
  }

  lemma {:induction false} DataSuits(params: seq<ParamInfo>, pos: nat, page: nat, vec: Vector,
                                     snaplen: nat)
    requires snaplen < TWO32 && pos < |params| && params[pos] == Plain(ByteBuf)
    ensures Suits(params, pos, DataOrEmpty(page, vec, snaplen), 1)
  {
    RecoveredPushesOne(page, vec, snaplen, Flags(false, true, true), EMPTY_DATA);
    var data := DataOrEmpty(page, vec, snaplen).ops;
    if |data| == 2 {
      assert data[1..][1..] == [];
      assert Typed(params, pos, data[1..]);
    } else if |data| == 1 {
      assert data[1..] == [];
    }
  }

  // The filler fits the event's parameter table; if it succeeds it has pushed exactly one entry for
  // each parameter, whatever could not be read.
  lemma WritevComplete(page: nat, retval: nat, fd: nat, vec: Vector, snaplen: nat, pos: Option<nat>,
                       dataSize: nat, enforce: bool)
    requires retval < TWO64 && fd < TWO64 && snaplen < TWO32 && (pos.Some? ==> pos.value < TWO64)
    ensures var f, params := WritevFiller(page, retval, fd, vec, snaplen, pos), WritevParams(pos);
            && Typed(params, 0, f.ops)
            && var fill := Run(params, [], dataSize, enforce, f.ops, f.last);
               fill.Filled? ==> |fill.values| == |params|
  {
    var params, f := WritevParams(pos), WritevFiller(page, retval, fd, vec, snaplen, pos);
    WritevSuits(page, retval, fd, vec, snaplen, pos);
    if Run(params, [], dataSize, enforce, f.ops, f.last).Filled? {
      OneEntryPerPush(params, [], dataSize, enforce, f.ops, f.last);
      OnlySuccessFills(params, [], dataSize, enforce, f.ops, f.last);
    }
  }

  lemma WritevSuits(page: nat, retval: nat, fd: nat, vec: Vector, snaplen: nat, pos: Option<nat>)
    requires retval < TWO64 && fd < TWO64 && snaplen < TWO32 && (pos.Some? ==> pos.value < TWO64)
    ensures Suits(WritevParams(pos), 0, WritevFiller(page, retval, fd, vec, snaplen, pos), |WritevParams(pos)|)
  {
    var params, n := WritevParams(pos), if pos.Some? then 1 else 0;
    var data, tail := DataOrEmpty(page, vec, snaplen), WritevTail(page, fd, vec, snaplen, pos);
    PushWordSuits(params, 0, retval);
    DataSuits(params, 1, page, vec, snaplen);
    TailSuits(params, page, fd, vec, snaplen, pos);
    SuitsThen(params, 1, data, 1, tail, 2 + n);
    SuitsThen(params, 0, PushWord(retval), 1, Then(data, tail), 3 + n);
  }

  lemma TailSuits(params: seq<ParamInfo>, page: nat, fd: nat, vec: Vector, snaplen: nat, pos: Option<nat>)
    requires fd < TWO64 && snaplen < TWO32 && (pos.Some? ==> pos.value < TWO64) && params == WritevParams(pos)
    ensures Suits(params, 2, WritevTail(page, fd, vec, snaplen, pos), 2 + if pos.Some? then 1 else 0)
  {
    var size, n := SizeOrZero(page, vec, snaplen), if pos.Some? then 1 else 0;
    PushWordSuits(params, 2, fd);
    SizeSuits(params, 3, page, vec, snaplen);
    if pos.Some? {
      PushWordSuits(params, 4, pos.value);
    }
    SuitsThen(params, 3, size, 1, PushPos(pos), n);
    SuitsThen(params, 2, PushWord(fd), 1, Then(size, PushPos(pos)), 1 + n);
  }

  lemma {:induction false} OnlySuccessFills(params: seq<ParamInfo>, values: seq<seq<byte>>, dataSize: nat,
                                            enforce: bool, ops: seq<Op>, last: Code)
    requires Typed(params, |values|, ops)
    requires Run(params, values, dataSize, enforce, ops, last).Filled?
    ensures last == Success
    decreases |ops|
  {
    if ops != [] {
      RunNext(params, values, dataSize, enforce, ops, last);
      match ops[0]
      case EnforceSnaplen => OnlySuccessFills(params, values, dataSize, true, ops[1..], last);
      case PushEmpty => OnlySuccessFills(params, values + [[]], dataSize, enforce, ops[1..], last);
      case Push(v, len, dynIdx, snaplen) =>
        var snap := if enforce then Some(snaplen) else None;
        var b := Pushed(params[|values|], v, len, dynIdx, dataSize, snap).bytes;
        OnlySuccessFills(params, values + [b], dataSize - |b|, enforce, ops[1..], last);
    }
  }
}
