/**
 Scatter/gather calls: the buffers of an I/O vector are merged into one scratch page and
 pushed as a single value, next to their total size (driver/ppm_events.c).
 */
module Scatter {
  import opened Bytes
  import opened UserMemory

  const IOV_SIZE: nat := 16

  // What can be read from each user address on.
  type Memory = nat -> seq<byte>

  // One entry of the vector: what can be read from its buffer on, and the length the caller gave.
  datatype Iov = Iov(base: seq<byte>, len: nat)

  // struct iovec: a 64-bit address and a 64-bit length.
  function IovBytes(addr: nat, len: nat): (b: seq<byte>)
    ensures |b| == IOV_SIZE
  {
    ToLE(addr, 8) + ToLE(len, 8)
  }

  // The j-th struct iovec of a vector whose bytes start a page.
  function IovAt(page: seq<byte>, j: nat, mem: Memory): Iov
    requires IOV_SIZE * (j + 1) <= |page|
  {
    var o := IOV_SIZE * j;
    Iov(mem(FromLE(page[o..o + 8])), FromLE(page[o + 8..o + IOV_SIZE]))
  }

  lemma IovReads(page: seq<byte>, j: nat, addr: nat, len: nat, mem: Memory)
    requires IOV_SIZE * (j + 1) <= |page| && addr < TWO64 && len < TWO64
    requires page[IOV_SIZE * j..IOV_SIZE * (j + 1)] == IovBytes(addr, len)
    ensures IovAt(page, j, mem) == Iov(mem(addr), len)
  {
    var o := IOV_SIZE * j;
    SplitsAs(page, o, o + 8, o + IOV_SIZE, ToLE(addr, 8), ToLE(len, 8));
    Pow256Values();
    LoadStoreExact(addr, 8);
    LoadStoreExact(len, 8);
  }

  // The first n entries.
  function Iovs(page: seq<byte>, n: nat, mem: Memory): (iovs: seq<Iov>)
    requires IOV_SIZE * n <= |page|
    ensures |iovs| == n
  {
    if n == 0 then [] else Iovs(page, n - 1, mem) + [IovAt(page, n - 1, mem)]
  }

  lemma {:induction false} IovsAt(page: seq<byte>, n: nat, j: nat, mem: Memory)
    requires IOV_SIZE * n <= |page| && j < n
    ensures Iovs(page, n, mem)[j] == IovAt(page, j, mem)
  {
    if j < n - 1 {
      IovsAt(page, n - 1, j, mem);
    }
  }

  // The vector depends on its own bytes only.
  lemma {:induction false} SameIovs(s: seq<byte>, t: seq<byte>, at: nat, n: nat, mem: Memory)
    requires IOV_SIZE * n <= at <= |s| && at <= |t| && s[..at] == t[..at]
    ensures Iovs(s, n, mem) == Iovs(t, n, mem)
  {
    if n > 0 {
      SameIovs(s, t, at, n - 1, mem);
      var o := IOV_SIZE * (n - 1);
      SliceOfSlice(s, 0, at, o, o + 8);
      SliceOfSlice(t, 0, at, o, o + 8);
      SliceOfSlice(s, 0, at, o + 8, o + IOV_SIZE);
      SliceOfSlice(t, 0, at, o + 8, o + IOV_SIZE);
      assert s[0..at] == s[..at] && t[0..at] == t[..at];
    }
  }

  function Sum(iovs: seq<Iov>): nat {
    if iovs == [] then 0 else iovs[0].len + Sum(iovs[1..])
  }

  // Which flags a caller of the parser passes.
  datatype Flags = Flags(size: bool, data: bool, write: bool)

  // How much of the buffers is wanted at most: what the call returned, for a read, and what
  // leaves one byte of the scratch space free.
  function Room(space: nat, retval: nat, write: bool): nat
    requires space > 0
  {
    if write then space - 1 else Min(retval, space - 1)
  }

  // Merging the buffers from entry j on: None is a page fault in a part that is wanted.
  function Gather(iovs: seq<Iov>, j: nat, room: nat): (r: Option<seq<byte>>)
    requires j <= |iovs|
    ensures r.Some? ==> |r.value| <= room
    decreases |iovs| - j
  {
    if j == |iovs| then Some([])
    else
      var k := Min(iovs[j].len, room);
      if k > |iovs[j].base| then None
      else if k < iovs[j].len then Some(iovs[j].base[..k])
      else Prefixed(iovs[j].base[..k], Gather(iovs, j + 1, room - k))
  }

  function Prefixed(b: seq<byte>, rest: Option<seq<byte>>): Option<seq<byte>> {
    if rest.None? then None else Some(b + rest.value)
  }

  // The reference: what can be read of each buffer, one after the other.
  function All(iovs: seq<Iov>): seq<byte> {
    if iovs == [] then []
    else iovs[0].base[..Min(iovs[0].len, |iovs[0].base|)] + All(iovs[1..])
  }

  lemma {:induction false} GatherRest(iovs: seq<Iov>, j: nat, room: nat)
    requires j <= |iovs| && Gather(iovs, j, room).Some?
    ensures Min(Sum(iovs[j..]), room) <= |All(iovs[j..])|
    ensures Gather(iovs, j, room).value == All(iovs[j..])[..Min(Sum(iovs[j..]), room)]
    decreases |iovs| - j
  {
    if j < |iovs| {
      var len, rest := iovs[j].len, iovs[j + 1..];
      var first, k := iovs[j].base[..Min(len, |iovs[j].base|)], Min(len, room);
      assert iovs[j..][0] == iovs[j] && iovs[j..][1..] == rest;
      if k == len {
        GatherRest(iovs, j + 1, room - k);
        assert (first + All(rest))[..Min(Sum(iovs[j..]), room)] == first + All(rest)[..Min(Sum(rest), room - k)];
      } else {
        assert (first + All(rest))[..k] == iovs[j].base[..k];
      }
    }
  }

  // Whenever merging succeeds, the bytes are the prefix of the concatenated buffers that is wanted,
  // also where a buffer cannot be read beyond that.
  lemma GatherIsPrefix(iovs: seq<Iov>, room: nat)
    requires Gather(iovs, 0, room).Some?
    ensures Min(Sum(iovs), room) <= |All(iovs)|
    ensures Gather(iovs, 0, room).value == All(iovs)[..Min(Sum(iovs), room)]
  {
    GatherRest(iovs, 0, room);
    assert iovs[0..] == iovs;
  }

  // Entry i is wanted beyond what can be read of it, when entry j is the next to be merged.
  predicate Faults(iovs: seq<Iov>, j: nat, room: nat, i: nat) {
    && j <= i < |iovs| && Sum(iovs[j..i]) <= room
    && Min(iovs[i].len, room - Sum(iovs[j..i])) > |iovs[i].base|
  }

  // Merging fails exactly when some entry cannot be read as far as it is wanted.
  lemma {:induction false} GatherFailsIff(iovs: seq<Iov>, j: nat, room: nat)
    requires j <= |iovs|
    ensures Gather(iovs, j, room) == None <==> exists i: nat :: Faults(iovs, j, room, i)
    decreases |iovs| - j
  {
    if j < |iovs| {
      var k := Min(iovs[j].len, room);
      assert iovs[j..j] == [];
      if k > |iovs[j].base| {
        assert Faults(iovs, j, room, j);
      } else {
        var j', left := j + 1, room - k;
        GatherFailsIff(iovs, j', left);
        forall i: nat | j < i < |iovs|
          ensures Faults(iovs, j, room, i) <==> k == iovs[j].len && Faults(iovs, j', left, i)
        {
          assert iovs[j..i][1..] == iovs[j'..i];
          assert Sum(iovs[j..i]) == iovs[j].len + Sum(iovs[j'..i]);
        }
        if i: nat :| Faults(iovs, j', left, i) {
          assert k == iovs[j].len ==> Faults(iovs, j, room, i);
        }
      }
    }
  }

  // The size a call reports, in 64-bit unsigned arithmetic: a negative result is a huge one.
  function ReportedSize(sum: nat, retval: int, write: bool): (size: nat)
    requires -(TWO64 / 2) <= retval < TWO64 / 2
    ensures size < TWO64
  {
    var total := sum % TWO64;
    if write then total else Min(total, retval % TWO64)
  }

  // A read reports the smaller of the vector's size and the result, and never less than it delivers.
  lemma ReadSizeBoundsData(iovs: seq<Iov>, space: nat, retval: int)
    requires Sum(iovs) < TWO64 && 0 < retval < TWO64 / 2 && space > 0
    requires Gather(iovs, 0, Room(space, retval, false)).Some?
    ensures ReportedSize(Sum(iovs), retval, false) == Min(Sum(iovs), retval)
    ensures |Gather(iovs, 0, Room(space, retval, false)).value| <= ReportedSize(Sum(iovs), retval, false)
  {
    GatherIsPrefix(iovs, Room(space, retval, false));
    InWord(Sum(iovs));
    InWord(retval);
  }

  // The sum of the lengths in the vector at the start of the page.
  method TotalLen(storage: array<byte>, n: nat, mem: Memory, ghost iovs: seq<Iov>) returns (size: nat)
    requires IOV_SIZE * n <= storage.Length && iovs == Iovs(storage[..], n, mem)
    ensures size == Sum(iovs) % TWO64
  {
    size := 0;
    for j := 0 to n
      invariant size < TWO64
      invariant (size + Sum(iovs[j..])) % TWO64 == Sum(iovs) % TWO64
    {
      assert iovs[j..][1..] == iovs[j + 1..];
      IovsAt(storage[..], n, j, mem);
      var iov := IovAt(storage[..], j, mem);
      SumStep(size, iov.len, Sum(iovs[j + 1..]));
      size := (size + iov.len) % TWO64;
    }
  }

  lemma SumStep(size: nat, len: nat, rest: nat)
    ensures ((size + len) % TWO64 + rest) % TWO64 == (size + (len + rest)) % TWO64
  {
  }

  lemma MergeStart(iovs: seq<Iov>, room: nat, b: seq<byte>)
    requires |b| == 0
    ensures Gather(iovs, 0, room) == Prefixed(b, Gather(iovs, 0, room))
  {
    var all := Gather(iovs, 0, room);
    if all.Some? {
      assert b + all.value == all.value;
    }
  }

  lemma {:induction false} GatherNoRoom(iovs: seq<Iov>, j: nat)
    requires j <= |iovs|
    ensures Gather(iovs, j, 0) == Some([])
    decreases |iovs| - j
  {
    if j < |iovs| && iovs[j].len == 0 {
      GatherNoRoom(iovs, j + 1);
    }
  }

  // Copies k bytes of an entry behind the n bytes merged so far.
  method CopyEntry(storage: array<byte>, at: nat, n: nat, src: seq<byte>, k: nat) returns (ok: bool)
    requires at + n + k <= storage.Length
    modifies storage
    ensures Framed(old(storage[..]), storage[..], at, storage.Length - at)
    ensures ok <==> k <= |src|
    ensures ok ==> storage[..][at..at + n + k] == old(storage[..])[at..at + n] + src[..k]
  {
    ghost var was := storage[..];
    var rest := CopyFromUser(storage, at + n, src, 0, k);
    Appended(was, storage[..], at, n, k);
    ok := rest == 0;
    assert ok ==> src[0..k] == src[..k];
  }

  lemma Appended(s: seq<byte>, t: seq<byte>, at: nat, n: nat, k: nat)
    requires at + n + k <= |s| && Framed(s, t, at + n, k)
    ensures Framed(s, t, at, |s| - at) && t[at..at + n + k] == s[at..at + n] + t[at + n..at + n + k]
  {
  }

  // One entry: what it adds to the bytes b merged so far, and what is left to merge.
  lemma MergeStep(iovs: seq<Iov>, j: nat, room: nat, b: seq<byte>, k: nat)
    requires j < |iovs| && k == Min(iovs[j].len, room)
    ensures Prefixed(b, Gather(iovs, j, room)) ==
            if k > |iovs[j].base| then None
            else if k < iovs[j].len then Some(b + iovs[j].base[..k])
            else Prefixed(b + iovs[j].base[..k], Gather(iovs, j + 1, room - k))
  {
    if k <= |iovs[j].base| && k == iovs[j].len {
      var rest := Gather(iovs, j + 1, room - k);
      if rest.Some? {
        assert b + (iovs[j].base[..k] + rest.value) == b + iovs[j].base[..k] + rest.value;
      }
    }
  }

  lemma MergeEnd(iovs: seq<Iov>, j: nat, room: nat, b: seq<byte>)
    requires j <= |iovs| && (j == |iovs| || room == 0)
    ensures Prefixed(b, Gather(iovs, j, room)) == Some(b)
  {
    if j < |iovs| {
      GatherNoRoom(iovs, j);
    }
    assert b + [] == b;
  }

  // One iteration: as much of entry j as is wanted and as there is room for. n' bytes are merged
  // then, and last tells that no more are wanted.
  method MergeEntry(storage: array<byte>, at: nat, iov: Iov, n: nat, left: nat, ghost iovs: seq<Iov>, ghost j: nat,
                    ghost was: seq<byte>, ghost all: Option<seq<byte>>) returns (ok: bool, n': nat, last: bool)
    requires j < |iovs| && iov == iovs[j] && at + n + left <= storage.Length
    requires all == Prefixed(storage[..][at..at + n], Gather(iovs, j, left))
    requires at <= |was| && Framed(was, storage[..], at, |was| - at)
    modifies storage
    ensures Framed(was, storage[..], at, |was| - at)
    ensures !ok ==> all == None
    ensures ok ==> n <= n' <= n + left && at + n' <= storage.Length
    ensures ok ==> all == if last then Some(storage[..][at..at + n'])
                          else Prefixed(storage[..][at..at + n'], Gather(iovs, j + 1, n + left - n'))
  {
    ghost var before := storage[..];
    var k := if iov.len < left then iov.len else left;
    MergeStep(iovs, j, left, before[at..at + n], k);
    ok := CopyEntry(storage, at, n, iov.base, k);
    FramedTwice(was, before, storage[..], at, |was| - at);
    n', last := n + k, k != iov.len;
  }

  // The vector is read while the bytes behind it are written; neither touches the other.
  method NextIov(storage: array<byte>, at: nat, j: nat, mem: Memory, ghost iovs: seq<Iov>, ghost was: seq<byte>)
    returns (iov: Iov)
    requires at == IOV_SIZE * |iovs| <= |was| && j < |iovs| && iovs == Iovs(was, |iovs|, mem)
    requires Framed(was, storage[..], at, |was| - at)
    ensures iov == iovs[j]
  {
    SameIovs(was, storage[..], at, |iovs|, mem);
    IovsAt(storage[..], |iovs|, j, mem);
    iov := IovAt(storage[..], j, mem);
  }

  method MergeNext(storage: array<byte>, at: nat, j: nat, mem: Memory, n: nat, left: nat, ghost room: nat,
                   ghost iovs: seq<Iov>, ghost was: seq<byte>, ghost all: Option<seq<byte>>)
    returns (ok: bool, n': nat, last: bool)
    requires at == IOV_SIZE * |iovs| <= |was| && j < |iovs| && iovs == Iovs(was, |iovs|, mem)
    requires at + n + left <= storage.Length && left == room - n
    requires Merging(storage[..], was, at, n, iovs, j, room, all, true, false)
    modifies storage
    ensures Merging(storage[..], was, at, n', iovs, j + 1, room, all, ok, last)
  {
    var iov := NextIov(storage, at, j, mem, iovs, was);
    ok, n', last := MergeEntry(storage, at, iov, n, left, iovs, j, was, all);
  }

  // The merge loop, into the scratch page behind the vector of count entries.
  method Merge(storage: array<byte>, count: nat, mem: Memory, retval: nat, write: bool, ghost iovs: seq<Iov>)
    returns (ok: bool, n: nat)
    requires IOV_SIZE * count < storage.Length && retval > 0 && iovs == Iovs(storage[..], count, mem)
    modifies storage
    ensures match Gather(iovs, 0, Room(storage.Length - IOV_SIZE * count, retval, write))
            case None => !ok
            case Some(b) =>
              && ok && n == |b| && IOV_SIZE * count + n <= storage.Length
              && storage[..][IOV_SIZE * count..IOV_SIZE * count + n] == b
  {
    var at := IOV_SIZE * count;
    var space := storage.Length - at;
    ghost var was, room := storage[..], Room(space, retval, write);
    ghost var all := Gather(iovs, 0, room);
    ok, n := true, 0;
    var j, last := 0, false;
    MergeStart(iovs, room, storage[..][at..at + n]);
    while ok && !last && j < count && (write || n < retval)
      invariant 0 <= j <= count && Merging(storage[..], was, at, n, iovs, j, room, all, ok, last)
      decreases count - j, ok && !last
    {
      var left := space - n - 1;
      if !write && retval - n < left {
        left := retval - n;
      }
      ok, n, last := MergeNext(storage, at, j, mem, n, left, room, iovs, was, all);
      j := j + 1;
    }
    if ok && !last {
      MergeEnd(iovs, j, room - n, storage[..][at..at + n]);
    }
  }

  // The state of the loop before entry j: a fault, all that is wanted, or a beginning of it.
  ghost predicate Merging(s: seq<byte>, was: seq<byte>, at: nat, n: nat, iovs: seq<Iov>, j: nat, room: nat,
                          all: Option<seq<byte>>, ok: bool, last: bool) {
    && at <= |was| && Framed(was, s, at, |was| - at) && j <= |iovs|
    && if !ok then all == None
       else
         && n <= room && at + n <= |s|
         && all == if last then Some(s[at..at + n]) else Prefixed(s[at..at + n], Gather(iovs, j, room - n))
  }
}
