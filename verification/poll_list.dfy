/**
 The list of descriptors of a poll call: read into a scratch page, serialized behind itself
 in the same page, and decoded again (driver/ppm_fillers.c, driver/ppm_events_public.h).
 */
module PollList {
  import opened Bytes
  import opened Params
  import opened UserMemory
  import opened Payload
  import opened Serializer

  const POLLFD_SIZE: nat := 8
  const ENTRY_SIZE: nat := 10

  // A descriptor as the list carries it: sign-extended to 64 bits, and 16 bits of flags.
  datatype Entry = Entry(fd: int, flags: nat)

  predicate ValidEntry(e: Entry) {
    -(TWO64 / 2) <= e.fd < TWO64 / 2 && e.flags < TWO16
  }

  // A stored word of the given size, read as a two's complement number.
  function Signed(w: nat, size: nat): int
    requires w < size
  {
    if w < size / 2 then w else w - size
  }

  // The list: a 16-bit count, then the entries.
  function EntryBytes(e: Entry): (b: seq<byte>)
    ensures |b| == ENTRY_SIZE
  {
    ToLE(e.fd % TWO64, 8) + ToLE(e.flags, 2)
  }

  function EntriesBytes(list: seq<Entry>): (b: seq<byte>)
    ensures |b| == ENTRY_SIZE * |list|
  {
    if list == [] then [] else EntryBytes(list[0]) + EntriesBytes(list[1..])
  }

  function ListBytes(list: seq<Entry>): seq<byte> {
    ToLE(|list|, 2) + EntriesBytes(list)
  }

  function DecodeEntry(b: seq<byte>): Entry
    requires |b| == ENTRY_SIZE
  {
    StoreLoad(b[..8]);
    Pow256Values();
    Entry(Signed(FromLE(b[..8]), TWO64), FromLE(b[8..]))
  }

  function DecodeEntries(b: seq<byte>): seq<Entry>
    requires |b| % ENTRY_SIZE == 0
  {
    if b == [] then [] else [DecodeEntry(b[..ENTRY_SIZE])] + DecodeEntries(b[ENTRY_SIZE..])
  }

  // None when the count and the length disagree.
  function DecodeList(b: seq<byte>): Option<seq<Entry>> {
    if |b| < 2 || |b| - 2 != ENTRY_SIZE * FromLE(b[..2]) then None else Some(DecodeEntries(b[2..]))
  }

  lemma EntryRoundTrip(e: Entry)
    requires ValidEntry(e)
    ensures DecodeEntry(EntryBytes(e)) == e
  {
    var w := e.fd % TWO64;
    var b := EntryBytes(e);
    Pow256Values();
    LoadStoreExact(w, 8);
    LoadStoreExact(e.flags, 2);
    assert b[..8] == ToLE(w, 8) && b[8..] == ToLE(e.flags, 2);
  }

  lemma {:induction false} EntriesRoundTrip(list: seq<Entry>)
    requires forall i :: 0 <= i < |list| ==> ValidEntry(list[i])
    ensures DecodeEntries(EntriesBytes(list)) == list
  {
    if list != [] {
      EntryRoundTrip(list[0]);
      EntriesRoundTrip(list[1..]);
      var b := EntriesBytes(list);
      assert b[..ENTRY_SIZE] == EntryBytes(list[0]) && b[ENTRY_SIZE..] == EntriesBytes(list[1..]);
      assert b != [];
    }
  }

  // Decoding a serialized list gives its descriptors and flags back, in order.
  lemma ListRoundTrip(list: seq<Entry>)
    requires |list| < TWO16 && forall i :: 0 <= i < |list| ==> ValidEntry(list[i])
    ensures DecodeList(ListBytes(list)) == Some(list)
  {
    var b := ListBytes(list);
    Pow256Values();
    LoadStoreExact(|list|, 2);
    assert b[..2] == ToLE(|list|, 2) && b[2..] == EntriesBytes(list);
    EntriesRoundTrip(list);
  }

  // The j-th struct pollfd at src; convert is the driver's translation of poll flags.
  function PollFd(src: seq<byte>, j: nat, enter: bool, convert: nat -> nat): (e: Entry)
    requires POLLFD_SIZE * (j + 1) <= |src|
    ensures ValidEntry(e)
  {
    var o := POLLFD_SIZE * j;
    StoreLoad(src[o..o + 4]);
    Pow256Values();
    var events := if enter then FromLE(src[o + 4..o + 6]) else FromLE(src[o + 6..o + 8]);
    Entry(Signed(FromLE(src[o..o + 4]), TWO32), convert(events) % TWO16)
  }

  // struct pollfd: a 32-bit descriptor, the events asked for and the events returned.
  function PollFdBytes(fd: int, events: nat, revents: nat): (b: seq<byte>)
    ensures |b| == POLLFD_SIZE
  {
    ToLE(fd % TWO32, 4) + ToLE(events, 2) + ToLE(revents, 2)
  }

  // The entry of a struct pollfd carries its descriptor, and the flags of the events asked for on
  // entry, of those returned on exit.
  lemma PollFdReads(src: seq<byte>, j: nat, fd: int, events: nat, revents: nat, enter: bool, convert: nat -> nat)
    requires POLLFD_SIZE * (j + 1) <= |src|
    requires src[POLLFD_SIZE * j..POLLFD_SIZE * (j + 1)] == PollFdBytes(fd, events, revents)
    requires -(TWO32 / 2) <= fd < TWO32 / 2 && events < TWO16 && revents < TWO16
    ensures PollFd(src, j, enter, convert) == Entry(fd, convert(if enter then events else revents) % TWO16)
  {
    var o := POLLFD_SIZE * j;
    FieldsAt(src, o, ToLE(fd % TWO32, 4), ToLE(events, 2), ToLE(revents, 2));
    Pow256Values();
    LoadStoreExact(fd % TWO32, 4);
    LoadStoreExact(events, 2);
    LoadStoreExact(revents, 2);
  }

  lemma FieldsAt(src: seq<byte>, o: nat, a: seq<byte>, b: seq<byte>, c: seq<byte>)
    requires |a| == 4 && |b| == 2 && |c| == 2 && o + 8 <= |src| && src[o..o + 8] == a + b + c
    ensures src[o..o + 4] == a && src[o + 4..o + 6] == b && src[o + 6..o + 8] == c
  {
    SplitsAs(src, o, o + 6, o + 8, a + b, c);
    SplitsAs(src, o, o + 4, o + 6, a, b);
  }

  function PollFds(src: seq<byte>, n: nat, enter: bool, convert: nat -> nat): (list: seq<Entry>)
    requires POLLFD_SIZE * n <= |src|
    ensures |list| == n && forall j :: 0 <= j < n ==> list[j] == PollFd(src, j, enter, convert)
  {
    if n == 0 then [] else PollFds(src, n - 1, enter, convert) + [PollFd(src, n - 1, enter, convert)]
  }

  lemma EntriesCons(list: seq<Entry>, e: Entry, rest: seq<Entry>)
    requires list == [e] + rest
    ensures EntriesBytes(list) == EntryBytes(e) + EntriesBytes(rest)
  {
  }

  lemma Regroup(a: seq<byte>, b: seq<byte>, c: seq<byte>)
    ensures a + b + c == a + (b + c)
  {
  }

  lemma NothingBehind(a: seq<byte>, b: seq<byte>)
    requires |b| == 0
    ensures a + b == a && b + a == a
  {
  }

  lemma {:induction false} EntriesSnoc(list: seq<Entry>, e: Entry)
    ensures EntriesBytes(list + [e]) == EntriesBytes(list) + EntryBytes(e)
  {
    if list == [] {
      EntriesCons(list + [e], e, list);
      NothingBehind(EntryBytes(e), EntriesBytes(list));
    } else {
      var first, rest := list[0], list[1..];
      EntriesSnoc(rest, e);
      EntriesCons(list, first, rest);
      EntriesCons(list + [e], first, rest + [e]);
      Regroup(EntryBytes(first), EntriesBytes(rest), EntryBytes(e));
    }
  }

  // Writes one entry.
  method PutEntry(storage: array<byte>, at: nat, e: Entry)
    requires at + ENTRY_SIZE <= storage.Length && ValidEntry(e)
    modifies storage
    ensures Framed(old(storage[..]), storage[..], at, ENTRY_SIZE)
    ensures storage[..][at..at + ENTRY_SIZE] == EntryBytes(e)
  {
    ghost var s := storage[..];
    Store(storage, at, e.fd % TWO64, 8);
    ghost var m := storage[..];
    Store(storage, at + 8, e.flags, 2);
    TwoWrites(s, m, storage[..], at, 8, 2);
    Joined(storage[..], at, at + 8, at + ENTRY_SIZE, ToLE(e.fd % TWO64, 8), ToLE(e.flags, 2));
  }

  // Two adjacent writes.
  lemma TwoWrites(s: seq<byte>, m: seq<byte>, t: seq<byte>, at: nat, n: nat, k: nat)
    requires Framed(s, m, at, n) && Framed(m, t, at + n, k)
    ensures Framed(s, t, at, n + k) && t[at..at + n] == m[at..at + n]
  {
  }

  // Whether the array of count structures and the list made of it fit a page together.
  predicate FitPage(count: nat, page: nat) {
    POLLFD_SIZE * count + 2 + ENTRY_SIZE * count <= page
  }

  // The test the filler makes for that, in 64-bit arithmetic.
  predicate Checked(count: nat, page: nat) {
    (POLLFD_SIZE * count + 2 + ENTRY_SIZE * count) % TWO64 <= page
  }

  // Whether the sum does not wrap, or wraps to something that is refused all the same.
  predicate Telling(count: nat, page: nat) {
    var size := POLLFD_SIZE * count + 2 + ENTRY_SIZE * count;
    size < TWO64 || size % TWO64 > page
  }

  // Passing the test means that there is space exactly for these counts, and where the sum does not
  // wrap the test is exact.
  lemma CheckedFitsIff(count: nat, page: nat)
    requires page < TWO64
    ensures (Checked(count, page) ==> FitPage(count, page)) <==> Telling(count, page)
    ensures POLLFD_SIZE * count + 2 + ENTRY_SIZE * count < TWO64 ==> (Checked(count, page) <==> FitPage(count, page))
  {
    var size := POLLFD_SIZE * count + 2 + ENTRY_SIZE * count;
    if size < TWO64 {
      InWord(size);
    }
  }

  // A count for which it passes and there is none: 2^63 structures, whose sizes add up to 0 in 64 bits.
  lemma CheckCanWrap()
    ensures Checked(TWO64 / 2, 4096) && !FitPage(TWO64 / 2, 4096)
  {
    DivModUnique(POLLFD_SIZE * (TWO64 / 2) + 2 + ENTRY_SIZE * (TWO64 / 2), TWO64, 9, 2);
  }

  // The entries a call with count structures at src yields: none where they cannot be read.
  function Polled(src: seq<byte>, count: nat, enter: bool, convert: nat -> nat): (list: seq<Entry>)
    ensures |list| <= count && forall i :: 0 <= i < |list| ==> ValidEntry(list[i])
  {
    if POLLFD_SIZE * count <= |src| then PollFds(src, count, enter, convert) else []
  }

  // One entry per structure, in order; none at all where one of them cannot be read.
  lemma PolledIs(src: seq<byte>, count: nat, enter: bool, convert: nat -> nat)
    ensures var list := Polled(src, count, enter, convert);
            if POLLFD_SIZE * count > |src| then list == []
            else |list| == count && forall j :: 0 <= j < count ==> list[j] == PollFd(src, j, enter, convert)
  {
  }

  // Reads the array and leaves the list behind it, at `at`.
  method Serialize(storage: array<byte>, src: seq<byte>, count: nat, enter: bool, convert: nat -> nat)
    returns (at: nat, len: nat)
    requires FitPage(count, storage.Length)
    modifies storage
    ensures at + len <= storage.Length
    ensures storage[..][at..at + len] == ListBytes(Polled(src, count, enter, convert))
  {
    var n := count;
    var left := CopyFromUser(storage, 0, src, 0, POLLFD_SIZE * count);
    if left != 0 {
      n := 0;
    }
    at := POLLFD_SIZE * n;
    assert storage[..][..at] == src[..at];
    FillList(storage, at, src, n, enter, convert);
    len := 2 + ENTRY_SIZE * n;
    assert n == 0 ==> PollFds(src, 0, enter, convert) == [];
  }

  // poll_parse_fds: pushes the list as the next parameter, or fails for want of space in the page or
  // in the event.
  method PollParseFds(args: FillerArgs, storage: array<byte>, src: seq<byte>, count: nat, enter: bool,
                      convert: nat -> nat) returns (res: Code)
    requires args.Valid() && storage != args.buffer && storage.Length <= 0x10_0000 && Telling(count, storage.Length)
    requires args.curarg < |args.params| ==> args.params[args.curarg] == Plain(FdList)
    modifies args, args.buffer, storage
    ensures args.Bounds() && Framed(old(args.buffer[..]), args.buffer[..], args.base, args.bufferSize)
    ensures var b := ListBytes(Polled(src, count, enter, convert));
            && (res == Success <==> FitPage(count, storage.Length) && old(args.curarg) < |args.params| &&
                                    |b| < Min(old(args.dataSize), MAX_ARG_SIZE))
            && (res == Success ==> args.Valid() && args.pushed == old(args.pushed) + [b])
            && (res != Success ==> args.pushed == old(args.pushed) && (res == BufferFull || res == Bug))
    ensures res == Success ==>
              DecodeList(args.pushed[|args.pushed| - 1]) == Some(Polled(src, count, enter, convert))
  {
    CheckedFitsIff(count, storage.Length);
    if (POLLFD_SIZE * count + 2 + ENTRY_SIZE * count) % TWO64 > storage.Length {
      return BufferFull;
    }
    var at, len := Serialize(storage, src, count, enter, convert);
    assert storage[at..at + len] == storage[..][at..at + len];
    res := PushList(args, storage[at..at + len]);
    ListRoundTrip(Polled(src, count, enter, convert));
  }

  method PushList(args: FillerArgs, b: seq<byte>) returns (res: Code)
    requires args.Valid() && b != []
    requires args.curarg < |args.params| ==> args.params[args.curarg] == Plain(FdList)
    modifies args, args.buffer
    ensures args.Bounds() && Framed(old(args.buffer[..]), args.buffer[..], args.base, args.bufferSize)
    ensures res == Success <==> old(args.curarg) < |args.params| && |b| < Min(old(args.dataSize), MAX_ARG_SIZE)
    ensures res == Success ==> args.Valid() && args.pushed == old(args.pushed) + [b]
    ensures res != Success ==> args.pushed == old(args.pushed) && (res == BufferFull || res == Bug)
  {
    res := args.ValToRing(Kernel(b), |b|, 0, 0);
    assert b[..|b|] == b;
  }

  // The input array is read and the list behind it written in turns; neither touches the other.
  method FillEntries(storage: array<byte>, at: nat, ghost src: seq<byte>, n: nat, enter: bool, convert: nat -> nat,
                     ghost list: seq<Entry>)
    requires at == POLLFD_SIZE * n && at + 2 + ENTRY_SIZE * n <= storage.Length
    requires at <= |src| && storage[..][..at] == src[..at]
    requires |list| == n && forall j :: 0 <= j < n ==> list[j] == PollFd(src, j, enter, convert)
    modifies storage
    ensures storage[..][..at] == src[..at]
    ensures storage[..][at + 2..at + 2 + ENTRY_SIZE * n] == EntriesBytes(list)
  {
    var pos, j := at + 2, 0;
    assert |storage[..][at + 2..pos]| == |EntriesBytes(list[..0])| == 0;
    while j < n
      invariant 0 <= j <= n && pos == at + 2 + ENTRY_SIZE * j
      invariant storage[..][..at] == src[..at]
      invariant storage[..][at + 2..pos] == EntriesBytes(list[..j])
    {
      var e := ReadEntry(storage, at, src, j, enter, convert);
      NextEntry(storage, at, src, j, pos, e, list);
      pos := pos + ENTRY_SIZE;
      j := j + 1;
    }
    assert list[..n] == list;
  }

  method FillList(storage: array<byte>, at: nat, ghost src: seq<byte>, n: nat, enter: bool, convert: nat -> nat)
    requires at == POLLFD_SIZE * n && at + 2 + ENTRY_SIZE * n <= storage.Length
    requires at <= |src| && storage[..][..at] == src[..at]
    modifies storage
    ensures storage[..][..at] == src[..at]
    ensures storage[..][at..at + 2 + ENTRY_SIZE * n] == ListBytes(PollFds(src, n, enter, convert))
  {
    ghost var list := PollFds(src, n, enter, convert);
    FillEntries(storage, at, src, n, enter, convert, list);
    ghost var s := storage[..];
    Store(storage, at, n, 2);
    CountWritten(s, storage[..], at, src, at + 2 + ENTRY_SIZE * n, list);
  }

  lemma CountWritten(s: seq<byte>, t: seq<byte>, at: nat, src: seq<byte>, pos: nat, list: seq<Entry>)
    requires at + 2 <= pos <= |s| && Framed(s, t, at, 2) && t[at..at + 2] == ToLE(|list|, 2)
    requires at <= |src| && s[..at] == src[..at] && s[at + 2..pos] == EntriesBytes(list)
    ensures t[..at] == src[..at] && t[at..pos] == ListBytes(list)
  {
    Kept(s, t, at, 2, at + 2, pos);
    Joined(t, at, at + 2, pos, ToLE(|list|, 2), EntriesBytes(list));
  }

  method ReadEntry(storage: array<byte>, at: nat, ghost src: seq<byte>, j: nat, enter: bool, convert: nat -> nat)
    returns (e: Entry)
    requires POLLFD_SIZE * (j + 1) <= at <= |src| && at <= storage.Length && storage[..][..at] == src[..at]
    ensures e == PollFd(src, j, enter, convert)
  {
    SameEntry(storage[..], src, at, j, enter, convert);
    e := PollFd(storage[..], j, enter, convert);
  }

  method NextEntry(storage: array<byte>, at: nat, ghost src: seq<byte>, ghost j: nat, pos: nat, e: Entry,
                   ghost list: seq<Entry>)
    requires at <= |src| && at + 2 <= pos && pos + ENTRY_SIZE <= storage.Length
    requires storage[..][..at] == src[..at] && j < |list| && list[j] == e && ValidEntry(e)
    requires storage[..][at + 2..pos] == EntriesBytes(list[..j])
    modifies storage
    ensures storage[..][..at] == src[..at]
    ensures storage[..][at + 2..pos + ENTRY_SIZE] == EntriesBytes(list[..j + 1])
  {
    ghost var s := storage[..];
    PutEntry(storage, pos, e);
    EntryAdded(s, storage[..], at, pos, EntriesBytes(list[..j]), EntryBytes(e));
    EntriesSnoc(list[..j], e);
    assert list[..j + 1] == list[..j] + [e];
  }

  lemma EntryAdded(s: seq<byte>, t: seq<byte>, at: nat, pos: nat, before: seq<byte>, b: seq<byte>)
    requires at + 2 <= pos && Framed(s, t, pos, |b|) && t[pos..pos + |b|] == b && s[at + 2..pos] == before
    ensures t[..at] == s[..at] && t[at + 2..pos + |b|] == before + b
  {
  }

  // An entry depends on the bytes of the input array only.
  lemma SameEntry(s: seq<byte>, src: seq<byte>, at: nat, j: nat, enter: bool, convert: nat -> nat)
    requires POLLFD_SIZE * (j + 1) <= at <= |src| && at <= |s| && s[..at] == src[..at]
    ensures PollFd(s, j, enter, convert) == PollFd(src, j, enter, convert)
  {
    var o := POLLFD_SIZE * j;
    forall a, b | 0 <= a <= b <= at
      ensures s[a..b] == src[a..b]
    {
      assert s[a..b] == s[..at][a..b] && src[a..b] == src[..at][a..b];
    }
  }
}
