/**
 Collecting a process's arguments or environment: the strings behind a list of user
 pointers, one after the other in a scratch page (driver/ppm_fillers.c).

 A list is modelled by its pointers up to the first null or unreadable entry, and each
 pointer by the bytes that can be read from it on.
 */
module Argv {
  import opened Bytes
  import opened UserMemory

  // What the strings from the i-th on leave in `room` bytes: each as far as it fits, one that
  // cannot be read as nothing.
  function Accumulated(argv: seq<seq<byte>>, i: nat, room: nat): (b: seq<byte>)
    requires i <= |argv|
    ensures |b| <= room
    decreases |argv| - i
  {
    if i == |argv| || room == 0 then []
    else
      match ChunkLen(argv[i], 0, room)
      case None => Accumulated(argv, i + 1, room)
      case Some(n) => argv[i][..n] + Accumulated(argv, i + 1, room - n)
  }

  // The last byte is made a terminator.
  function Closed(b: seq<byte>): seq<byte> {
    if b == [] then [] else b[..|b| - 1] + [0]
  }

  method Accumulate(argv: seq<seq<byte>>, storage: array<byte>) returns (len: nat)
    requires storage.Length > 0
    modifies storage
    ensures len <= storage.Length && storage[..][..len] == Closed(Accumulated(argv, 0, storage.Length))
    ensures len == 0 ==> storage[0] == 0
  {
    len := Collect(argv, storage);
    Close(storage, len);
  }

  // The loop over the pointers.
  method Collect(argv: seq<seq<byte>>, storage: array<byte>) returns (len: nat)
    modifies storage
    ensures len <= storage.Length && storage[..][..len] == Accumulated(argv, 0, storage.Length)
  {
    len := 0;
    var i := 0;
    ghost var all := Accumulated(argv, 0, storage.Length);
    assert storage[..][..0] + all == all;
    while i < |argv| && len < storage.Length
      invariant 0 <= i <= |argv| && len <= storage.Length
      invariant all == storage[..][..len] + Accumulated(argv, i, storage.Length - len)
    {
      var n := Append(storage, len, argv, i, all);
      len := len + n;
      i := i + 1;
    }
    NothingLeft(argv, i, storage.Length - len, storage[..][..len]);
  }

  lemma NothingLeft(argv: seq<seq<byte>>, i: nat, room: nat, b: seq<byte>)
    requires i <= |argv| && (i == |argv| || room == 0)
    ensures b + Accumulated(argv, i, room) == b
  {
  }

  // The forced terminator.
  method Close(storage: array<byte>, len: nat)
    requires 0 < storage.Length && len <= storage.Length
    modifies storage
    ensures storage[..][..len] == Closed(old(storage[..])[..len])
    ensures len == 0 ==> storage[0] == 0
  {
    if len > 0 {
      ghost var s := storage[..];
      storage[len - 1] := 0;
      assert storage[..] == s[len - 1 := 0];
      assert storage[..][..len] == s[..len - 1] + [0] && s[..len][..len - 1] == s[..len - 1];
    } else {
      storage[0] := 0;
    }
  }

  // One string, behind the len bytes that are there: returns how many bytes it adds.
  method Append(storage: array<byte>, len: nat, argv: seq<seq<byte>>, i: nat, ghost all: seq<byte>) returns (n: nat)
    requires i < |argv| && len < storage.Length
    requires all == storage[..][..len] + Accumulated(argv, i, storage.Length - len)
    modifies storage
    ensures len + n <= storage.Length
    ensures all == storage[..][..len + n] + Accumulated(argv, i + 1, storage.Length - len - n)
  {
    ghost var s := storage[..];
    ghost var room := storage.Length - len;
    var ret := StrncpyFromUser(storage, len, argv[i], storage.Length - len);
    n := if ret < 0 then 0 else ret;
    Behind(s, storage[..], len, n);
    AccumulatedStep(argv, i, room, s[..len]);
  }

  lemma Behind(s: seq<byte>, t: seq<byte>, len: nat, n: nat)
    requires len + n <= |s| && Framed(s, t, len, |s| - len)
    ensures t[..len] == s[..len] && t[..len + n] == s[..len] + t[len..len + n]
  {
  }

  lemma AccumulatedStep(argv: seq<seq<byte>>, i: nat, room: nat, b: seq<byte>)
    requires i < |argv| && room > 0
    ensures match ChunkLen(argv[i], 0, room)
            case None => b + Accumulated(argv, i, room) == b + Accumulated(argv, i + 1, room)
            case Some(n) =>
              b + Accumulated(argv, i, room) == b + argv[i][..n] + Accumulated(argv, i + 1, room - n)
  {
  }

  // --------------------------------------------------------------------------------------
  // What that is
  // --------------------------------------------------------------------------------------

  // A byte-by-byte copy of the string at s into n bytes yields len bytes, and every chunk of four
  // bytes it touches can be read.
  predicate Copied(s: seq<byte>, n: nat, len: nat) {
    IsStrLen(s, n, len) && Touched(len, n) <= |s|
  }

  // What such a copy yields, if it can be made.
  ghost function Copy(s: seq<byte>, n: nat): (b: seq<byte>)
    ensures |b| <= n
  {
    if exists len: nat :: Copied(s, n, len) then
      var len: nat :| Copied(s, n, len);
      s[..len]
    else []
  }

  // The reference: the strings from the i-th on, one behind the other, each copied byte by byte into
  // the room that is left.
  ghost function Reference(argv: seq<seq<byte>>, i: nat, room: nat): seq<byte>
    requires i <= |argv|
    decreases |argv| - i
  {
    if i == |argv| || room == 0 then []
    else
      var b := Copy(argv[i], room);
      b + Reference(argv, i + 1, room - |b|)
  }

  lemma CopyIs(s: seq<byte>, n: nat)
    ensures match ChunkLen(s, 0, n)
            case None => Copy(s, n) == []
            case Some(len) => Copy(s, n) == s[..len]
  {
    forall len: nat
      ensures Copied(s, n, len) <==> ChunkLen(s, 0, n) == Some(len)
    {
      ChunkedCopyExact(s, n, len);
    }
  }

  lemma ReferenceStep(argv: seq<seq<byte>>, i: nat, room: nat)
    requires i < |argv| && room > 0
    ensures match ChunkLen(argv[i], 0, room)
            case None => Reference(argv, i, room) == Reference(argv, i + 1, room)
            case Some(n) => Reference(argv, i, room) == argv[i][..n] + Reference(argv, i + 1, room - n)
  {
    CopyIs(argv[i], room);
    assert Reference(argv, i, room) == Copy(argv[i], room) + Reference(argv, i + 1, room - |Copy(argv[i], room)|);
  }

  // For every list of pointers the storage holds the reference.
  lemma {:induction false} AccumulatedIsReference(argv: seq<seq<byte>>, i: nat, room: nat)
    requires i <= |argv|
    ensures Accumulated(argv, i, room) == Reference(argv, i, room)
    decreases |argv| - i
  {
    if i < |argv| && room > 0 {
      ReferenceStep(argv, i, room);
      match ChunkLen(argv[i], 0, room)
      case None => AccumulatedIsReference(argv, i + 1, room);
      case Some(n) => AccumulatedIsReference(argv, i + 1, room - n);
    }
  }

  // A string whose terminator, and the chunk around it, can be read; z is its length.
  predicate Readable(s: seq<byte>, z: nat) {
    z < |s| && s[z] == 0 && (forall i :: 0 <= i < z ==> s[i] != 0) && (z / 4 + 1) * 4 <= |s|
  }

  // A string that cannot be copied into n bytes.
  ghost predicate Broken(s: seq<byte>, n: nat) {
    forall len: nat :: !Copied(s, n, len)
  }

  // From the i-th on, each entry is a readable string, or one that cannot be read in the room left
  // for it.
  ghost predicate Clean(argv: seq<seq<byte>>, i: nat, room: nat)
    requires i <= |argv|
    decreases |argv| - i
  {
    i == |argv| || room == 0 ||
    if exists z: nat :: Readable(argv[i], z) then
      var z: nat :| Readable(argv[i], z);
      Clean(argv, i + 1, room - Min(room, z + 1))
    else Broken(argv[i], room) && Clean(argv, i + 1, room)
  }

  // The reference: the readable strings from the i-th on with their terminators, in order.
  ghost function Text(argv: seq<seq<byte>>, i: nat): seq<byte>
    requires i <= |argv|
    decreases |argv| - i
  {
    if i == |argv| then []
    else if exists z: nat :: Readable(argv[i], z) then
      var z: nat :| Readable(argv[i], z);
      argv[i][..z + 1] + Text(argv, i + 1)
    else Text(argv, i + 1)
  }

  // A readable string is copied whole, or as far as there is room.
  lemma ReadableCopied(s: seq<byte>, z: nat, n: nat)
    requires Readable(s, z) && n > 0
    ensures ChunkLen(s, 0, n) == Some(Min(n, z + 1))
  {
    var len := Min(n, z + 1);
    assert IsStrLen(s, n, len);
    assert Touched(len, n) <= |s| by {
      assert (len + 3) / 4 <= z / 4 + 1;
    }
    ChunkedCopyExact(s, n, len);
  }

  lemma BrokenSkipped(s: seq<byte>, n: nat)
    requires Broken(s, n)
    ensures ChunkLen(s, 0, n) == None
  {
    forall len: nat
      ensures ChunkLen(s, 0, n) != Some(len)
    {
      ChunkedCopyExact(s, n, len);
      assert !Copied(s, n, len);
    }
  }

  // A string has only one length.
  lemma ReadableUnique(s: seq<byte>, z: nat)
    requires Readable(s, z)
    ensures forall y: nat :: Readable(s, y) ==> y == z
  {
  }

  lemma CutTwo(s: seq<byte>, t: seq<byte>, room: nat)
    ensures var n := Min(room, |s|);
            (s + t)[..Min(|s + t|, room)] == s[..n] + t[..Min(|t|, room - n)]
  {
  }

  // Strings that cannot be read contribute nothing; the others are concatenated and cut to the room.
  lemma {:induction false} AccumulatedIs(argv: seq<seq<byte>>, i: nat, room: nat)
    requires i <= |argv| && Clean(argv, i, room)
    ensures Accumulated(argv, i, room) == Text(argv, i)[..Min(|Text(argv, i)|, room)]
    decreases |argv| - i
  {
    if i < |argv| && room > 0 {
      if z: nat :| Readable(argv[i], z) {
        ReadableUnique(argv[i], z);
        var n, s := Min(room, z + 1), argv[i][..z + 1];
        ReadableCopied(argv[i], z, room);
        AccumulatedIs(argv, i + 1, room - n);
        CutTwo(s, Text(argv, i + 1), room);
        assert argv[i][..n] == s[..n];
      } else {
        BrokenSkipped(argv[i], room);
        AccumulatedIs(argv, i + 1, room);
      }
    }
  }

  // Unless it was cut, the last byte was a terminator already.
  lemma {:induction false} TextTerminated(argv: seq<seq<byte>>, i: nat)
    requires i <= |argv|
    ensures Text(argv, i) == Closed(Text(argv, i))
    decreases |argv| - i
  {
    if i < |argv| {
      TextTerminated(argv, i + 1);
      if z: nat :| Readable(argv[i], z) {
        ReadableUnique(argv[i], z);
        var s, rest := argv[i][..z + 1], Text(argv, i + 1);
        if rest == [] {
          assert s + rest == s;
        } else {
          assert (s + rest)[..|s + rest| - 1] == s + rest[..|rest| - 1];
        }
      }
    }
  }

  // What the storage holds at the end: the readable strings, cut to the page, the last byte a
  // terminator; where nothing was cut, exactly the strings.
  lemma StorageIs(argv: seq<seq<byte>>, page: nat)
    requires Clean(argv, 0, page)
    ensures var text := Text(argv, 0);
            && Closed(Accumulated(argv, 0, page)) == Closed(text[..Min(|text|, page)])
            && (|text| <= page ==> Closed(Accumulated(argv, 0, page)) == text)
  {
    AccumulatedIs(argv, 0, page);
    TextTerminated(argv, 0);
    var text := Text(argv, 0);
    assert text[..|text|] == text;
  }
}
