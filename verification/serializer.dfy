/**
 The event serializer: `struct event_filler_arguments` as a cursor over the bytes behind an
 event header. A length array of 16-bit entries comes first, the data area right behind it;
 each push fills the next entry and appends to the data area.
 */
module Serializer {
  import opened Bytes
  import opened Params
  import opened UserMemory
  import opened Payload

  // Stores the low n bytes of v.
  method Store(to: array<byte>, at: nat, v: nat, n: nat)
    requires at + n <= to.Length
    modifies to
    ensures to[..][at..at + n] == ToLE(v, n)
    ensures Framed(old(to[..]), to[..], at, n)
  {
    var i, w: nat := 0, v;
    ghost var was := to[..];
    while i < n
      invariant i <= n
      invariant to[..][at..at + i] + ToLE(w, n - i) == ToLE(v, n)
      invariant Framed(was, to[..], at, n)
    {
      PutByte(was, to[..], at, n, i, w % 256);
      ghost var done := to[..][at..at + i];
      to[at + i] := w % 256;
      assert done + ([w % 256] + ToLE(w / 256, n - i - 1)) == done + [w % 256] + ToLE(w / 256, n - i - 1);
      i, w := i + 1, w / 256;
    }
    assert to[..][at..at + n] + [] == to[..][at..at + n];
  }

  // memcpy from kernel memory.
  method Copy(to: array<byte>, at: nat, src: seq<byte>, n: nat)
    requires at + n <= to.Length && n <= |src|
    modifies to
    ensures to[..][at..at + n] == src[..n]
    ensures Framed(old(to[..]), to[..], at, n)
  {
    var left := CopyFromUser(to, at, src, 0, n);
  }

  // strscpy: the length without terminator, or -E2BIG if the string does not fit.
  const E2BIG: int := 7

  method Strscpy(to: array<byte>, at: nat, src: seq<byte>, n: nat, ghost z: nat) returns (res: int)
    requires 0 < at && at + n <= to.Length && z < |src| && z == NulIn(src, 0, |src|)
    modifies to
    ensures res == if z < n then z else -E2BIG
    ensures to[..][at..at + Min(z + 1, n)] == Terminated(src, Min(z + 1, n), n)
    ensures Framed(old(to[..]), to[..], at, n)
  {
    ghost var was := to[..];
    NulInIs(src, 0, |src|, z);
    var i := 0;
    while i < n
      invariant i <= n && i <= z && to[..][at..at + i] == src[..i]
      invariant Framed(was, to[..], at, n)
    {
      PutByte(was, to[..], at, n, i, src[i]);
      to[at + i] := src[i];
      assert src[..i + 1] == src[..i] + [src[i]];
      if src[i] == 0 {
        TerminatedWhole(src, i, n);
        return i;
      }
      i := i + 1;
    }
    if n > 0 {
      TerminatedInPlace(to[..], at, n, n, src);
      PutByte(was, to[..], at, n, n - 1, 0);
      to[at + n - 1] := 0;
    }
    res := -E2BIG;
  }

  // A string that fits is not cut.
  lemma TerminatedWhole(src: seq<byte>, z: nat, n: nat)
    requires z < n && z < |src| && src[z] == 0
    ensures Terminated(src, z + 1, n) == src[..z + 1]
  {
  }

  // A terminator at the end of the space cuts the string if it fills the space.
  lemma TerminatedInPlace(t: seq<byte>, at: nat, n: nat, space: nat, src: seq<byte>)
    requires 0 < at && at + space <= |t| && n <= space && n <= |src| && t[at..at + n] == src[..n]
    ensures t[at + space - 1 := 0][at..at + n] == Terminated(src, n, space)
  {
  }

  // PT_CHARBUF, PT_FSPATH, PT_FSRELPATH with a pointer. A user string is terminated at the end of
  // the space even if the space is empty, so the byte before it may be overwritten.
  method PutStr(to: array<byte>, at: nat, space: nat, v: Val) returns (len: nat)
    requires 0 < at && at + space <= to.Length && WellTyped(Str, v, 0) && !v.Word?
    modifies to
    ensures len <= space && to[..][at..at + len] == StrBytes(v, space)
    ensures !Clobbers(Str, v, space) ==> Framed(old(to[..]), to[..], at, space)
    ensures Clobbers(Str, v, space) ==> to[..] == old(to[..])[at - 1 := 0]
  {
    if v.User? {
      var n := StrncpyFromUser(to, at, v.bytes, space);
      if n < 0 {
        return 0;
      }
      ghost var t := to[..];
      to[at + space - 1] := 0;
      TerminatedInPlace(t, at, n, space, v.bytes);
      if space > 0 {
        PutByte(old(to[..]), t, at, space, space - 1, 0);
      } else {
        FramedNowhere(old(to[..]), t, at);
      }
      return n;
    } else {
      NulFound(v.bytes);
      var n := Strscpy(to, at, v.bytes, space, NulIn(v.bytes, 0, |v.bytes|));
      return if n == -E2BIG then space else n + 1;
    }
  }

  // PT_BYTEBUF from user memory: the lookahead bytes first, then what the snaplen and the space
  // leave of the rest.
  method PutUserBuf(to: array<byte>, at: nat, space: nat, src: seq<byte>, len: nat, snap: Option<nat>)
    returns (code: Code, n: nat)
    requires at + space <= to.Length && len > 0
    modifies to
    ensures code == Success ==> n <= space && BufBytes(User(src), len, space, snap) == Ok(to[..][at..at + n])
    ensures code != Success ==> BufBytes(User(src), len, space, snap) == Fail(code)
    ensures Framed(old(to[..]), to[..], at, space)
  {
    var la := if len < DPI_LOOKAHEAD then len else DPI_LOOKAHEAD;
    if la >= space {
      return BufferFull, 0;
    }
    ghost var was := to[..];
    var left := CopyFromUser(to, at, src, 0, la);
    Widened(was, to[..], at, la, at, space);
    if left != 0 {
      return Success, 0;
    }
    var valLen := len;
    if la != valLen {
      if snap.Some? && valLen > snap.value {
        valLen := snap.value;
      }
      if valLen >= space {
        valLen := space;
      }
      if valLen > la {
        var ok := CopyRest(to, at, src, la, valLen, space);
        return Success, if ok then valLen else 0;
      }
      Cut(to[..], at, la, valLen, src);
    }
    return Success, valLen;
  }

  // Extends a copied prefix of la bytes to n bytes.
  method CopyRest(to: array<byte>, at: nat, src: seq<byte>, la: nat, n: nat, ghost space: nat) returns (ok: bool)
    requires la <= n <= space && la <= |src| && at + space <= to.Length && to[..][at..at + la] == src[..la]
    modifies to
    ensures ok <==> n <= |src|
    ensures ok ==> to[..][at..at + n] == src[..n]
    ensures Framed(old(to[..]), to[..], at, space)
  {
    ghost var was := to[..];
    var left := CopyFromUser(to, at + la, src, la, n - la);
    Widened(was, to[..], at + la, n - la, at, space);
    if left == 0 {
      Extended(was, to[..], at, la, n - la, src);
    }
    ok := left == 0;
  }

  // PT_BYTEBUF with a pointer and a length.
  method PutBuf(to: array<byte>, at: nat, space: nat, v: Val, len: nat, snap: Option<nat>)
    returns (code: Code, n: nat)
    requires at + space <= to.Length && WellTyped(Buf, v, len) && !v.Word? && len > 0
    modifies to
    ensures code == Success ==> n <= space && BufBytes(v, len, space, snap) == Ok(to[..][at..at + n])
    ensures code != Success ==> BufBytes(v, len, space, snap) == Fail(code)
    ensures Framed(old(to[..]), to[..], at, space)
  {
    if v.User? {
      code, n := PutUserBuf(to, at, space, v.bytes, len, snap);
    } else {
      var valLen := len;
      if snap.Some? && valLen > snap.value {
        valLen := snap.value;
      }
      if valLen >= space {
        return BufferFull, 0;
      }
      Copy(to, at, v.bytes, valLen);
      Widened(old(to[..]), to[..], at, valLen, at, space);
      return Success, valLen;
    }
  }

  // PT_SOCKADDR, PT_SOCKTUPLE, PT_FDLIST with a pointer and a length.
  method PutSock(to: array<byte>, at: nat, space: nat, v: Val, len: nat) returns (code: Code, n: nat)
    requires at + space <= to.Length && WellTyped(Sock, v, len) && !v.Word?
    modifies to
    ensures code == Success ==> n <= space && SockBytes(v, len, space) == Ok(to[..][at..at + n])
    ensures code != Success ==> SockBytes(v, len, space) == Fail(code)
    ensures Framed(old(to[..]), to[..], at, space)
  {
    if len >= space {
      return BufferFull, 0;
    }
    if v.User? {
      var left := CopyFromUser(to, at, v.bytes, 0, len);
      Widened(old(to[..]), to[..], at, len, at, space);
      return Success, if left == 0 then len else 0;
    } else {
      Copy(to, at, v.bytes, len);
      Widened(old(to[..]), to[..], at, len, at, space);
      return Success, len;
    }
  }

  // The switch of val_to_ring on the parameter type.
  method PutValue(to: array<byte>, at: nat, space: nat, k: Kind, v: Val, len: nat, snap: Option<nat>)
    returns (code: Code, n: nat)
    requires 0 < at && at + space <= to.Length && WellTyped(k, v, len)
    modifies to
    ensures code == Success ==> n <= space && Encoded(k, v, len, space, snap) == Ok(to[..][at..at + n])
    ensures code != Success ==> Encoded(k, v, len, space, snap) == Fail(code)
    ensures !Clobbers(k, v, space) ==> Framed(old(to[..]), to[..], at, space)
    ensures Clobbers(k, v, space) ==> to[..] == old(to[..])[at - 1 := 0] && code == Success && n == 0
  {
    code, n := Success, 0;
    match k
    case Str =>
      if v != Word(0) {
        n := PutStr(to, at, space, v);
      }
    case Buf =>
      if v != Word(0) && len != 0 {
        code, n := PutBuf(to, at, space, v, len, snap);
      }
    case Sock =>
      if v != Word(0) {
        code, n := PutSock(to, at, space, v, len);
      }
    case Num(w) =>
      if space < w {
        code := BufferFull;
      } else {
        Store(to, at, v.w, w);
        Widened(old(to[..]), to[..], at, w, at, space);
        n := w;
      }
    case Unsupported =>
      code := Bug;
  }

  // --------------------------------------------------------------------------------------
  // The cursor
  // --------------------------------------------------------------------------------------

  // The length array of a list of parameters.
  function LenArray(values: seq<seq<byte>>): (s: seq<byte>)
    ensures |s| == 2 * |values|
  {
    if values == [] then [] else ToLE(|values[0]|, 2) + LenArray(values[1..])
  }

  lemma {:induction false} LenArraySnoc(values: seq<seq<byte>>, b: seq<byte>)
    ensures LenArray(values + [b]) == LenArray(values) + ToLE(|b|, 2)
  {
    if values == [] {
      assert values + [b] == [b];
      assert LenArray([b]) == ToLE(|b|, 2) + LenArray([b][1..]);
    } else {
      assert (values + [b])[1..] == values[1..] + [b];
      LenArraySnoc(values[1..], b);
    }
  }

  // From index base on, a holds length entries and, behind a full length array, data.
  predicate Area(a: seq<byte>, base: nat, nargs: nat, lens: seq<byte>, data: seq<byte>) {
    && |lens| <= 2 * nargs && base + 2 * nargs + |data| <= |a|
    && a[base..base + |lens|] == lens
    && a[base + 2 * nargs..base + 2 * nargs + |data|] == data
  }

  // Writing the entries to come, or behind the data, leaves the area as it is.
  lemma AreaKept(s: seq<byte>, t: seq<byte>, base: nat, nargs: nat, lens: seq<byte>, data: seq<byte>, at: nat, n: nat)
    requires Area(s, base, nargs, lens, data) && Framed(s, t, at, n)
    requires (base + |lens| <= at && at + n <= base + 2 * nargs) || base + 2 * nargs + |data| <= at
    ensures Area(t, base, nargs, lens, data)
  {
    Kept(s, t, at, n, base, base + |lens|);
    Kept(s, t, at, n, base + 2 * nargs, base + 2 * nargs + |data|);
  }

  lemma AreaEntry(a: seq<byte>, base: nat, nargs: nat, lens: seq<byte>, data: seq<byte>, e: seq<byte>)
    requires Area(a, base, nargs, lens, data) && |lens| + |e| <= 2 * nargs
    requires a[base + |lens|..base + |lens| + |e|] == e
    ensures Area(a, base, nargs, lens + e, data)
  {
  }

  lemma AreaValue(a: seq<byte>, base: nat, nargs: nat, lens: seq<byte>, data: seq<byte>, b: seq<byte>, end: nat)
    requires Area(a, base, nargs, lens, data) && end == base + 2 * nargs + |data| && end + |b| <= |a|
    requires a[end..end + |b|] == b
    ensures Area(a, base, nargs, lens, data + b)
  {
  }

  // Filling the next length entry for a value that is in place behind the data.
  lemma Advanced(s: seq<byte>, t: seq<byte>, base: nat, nargs: nat, lens: seq<byte>, data: seq<byte>,
                 e: seq<byte>, b: seq<byte>, k: nat, end: nat, size: nat)
    requires Area(s, base, nargs, lens, data) && k == base + |lens| && |lens| + 2 <= 2 * nargs && |e| == 2
    requires end == base + 2 * nargs + |data| && end + |b| <= base + size <= |s|
    requires Framed(s, t, k, 2) && t[k..k + 2] == e && s[end..end + |b|] == b
    ensures Area(t, base, nargs, lens + e, data + b) && Framed(s, t, base, size)
  {
    Widened(s, t, k, 2, base, size);
    AreaKept(s, t, base, nargs, lens, data, k, 2);
    AreaEntry(t, base, nargs, lens, data, e);
    Kept(s, t, k, 2, end, end + |b|);
    AreaValue(t, base, nargs, lens + e, data, b, end);
  }

  // Writing one byte behind the data, then the next length entry.
  lemma IndexPushed(s: seq<byte>, m: seq<byte>, t: seq<byte>, base: nat, nargs: nat, lens: seq<byte>, data: seq<byte>,
                    x: byte, k: nat, end: nat, size: nat)
    requires Area(s, base, nargs, lens, data) && k == base + |lens| && |lens| + 2 <= 2 * nargs
    requires end == base + 2 * nargs + |data| && end < base + size <= |s|
    requires m == s[end := x] && Framed(m, t, k, 2)
    ensures Area(t, base, nargs, lens, data) && Framed(s, t, base, size) && t[end..end + 1] == [x]
  {
  }

  // A value written behind `prefix` bytes behind the data; a string without space may overwrite them.
  lemma RestWritten(s: seq<byte>, t: seq<byte>, base: nat, nargs: nat, lens: seq<byte>, data: seq<byte>,
                    prefix: nat, at: nat, space: nat, size: nat, clobbers: bool, first: seq<byte>)
    requires Area(s, base, nargs, lens, data) && prefix <= 1 && at == base + 2 * nargs + |data| + prefix
    requires at + space <= base + size <= |s| && first == s[at - prefix..at]
    requires if clobbers then prefix == 1 && t == s[at - 1 := 0] else Framed(s, t, at, space)
    ensures Area(t, base, nargs, lens, data) && Framed(s, t, base, size)
    ensures t[at - prefix..at] == if clobbers then [0] else first
  {
    if clobbers {
      PutByte(s, s, at - 1, 1, 0, 0);
      AreaKept(s, t, base, nargs, lens, data, at - 1, 1);
      Widened(s, t, at - 1, 1, base, size);
    } else {
      AreaKept(s, t, base, nargs, lens, data, at, space);
      Widened(s, t, at, space, base, size);
      Kept(s, t, at, space, at - prefix, at);
    }
  }

  // b behind what precedes it, if anything does.
  function Behind(first: seq<byte>, b: seq<byte>): seq<byte> {
    if first == [] then b else first + b
  }

  lemma BehindIsConcat(first: seq<byte>, b: seq<byte>)
    ensures Behind(first, b) == first + b
  {
  }

  lemma ValueWritten(s: seq<byte>, t: seq<byte>, base: nat, nargs: nat, lens: seq<byte>, data: seq<byte>,
                     prefix: nat, at: nat, space: nat, size: nat, clobbers: bool, first: seq<byte>,
                     n: nat, b: seq<byte>, whole: seq<byte>)
    requires Area(s, base, nargs, lens, data) && prefix <= 1 && at == base + 2 * nargs + |data| + prefix
    requires at + space <= base + size <= |s| && first == s[at - prefix..at]
    requires if clobbers then prefix == 1 && t == s[at - 1 := 0] else Framed(s, t, at, space)
    requires n <= space && |t| == |s| && b == t[at..at + n] && whole == Behind(if clobbers then [0] else first, b)
    ensures Area(t, base, nargs, lens, data) && Framed(s, t, base, size)
    ensures t[at - prefix..at + n] == whole && |whole| == prefix + n
  {
    var start := if clobbers then [0] else first;
    RestWritten(s, t, base, nargs, lens, data, prefix, at, space, size, clobbers, first);
    Joined(t, at - prefix, at, at + n, start, b);
    BehindIsConcat(start, b);
  }

  class FillerArgs {
    const buffer: array<byte>       // the ring's buffer
    const base: nat                 // args->buffer, as an index of it
    const bufferSize: nat           // the space available for this event
    const params: seq<ParamInfo>    // the event's parameter table; its length is nargs
    var curarg: nat
    var dataOffset: nat             // arg_data_offset
    var dataSize: nat               // arg_data_size
    var enforceSnaplen: bool
    ghost var pushed: seq<seq<byte>>
    ghost var lens: seq<byte>       // the bytes of the length entries filled so far
    ghost var data: seq<byte>       // the bytes of the values

    // The cursor never leaves the space: both sizes stay in step, so neither underflows.
    ghost predicate Bounds()
      reads this
    {
      && 0 < base && base + bufferSize <= buffer.Length
      && curarg <= |params| && 2 * |params| <= dataOffset
      && dataOffset + dataSize == bufferSize
    }

    // The length array and the data area hold what was pushed; `prefix` bytes of the value that is
    // being pushed are in the data area already.
    ghost predicate Pushing(prefix: nat)
      reads this, buffer
    {
      && Bounds()
      && |lens| == 2 * curarg && dataOffset == 2 * |params| + |data| + prefix
      && Area(buffer[..], base, |params|, lens, data)
    }

    ghost predicate Images()
      reads this
    {
      && |pushed| == curarg && lens == LenArray(pushed) && data == Concat(pushed)
      && (forall i | 0 <= i < |pushed| :: |pushed[i]| <= MAX_ARG_SIZE)
    }

    ghost predicate Valid()
      reads this, buffer
    {
      Pushing(0) && Images()
    }

    // What cuts a buffer, where compute_snaplen yields snaplen for it.
    function Snap(snaplen: nat): Option<nat>
      reads this
    {
      if enforceSnaplen then Some(snaplen) else None
    }

    constructor (buffer: array<byte>, base: nat, bufferSize: nat, params: seq<ParamInfo>)
      requires 0 < base && base + bufferSize <= buffer.Length && 2 * |params| <= bufferSize
      ensures Valid() && pushed == [] && curarg == 0 && dataSize == bufferSize - 2 * |params| && !enforceSnaplen
      ensures this.buffer == buffer && this.base == base && this.bufferSize == bufferSize
      ensures this.params == params
    {
      this.buffer, this.base, this.bufferSize := buffer, base, bufferSize;
      this.params := params;
      curarg, dataOffset, dataSize := 0, 2 * |params|, bufferSize - 2 * |params|;
      enforceSnaplen, pushed, lens, data := false, [], [], [];
    }

    // Fills the length entry of a value whose bytes are in place, the first `prefix` of them already
    // counted.
    method StoreEntry(prefix: nat, n: nat, ghost b: seq<byte>)
      requires Pushing(prefix) && curarg < |params| && n <= dataSize && |b| == prefix + n
      requires buffer[..][base + dataOffset - prefix..base + dataOffset + n] == b
      modifies buffer
      ensures Area(buffer[..], base, |params|, lens + ToLE(|b|, 2), data + b)
      ensures Framed(old(buffer[..]), buffer[..], base, bufferSize)
    {
      ghost var was, k, end, e := buffer[..], base + 2 * curarg, base + dataOffset - prefix, ToLE(|b|, 2);
      Store(buffer, base + 2 * curarg, prefix + n, 2);
      Advanced(was, buffer[..], base, |params|, lens, data, e, b, k, end, bufferSize);
    }

    // That, and moves the cursor behind the value.
    method Advance(prefix: nat, n: nat, ghost b: seq<byte>)
      requires Pushing(prefix) && curarg < |params| && n <= dataSize && |b| == prefix + n
      requires buffer[..][base + dataOffset - prefix..base + dataOffset + n] == b
      modifies this, buffer
      ensures Pushing(0) && curarg == old(curarg) + 1
      ensures lens == old(lens) + ToLE(|b|, 2) && data == old(data) + b
      ensures pushed == old(pushed) && enforceSnaplen == old(enforceSnaplen)
      ensures Framed(old(buffer[..]), buffer[..], base, bufferSize)
    {
      StoreEntry(prefix, n, b);
      curarg, dataOffset, dataSize := curarg + 1, dataOffset + n, dataSize - n;
      lens, data := lens + ToLE(|b|, 2), data + b;
    }

    ghost method Remember(b: seq<byte>)
      requires Pushing(0) && |pushed| + 1 == curarg && |b| <= MAX_ARG_SIZE
      requires lens == LenArray(pushed) + ToLE(|b|, 2) && data == Concat(pushed) + b
      requires forall i | 0 <= i < |pushed| :: |pushed[i]| <= MAX_ARG_SIZE
      modifies this`pushed
      ensures Valid() && pushed == old(pushed) + [b]
    {
      LenArraySnoc(pushed, b);
      ConcatSnoc(pushed, b);
      pushed := pushed + [b];
    }

    // Advance, and take note of the value.
    method CloseEntry(prefix: nat, n: nat, ghost b: seq<byte>)
      requires Pushing(prefix) && Images() && curarg < |params| && n <= dataSize && |b| == prefix + n <= MAX_ARG_SIZE
      requires buffer[..][base + dataOffset - prefix..base + dataOffset + n] == b
      modifies this, buffer
      ensures Valid() && pushed == old(pushed) + [b] && enforceSnaplen == old(enforceSnaplen)
      ensures Framed(old(buffer[..]), buffer[..], base, bufferSize)
    {
      Advance(prefix, n, b);
      Remember(b);
    }

    // push_empty_param
    method PushEmptyParam() returns (res: Code)
      requires Valid()
      modifies this, buffer
      ensures Valid() && enforceSnaplen == old(enforceSnaplen)
      ensures Framed(old(buffer[..]), buffer[..], base, bufferSize)
      ensures res == if old(curarg) < |params| then Success else Bug
      ensures pushed == if res == Success then old(pushed) + [[]] else old(pushed)
    {
      if curarg >= |params| {
        return Bug;
      }
      ghost var none: seq<byte> := [];
      CloseEntry(0, 0, none);
      return Success;
    }

    // The index of a dynamic parameter goes into the data area first.
    method PushIndex(dynIdx: byte)
      requires Valid() && curarg < |params| && dataSize > 0
      modifies this, buffer
      ensures Pushing(1) && Images() && pushed == old(pushed) && enforceSnaplen == old(enforceSnaplen)
      ensures curarg == old(curarg) && dataSize == old(dataSize) - 1
      ensures buffer[..][base + dataOffset - 1..base + dataOffset] == [dynIdx]
      ensures Framed(old(buffer[..]), buffer[..], base, bufferSize)
    {
      ghost var was, k, end := buffer[..], base + 2 * curarg, base + dataOffset;
      buffer[base + dataOffset] := dynIdx;
      ghost var mid := buffer[..];
      Store(buffer, base + 2 * curarg, 1, 2);
      dataOffset, dataSize := dataOffset + 1, dataSize - 1;
      IndexPushed(was, mid, buffer[..], base, |params|, lens, data, dynIdx, k, end, bufferSize);
    }

    // The length entry of a plain parameter starts at 0.
    method ClearEntry()
      requires Valid() && curarg < |params|
      modifies buffer
      ensures Valid() && Framed(old(buffer[..]), buffer[..], base, bufferSize)
    {
      ghost var was := buffer[..];
      Store(buffer, base + 2 * curarg, 0, 2);
      Widened(was, buffer[..], base + 2 * curarg, 2, base, bufferSize);
      AreaKept(was, buffer[..], base, |params|, lens, data, base + 2 * curarg, 2);
    }

    // Closes the entry of a value that has just been written at `at`: `was` is the buffer before that,
    // `first` what the `prefix` bytes in front of the value held then.
    method Finish(prefix: nat, ghost space: nat, n: nat, ghost at: nat, ghost was: seq<byte>, ghost clobbers: bool,
                  ghost first: seq<byte>, ghost b: seq<byte>)
      requires Bounds() && Images() && curarg < |params| && dataOffset == 2 * |params| + |data| + prefix
      requires prefix <= 1 && n <= space <= dataSize && prefix + n <= MAX_ARG_SIZE && at == base + dataOffset
      requires |was| == buffer.Length && Area(was, base, |params|, lens, data) && first == was[at - prefix..at]
      requires if clobbers then prefix == 1 && buffer[..] == was[at - 1 := 0] else Framed(was, buffer[..], at, space)
      requires b == buffer[..][at..at + n]
      modifies this, buffer
      ensures Valid() && enforceSnaplen == old(enforceSnaplen) && Framed(was, buffer[..], base, bufferSize)
      ensures pushed == old(pushed) + [Behind(if clobbers then [0] else first, b)]
    {
      ghost var now, whole := buffer[..], Behind(if clobbers then [0] else first, b);
      ValueWritten(was, now, base, |params|, lens, data, prefix, at, space, bufferSize, clobbers, first, n, b, whole);
      CloseEntry(prefix, n, whole);
      FramedTwice(was, now, buffer[..], base, bufferSize);
    }

    // Writes a value behind the `prefix` bytes, which hold `first`, and closes the entry.
    method PushRest(prefix: nat, space: nat, k: Kind, v: Val, len: nat, snaplen: nat, ghost first: seq<byte>)
      returns (res: Code)
      requires Pushing(prefix) && Images() && curarg < |params| && WellTyped(k, v, len)
      requires prefix <= 1 && 1 <= prefix + space <= MAX_ARG_SIZE && space <= dataSize
      requires first == buffer[..][base + dataOffset - prefix..base + dataOffset]
      modifies this, buffer
      ensures Bounds() && enforceSnaplen == old(enforceSnaplen)
      ensures Framed(old(buffer[..]), buffer[..], base, bufferSize)
      ensures match Encoded(k, v, len, space, old(Snap(snaplen)))
              case Ok(b) =>
                && res == Success && Valid()
                && pushed == old(pushed) + [Behind(if Clobbers(k, v, space) then [0] else first, b)]
              case Fail(c) => res == c && c != Success && pushed == old(pushed)
    {
      ghost var was := buffer[..];
      var at, n := base + dataOffset, 0;
      res, n := PutValue(buffer, at, space, k, v, len, Snap(snaplen));
      if res == Success {
        Finish(prefix, space, n, at, was, Clobbers(k, v, space), first, buffer[..][at..at + n]);
      } else {
        Widened(was, buffer[..], at, space, base, bufferSize);
      }
    }

    // What a push comes to: the bytes of the parameter are taken, or its code is returned.
    ghost predicate Took(res: Code, was: seq<seq<byte>>, out: Outcome)
      reads this, buffer
    {
      match out
      case Ok(b) => res == Success && Valid() && pushed == was + [b]
      case Fail(c) => res == c && c != Success && pushed == was
    }

    // A dynamic parameter: the index, then the value as the chosen type.
    method PushDynamic(v: Val, len: nat, dynIdx: byte, snaplen: nat, space: nat, k: Kind) returns (res: Code)
      requires Valid() && curarg < |params| && 1 <= space <= dataSize && space <= MAX_ARG_SIZE
      requires WellTyped(k, v, len)
      modifies this, buffer
      ensures Bounds() && enforceSnaplen == old(enforceSnaplen)
      ensures Framed(old(buffer[..]), buffer[..], base, bufferSize)
      ensures Took(res, old(pushed), Indexed(k, v, len, dynIdx, space, old(Snap(snaplen))))
    {
      ghost var was := buffer[..];
      PushIndex(dynIdx);
      ghost var mid := buffer[..];
      res := PushRest(1, space - 1, k, v, len, snaplen, [dynIdx]);
      FramedTwice(was, mid, buffer[..], base, bufferSize);
    }

    method PushPlain(v: Val, len: nat, snaplen: nat, space: nat, k: Kind) returns (res: Code)
      requires Valid() && curarg < |params| && 1 <= space <= dataSize && space <= MAX_ARG_SIZE
      requires WellTyped(k, v, len)
      modifies this, buffer
      ensures Bounds() && enforceSnaplen == old(enforceSnaplen)
      ensures Framed(old(buffer[..]), buffer[..], base, bufferSize)
      ensures Took(res, old(pushed), Encoded(k, v, len, space, old(Snap(snaplen))))
    {
      ghost var was := buffer[..];
      ClearEntry();
      ghost var mid := buffer[..];
      res := PushRest(0, space, k, v, len, snaplen, []);
      FramedTwice(was, mid, buffer[..], base, bufferSize);
    }

    // val_to_ring
    method ValToRing(v: Val, len: nat, dynIdx: byte, snaplen: nat) returns (res: Code)
      requires Valid()
      requires curarg < |params| ==> WellTyped(ChosenKind(params[curarg], dynIdx), v, len)
      modifies this, buffer
      ensures Bounds() && enforceSnaplen == old(enforceSnaplen)
      ensures Framed(old(buffer[..]), buffer[..], base, bufferSize)
      ensures old(curarg) >= |params| ==> res == Bug && Valid() && pushed == old(pushed)
      ensures old(curarg) < |params| ==>
                Took(res, old(pushed), Pushed(params[old(curarg)], v, len, dynIdx, old(dataSize), old(Snap(snaplen))))
    {
      if curarg >= |params| {
        return Bug;
      }
      if dataSize == 0 {
        return BufferFull;
      }
      res := PushNext(v, len, dynIdx, snaplen);
    }

    // The parameter that is next, in the space there is for one.
    method PushNext(v: Val, len: nat, dynIdx: byte, snaplen: nat) returns (res: Code)
      requires Valid() && curarg < |params| && dataSize > 0
      requires WellTyped(ChosenKind(params[curarg], dynIdx), v, len)
      modifies this, buffer
      ensures Bounds() && enforceSnaplen == old(enforceSnaplen)
      ensures Framed(old(buffer[..]), buffer[..], base, bufferSize)
      ensures Took(res, old(pushed), Pushed(params[old(curarg)], v, len, dynIdx, old(dataSize), old(Snap(snaplen))))
    {
      var space := if dataSize > MAX_ARG_SIZE then MAX_ARG_SIZE else dataSize;
      var p := params[curarg];
      if p.Dynamic? {
        if dynIdx >= |p.choices| {
          return Bug;
        }
        res := PushDynamic(v, len, dynIdx, snaplen, space, KindOf(p.choices[dynIdx]));
      } else {
        res := PushPlain(v, len, snaplen, space, KindOf(p.ty));
      }
    }
  }
}
