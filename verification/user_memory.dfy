/**
 Reading user memory without sleeping: a copy that fails when part of the range is not
 readable, and the string copy built on it, which reads four bytes at a time.

 All reads through a pointer go upwards from it without a gap, so a user pointer is
 modelled by the bytes that can be read from it on, up to the first one that cannot.
 */
module UserMemory {
  import opened Bytes

  // ppm_copy_from_user, n bytes at offset o of a user pointer: returns the number of bytes not
  // copied. A failed copy may have written part of the range.
  method CopyFromUser(to: array<byte>, at: nat, src: seq<byte>, o: nat, n: nat) returns (left: nat)
    requires at + n <= to.Length && o <= |src|
    modifies to
    ensures left <= n && (left == 0 <==> o + n <= |src|)
    ensures left == 0 ==> to[..][at..at + n] == src[o..o + n]
    ensures Framed(old(to[..]), to[..], at, n)
  {
    var i := 0;
    ghost var was := to[..];
    while i < n && o + i < |src|
      invariant 0 <= i <= n && o + i <= |src| && to[..][at..at + i] == src[o..o + i]
      invariant Framed(was, to[..], at, n)
    {
      PutByte(was, to[..], at, n, i, src[o + i]);
      to[at + i] := src[o + i];
      i := i + 1;
      assert src[o..o + i] == src[o..o + i - 1] + [src[o + i - 1]];
    }
    left := n - i;
  }

  // The reference: the length of what a byte-by-byte copy of at most n bytes yields. It covers
  // the bytes up to and including the first terminator, or n bytes if there is none among them.
  predicate IsStrLen(src: seq<byte>, n: nat, len: nat) {
    && len <= n && len <= |src|
    && (forall i | 0 <= i < len - 1 :: src[i] != 0)
    && (len < n ==> len > 0 && src[len - 1] == 0)
  }

  predicate IsNulIn(src: seq<byte>, o: nat, k: nat, j: nat)
    requires o + k <= |src|
  {
    j <= k && (j < k ==> src[o + j] == 0) && forall i | o <= i < o + j :: src[i] != 0
  }

  // The position, from o on, of the first terminator among k bytes, or k.
  function NulIn(src: seq<byte>, o: nat, k: nat): (j: nat)
    requires o + k <= |src|
    ensures j <= k
    decreases k
  {
    if k == 0 || src[o] == 0 then 0 else 1 + NulIn(src, o + 1, k - 1)
  }

  lemma {:induction false} NulInIs(src: seq<byte>, o: nat, k: nat, j: nat)
    requires o + k <= |src|
    ensures IsNulIn(src, o, k, j) <==> j == NulIn(src, o, k)
    decreases k
  {
    if k != 0 && src[o] != 0 {
      if j > 0 {
        NulInIs(src, o + 1, k - 1, j - 1);
      } else {
        NulInIs(src, o + 1, k - 1, 0);
      }
    }
  }

  // The length the copier finds when it goes on at offset o with n bytes of room: four bytes at
  // a time, each chunk readable as a whole.
  function ChunkLen(src: seq<byte>, o: nat, n: nat): (r: Option<nat>)
    requires o <= |src|
    ensures r.Some? ==> o <= r.value <= o + n && r.value <= |src|
    decreases n
  {
    if n == 0 then Some(o) else
    var k := Min(4, n);
    if o + k > |src| then None else
    var j := NulIn(src, o, k);
    if j < k then Some(o + j + 1) else ChunkLen(src, o + k, n - k)
  }

  // One iteration of the string copy: fetch a chunk and look for the terminator in it. Yields the
  // offset reached, and whether the string ends there.
  method CopyChunk(to: array<byte>, at: nat, src: seq<byte>, o: nat, left: nat)
    returns (ok: bool, end: bool, o': nat)
    requires left > 0 && at + o + left <= to.Length && o <= |src| && to[..][at..at + o] == src[..o]
    modifies to
    ensures !ok ==> ChunkLen(src, o, left) == None
    ensures ok ==> o < o' <= o + left && o' <= |src| && to[..][at..at + o'] == src[..o']
    ensures ok ==> ChunkLen(src, o, left) == if end then Some(o') else ChunkLen(src, o', o + left - o')
    ensures Framed(old(to[..]), to[..], at, o + left)
  {
    var k, j := if left < 4 then left else 4, 0;
    ghost var was := to[..];
    var rest := CopyFromUser(to, at + o, src, o, k);
    Widened(was, to[..], at + o, k, at, o + left);
    if rest != 0 {
      return false, false, o;
    }
    Extended(was, to[..], at, o, k, src);
    j := Scan(to, at, src, o, k);
    end, o' := j < k, o + if j < k then j + 1 else k;
    Cut(to[..], at, o + k, o', src);
    ChunkStep(src, o, left, k, j);
    ok := true;
  }

  lemma ChunkStep(src: seq<byte>, o: nat, left: nat, k: nat, j: nat)
    requires left > 0 && k == Min(4, left) && o + k <= |src| && j == NulIn(src, o, k)
    ensures ChunkLen(src, o, left) == if j < k then Some(o + j + 1) else ChunkLen(src, o + k, left - k)
  {
  }

  // Copying the next k bytes behind o copied ones.
  lemma Extended(s: seq<byte>, t: seq<byte>, at: nat, o: nat, k: nat, src: seq<byte>)
    requires Framed(s, t, at + o, k) && o + k <= |src|
    requires s[at..at + o] == src[..o] && t[at + o..at + o + k] == src[o..o + k]
    ensures t[at..at + o + k] == src[..o + k]
  {
    forall i | 0 <= i < o + k ensures t[at + i] == src[i] {
      if i < o {
        assert t[at + i] == s[at + i] == s[at..at + o][i];
      } else {
        assert t[at + i] == t[at + o..at + o + k][i - o];
      }
    }
  }

  // Looks for the terminator in the chunk just copied.
  method Scan(to: array<byte>, at: nat, src: seq<byte>, o: nat, k: nat) returns (j: nat)
    requires at + o + k <= to.Length && o + k <= |src| && to[..][at..at + o + k] == src[..o + k]
    ensures j == NulIn(src, o, k)
  {
    j := 0;
    while j < k
      invariant j <= k && IsNulIn(src, o, j, j)
    {
      assert to[at + o + j] == to[..][at..at + o + k][o + j] == src[o + j];
      if to[at + o + j] == 0 {
        break;
      }
      j := j + 1;
    }
    NulInIs(src, o, k, j);
  }

  // ppm_strncpy_from_user: -1 if a chunk is not readable, else the length, terminator included.
  method StrncpyFromUser(to: array<byte>, at: nat, src: seq<byte>, n: nat) returns (res: int)
    requires at + n <= to.Length
    modifies to
    ensures -1 <= res <= n && ChunkLen(src, 0, n) == if res == -1 then None else Some(res)
    ensures res != -1 ==> res <= |src| && to[..][at..at + res] == src[..res]
    ensures Framed(old(to[..]), to[..], at, n)
  {
    var o: nat := 0;
    while o < n
      invariant o <= n && o <= |src| && to[..][at..at + o] == src[..o]
      invariant ChunkLen(src, 0, n) == ChunkLen(src, o, n - o)
      invariant Framed(old(to[..]), to[..], at, n)
    {
      var ok, end;
      ok, end, o := CopyChunk(to, at, src, o, n - o);
      if !ok {
        return -1;
      }
      if end {
        return o;
      }
    }
    res := o;
  }

  // How many bytes the copier touches for a string of the given length: whole chunks.
  function Touched(len: nat, n: nat): nat {
    Min(n, (len + 3) / 4 * 4)
  }

  // In whole chunks: a string that ends beyond o, a chunk boundary, touches the chunk at o, and
  // one that ends in that chunk touches no more.
  lemma TouchedChunk(o: nat, left: nat, len: nat)
    requires o % 4 == 0 && o < len
    ensures Touched(len, o + left) >= o + Min(4, left)
    ensures len <= o + Min(4, left) ==> Touched(len, o + left) == o + Min(4, left)
  {
  }

  // The chunked copier finds exactly the reference length, and fails exactly when some byte of
  // the chunks it touches cannot be read, also behind the terminator.
  lemma ChunkedCopyExact(src: seq<byte>, n: nat, len: nat)
    ensures ChunkLen(src, 0, n) == Some(len) <==> IsStrLen(src, n, len) && Touched(len, n) <= |src|
  {
    ChunkLenFrom(src, 0, n, len);
  }

  // Where there is no terminator before o, the string goes beyond o.
  lemma GoesBeyond(src: seq<byte>, o: nat, n: nat, len: nat)
    requires o <= |src| && o < n && (forall i | 0 <= i < o :: src[i] != 0) && IsStrLen(src, n, len)
    ensures len > o
  {
  }

  // Where the first terminator is at i, the string ends there.
  lemma EndsAt(src: seq<byte>, n: nat, i: nat, len: nat)
    requires i < |src| && i < n && src[i] == 0 && forall k | 0 <= k < i :: src[k] != 0
    ensures IsStrLen(src, n, len) <==> len == i + 1
  {
  }

  // Without a terminator among n bytes, the string has n bytes.
  lemma FillsUp(src: seq<byte>, n: nat, len: nat)
    requires n <= |src| && forall k | 0 <= k < n :: src[k] != 0
    ensures IsStrLen(src, n, len) <==> len == n
  {
  }

  lemma EndsInChunk(src: seq<byte>, o: nat, left: nat, len: nat)
    requires left > 0 && o + Min(4, left) <= |src| && o % 4 == 0 && forall i | 0 <= i < o :: src[i] != 0
    requires NulIn(src, o, Min(4, left)) < Min(4, left)
    ensures ChunkLen(src, o, left) == Some(len) <==>
            IsStrLen(src, o + left, len) && Touched(len, o + left) <= |src|
  {
    var j := NulIn(src, o, Min(4, left));
    NulInIs(src, o, Min(4, left), j);
    EndsAt(src, o + left, o + j, len);
    TouchedChunk(o, left, o + j + 1);
  }

  lemma {:induction false} ChunkLenFrom(src: seq<byte>, o: nat, left: nat, len: nat)
    requires o <= |src| && o % 4 == 0 && forall i | 0 <= i < o :: src[i] != 0
    ensures ChunkLen(src, o, left) == Some(len) <==>
            IsStrLen(src, o + left, len) && Touched(len, o + left) <= |src|
    decreases left
  {
    var n, k := o + left, Min(4, left);
    if left == 0 {
      FillsUp(src, n, len);
    } else if o + k > |src| {
      if IsStrLen(src, n, len) {
        GoesBeyond(src, o, n, len);
        TouchedChunk(o, left, len);
      }
    } else if NulIn(src, o, k) < k {
      EndsInChunk(src, o, left, len);
    } else {
      NulInIs(src, o, k, k);
      if k == left {
        FillsUp(src, n, len);
      } else {
        ChunkLenFrom(src, o + 4, left - 4, len);
      }
    }
  }
}
