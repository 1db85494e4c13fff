/**
 The geometry of one per-CPU ring: `dim` bytes that are reused in a circle, followed by
 a cushion of two pages into which the last event of a lap may run over. User space
 maps the first `dim` bytes twice in a row, so it reads an event that crosses the end
 as one contiguous run.
 */
module RingLayout {
  import opened Bytes

  // sizeof(struct ppm_evt_hdr), packed: ts 8, tid 8, len 4, type 2, nparams 4.
  const HEADER: nat := 26
  const LEN_AT: nat := 16
  const TYPE_AT: nat := 20
  const NPARAMS_AT: nat := 22
  const MAX_PARAMS: nat := 32

  datatype Geometry = Geometry(dim: nat, page: nat)

  // What buffer size validation and the page size give, with offsets that fit an `int`.
  predicate Sound(g: Geometry) {
    4096 <= g.page && 2 * g.page < g.dim && g.dim + 2 * g.page < 0x8000_0000
  }

  // One subtraction brings any offset of the doubled mapping back into the ring.
  function Wrap(dim: nat, x: nat): (r: nat)
    requires x < 2 * dim
    ensures r < dim
  {
    if x < dim then x else x - dim
  }

  // The producer's arithmetic: free bytes, keeping one byte unused. The tail is in memory that user
  // space may write, so it can be any number.
  function FreeSpace(dim: nat, head: nat, tail: nat): (f: nat)
    requires head < dim
    ensures tail < dim ==> f < dim
  {
    if tail > head then tail - head - 1 else dim + tail - head - 1
  }

  // The reader's arithmetic: bytes published and not yet given back.
  function ReadSize(dim: nat, head: nat, tail: nat): (u: nat)
    requires head < dim && tail < dim
    ensures u < dim
  {
    if tail > head then dim - tail + head else head - tail
  }

  // Bytes from `head` to the end of the cushion, less one.
  function DeltaFromEnd(g: Geometry, head: nat): (d: nat)
    requires head < g.dim
    ensures 2 * g.page <= d < g.dim + 2 * g.page
  {
    g.dim + 2 * g.page - head - 1
  }

  // How far past `head` an attempt may write.
  function Limit(g: Geometry, head: nat, tail: nat): nat
    requires head < g.dim
  {
    Min(FreeSpace(g.dim, head, tail), DeltaFromEnd(g, head))
  }

  // Head after an event of `size` bytes.
  function NextHead(g: Geometry, head: nat, size: nat): nat {
    if head + size >= g.dim then head + size - g.dim else head + size
  }

  // Whatever the tail is, an attempt stays inside the buffer, and so does the copy of its run-over;
  // head stays inside the ring.
  lemma AnyTailInside(g: Geometry, head: nat, tail: nat, size: nat)
    requires Sound(g) && head < g.dim && size <= Limit(g, head, tail)
    ensures head + Limit(g, head, tail) < g.dim + 2 * g.page && NextHead(g, head, size) < g.dim
    ensures head + size >= g.dim ==> NextHead(g, head, size) < 2 * g.page < g.dim
  {
  }

  // The two sides agree: what is not readable is free, except one byte. So a full ring
  // has dim - 1 bytes and never looks like an empty one.
  lemma FreePlusUsed(dim: nat, head: nat, tail: nat)
    requires head < dim && tail < dim
    ensures FreeSpace(dim, head, tail) + ReadSize(dim, head, tail) == dim - 1
    ensures ReadSize(dim, head, tail) == 0 <==> head == tail
    ensures FreeSpace(dim, head, tail) == 0 ==> head != tail || dim == 1
    ensures Wrap(dim, tail + ReadSize(dim, head, tail)) == head
  {
  }

  // n bytes at user offset pos, read through the doubled mapping.
  function View(buf: seq<byte>, dim: nat, pos: nat, n: nat): (v: seq<byte>)
    requires pos + n <= 2 * dim && dim <= |buf|
    ensures |v| == n
  {
    seq(n, i requires 0 <= i < n => buf[Wrap(dim, pos + i)])
  }

  // A part of what is read at pos is what is read further on.
  lemma ViewPart(buf: seq<byte>, dim: nat, pos: nat, n: nat, i: nat, j: nat)
    requires pos + n <= 2 * dim && dim <= |buf| && i <= j <= n
    ensures View(buf, dim, pos + i, j - i) == View(buf, dim, pos, n)[i..j]
  {
  }

  // Two adjacent reads are one long read.
  lemma ViewAppend(buf: seq<byte>, dim: nat, pos: nat, m: nat, n: nat)
    requires pos + m + n <= 2 * dim && dim <= |buf|
    ensures View(buf, dim, pos, m + n) == View(buf, dim, pos, m) + View(buf, dim, pos + m, n)
  {
  }

  // Moving the start by a whole lap changes nothing: u and u + dim alias.
  lemma ViewAlias(buf: seq<byte>, dim: nat, pos: nat, n: nat)
    requires dim <= pos && pos + n <= 2 * dim && dim <= |buf|
    ensures View(buf, dim, pos, n) == View(buf, dim, pos - dim, n)
  {
    forall k | 0 <= k < n
      ensures View(buf, dim, pos, n)[k] == View(buf, dim, pos - dim, n)[k]
    {
      assert Wrap(dim, pos + k) == Wrap(dim, pos - dim + k);
    }
  }

  // An index of the buffer that an attempt which sees `free` free bytes after `head` may
  // write: in the free part of the ring, or in the cushion.
  predicate Writable(dim: nat, head: nat, free: nat, i: nat)
    requires head < dim && free < dim
  {
    i >= dim || head <= i < head + free || i + dim < head + free
  }

  // The unread bytes are not writable, also when the free space was computed from a tail
  // that the reader has since moved forward.
  lemma UnreadKept(buf: seq<byte>, buf': seq<byte>, dim: nat, tail: nat, used: nat, free: nat)
    requires tail < dim && used < dim && free <= dim - 1 - used
    requires dim <= |buf| == |buf'|
    requires forall i | 0 <= i < |buf| && !Writable(dim, Wrap(dim, tail + used), free, i) :: buf'[i] == buf[i]
    ensures View(buf', dim, tail, used) == View(buf, dim, tail, used)
  {
    forall k | 0 <= k < used
      ensures View(buf', dim, tail, used)[k] == View(buf, dim, tail, used)[k]
    {
      assert !Writable(dim, Wrap(dim, tail + used), free, Wrap(dim, tail + k));
    }
  }

  // An event written contiguously at `head`, its run-over copied to the start of the ring,
  // reads back whole through the doubled mapping.
  lemma WrappedEventReadsBack(buf: seq<byte>, dim: nat, head: nat, size: nat)
    requires head < dim <= |buf| && size < dim && head + size <= |buf|
    requires forall j | 0 <= j && dim + j < head + size :: buf[j] == buf[dim + j]
    ensures View(buf, dim, head, size) == buf[head..head + size]
  {
    forall k | 0 <= k < size
      ensures View(buf, dim, head, size)[k] == buf[head..head + size][k]
    {
      var j := head + k - dim;
      assert j >= 0 ==> buf[j] == buf[dim + j];
      assert View(buf, dim, head, size)[k] == buf[Wrap(dim, head + k)];
    }
  }

  // Publishing: an event of `size` bytes at head, run-over copied, extends the unread bytes.
  lemma Publishing(buf: seq<byte>, dim: nat, tail: nat, live: seq<byte>, head: nat, size: nat)
    requires tail < dim && dim <= |buf| && |live| + size < dim && head + size <= |buf|
    requires head == Wrap(dim, tail + |live|) && View(buf, dim, tail, |live|) == live
    requires forall j | 0 <= j && dim + j < head + size :: buf[j] == buf[dim + j]
    ensures View(buf, dim, tail, |live| + size) == live + buf[head..head + size]
    ensures Wrap(dim, head + size) == Wrap(dim, tail + (|live| + size))
  {
    WrappedEventReadsBack(buf, dim, head, size);
    ViewAppend(buf, dim, tail, |live|, size);
    if tail + |live| >= dim {
      ViewAlias(buf, dim, tail + |live|, size);
    }
  }

  // Giving back: moving tail over the first n unread bytes leaves the others.
  lemma GivingBack(buf: seq<byte>, dim: nat, tail: nat, live: seq<byte>, n: nat)
    requires tail < dim && dim <= |buf| && n <= |live| < dim
    requires View(buf, dim, tail, |live|) == live
    ensures View(buf, dim, Wrap(dim, tail + n), |live| - n) == live[n..]
    ensures Wrap(dim, Wrap(dim, tail + n) + (|live| - n)) == Wrap(dim, tail + |live|)
  {
    ViewPart(buf, dim, tail, |live|, n, |live|);
    if tail + n >= dim {
      ViewAlias(buf, dim, tail + n, |live| - n);
    }
  }
}
