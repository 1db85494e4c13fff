/**
 Whole recording attempts as runs of the ring protocol: whatever an attempt leaves within
 its limit can be written byte by byte, and committing it takes the steps of the protocol.
 */
module Attempt {
  import opened Bytes
  import opened RingLayout
  import opened RingStats
  import opened RingProtocol

  // Writes the bytes [i, end) of `buf`.
  function Writes(buf: seq<byte>, i: nat, end: nat): seq<Action>
    requires i <= end <= |buf|
    decreases end - i
  {
    if i == end then [] else [Write(i, buf[i])] + Writes(buf, i + 1, end)
  }

  // Any change within the limit is reached by writes.
  lemma {:induction false} WritesReach(g: Geometry, s: State, buf: seq<byte>, i: nat, end: nat)
    requires s.producer.Filling? && s.producer.head < g.dim && s.producer.tail < g.dim
    requires s.producer.head <= i <= end == s.producer.head + Limit(g, s.producer.head, s.producer.tail)
    requires end <= |s.buf| && Framed(s.buf, buf, i, end - i)
    ensures Legal(g, s, Writes(buf, i, end)) && Exec(g, s, Writes(buf, i, end)) == s.(buf := buf)
    ensures forall a | a in Writes(buf, i, end) :: InAttempt(a)
    decreases end - i
  {
    if i == end {
      FramedNowhere(s.buf, buf, i);
    } else {
      var s1 := Apply(g, s, Write(i, buf[i]));
      FramedLess(s.buf, buf, i, end - i);
      WritesReach(g, s1, buf, i + 1, end);
      assert Writes(buf, i, end)[1..] == Writes(buf, i + 1, end);
    }
  }

  lemma FramedLess(s: seq<byte>, t: seq<byte>, i: nat, n: nat)
    requires Framed(s, t, i, n) && n > 0
    ensures Framed(s[i := t[i]], t, i + 1, n - 1)
  {
  }

  // The buffer with its first n bytes taken from behind the ring.
  function CopiedBack(buf: seq<byte>, dim: nat, n: nat): (r: seq<byte>)
    requires n <= dim && dim + n <= |buf|
    ensures |r| == |buf|
  {
    buf[dim..dim + n] + buf[n..]
  }

  function Times(a: Action, n: nat): (r: seq<Action>)
    ensures |r| == n && forall x | x in r :: x == a
  {
    if n == 0 then [] else [a] + Times(a, n - 1)
  }

  lemma {:induction false} CopiesReach(g: Geometry, s: State, n: nat, over: nat, target: seq<byte>)
    requires s.producer.Committing? && over == Overrun(g, s.producer.head, s.producer.size)
    requires s.producer.copied + n == over <= g.dim && g.dim + over <= |s.buf|
    requires s.buf == CopiedBack(s.buf, g.dim, s.producer.copied) && target == CopiedBack(s.buf, g.dim, over)
    ensures Legal(g, s, Times(CopyBack, n))
    ensures Exec(g, s, Times(CopyBack, n)) == s.(buf := target, producer := s.producer.(copied := over))
    decreases n
  {
    if n != 0 {
      var t := NextCopy(g, s, over, target);
      CopiesReach(g, t, n - 1, over, target);
      FirstStep(g, s, CopyBack, Times(CopyBack, n - 1));
    }
  }

  lemma NextCopy(g: Geometry, s: State, over: nat, target: seq<byte>) returns (t: State)
    requires s.producer.Committing? && over == Overrun(g, s.producer.head, s.producer.size)
    requires s.producer.copied < over <= g.dim && g.dim + over <= |s.buf|
    requires s.buf == CopiedBack(s.buf, g.dim, s.producer.copied) && target == CopiedBack(s.buf, g.dim, over)
    ensures Enabled(g, s, CopyBack) && Apply(g, s, CopyBack) == t && |t.buf| == |s.buf|
    ensures t == s.(buf := t.buf, producer := s.producer.(copied := s.producer.copied + 1))
    ensures t.buf == CopiedBack(t.buf, g.dim, t.producer.copied) && target == CopiedBack(t.buf, g.dim, over)
  {
    var j := s.producer.copied;
    CopyBackStep(g, s);
    CopyOne(s.buf, s.buf[j := s.buf[g.dim + j]], g.dim, j, over);
    t := Apply(g, s, CopyBack);
  }

  lemma CopyBackStep(g: Geometry, s: State)
    requires s.producer.Committing? && s.producer.copied < Overrun(g, s.producer.head, s.producer.size) <= g.dim
    requires g.dim + s.producer.copied < |s.buf|
    ensures Enabled(g, s, CopyBack)
    ensures var j := s.producer.copied;
            Apply(g, s, CopyBack) == s.(buf := s.buf[j := s.buf[g.dim + j]], producer := s.producer.(copied := j + 1))
  {
  }

  // One more byte copied back.
  lemma CopyOne(buf: seq<byte>, buf': seq<byte>, dim: nat, j: nat, over: nat)
    requires j < over <= dim && dim + over <= |buf| && buf' == buf[j := buf[dim + j]]
    requires buf == CopiedBack(buf, dim, j)
    ensures buf' == CopiedBack(buf', dim, j + 1)
    ensures CopiedBack(buf', dim, over) == CopiedBack(buf, dim, over)
  {
  }

  // The sizes an attempt at h may commit.
  predicate Fits(g: Geometry, buf: seq<byte>, h: nat, size: nat, over: nat) {
    && h < g.dim && h + size <= |buf| && over == Overrun(g, h, size)
    && over <= h && g.dim + over <= |buf|
  }

  // What publishing an event of `size` bytes at h, complete in `buf`, leaves.
  function Recorded(g: Geometry, s: State, buf: seq<byte>, h: nat, size: nat, over: nat): State
    requires Fits(g, buf, h, size, over) && |s.stats.byCategory| == CATEGORIES
  {
    s.(buf := CopiedBack(buf, g.dim, over),
       head := NextHead(g, h, size), stats := Finish(s.stats, Inserted), producer := Idle,
       recorded := s.recorded + [buf[h..h + size]], newer := s.newer + [buf[h..h + size]])
  }

  predicate Complete(g: Geometry, s: State, buf: seq<byte>, size: nat) {
    && s.producer.Filling? && s.producer.head < g.dim && s.producer.tail < g.dim
    && HEADER <= size <= Limit(g, s.producer.head, s.producer.tail)
    && Framed(s.buf, buf, s.producer.head, Limit(g, s.producer.head, s.producer.tail))
    && LenField(buf, s.producer.head) == size
  }

  lemma CompleteFits(g: Geometry, s: State, buf: seq<byte>, size: nat, h: nat, over: nat)
    requires Sound(g) && Inv(g, s) && Complete(g, s, buf, size) && h == s.producer.head && over == Overrun(g, h, size)
    ensures Fits(g, buf, h, size, over)
  {
  }

  lemma CopiedBackKeeps(buf: seq<byte>, dim: nat, n: nat, i: nat, j: nat)
    requires n <= dim && dim + n <= |buf| && n <= i <= j <= |buf|
    ensures CopiedBack(buf, dim, n)[i..j] == buf[i..j]
  {
  }

  lemma OneStep(g: Geometry, s: State, a: Action)
    requires Enabled(g, s, a)
    ensures Legal(g, s, [a]) && Exec(g, s, [a]) == Apply(g, s, a)
  {
  }

  lemma FirstStep(g: Geometry, s: State, a: Action, run: seq<Action>)
    requires Enabled(g, s, a) && Legal(g, Apply(g, s, a), run)
    ensures Legal(g, s, [a] + run) && Exec(g, s, [a] + run) == Exec(g, Apply(g, s, a), run)
  {
  }

  lemma PublishStep(g: Geometry, s: State, buf: seq<byte>, h: nat, t: nat, size: nat, over: nat)
    requires Fits(g, buf, h, size, over) && |s.stats.byCategory| == CATEGORIES
    requires s.producer == Committing(h, t, size, over) && s.buf == CopiedBack(buf, g.dim, over)
    ensures Enabled(g, s, Publish) && Apply(g, s, Publish) == Recorded(g, s, buf, h, size, over)
  {
    CopiedBackKeeps(buf, g.dim, over, h, h + size);
  }

  // From a complete event on: copy the run-over back, publish.
  lemma PublishReach(g: Geometry, s: State, h: nat, t: nat, size: nat, over: nat)
    requires Fits(g, s.buf, h, size, over) && |s.stats.byCategory| == CATEGORIES
    requires s.producer == Committing(h, t, size, 0)
    ensures Legal(g, s, Times(CopyBack, over) + [Publish])
    ensures Exec(g, s, Times(CopyBack, over) + [Publish]) == Recorded(g, s, s.buf, h, size, over)
  {
    assert CopiedBack(s.buf, g.dim, 0) == s.buf;
    CopiesReach(g, s, over, over, CopiedBack(s.buf, g.dim, over));
    var s2 := s.(buf := CopiedBack(s.buf, g.dim, over), producer := Committing(h, t, size, over));
    PublishStep(g, s2, s.buf, h, t, size, over);
    OneStep(g, s2, Publish);
    ExecAppend(g, s, Times(CopyBack, over), [Publish]);
  }

  lemma CommitReach(g: Geometry, s: State, h: nat, size: nat, over: nat)
    requires Sound(g) && Inv(g, s) && Complete(g, s, s.buf, size) && Fits(g, s.buf, h, size, over)
    requires h == s.producer.head
    ensures Legal(g, s, [Commit(size)] + (Times(CopyBack, over) + [Publish]))
    ensures Exec(g, s, [Commit(size)] + (Times(CopyBack, over) + [Publish])) == Recorded(g, s, s.buf, h, size, over)
  {
    var s1 := Apply(g, s, Commit(size));
    PublishReach(g, s1, h, s.producer.tail, size, over);
    FirstStep(g, s, Commit(size), Times(CopyBack, over) + [Publish]);
  }

  // The writes of an attempt, which leave `buf`.
  lemma WriteRun(g: Geometry, s: State, buf: seq<byte>) returns (run: seq<Action>)
    requires Sound(g) && Inv(g, s) && s.producer.Filling?
    requires Framed(s.buf, buf, s.producer.head, Limit(g, s.producer.head, s.producer.tail))
    ensures Legal(g, s, run) && Exec(g, s, run) == s.(buf := buf) && Inv(g, s.(buf := buf))
    ensures forall a | a in run :: InAttempt(a)
  {
    var h := s.producer.head;
    var end := h + Limit(g, h, s.producer.tail);
    run := Writes(buf, h, end);
    WritesReach(g, s, buf, h, end);
    RunInv(g, s, run);
  }

  // The commit of an event that is complete in the buffer.
  lemma CommitRun(g: Geometry, s: State, h: nat, size: nat, over: nat) returns (run: seq<Action>)
    requires Sound(g) && Inv(g, s) && Complete(g, s, s.buf, size) && Fits(g, s.buf, h, size, over)
    requires h == s.producer.head
    ensures Legal(g, s, run) && Exec(g, s, run) == Recorded(g, s, s.buf, h, size, over)
    ensures forall a | a in run :: InAttempt(a)
  {
    run := [Commit(size)] + (Times(CopyBack, over) + [Publish]);
    CommitReach(g, s, h, size, over);
  }

  // A successful attempt, from the snapshot on: writes within the limit, then the commit.
  lemma RecordRun(g: Geometry, s: State, buf: seq<byte>, h: nat, size: nat, over: nat) returns (run: seq<Action>)
    requires Sound(g) && Inv(g, s) && Complete(g, s, buf, size) && Fits(g, buf, h, size, over)
    requires h == s.producer.head
    ensures Legal(g, s, run) && Exec(g, s, run) == Recorded(g, s, buf, h, size, over)
    ensures forall a | a in run :: InAttempt(a)
  {
    var writes := WriteRun(g, s, buf);
    var commit := CommitRun(g, s.(buf := buf), h, size, over);
    ExecAppend(g, s, writes, commit);
    run := writes + commit;
  }

  // ... which keeps the invariant, and leaves `next`.
  lemma RecordSafely(g: Geometry, s: State, buf: seq<byte>, h: nat, size: nat, over: nat)
    returns (run: seq<Action>, next: State)
    requires Sound(g) && Inv(g, s) && Complete(g, s, buf, size) && h == s.producer.head && over == Overrun(g, h, size)
    ensures Fits(g, buf, h, size, over)
    ensures Legal(g, s, run) && Exec(g, s, run) == next && Inv(g, next)
    ensures forall a | a in run :: InAttempt(a)
    ensures next.buf == CopiedBack(buf, g.dim, over) && next.tail == s.tail && next.producer == Idle
    ensures next.head == NextHead(g, h, size)
    ensures next.stats == Finish(s.stats, Inserted) && next.recorded == s.recorded + [buf[h..h + size]]
  {
    CompleteFits(g, s, buf, size, h, over);
    run := RecordRun(g, s, buf, h, size, over);
    RunInv(g, s, run);
    next := Exec(g, s, run);
  }

  // ... and a failed one likewise.
  lemma DropSafely(g: Geometry, s: State, buf: seq<byte>, o: Ending) returns (run: seq<Action>, next: State)
    requires Sound(g) && Inv(g, s) && s.producer.Filling? && ValidEnding(o) && !o.Inserted?
    requires Framed(s.buf, buf, s.producer.head, Limit(g, s.producer.head, s.producer.tail))
    ensures Legal(g, s, run) && Exec(g, s, run) == next && Inv(g, next)
    ensures forall a | a in run :: InAttempt(a)
    ensures next == s.(buf := buf, producer := Idle, stats := Finish(s.stats, o))
  {
    run := DropRun(g, s, buf, o);
    RunInv(g, s, run);
    next := Exec(g, s, run);
  }

  // A failed attempt: writes within the limit, then nothing.
  lemma DropRun(g: Geometry, s: State, buf: seq<byte>, o: Ending) returns (run: seq<Action>)
    requires Sound(g) && Inv(g, s) && s.producer.Filling? && ValidEnding(o) && !o.Inserted?
    requires Framed(s.buf, buf, s.producer.head, Limit(g, s.producer.head, s.producer.tail))
    ensures Legal(g, s, run) && Exec(g, s, run) == s.(buf := buf, producer := Idle, stats := Finish(s.stats, o))
    ensures forall a | a in run :: InAttempt(a)
  {
    var h := s.producer.head;
    var end := h + Limit(g, h, s.producer.tail);
    WritesReach(g, s, buf, h, end);
    OneStep(g, s.(buf := buf), Drop(o));
    ExecAppend(g, s, Writes(buf, h, end), [Drop(o)]);
    run := Writes(buf, h, end) + [Drop(o)];
  }
}
