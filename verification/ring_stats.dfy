/**
 The counters of `ppm_ring_buffer_info`, and how the end of each recording attempt moves
 them. The counters are unbounded here; in the driver they are 64 bits wide.
 */
module RingStats {
  import opened Bytes

  // The ten syscall categories that buffer drops are broken down into.
  const CATEGORIES: nat := 10

  // How an attempt that got past the preemption gate ended.
  datatype Ending =
    | Inserted
    | NoRoom                                // no room for the header and the length array
    | OutOfSpace(category: Option<nat>)     // the filler ran out of space
    | PageFault                             // the filler could not read user memory
    | Skipped                               // the filler asked to skip the event
    | Misfit                                // wrong number of parameters, or a filler bug

  predicate ValidEnding(o: Ending) {
    o.OutOfSpace? && o.category.Some? ==> o.category.value < CATEGORIES
  }

  datatype Stats = Stats(evts: nat, dropsBuffer: nat, dropsPf: nat, byCategory: seq<nat>,
                         inserted: nat, skipped: nat)

  // What a reset leaves.
  function Cleared(s: Stats): Stats {
    Stats(0, 0, 0, seq(|s.byCategory|, _ => 0), 0, 0)
  }

  function Sum(s: seq<nat>): nat {
    if s == [] then 0 else s[0] + Sum(s[1..])
  }

  lemma {:induction false} SumUpdate(s: seq<nat>, k: nat)
    requires k < |s|
    ensures Sum(s[k := s[k] + 1]) == Sum(s) + 1
  {
    if k == 0 {
      assert s[k := s[k] + 1][1..] == s[1..];
    } else {
      assert s[k := s[k] + 1][1..] == s[1..][k - 1 := s[1..][k - 1] + 1];
      SumUpdate(s[1..], k - 1);
    }
  }

  lemma {:induction false} SumZeros(n: nat)
    ensures Sum(seq(n, _ => 0)) == 0
  {
    if n != 0 {
      assert seq(n, _ => 0)[1..] == seq(n - 1, _ => 0);
      SumZeros(n - 1);
    }
  }

  function Admit(s: Stats): Stats {
    s.(evts := s.evts + 1)
  }

  function Finish(s: Stats, o: Ending): Stats
    requires ValidEnding(o) && |s.byCategory| == CATEGORIES
  {
    match o
    case Inserted => s.(inserted := s.inserted + 1)
    case NoRoom => s.(dropsBuffer := s.dropsBuffer + 1)
    case OutOfSpace(None) => s.(dropsBuffer := s.dropsBuffer + 1)
    case OutOfSpace(Some(c)) =>
      s.(dropsBuffer := s.dropsBuffer + 1, byCategory := s.byCategory[c := s.byCategory[c] + 1])
    case PageFault => s.(dropsPf := s.dropsPf + 1)
    case Skipped => s.(skipped := s.skipped + 1)
    case Misfit => s.(dropsBuffer := s.dropsBuffer + 1)
  }

  // Every admitted attempt is accounted for once; `pending` attempts are still running.
  predicate Conserved(s: Stats, pending: nat) {
    && |s.byCategory| == CATEGORIES
    && s.evts == s.inserted + s.dropsBuffer + s.dropsPf + s.skipped + pending
    && Sum(s.byCategory) <= s.dropsBuffer
  }

  lemma ClearedConserved(s: Stats)
    requires |s.byCategory| == CATEGORIES
    ensures Conserved(Cleared(s), 0)
  {
    SumZeros(CATEGORIES);
  }

  lemma FinishConserves(s: Stats, o: Ending)
    requires ValidEnding(o) && Conserved(s, 1)
    ensures Conserved(Finish(s, o), 0)
  {
    if o.OutOfSpace? && o.category.Some? {
      SumUpdate(s.byCategory, o.category.value);
    }
  }
}
