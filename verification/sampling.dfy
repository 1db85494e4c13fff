/**
 Sampling under load: in dropping mode only the first part of every second is kept, and the
 driver marks where it starts and stops dropping. Recording an event may first have to
 record such a marker, through the same recorder (driver/main.c).
 */
module Sampling {
  import opened Bytes

  const SECOND: nat := 1_000_000_000

  // An ordinary event carries its drop flags, and whether it changes no state worth keeping.
  datatype Event = DropE | DropX | Ordinary(never: bool, always: bool, stateless: bool)

  // What is in the ring: the two markers, and ordinary events with the mode they were recorded in.
  datatype Item = EnterMark | ExitMark | Kept(never: bool, sampling: bool)

  datatype Sampler = Sampler(
    mode: bool, interval: nat, ratio: nat, dropping: bool, needE: bool, needX: bool, log: seq<Item>)

  // Whether each of the up to three insertions of one call succeeds: a marker still due, a marker
  // that has just become due, and the event itself.
  datatype Chance = Chance(due: bool, marker: bool, event: bool)

  function Insert(s: Sampler, item: Item, fits: bool): Sampler {
    if fits then s.(log := s.log + [item]) else s
  }

  function MarkE(s: Sampler, fits: bool): Sampler {
    Insert(s, EnterMark, fits).(needE := !fits)
  }

  function MarkX(s: Sampler, fits: bool): Sampler {
    Insert(s, ExitMark, fits).(needX := !fits)
  }

  // A marker whose insertion failed earlier is tried again first.
  function Retried(s: Sampler, fits: bool): Sampler {
    if s.needE then MarkE(s, fits) else if s.needX then MarkX(s, fits) else s
  }

  predicate Inside(s: Sampler, ns: nat) {
    ns % SECOND < s.interval
  }

  // Whether an ordinary event is subject to sampling at all.
  predicate Sampled(s: Sampler, ev: Event) {
    s.mode && ev.Ordinary? && !ev.stateless && !ev.never && !ev.always
  }

  function Sample(s: Sampler, ev: Event, ns: nat, fits: bool): Sampler {
    if !Sampled(s, ev) then s
    else if !Inside(s, ns) then (if s.dropping then s else MarkE(s.(dropping := true), fits))
    else if s.dropping then MarkX(s.(dropping := false), fits)
    else s
  }

  predicate Dropped(s: Sampler, ev: Event, ns: nat)
    requires ev.Ordinary?
  {
    s.mode && (ev.stateless || (!ev.never && (ev.always || !Inside(s, ns))))
  }

  // Everything one call of the recorder does, and whether it inserted the event.
  function Recorded(s: Sampler, ev: Event, ns: nat, c: Chance): (Sampler, bool) {
    match ev
    case DropE => (Insert(s, EnterMark, c.event), c.event)
    case DropX => (Insert(s, ExitMark, c.event), c.event)
    case Ordinary(never, _, _) =>
      var t := Sample(Retried(s, c.due), ev, ns, c.marker);
      if Dropped(s, ev, ns) then (t, false)
      else (Insert(t, Kept(never, s.mode), c.event), c.event)
  }

  predicate ValidRatio(r: nat) {
    r == 1 || r == 2 || r == 4 || r == 8 || r == 16 || r == 32 || r == 64 || r == 128
  }

  function Enabled(s: Sampler, ratio: nat): (Sampler, bool) {
    var t := s.(mode := true);
    if ValidRatio(ratio) then (t.(interval := SECOND / ratio, ratio := ratio), true) else (t, false)
  }

  function Disabled(s: Sampler): Sampler {
    s.(mode := false, interval := SECOND, ratio := 1)
  }

  // The state a first open leaves.
  predicate Opened(s: Sampler) {
    s == Sampler(false, 0, 1, false, false, false, [])
  }

  // One consumer on one CPU.
  class Consumer {
    var droppingMode: bool
    var samplingInterval: nat
    var samplingRatio: nat
    var isDropping: bool
    var needE: bool
    var needX: bool
    var log: seq<Item>

    ghost function Value(): Sampler
      reads this
    {
      Sampler(droppingMode, samplingInterval, samplingRatio, isDropping, needE, needX, log)
    }

    constructor ()
      ensures Opened(Value())
    {
      droppingMode, samplingInterval, samplingRatio := false, 0, 1;
      isDropping, needE, needX := false, false, false;
      log := [];
    }

    // record_event_consumer: depth counts the nested calls, this one included.
    method Record(ev: Event, ns: nat, c: Chance) returns (inserted: bool, depth: nat)
      requires ev.Ordinary? ==> !(ev.never && ev.always)
      modifies this
      ensures (Value(), inserted) == Recorded(old(Value()), ev, ns, c)
      ensures 1 <= depth <= if ev.Ordinary? then 2 else 1
      decreases if ev.Ordinary? then 1 else 0, 0
    {
      depth := 1;
      if ev.Ordinary? {
        if needE {
          depth := RecordDropE(ns, c.due);
        } else if needX {
          depth := RecordDropX(ns, c.due);
        }
        var drop, inner := DropEvent(ev, ns, c.marker);
        depth := if inner > depth then inner else depth;
        if drop {
          return false, depth;
        }
      }
      if c.event {
        var item := match ev
          case DropE => EnterMark
          case DropX => ExitMark
          case Ordinary(never, _, _) => Kept(never, droppingMode);
        log := log + [item];
      }
      inserted := c.event;
    }

    method RecordDropE(ns: nat, fits: bool) returns (depth: nat)
      modifies this
      ensures Value() == MarkE(old(Value()), fits)
      ensures depth == 2
      decreases 0, 1
    {
      var inserted;
      inserted, depth := Record(DropE, ns, Chance(false, false, fits));
      needE := !inserted;
      depth := depth + 1;
    }

    method RecordDropX(ns: nat, fits: bool) returns (depth: nat)
      modifies this
      ensures Value() == MarkX(old(Value()), fits)
      ensures depth == 2
      decreases 0, 1
    {
      var inserted;
      inserted, depth := Record(DropX, ns, Chance(false, false, fits));
      needX := !inserted;
      depth := depth + 1;
    }

    // drop_event, in the order of the source: the stateless test first, then the drop flags,
    // then the clock.
    method DropEvent(ev: Event, ns: nat, fits: bool) returns (drop: bool, depth: nat)
      requires ev.Ordinary? && !(ev.never && ev.always)
      modifies this
      ensures drop == Dropped(old(Value()), ev, ns)
      ensures Value() == Sample(old(Value()), ev, ns, fits)
      ensures 1 <= depth <= 2
      decreases 0, 2
    {
      depth := 1;
      if droppingMode && ev.stateless {
        return true, depth;
      }
      if ev.never {
        return false, depth;
      }
      if droppingMode {
        if ev.always {
          return true, depth;
        }
        if samplingInterval < SECOND && ns % SECOND >= samplingInterval {
          if !isDropping {
            isDropping := true;
            depth := RecordDropE(ns, fits);
          }
          return true, depth;
        }
        if isDropping {
          isDropping := false;
          depth := RecordDropX(ns, fits);
        }
      }
      drop := false;
    }

    method EnableDroppingMode(ratio: nat) returns (ok: bool)
      modifies this
      ensures (Value(), ok) == Enabled(old(Value()), ratio)
      ensures ExactFraction(Value()) <==> ok || ExactFraction(old(Value()))
    {
      droppingMode := true;
      if ratio != 1 && ratio != 2 && ratio != 4 && ratio != 8 &&
         ratio != 16 && ratio != 32 && ratio != 64 && ratio != 128 {
        return false;
      }
      samplingInterval, samplingRatio := SECOND / ratio, ratio;
      return true;
    }

    method DisableDroppingMode()
      modifies this
      ensures Value() == Disabled(old(Value()))
      ensures ExactFraction(Value()) && forall ev: Event, ns | ev.Ordinary? :: !Dropped(Value(), ev, ns)
    {
      droppingMode, samplingInterval, samplingRatio := false, SECOND, 1;
    }
  }

  // The interval is an exact fraction of a second.
  predicate ExactFraction(s: Sampler) {
    s.interval * s.ratio == SECOND
  }

  // A rejected enable right after opening drops every event that may be dropped.
  lemma RejectedEnableDropsAll(s: Sampler, ratio: nat, ev: Event, ns: nat)
    requires Opened(s) && !ValidRatio(ratio)
    requires ev.Ordinary? && !ev.never
    ensures Dropped(Enabled(s, ratio).0, ev, ns)
  {
  }

  // Outside dropping mode nothing is dropped. In it, stateless events always are, and of the others
  // those that must never be dropped never and those that may always be dropped always.
  lemma FlagsDecide(s: Sampler, ev: Event, ns: nat)
    requires ev.Ordinary? && !(ev.never && ev.always)
    ensures !s.mode ==> !Dropped(s, ev, ns)
    ensures s.mode && ev.stateless ==> Dropped(s, ev, ns)
    ensures !ev.stateless && ev.never ==> !Dropped(s, ev, ns)
    ensures s.mode && ev.always ==> Dropped(s, ev, ns)
  {
  }

  // What is left to the clock is dropped exactly from the ratio-th part of each second on.
  lemma DroppedIff(s: Sampler, ev: Event, ns: nat)
    requires Sampled(s, ev) && ExactFraction(s)
    ensures Dropped(s, ev, ns) <==> ns % SECOND * s.ratio >= SECOND
  {
    var n, i, r := ns % SECOND, s.interval, s.ratio;
    assert r > 0;
    if n >= i {
      Distribute(n - i, i, r);
    } else {
      Distribute(i - n, n, r);
      assert (i - n) * r > 0;
    }
  }

  // A sampled event opens a stretch that is dropped, or closes it, according to whether it is dropped
  // itself; no other event does either.
  lemma StretchFollowsClock(s: Sampler, ev: Event, ns: nat, fits: bool)
    requires ev.Ordinary?
    ensures Sampled(s, ev) ==> (Sample(s, ev, ns, fits).dropping <==> Dropped(s, ev, ns))
    ensures !Sampled(s, ev) ==> Sample(s, ev, ns, fits) == s
    ensures Dropped(Retried(s, fits), ev, ns) <==> Dropped(s, ev, ns)
  {
  }

  // The ratios that are accepted are the powers of two up to 128.
  lemma ValidRatioIff(r: nat)
    ensures ValidRatio(r) <==> exists k: nat :: k <= 7 && r == Pow2(k)
  {
    assert Pow2(0) == 1 && Pow2(1) == 2 && Pow2(2) == 4 && Pow2(3) == 8;
    assert Pow2(4) == 16 && Pow2(5) == 32 && Pow2(6) == 64 && Pow2(7) == 128;
  }

  // In how many of the first n nanoseconds of a run of whole seconds such an event is kept.
  function KeptTime(s: Sampler, ev: Event, n: nat): nat
    requires ev.Ordinary?
  {
    if n == 0 then 0 else KeptTime(s, ev, n - 1) + (if Dropped(s, ev, n - 1) then 0 else 1)
  }

  lemma {:induction false} KeptWithin(s: Sampler, ev: Event, seconds: nat, n: nat)
    requires Sampled(s, ev) && s.interval <= SECOND && n <= SECOND
    ensures KeptTime(s, ev, seconds * SECOND + n) ==
            KeptTime(s, ev, seconds * SECOND) + (if n < s.interval then n else s.interval)
    decreases n
  {
    if n > 0 {
      KeptWithin(s, ev, seconds, n - 1);
      assert (seconds * SECOND + (n - 1)) % SECOND == n - 1;
    }
  }

  lemma WithinSecond(interval: nat, ratio: nat)
    requires interval * ratio == SECOND
    ensures interval <= SECOND
  {
    assert ratio >= 1;
    assert interval * ratio == interval + interval * (ratio - 1);
  }

  lemma Distribute(a: nat, b: nat, c: nat)
    ensures (a + b) * c == a * c + b * c
  {
  }

  // The kept part is exactly one ratio-th of every whole number of seconds.
  lemma {:induction false} KeptShare(s: Sampler, ev: Event, seconds: nat)
    requires Sampled(s, ev) && ExactFraction(s)
    ensures KeptTime(s, ev, seconds * SECOND) * s.ratio == seconds * SECOND
    decreases seconds
  {
    if seconds > 0 {
      KeptShare(s, ev, seconds - 1);
      WithinSecond(s.interval, s.ratio);
      KeptWithin(s, ev, seconds - 1, SECOND);
      Distribute(KeptTime(s, ev, (seconds - 1) * SECOND), s.interval, s.ratio);
    }
  }

  // So after an enable with an accepted ratio one event in `ratio` is kept, whatever went before.
  lemma EnabledShare(s: Sampler, ratio: nat, ev: Event, seconds: nat)
    requires ValidRatio(ratio) && ev == Ordinary(false, false, false)
    ensures var t := Enabled(s, ratio).0;
            Enabled(s, ratio).1 && Sampled(t, ev) && KeptTime(t, ev, seconds * SECOND) * ratio == seconds * SECOND
  {
    KeptShare(Enabled(s, ratio).0, ev, seconds);
  }
}
