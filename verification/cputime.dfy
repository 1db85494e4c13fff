/**
 Reporting a thread's user and system time: a tick-based split scaled to the measured run
 time, behind two counters that only ever advance (driver/ppm_cputime.c).
 */
module CpuTime {
  import opened Bytes
  import opened Scaling

  // The user and system time last reported for a thread.
  datatype Times = Times(stime: nat, utime: nat)

  predicate AtMost(a: Times, b: Times) {
    a.stime <= b.stime && a.utime <= b.utime
  }

  // One call's view of a thread: its measured run time and its tick-based split.
  datatype Sample = Sample(rtime: nat, stime: nat, utime: nat)

  predicate Word(x: nat) {
    x < TWO64
  }

  predicate ValidSample(c: Sample) {
    Word(c.rtime) && Word(c.stime) && Word(c.utime)
  }

  // The split of rtime a call settles on, in 64-bit unsigned arithmetic.
  function Split(c: Sample): Option<Times> {
    if c.utime == 0 then Some(Times(c.rtime, 0))
    else if c.stime == 0 then Some(Times(0, c.rtime))
    else
      match Scaled(c.stime, c.rtime, (c.stime + c.utime) % TWO64)
      case None => None
      case Some(s) => Some(Times(s, (c.rtime - s) % TWO64))
  }

  // What one call leaves in the counters when no other call interferes.
  function Adjusted(p: Times, c: Sample): Option<Times> {
    if (p.stime + p.utime) % TWO64 >= c.rtime then Some(p)
    else
      match Split(c)
      case None => None
      case Some(n) => Some(Times(Max(p.stime, n.stime), Max(p.utime, n.utime)))
  }

  // The advance loop while other CPUs advance the counter too: others[i] is what another CPU
  // advances it to between the i-th load and the i-th exchange.
  method Advance(counter: nat, target: nat, others: seq<nat>) returns (after: nat, rounds: nat)
    ensures rounds <= |others| + 1
    ensures counter <= after && target <= after
    ensures forall i :: 0 <= i < rounds && i < |others| ==> others[i] <= after
    ensures after == counter || after == target || after in others
    ensures others == [] ==> after == Max(counter, target)
  {
    after, rounds := counter, 0;
    while target > after
      invariant rounds <= |others| + 1
      invariant rounds == |others| + 1 ==> target <= after
      invariant counter <= after
      invariant forall i :: 0 <= i < rounds && i < |others| ==> others[i] <= after
      invariant after == counter || after == target || after in others
      invariant rounds == 0 ==> after == counter
      invariant others == [] && rounds > 0 ==> after == Max(counter, target)
      decreases |others| + 1 - rounds
    {
      var seen := after;
      if rounds < |others| {
        after := Max(after, others[rounds]);
      }
      if after == seen {
        after := target;
      }
      rounds := rounds + 1;
    }
  }

  // The counters of one task, and cputime_adjust on them.
  class PrevCputime {
    var stime: nat
    var utime: nat

    ghost function Value(): Times
      reads this
    {
      Times(stime, utime)
    }

    constructor ()
      ensures Value() == Times(0, 0)
    {
      stime, utime := 0, 0;
    }

    // ok is false when the scaling divides by zero; the counters are then as they were.
    method Adjust(curr: Sample) returns (ok: bool, ut: nat, st: nat)
      requires ValidSample(curr)
      modifies this
      ensures ok == Adjusted(old(Value()), curr).Some?
      ensures Value() == if ok then Adjusted(old(Value()), curr).value else old(Value())
      ensures ok ==> Times(st, ut) == Value()
      ensures AtMost(old(Value()), Value())
    {
      ok := true;
      if (stime + utime) % TWO64 < curr.rtime {
        var s, u := curr.stime, curr.utime;
        if u == 0 {
          s := curr.rtime;
        } else if s == 0 {
          u := curr.rtime;
        } else {
          var scaled := ScaleStime(s, curr.rtime, (s + u) % TWO64);
          if scaled == None {
            return false, 0, 0;
          }
          s := scaled.value;
          u := (curr.rtime - s) % TWO64;
        }
        var rounds: nat;
        stime, rounds := Advance(stime, s, []);
        utime, rounds := Advance(utime, u, []);
      }
      ut, st := utime, stime;
    }
  }

  // The counters after each call of a series, up to a division by zero.
  function Series(p: Times, calls: seq<Sample>): (s: seq<Times>)
    ensures |s| <= |calls|
    decreases |calls|
  {
    if calls == [] || Adjusted(p, calls[0]) == None then []
    else
      var q := Adjusted(p, calls[0]).value;
      [q] + Series(q, calls[1..])
  }

  // What is reported never decreases, whatever the samples.
  lemma {:induction false} SeriesMonotone(p: Times, calls: seq<Sample>, i: nat, j: nat)
    requires i <= j < |Series(p, calls)|
    ensures AtMost(p, Series(p, calls)[i])
    ensures AtMost(Series(p, calls)[i], Series(p, calls)[j])
    decreases |calls|
  {
    var q := Adjusted(p, calls[0]).value;
    var rest := Series(q, calls[1..]);
    assert Series(p, calls) == [q] + rest;
    if j > 0 {
      var i' := if i == 0 then 0 else i - 1;
      SeriesMonotone(q, calls[1..], i', j - 1);
      SeriesMonotone(q, calls[1..], j - 1, j - 1);
    }
  }

  // A call fails exactly when it scales with a divisor that vanishes.
  lemma SplitFailsIff(c: Sample)
    ensures Split(c) == None <==>
            && c.utime != 0 && c.stime != 0
            && var total := (c.stime + c.utime) % TWO64;
               total == 0 || Width(c.stime, c.rtime) >= 64 + Bits(total)
  {
    DivisorVanishesIff(c.stime, c.rtime, (c.stime + c.utime) % TWO64);
  }

  // Whatever precision is lost, the two parts add up to the run time, in 64 bits.
  lemma SplitSum(c: Sample)
    requires Word(c.rtime) && Split(c).Some?
    ensures var n := Split(c).value; n.stime + n.utime >= c.rtime && (n.stime + n.utime) % TWO64 == c.rtime
  {
    InWord(c.rtime);
    if c.utime != 0 && c.stime != 0 {
      var s := Split(c).value.stime;
      WrapsTo(c.rtime, s);
    }
  }

  // A task without user time has all of the run time as system time, and the other way round; in the
  // 32-bit range each gets its share, rounded down for the system time.
  lemma SplitShare(c: Sample)
    requires Split(c).Some?
    ensures var n, total := Split(c).value, c.stime + c.utime;
            && (c.utime == 0 ==> n == Times(c.rtime, 0))
            && (c.utime != 0 && c.stime == 0 ==> n == Times(0, c.rtime))
            && (c.utime != 0 && c.stime != 0 && total < TWO32 && c.rtime < TWO32 ==>
                  && n.stime * total <= c.stime * c.rtime < (n.stime + 1) * total
                  && n.utime == c.rtime - n.stime)
  {
    var total := c.stime + c.utime;
    if c.utime != 0 && c.stime != 0 && total < TWO32 && c.rtime < TWO32 {
      InWord(total);
      ScaledExact(c.stime, c.rtime, total);
      InWord(c.rtime - c.stime * c.rtime / total);
      FloorBounds(c.stime * c.rtime, total);
    }
  }

  lemma FloorBounds(m: nat, t: nat)
    requires t > 0
    ensures m / t * t <= m < (m / t + 1) * t
  {
    assert m == t * (m / t) + m % t;
    assert (m / t + 1) * t == t * (m / t) + t;
  }

  // A call that is behind its run time leaves the least counters that are no lower than before and no
  // lower than the split; one that is not leaves them as they are.
  lemma AdjustedLeast(p: Times, c: Sample, q: Times)
    requires Adjusted(p, c).Some?
    ensures var n := Adjusted(p, c).value;
            if (p.stime + p.utime) % TWO64 >= c.rtime then n == p
            else
              && Split(c).Some? && AtMost(p, n) && AtMost(Split(c).value, n)
              && (AtMost(p, q) && AtMost(Split(c).value, q) ==> AtMost(n, q))
  {
  }

  lemma WrapsTo(r: nat, s: nat)
    requires r < TWO64
    ensures s + (r - s) % TWO64 >= r && (s + (r - s) % TWO64) % TWO64 == r
  {
    var q := (r - s) / TWO64;
    assert r - s == TWO64 * q + (r - s) % TWO64;
    DivModUnique(s + (r - s) % TWO64, TWO64, -q, r);
  }

  lemma AdjustedCatchesUp(p: Times, c: Sample)
    requires Word(c.rtime) && Adjusted(p, c).Some?
    ensures Adjusted(p, c).value.stime + Adjusted(p, c).value.utime >= c.rtime
  {
    var sum := p.stime + p.utime;
    if sum % TWO64 < c.rtime {
      SplitSum(c);
    } else {
      assert sum % TWO64 <= sum;
    }
  }

  // Whatever the samples, a call that succeeds has caught up with its run time, in unbounded arithmetic.
  lemma {:induction false} SeriesNeverBehind(p: Times, calls: seq<Sample>, i: nat)
    requires i < |Series(p, calls)| && Word(calls[i].rtime)
    ensures Series(p, calls)[i].stime + Series(p, calls)[i].utime >= calls[i].rtime
    decreases |calls|
  {
    if i > 0 {
      SeriesNeverBehind(Adjusted(p, calls[0]).value, calls[1..], i - 1);
    } else {
      AdjustedCatchesUp(p, calls[0]);
    }
  }

  // A sample whose user time makes up for the bits dropped, and whose run time leaves room for a sum
  // of two.
  predicate Precise(c: Sample) {
    && c.rtime < TWO63
    && (c.utime == 0 || c.stime == 0 ||
        (c.stime + c.utime < TWO64 && Ample(c.stime, c.rtime, c.stime + c.utime)))
  }

  predicate Halves(p: Times) {
    p.stime < TWO63 && p.utime < TWO63
  }

  // Then the split succeeds, and its parts add up to the run time without wrapping.
  lemma SplitExact(c: Sample)
    requires Precise(c)
    ensures Split(c).Some? && Split(c).value.stime + Split(c).value.utime == c.rtime
  {
    if c.utime != 0 && c.stime != 0 {
      var total := c.stime + c.utime;
      ScaledWithinRuntime(c.stime, c.rtime, total);
      InWord(total);
      InWord(c.rtime - Scaled(c.stime, c.rtime, total).value);
    }
  }

  lemma AdjustedPrecisely(p: Times, c: Sample)
    requires Halves(p) && Precise(c)
    ensures Adjusted(p, c).Some? && Halves(Adjusted(p, c).value)
    ensures (Adjusted(p, c).value.stime + Adjusted(p, c).value.utime) % TWO64 >= c.rtime
  {
    SplitExact(c);
    InWord(p.stime + p.utime);
    var q := Adjusted(p, c).value;
    InWord(q.stime + q.utime);
  }

  // With such samples every call succeeds, and the reported 64-bit sum has caught up with the run time.
  lemma {:induction false} SeriesCatchesUp(p: Times, calls: seq<Sample>, i: nat)
    requires Halves(p) && i < |calls| && forall k :: 0 <= k < |calls| ==> Precise(calls[k])
    ensures i < |Series(p, calls)| && Halves(Series(p, calls)[i])
    ensures (Series(p, calls)[i].stime + Series(p, calls)[i].utime) % TWO64 >= calls[i].rtime
    decreases |calls|
  {
    AdjustedPrecisely(p, calls[0]);
    if i > 0 {
      SeriesCatchesUp(Adjusted(p, calls[0]).value, calls[1..], i - 1);
    }
  }
}

/**
 Many calls at once on the same two counters: each load and each compare-and-exchange is one
 step, in any interleaving.
 */
module CpuTimeRace {
  import opened Bytes
  import opened CpuTime

  // Where a call is. base is the number of reports made before it began.
  datatype Call =
    | Idle
    | Summing(c: Sample, base: nat, s: nat)
    | Advancing(next: Times, base: nat, onUtime: bool)
    | Exchanging(next: Times, base: nat, onUtime: bool, seen: nat)
    | Reading(base: nat)
    | ReadUtime(base: nat, ut: nat)

  datatype Report = Report(value: Times, base: nat)

  datatype State = State(shared: Times, calls: seq<Call>, log: seq<Report>)

  datatype Action = Begin(i: nat, c: Sample) | Go(i: nat)

  function Cell(p: Times, onUtime: bool): nat {
    if onUtime then p.utime else p.stime
  }

  function Store(p: Times, onUtime: bool, v: nat): Times {
    if onUtime then p.(utime := v) else p.(stime := v)
  }

  predicate Enabled(s: State, a: Action) {
    && a.i < |s.calls|
    && match a
       case Begin(i, c) => s.calls[i].Idle? && ValidSample(c)
       case Go(i) => !s.calls[i].Idle? && Divides(s.shared, s.calls[i])
  }

  // Whether the counters have caught up with the run time that a call is about to compare them with.
  predicate UpToDate(p: Times, call: Call)
    requires call.Summing?
  {
    (call.s + p.utime) % TWO64 >= call.c.rtime
  }

  // A call that has to scale does not divide by zero.
  predicate Divides(p: Times, call: Call) {
    call.Summing? && !UpToDate(p, call) ==> Split(call.c).Some?
  }

  // What a call in progress does next, given the counters: where it goes and what it stores.
  function Proceed(p: Times, call: Call): (Call, Times)
    requires !call.Idle? && Divides(p, call)
  {
    match call
    case Summing(c, base, s) =>
      (if UpToDate(p, call) then Reading(base) else Advancing(Split(c).value, base, false), p)
    case Advancing(next, base, onUtime) =>
      if Cell(next, onUtime) > Cell(p, onUtime) then (Exchanging(next, base, onUtime, Cell(p, onUtime)), p)
      else if onUtime then (Reading(base), p)
      else (Advancing(next, base, true), p)
    case Exchanging(next, base, onUtime, seen) =>
      (Advancing(next, base, onUtime),
       if Cell(p, onUtime) == seen then Store(p, onUtime, Cell(next, onUtime)) else p)
    case Reading(base) => (ReadUtime(base, p.utime), p)
    case ReadUtime(base, ut) => (Idle, p)
  }

  function Apply(s: State, a: Action): State
    requires Enabled(s, a)
  {
    match a
    case Begin(i, c) =>
      s.(calls := s.calls[i := Summing(c, |s.log|, s.shared.stime)])
    case Go(i) =>
      var (call, shared) := Proceed(s.shared, s.calls[i]);
      var log := if s.calls[i].ReadUtime?
                 then s.log + [Report(Times(s.shared.stime, s.calls[i].ut), s.calls[i].base)]
                 else s.log;
      State(shared, s.calls[i := call], log)
  }

  // A report is at least as large as each of the first n reports.
  predicate Covers(log: seq<Report>, n: nat, v: Times)
    requires n <= |log|
  {
    forall j :: 0 <= j < n ==> AtMost(log[j].value, v)
  }

  predicate UtimeCovers(log: seq<Report>, n: nat, ut: nat)
    requires n <= |log|
  {
    forall j :: 0 <= j < n ==> log[j].value.utime <= ut
  }

  predicate CallInv(call: Call, shared: Times, log: seq<Report>) {
    && (!call.Idle? ==> call.base <= |log|)
    && (call.Exchanging? ==> call.seen < Cell(call.next, call.onUtime))
    && (call.ReadUtime? ==> UtimeCovers(log, call.base, call.ut) && call.ut <= shared.utime)
  }

  predicate Inv(s: State) {
    && Covers(s.log, |s.log|, s.shared)
    && (forall i :: 0 <= i < |s.calls| ==> CallInv(s.calls[i], s.shared, s.log))
    && (forall k :: 0 <= k < |s.log| ==> s.log[k].base <= k && Covers(s.log, s.log[k].base, s.log[k].value))
  }

  lemma StepInv(s: State, a: Action)
    requires Inv(s) && Enabled(s, a)
    ensures Inv(Apply(s, a))
    ensures AtMost(s.shared, Apply(s, a).shared)
    ensures s.log <= Apply(s, a).log
  {
    var t := Apply(s, a);
    assert CallInv(s.calls[a.i], s.shared, s.log);
    assert AtMost(s.shared, t.shared);
    forall i | 0 <= i < |t.calls|
      ensures CallInv(t.calls[i], t.shared, t.log)
    {
      assert i != a.i ==> t.calls[i] == s.calls[i] && CallInv(s.calls[i], s.shared, s.log);
    }
  }

  ghost predicate Legal(s: State, run: seq<Action>)
    decreases |run|
  {
    run != [] ==> Enabled(s, run[0]) && Legal(Apply(s, run[0]), run[1..])
  }

  ghost function Exec(s: State, run: seq<Action>): State
    requires Legal(s, run)
    decreases |run|
  {
    if run == [] then s else Exec(Apply(s, run[0]), run[1..])
  }

  predicate Initial(s: State) {
    s.log == [] && forall i :: 0 <= i < |s.calls| ==> s.calls[i].Idle?
  }

  lemma {:induction false} RunInv(s: State, run: seq<Action>)
    requires Inv(s) && Legal(s, run)
    ensures Inv(Exec(s, run))
    ensures AtMost(s.shared, Exec(s, run).shared)
    decreases |run|
  {
    if run != [] {
      StepInv(s, run[0]);
      RunInv(Apply(s, run[0]), run[1..]);
    }
  }

  // In every interleaving, a call reports at least what had been reported when it began.
  lemma ReportsNeverDecrease(s: State, run: seq<Action>, j: nat, k: nat)
    requires Initial(s) && Legal(s, run)
    requires k < |Exec(s, run).log| && j < Exec(s, run).log[k].base
    ensures j < k && AtMost(Exec(s, run).log[j].value, Exec(s, run).log[k].value)
  {
    RunInv(s, run);
  }

  // n steps of one call while every other call stands still.
  function Alone(p: Times, call: Call, n: nat): (Call, Times)
    requires Divides(p, call)
    decreases n
  {
    if n == 0 || call.Idle? then (call, p)
    else
      var (next, q) := Proceed(p, call);
      Alone(q, next, n - 1)
  }

  lemma {:induction false} AloneThen(p: Times, call: Call, m: nat, n: nat)
    requires Divides(p, call)
    requires !Alone(p, call, m).0.Summing?
    ensures Alone(p, call, m + n) == Alone(Alone(p, call, m).1, Alone(p, call, m).0, n)
    decreases m
  {
    if m > 0 && !call.Idle? {
      var (next, q) := Proceed(p, call);
      AloneThen(q, next, m - 1, n);
    }
  }

  // One advance, alone: a single load when there is nothing to do, load, exchange, load otherwise.
  lemma SoloAdvance(p: Times, next: Times, base: nat, onUtime: bool) returns (n: nat)
    ensures Alone(p, Advancing(next, base, onUtime), n) ==
            (if onUtime then Reading(base) else Advancing(next, base, true),
             Store(p, onUtime, Max(Cell(p, onUtime), Cell(next, onUtime))))
  {
    var call := Advancing(next, base, onUtime);
    if Cell(next, onUtime) <= Cell(p, onUtime) {
      n := 1;
      assert Alone(p, call, 1) == Alone(p, Proceed(p, call).0, 0);
    } else {
      n := 3;
      var q := Store(p, onUtime, Cell(next, onUtime));
      var mid := Exchanging(next, base, onUtime, Cell(p, onUtime));
      assert Alone(q, call, 1) == Alone(q, Proceed(q, call).0, 0);
      assert Alone(p, mid, 2) == Alone(q, call, 1);
      assert Alone(p, call, 3) == Alone(p, mid, 2);
    }
  }

  // Left alone, a call does exactly what the sequential adjustment does.
  lemma SoloCall(p: Times, c: Sample, base: nat) returns (n: nat)
    requires Adjusted(p, c).Some?
    ensures Alone(p, Summing(c, base, p.stime), n) == (Reading(base), Adjusted(p, c).value)
  {
    var call := Summing(c, base, p.stime);
    if (p.stime + p.utime) % TWO64 >= c.rtime {
      n := 1;
      assert Alone(p, call, 1) == Alone(p, Reading(base), 0);
    } else {
      var next := Split(c).value;
      var first := Advancing(next, base, false);
      assert Alone(p, call, 1) == Alone(p, first, 0);
      var i := SoloAdvance(p, next, base, false);
      var q := Alone(p, first, i).1;
      var j := SoloAdvance(q, next, base, true);
      AloneThen(p, first, i, j);
      AloneThen(p, call, 1, i + j);
      n := 1 + (i + j);
    }
  }
}
