/**
 What a reader of the ring can rely on about the markers that enclose dropped stretches, and
 exactly when it cannot.
 */
module DropMarkers {
  import opened Sampling

  // Whether the last marker of a log opened a dropped stretch.
  predicate InGap(log: seq<Item>) {
    if log == [] then false
    else match log[|log| - 1]
      case EnterMark => true
      case ExitMark => false
      case Kept(_, _) => InGap(log[..|log| - 1])
  }

  // Markers strictly alternate, an enter marker first.
  predicate Alternates(log: seq<Item>) {
    log == [] ||
    (Alternates(log[..|log| - 1]) && !Clashes(log[..|log| - 1], log[|log| - 1]))
  }

  // Appending this item would put two equal markers in a row.
  predicate Clashes(log: seq<Item>, item: Item) {
    match item
    case EnterMark => InGap(log)
    case ExitMark => !InGap(log)
    case Kept(_, _) => false
  }

  // Inside a dropped stretch, whatever was recorded in dropping mode is never to be dropped.
  predicate OnlyNeverDrop(log: seq<Item>) {
    log == [] ||
    (var before, item := log[..|log| - 1], log[|log| - 1];
     OnlyNeverDrop(before) && (item.Kept? && item.sampling && InGap(before) ==> item.never))
  }

  lemma Append(log: seq<Item>, item: Item)
    ensures InGap(log + [item]) == if item.Kept? then InGap(log) else item.EnterMark?
    ensures Alternates(log + [item]) <==> Alternates(log) && !Clashes(log, item)
    ensures OnlyNeverDrop(log + [item]) <==>
            OnlyNeverDrop(log) && (item.Kept? && item.sampling && InGap(log) ==> item.never)
  {
  }

  datatype Action = Call(ev: Event, ns: nat, c: Chance) | Enable(ratio: nat) | Disable

  predicate WellFormed(a: Action) {
    a.Call? ==> a.ev.Ordinary? && !(a.ev.never && a.ev.always)
  }

  function Step(s: Sampler, a: Action): Sampler {
    match a
    case Call(ev, ns, c) => Recorded(s, ev, ns, c).0
    case Enable(ratio) => Enabled(s, ratio).0
    case Disable => Disabled(s)
  }

  // Every marker this step has to insert fits; the event itself need not.
  predicate MarkersFit(a: Action) {
    a.Call? ==> a.c.due && a.c.marker
  }

  predicate Inv(s: Sampler) {
    && !s.needE && !s.needX && InGap(s.log) == s.dropping
    && Alternates(s.log) && OnlyNeverDrop(s.log)
  }

  lemma StepInv(s: Sampler, a: Action)
    requires Inv(s) && WellFormed(a) && MarkersFit(a)
    ensures Inv(Step(s, a))
  {
    if a.Call? {
      var t := Sample(s, a.ev, a.ns, a.c.marker);
      Append(s.log, EnterMark);
      Append(s.log, ExitMark);
      Append(t.log, Kept(a.ev.never, s.mode));
    }
  }

  function Exec(s: Sampler, run: seq<Action>): Sampler
    decreases |run|
  {
    if run == [] then s else Exec(Step(s, run[0]), run[1..])
  }

  lemma {:induction false} RunInv(s: Sampler, run: seq<Action>)
    requires Inv(s)
    requires forall i :: 0 <= i < |run| ==> WellFormed(run[i]) && MarkersFit(run[i])
    ensures Inv(Exec(s, run))
    decreases |run|
  {
    if run != [] {
      StepInv(s, run[0]);
      RunInv(Step(s, run[0]), run[1..]);
    }
  }

  lemma OpenedInv(s: Sampler)
    requires Opened(s)
    ensures Inv(s)
  {
  }

  // From opening on, while every marker fits, the markers alternate, the last one tells whether a
  // stretch is being dropped, and nothing droppable is recorded between them in dropping mode.
  lemma MarkersEnclose(s: Sampler, run: seq<Action>)
    requires Opened(s)
    requires forall i :: 0 <= i < |run| ==> WellFormed(run[i]) && MarkersFit(run[i])
    ensures var t := Exec(s, run); Alternates(t.log) && InGap(t.log) == t.dropping && OnlyNeverDrop(t.log)
  {
    OpenedInv(s);
    RunInv(s, run);
  }

  // The last marker in the ring then tells whether the clock has the latest sampled event dropped.
  lemma MarkerTellsClock(s: Sampler, run: seq<Action>, ev: Event, ns: nat, c: Chance)
    requires Opened(s) && forall i :: 0 <= i < |run| ==> WellFormed(run[i]) && MarkersFit(run[i])
    requires Sampled(Exec(s, run), ev) && c.due && c.marker
    ensures InGap(Recorded(Exec(s, run), ev, ns, c).0.log) <==> Dropped(Exec(s, run), ev, ns)
  {
    OpenedInv(s);
    RunInv(s, run);
    var t := Exec(s, run);
    StepInv(t, Call(ev, ns, c));
    StretchFollowsClock(t, ev, ns, c.due);
    StretchFollowsClock(Retried(t, c.due), ev, ns, c.marker);
  }

  // The events of a log, without the markers.
  function EventsOf(log: seq<Item>): seq<Item> {
    if log == [] then []
    else
      var before, item := EventsOf(log[..|log| - 1]), log[|log| - 1];
      if item.Kept? then before + [item] else before
  }

  // The events that a run adds: every one that is not dropped and finds room, in order.
  function Survivors(s: Sampler, run: seq<Action>): seq<Item>
    decreases |run|
  {
    if run == [] then [] else Survivor(s, run[0]) + Survivors(Step(s, run[0]), run[1..])
  }

  function Survivor(s: Sampler, a: Action): seq<Item> {
    if a.Call? && a.ev.Ordinary? && !Dropped(s, a.ev, a.ns) && a.c.event then [Kept(a.ev.never, s.mode)] else []
  }

  lemma AppendEvent(log: seq<Item>, item: Item)
    ensures EventsOf(log + [item]) == EventsOf(log) + if item.Kept? then [item] else []
  {
    assert (log + [item])[..|log|] == log;
  }

  lemma InsertEvent(s: Sampler, item: Item, fits: bool)
    ensures EventsOf(Insert(s, item, fits).log) == EventsOf(s.log) + if fits && item.Kept? then [item] else []
  {
    AppendEvent(s.log, item);
  }

  // Retrying and sampling add no event.
  lemma MarkersOnly(s: Sampler, ev: Event, ns: nat, fits: bool)
    ensures EventsOf(Retried(s, fits).log) == EventsOf(s.log) == EventsOf(Sample(s, ev, ns, fits).log)
  {
    InsertEvent(s, EnterMark, fits);
    InsertEvent(s, ExitMark, fits);
  }

  lemma CallAdds(s: Sampler, a: Action)
    requires WellFormed(a)
    ensures EventsOf(Step(s, a).log) == EventsOf(s.log) + Survivor(s, a)
    ensures a.Call? ==> (Recorded(s, a.ev, a.ns, a.c).1 <==> Survivor(s, a) != [])
  {
    if a.Call? {
      var t := Retried(s, a.c.due);
      MarkersOnly(s, a.ev, a.ns, a.c.due);
      MarkersOnly(t, a.ev, a.ns, a.c.marker);
      InsertEvent(Sample(t, a.ev, a.ns, a.c.marker), Kept(a.ev.never, s.mode), a.c.event);
    }
  }

  // Over every run the ring gets exactly the events that are not dropped and find room, in order.
  lemma {:induction false} RunAdds(s: Sampler, run: seq<Action>)
    requires forall i :: 0 <= i < |run| ==> WellFormed(run[i])
    ensures EventsOf(Exec(s, run).log) == EventsOf(s.log) + Survivors(s, run)
    decreases |run|
  {
    if run != [] {
      CallAdds(s, run[0]);
      RunAdds(Step(s, run[0]), run[1..]);
    }
  }

  // The calls that set the interval: every disable, and an enable with an accepted ratio.
  predicate SetsInterval(a: Action) {
    a.Disable? || (a.Enable? && ValidRatio(a.ratio))
  }

  lemma ExactStep(s: Sampler, a: Action)
    ensures ExactFraction(Step(s, a)) <==> ExactFraction(s) || SetsInterval(a)
  {
    match a
    case Call(ev, ns, c) => CallKeepsInterval(s, ev, ns, c);
    case Enable(ratio) => EnableExactIff(s, ratio);
    case Disable =>
  }

  predicate SameRate(s: Sampler, t: Sampler) {
    s.interval == t.interval && s.ratio == t.ratio
  }

  lemma CallKeepsInterval(s: Sampler, ev: Event, ns: nat, c: Chance)
    ensures SameRate(s, Recorded(s, ev, ns, c).0)
  {
    if ev.Ordinary? {
      RetriedKeepsInterval(s, c.due);
      SampleKeepsInterval(Retried(s, c.due), ev, ns, c.marker);
      InsertKeepsInterval(Sample(Retried(s, c.due), ev, ns, c.marker), Kept(ev.never, s.mode), c.event);
    }
  }

  lemma InsertKeepsInterval(s: Sampler, item: Item, fits: bool)
    ensures SameRate(s, Insert(s, item, fits))
  {
  }

  lemma RetriedKeepsInterval(s: Sampler, fits: bool)
    ensures SameRate(s, Retried(s, fits))
  {
  }

  lemma SampleKeepsInterval(s: Sampler, ev: Event, ns: nat, fits: bool)
    ensures SameRate(s, Sample(s, ev, ns, fits))
  {
  }

  // Every accepted ratio divides a second.
  lemma EnableExactIff(s: Sampler, ratio: nat)
    ensures ExactFraction(Enabled(s, ratio).0) <==> ValidRatio(ratio) || ExactFraction(s)
  {
  }

  // Over every run, the interval is an exact fraction of a second iff it was one at the start or a
  // call has set it. Opening alone does not, and nothing undoes it.
  lemma {:induction false} ExactIff(s: Sampler, run: seq<Action>)
    ensures ExactFraction(Exec(s, run)) <==>
            ExactFraction(s) || exists i :: 0 <= i < |run| && SetsInterval(run[i])
    decreases |run|
  {
    if run != [] {
      ExactStep(s, run[0]);
      ExactIff(Step(s, run[0]), run[1..]);
      assert forall i :: 0 < i < |run| ==> run[i] == run[1..][i - 1];
    }
  }

  lemma ExactSinceOpening(s: Sampler, run: seq<Action>)
    requires Opened(s)
    ensures ExactFraction(Exec(s, run)) <==> exists i :: 0 <= i < |run| && SetsInterval(run[i])
  {
    ExactIff(s, run);
  }

  // A state from which one more call may put two equal markers in a row.
  predicate Fragile(s: Sampler) {
    var gap := InGap(s.log);
    || (s.needE && gap)
    || (!s.needE && s.needX && !gap)
    || (s.mode && s.interval < SECOND && !s.dropping && (gap || s.needE))
    || (s.mode && s.interval > 0 && s.dropping && (!gap || (s.needX && !s.needE)))
  }

  lemma RetriedLog(s: Sampler, fits: bool)
    ensures var t := Retried(s, fits);
            && InGap(t.log) == (if !fits then InGap(s.log) else s.needE || (!s.needX && InGap(s.log)))
            && (Alternates(s.log) ==> (Alternates(t.log) <==>
                 !fits || if s.needE then !InGap(s.log) else s.needX ==> InGap(s.log)))
  {
  }

  lemma SampleLog(s: Sampler, ev: Event, ns: nat, fits: bool)
    requires Alternates(s.log)
    ensures Alternates(Sample(s, ev, ns, fits).log) <==>
            !fits || !Sampled(s, ev) || Inside(s, ns) != s.dropping || InGap(s.log) == s.dropping
  {
  }

  // Alternation survives every possible next call exactly in the states that are not fragile.
  lemma BreaksIff(s: Sampler)
    requires Alternates(s.log)
    ensures Fragile(s) <==> exists a :: WellFormed(a) && !Alternates(Step(s, a).log)
  {
    if Fragile(s) {
      var a := Breaking(s);
    } else {
      forall a | WellFormed(a)
        ensures Alternates(Step(s, a).log)
      {
        if a.Call? {
          SturdyCall(s, a.ev, a.ns, a.c);
        }
      }
    }
  }

  lemma SturdyCall(s: Sampler, ev: Event, ns: nat, c: Chance)
    requires Alternates(s.log) && !Fragile(s) && ev.Ordinary?
    ensures Alternates(Recorded(s, ev, ns, c).0.log)
  {
    var t := Retried(s, c.due);
    RetriedLog(s, c.due);
    SampleLog(t, ev, ns, c.marker);
    Append(Sample(t, ev, ns, c.marker).log, Kept(ev.never, s.mode));
  }

  // The call that breaks alternation: a pending marker out of turn, or a new one.
  lemma Breaking(s: Sampler) returns (a: Action)
    requires Alternates(s.log) && Fragile(s)
    ensures WellFormed(a) && !Alternates(Step(s, a).log)
  {
    var ev := Ordinary(false, false, false);
    var gap := InGap(s.log);
    if (s.needE && gap) || (!s.needE && s.needX && !gap) {
      a := Call(ev, 0, Chance(true, false, false));
      RetriedLog(s, true);
    } else {
      // A due marker is inserted exactly when that puts the next one out of turn.
      var due := if s.dropping then gap else !gap;
      var ns := if s.dropping then 0 else s.interval;
      a := Call(ev, ns, Chance(due, true, false));
      RetriedLog(s, due);
      SampleLog(Retried(s, due), ev, ns, true);
    }
  }

  // After opening and enabling, an enter marker that fails twice is followed by an exit marker alone.
  lemma FailedMarkersBreak(s: Sampler)
    requires Opened(s)
    ensures var ev := Ordinary(false, false, false);
            var run := [Enable(2), Call(ev, SECOND - 1, Chance(false, false, false)),
                        Call(ev, SECOND, Chance(false, true, true))];
            && !Alternates(Exec(s, run).log)
            && Exec(s, run).log == [ExitMark, Kept(false, true)]
  {
    var ev := Ordinary(false, false, false);
    var a, b := Enable(2), Call(ev, SECOND - 1, Chance(false, false, false));
    var c := Call(ev, SECOND, Chance(false, true, true));
    var run := [a, b, c];
    var s1 := Step(s, a);
    var s2 := Step(s1, b);
    var s3 := Step(s2, c);
    assert run[1..] == [b, c] && [b, c][1..] == [c];
    assert Exec(s2, [c]) == s3 && Exec(s1, [b, c]) == s3 && Exec(s, run) == s3;
    assert s3.log == [ExitMark, Kept(false, true)];
    assert s3.log[..1] == [ExitMark] && [ExitMark][..0] == [];
  }
}
