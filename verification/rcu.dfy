/**
 Delivering an event walks the consumer list without taking the consumer mutex, while the
 holder of the mutex links consumers in, unlinks them and frees them after a grace period
 (driver/main.c). Every pointer access is one step, in any interleaving.
 */
module Rcu {
  import opened Bytes

  // A walk over the list. cur is the consumer the walk stands on. The rest is history that no
  // step reads: pos is the place in the list of the next consumer, seen are the consumers visited
  // so far, and owed those that have been listed ever since the walk began.
  datatype Reader = Outside | Walking(cur: Option<nat>, pos: nat, seen: seq<nat>, owed: set<nat>)

  // Who holds the mutex: nobody in particular, or a caller that has unlinked a consumer and waits
  // for the walks that were under way.
  datatype Writer = Ready | Waiting(victim: nat, walks: set<nat>)

  // Consumers are named by their allocation, so a name is never used twice. head and next are the
  // pointers; list is the list they spell; open are the open rings of each consumer.
  datatype State = State(
    head: Option<nat>, next: map<nat, Option<nat>>, list: seq<nat>,
    used: set<nat>, freed: set<nat>, open: map<nat, set<nat>>,
    readers: seq<Reader>, writer: Writer)

  datatype Action =
    | Enter(r: nat) | Advance(r: nat) | Exit(r: nat)
    | Link(n: nat) | Discard(n: nat)
    | OpenRing(n: nat, ring: nat) | CloseRing(n: nat, ring: nat)
    | Unlink(k: nat) | Reclaim

  // The pointer a walk follows next; reading it touches the consumer the walk stands on.
  function Target(s: State, cur: Option<nat>): Option<nat>
    requires cur.Some? ==> cur.value in s.next
  {
    if cur.None? then s.head else s.next[cur.value]
  }

  function PointerAt(list: seq<nat>, p: nat): Option<nat> {
    if p < |list| then Some(list[p]) else None
  }

  predicate Distinct(list: seq<nat>) {
    forall i, j :: 0 <= i < j < |list| ==> list[i] != list[j]
  }

  // The pointers spell the list.
  predicate Spells(head: Option<nat>, next: map<nat, Option<nat>>, list: seq<nat>) {
    && head == PointerAt(list, 0)
    && (forall i :: 0 <= i < |list| ==> list[i] in next && next[list[i]] == PointerAt(list, i + 1))
  }

  function Without(list: seq<nat>, k: nat): (shorter: seq<nat>)
    requires k < |list|
    ensures |shorter| == |list| - 1
    ensures forall i :: 0 <= i < |shorter| ==> shorter[i] == list[if i < k then i else i + 1]
  {
    list[..k] + list[k + 1..]
  }

  predicate WriterInv(s: State) {
    s.writer.Waiting? ==>
      && s.writer.victim !in s.list && s.writer.victim !in s.freed
      && s.writer.victim in s.next && s.writer.victim in s.used
      && s.writer.victim !in s.open
  }

  // A walk stands on a listed consumer, or on the one being removed if the removal waits for it.
  predicate Stands(s: State, r: nat, w: Reader)
    requires w.Walking?
  {
    match w.cur
    case None => w.pos == 0 && w.seen == []
    case Some(n) =>
      || (0 < w.pos <= |s.list| && s.list[w.pos - 1] == n)
      || (s.writer.Waiting? && s.writer.victim == n && r in s.writer.walks)
  }

  predicate Account(list: seq<nat>, w: Reader)
    requires w.Walking?
  {
    && w.pos <= |list|
    && Distinct(w.seen)
    && (forall j :: w.pos <= j < |list| ==> list[j] !in w.seen)
    && (forall n :: n in w.owed ==> n in w.seen || n in list[w.pos..])
  }

  predicate ReaderInv(s: State, r: nat, w: Reader) {
    w.Walking? ==>
      && Stands(s, r, w) && Account(s.list, w)
      && (w.cur.Some? ==> w.cur.value in s.next)
      && Target(s, w.cur) == PointerAt(s.list, w.pos)
      && (forall i :: 0 <= i < |w.seen| ==> w.seen[i] in s.used)
  }

  predicate ReadersInv(s: State) {
    forall r :: 0 <= r < |s.readers| ==> ReaderInv(s, r, s.readers[r])
  }

  predicate Inv(s: State) {
    && Distinct(s.list) && Spells(s.head, s.next, s.list) && WriterInv(s)
    && (forall i :: 0 <= i < |s.list| ==> s.list[i] in s.used && s.list[i] !in s.freed)
    && (forall n :: n in s.open ==> n in s.list)
    && s.freed <= s.used
    && ReadersInv(s)
  }

  predicate Enabled(s: State, a: Action) {
    match a
    case Enter(r) => r < |s.readers| && s.readers[r].Outside?
    case Advance(r) => Walks(s, r) && Target(s, s.readers[r].cur).Some?
    case Exit(r) => Walks(s, r) && Target(s, s.readers[r].cur).None?
    case Link(n) => s.writer.Ready? && n !in s.used
    case Discard(n) => s.writer.Ready? && n !in s.used
    case OpenRing(n, ring) => s.writer.Ready? && n in s.list
    case CloseRing(n, ring) => s.writer.Ready? && n in s.open && ring in s.open[n]
    case Unlink(k) => s.writer.Ready? && k < |s.list| && s.list[k] !in s.open
    case Reclaim => s.writer.Waiting? && s.writer.walks == {}
  }

  predicate Walks(s: State, r: nat) {
    r < |s.readers| && s.readers[r].Walking? && (s.readers[r].cur.Some? ==> s.readers[r].cur.value in s.next)
  }

  function Elements(list: seq<nat>): set<nat> {
    set i | 0 <= i < |list| :: list[i]
  }

  // The walks under way: those the grace period waits for.
  function Active(readers: seq<Reader>): set<nat> {
    set r | 0 <= r < |readers| && readers[r].Walking?
  }

  function Pushed(w: Reader): Reader {
    if w.Walking? && w.cur.Some? then w.(pos := w.pos + 1) else w
  }

  function Lost(w: Reader, k: nat, n: nat): Reader {
    if w.Walking? then w.(pos := if w.pos > k then w.pos - 1 else w.pos, owed := w.owed - {n}) else w
  }

  function Apply(s: State, a: Action): State
    requires Enabled(s, a)
  {
    match a
    case Enter(r) =>
      s.(readers := s.readers[r := Walking(None, 0, [], Elements(s.list))])
    case Advance(r) =>
      var w := s.readers[r];
      var n := Target(s, w.cur).value;
      s.(readers := s.readers[r := Walking(Some(n), w.pos + 1, w.seen + [n], w.owed)])
    case Exit(r) =>
      var t := s.(readers := s.readers[r := Outside]);
      if s.writer.Waiting? then t.(writer := Waiting(s.writer.victim, s.writer.walks - {r})) else t
    case Link(n) =>
      s.(head := Some(n), next := s.next[n := s.head], list := [n] + s.list, used := s.used + {n},
         readers := seq(|s.readers|, i requires 0 <= i < |s.readers| => Pushed(s.readers[i])))
    case Discard(n) => s.(used := s.used + {n}, freed := s.freed + {n})
    case OpenRing(n, ring) =>
      s.(open := s.open[n := (if n in s.open then s.open[n] else {}) + {ring}])
    case CloseRing(n, ring) =>
      s.(open := if s.open[n] == {ring} then s.open - {n} else s.open[n := s.open[n] - {ring}])
    case Unlink(k) =>
      var n := s.list[k];
      var after := if n in s.next then s.next[n] else None;
      s.(head := if k == 0 then after else s.head,
         next := if k == 0 then s.next else s.next[s.list[k - 1] := after],
         list := Without(s.list, k),
         writer := Waiting(n, Active(s.readers)),
         readers := seq(|s.readers|, i requires 0 <= i < |s.readers| => Lost(s.readers[i], k, n)))
    case Reclaim => s.(freed := s.freed + {s.writer.victim}, writer := Ready)
  }

  lemma EnterInv(s: State, r: nat)
    requires Inv(s) && Enabled(s, Enter(r))
    ensures Inv(Apply(s, Enter(r)))
  {
  }

  lemma AdvanceInv(s: State, r: nat)
    requires Inv(s) && Enabled(s, Advance(r))
    ensures Inv(Apply(s, Advance(r)))
  {
    var t := Apply(s, Advance(r));
    forall i | 0 <= i < |t.readers|
      ensures ReaderInv(t, i, t.readers[i])
    {
      if i == r {
        AdvancedInv(s, r);
      } else {
        assert ReaderInv(s, i, s.readers[i]);
      }
    }
  }

  lemma AdvancedInv(s: State, r: nat)
    requires Inv(s) && Enabled(s, Advance(r))
    ensures var t := Apply(s, Advance(r)); ReaderInv(t, r, t.readers[r])
  {
    var w := s.readers[r];
    assert ReaderInv(s, r, w);
    AdvancedAccount(s.list, w);
  }

  lemma AdvancedAccount(list: seq<nat>, w: Reader)
    requires Distinct(list) && w.Walking? && Account(list, w) && w.pos < |list|
    ensures Account(list, Walking(Some(list[w.pos]), w.pos + 1, w.seen + [list[w.pos]], w.owed))
  {
  }

  lemma ExitInv(s: State, r: nat)
    requires Inv(s) && Enabled(s, Exit(r))
    ensures Inv(Apply(s, Exit(r)))
  {
    var t := Apply(s, Exit(r));
    forall i | 0 <= i < |t.readers|
      ensures ReaderInv(t, i, t.readers[i])
    {
      assert i != r ==> ReaderInv(s, i, s.readers[i]);
    }
  }

  lemma LinkInv(s: State, n: nat)
    requires Inv(s) && Enabled(s, Link(n))
    ensures Inv(Apply(s, Link(n)))
  {
    var t := Apply(s, Link(n));
    assert forall i :: 0 < i < |t.list| ==> t.list[i] == s.list[i - 1];
    forall i | 0 <= i < |t.readers|
      ensures ReaderInv(t, i, t.readers[i])
    {
      PushedInv(s, n, i);
    }
  }

  lemma PushedInv(s: State, n: nat, r: nat)
    requires Inv(s) && Enabled(s, Link(n)) && r < |s.readers|
    ensures ReaderInv(Apply(s, Link(n)), r, Pushed(s.readers[r]))
  {
    var w := s.readers[r];
    assert ReaderInv(s, r, w);
    if w.Walking? {
      assert n !in w.seen;
      PushedAccount(s.list, w, n);
      PushedStands(s, n, r);
    }
  }

  lemma PushedStands(s: State, n: nat, r: nat)
    requires Inv(s) && Enabled(s, Link(n)) && r < |s.readers| && s.readers[r].Walking?
    ensures var t, w := Apply(s, Link(n)), Pushed(s.readers[r]);
            && Stands(t, r, w) && (w.cur.Some? ==> w.cur.value in t.next)
            && Target(t, w.cur) == PointerAt(t.list, w.pos)
  {
    var w, list := s.readers[r], [n] + s.list;
    assert ReaderInv(s, r, w);
    assert forall i :: 0 <= i < |s.list| ==> list[i + 1] == s.list[i];
    if w.cur.Some? {
      assert w.cur.value != n;
      assert PointerAt(list, w.pos + 1) == PointerAt(s.list, w.pos);
    }
  }

  lemma PushedAccount(list: seq<nat>, w: Reader, n: nat)
    requires w.Walking? && Account(list, w) && n !in w.seen && (w.cur.None? ==> w.pos == 0)
    ensures Account([n] + list, Pushed(w))
  {
    var v := Pushed(w);
    assert ([n] + list)[v.pos..] == if w.cur.Some? then list[w.pos..] else [n] + list[w.pos..];
  }

  // Redirecting one pointer past the k-th element spells the list without it; the element itself
  // still points to where the list goes on.
  lemma Bypass(head: Option<nat>, next: map<nat, Option<nat>>, list: seq<nat>, k: nat)
    requires Distinct(list) && Spells(head, next, list) && k < |list|
    ensures var after := next[list[k]];
            && after == PointerAt(Without(list, k), k)
            && Spells(if k == 0 then after else head, if k == 0 then next else next[list[k - 1] := after],
                      Without(list, k))
  {
  }

  lemma WithoutDistinct(list: seq<nat>, k: nat)
    requires Distinct(list) && k < |list|
    ensures Distinct(Without(list, k)) && list[k] !in Without(list, k)
  {
  }

  lemma StillListed(list: seq<nat>, k: nat, n: nat)
    requires k < |list| && n in list && n != list[k]
    ensures n in Without(list, k)
  {
  }

  lemma UnlinkInv(s: State, k: nat)
    requires Inv(s) && Enabled(s, Unlink(k))
    ensures Inv(Apply(s, Unlink(k)))
  {
    UnlinkSpells(s, k);
    UnlinkListed(s, k);
    UnlinkReaders(s, k);
  }

  lemma UnlinkSpells(s: State, k: nat)
    requires Inv(s) && Enabled(s, Unlink(k))
    ensures var t := Apply(s, Unlink(k)); Distinct(t.list) && Spells(t.head, t.next, t.list) && WriterInv(t)
  {
    Bypass(s.head, s.next, s.list, k);
    WithoutDistinct(s.list, k);
  }

  lemma UnlinkListed(s: State, k: nat)
    requires Inv(s) && Enabled(s, Unlink(k))
    ensures var t := Apply(s, Unlink(k));
            && (forall i :: 0 <= i < |t.list| ==> t.list[i] in t.used && t.list[i] !in t.freed)
            && (forall n :: n in t.open ==> n in t.list) && t.freed <= t.used
  {
    var list := Without(s.list, k);
    forall n | n in s.open
      ensures n in list
    {
      StillListed(s.list, k, n);
    }
    forall i | 0 <= i < |list|
      ensures list[i] in s.used && list[i] !in s.freed
    {
      assert list[i] == s.list[if i < k then i else i + 1];
    }
  }

  lemma UnlinkReaders(s: State, k: nat)
    requires Inv(s) && Enabled(s, Unlink(k))
    ensures ReadersInv(Apply(s, Unlink(k)))
  {
    var t := Apply(s, Unlink(k));
    forall i | 0 <= i < |t.readers|
      ensures ReaderInv(t, i, t.readers[i])
    {
      LostInv(s, k, i);
    }
  }

  lemma LostInv(s: State, k: nat, r: nat)
    requires Inv(s) && Enabled(s, Unlink(k)) && r < |s.readers|
    ensures ReaderInv(Apply(s, Unlink(k)), r, Lost(s.readers[r], k, s.list[k]))
  {
    var w := s.readers[r];
    assert ReaderInv(s, r, w);
    if w.Walking? {
      LostTarget(s, k, r);
      LostAccount(s.list, w, k);
      LostStands(s, k, r);
    }
  }

  lemma LostTarget(s: State, k: nat, r: nat)
    requires Inv(s) && Enabled(s, Unlink(k)) && r < |s.readers| && s.readers[r].Walking?
    ensures var t, w := Apply(s, Unlink(k)), Lost(s.readers[r], k, s.list[k]);
            (w.cur.Some? ==> w.cur.value in t.next) && Target(t, w.cur) == PointerAt(t.list, w.pos)
  {
    assert ReaderInv(s, r, s.readers[r]);
    Bypass(s.head, s.next, s.list, k);
  }

  lemma LostStands(s: State, k: nat, r: nat)
    requires Inv(s) && Enabled(s, Unlink(k)) && r < |s.readers| && s.readers[r].Walking?
    ensures Stands(Apply(s, Unlink(k)), r, Lost(s.readers[r], k, s.list[k]))
  {
  }

  lemma LostAccount(list: seq<nat>, w: Reader, k: nat)
    requires Distinct(list) && k < |list| && w.Walking? && Account(list, w)
    ensures Account(Without(list, k), Lost(w, k, list[k]))
  {
    var after := Without(list, k);
    var v := Lost(w, k, list[k]);
    forall n | n in v.owed && n !in v.seen
      ensures n in after[v.pos..]
    {
      var i :| 0 <= i < |list[w.pos..]| && list[w.pos..][i] == n;
      var j := w.pos + i;
      assert list[j] == n && j != k;
      var j' := if j < k then j else j - 1;
      assert after[j'] == n && after[v.pos..][j' - v.pos] == n;
    }
  }

  lemma OtherInv(s: State, a: Action)
    requires Inv(s) && Enabled(s, a)
    requires a.Discard? || a.OpenRing? || a.CloseRing? || a.Reclaim?
    ensures Inv(Apply(s, a))
  {
  }

  lemma StepInv(s: State, a: Action)
    requires Inv(s) && Enabled(s, a)
    ensures Inv(Apply(s, a))
  {
    match a
    case Enter(r) => EnterInv(s, r);
    case Advance(r) => AdvanceInv(s, r);
    case Exit(r) => ExitInv(s, r);
    case Link(n) => LinkInv(s, n);
    case Unlink(k) => UnlinkInv(s, k);
    case _ => OtherInv(s, a);
  }

  predicate Legal(s: State, run: seq<Action>)
    decreases |run|
  {
    run == [] || (Enabled(s, run[0]) && Legal(Apply(s, run[0]), run[1..]))
  }

  function Exec(s: State, run: seq<Action>): State
    requires Legal(s, run)
    decreases |run|
  {
    if run == [] then s else Exec(Apply(s, run[0]), run[1..])
  }

  predicate Initial(s: State) {
    && s.head == None && s.list == [] && s.freed <= s.used && s.open == map[] && s.writer == Ready
    && forall r :: 0 <= r < |s.readers| ==> s.readers[r].Outside?
  }

  lemma {:induction false} RunInv(s: State, run: seq<Action>)
    requires Inv(s) && Legal(s, run)
    ensures Inv(Exec(s, run))
    decreases |run|
  {
    if run != [] {
      StepInv(s, run[0]);
      RunInv(Apply(s, run[0]), run[1..]);
    }
  }

  // In every run, the consumer a walk stands on has not been freed, nor has the one it goes to next,
  // and a consumer with an open ring has not been freed either.
  lemma NeverFreed(s: State, run: seq<Action>, r: nat, n: nat)
    requires Initial(s) && Legal(s, run) && r < |s.readers|
    ensures var t := Exec(s, run);
            && (r < |t.readers| && t.readers[r].Walking? && t.readers[r].cur == Some(n) ==>
                  n !in t.freed && n in t.next && (t.next[n].Some? ==> t.next[n].value !in t.freed))
            && (n in t.open ==> n !in t.freed)
  {
    RunInv(s, run);
    var t := Exec(s, run);
    if r < |t.readers| {
      assert ReaderInv(t, r, t.readers[r]);
    }
  }

  // The consumer is listed from here to the end of the run.
  predicate ListedThroughout(s: State, run: seq<Action>, n: nat)
    requires Legal(s, run)
    decreases |run|
  {
    n in s.list && (run == [] || ListedThroughout(Apply(s, run[0]), run[1..], n))
  }

  lemma StillThere(list: seq<nat>, k: nat, n: nat)
    requires Distinct(list) && k < |list| && n in Without(list, k)
    ensures n != list[k]
  {
    var i :| 0 <= i < |Without(list, k)| && Without(list, k)[i] == n;
  }

  lemma OwedNext(s: State, a: Action, r: nat, n: nat)
    requires Distinct(s.list) && Enabled(s, a) && a != Exit(r) && r < |s.readers| && s.readers[r].Walking?
    requires n in s.readers[r].owed && n in Apply(s, a).list
    ensures r < |Apply(s, a).readers| && Apply(s, a).readers[r].Walking? && n in Apply(s, a).readers[r].owed
  {
    if a.Unlink? {
      StillThere(s.list, a.k, n);
    }
  }

  lemma {:induction false} OwedKept(s: State, run: seq<Action>, r: nat, n: nat)
    requires Inv(s) && Legal(s, run) && Exit(r) !in run && r < |s.readers| && s.readers[r].Walking?
    requires n in s.readers[r].owed && ListedThroughout(s, run, n)
    ensures r < |Exec(s, run).readers| && Exec(s, run).readers[r].Walking? && n in Exec(s, run).readers[r].owed
    decreases |run|
  {
    if run != [] {
      StepInv(s, run[0]);
      OwedNext(s, run[0], r, n);
      OwedKept(Apply(s, run[0]), run[1..], r, n);
    }
  }

  // A walk that ends has visited no consumer twice, and every consumer that was listed from its
  // beginning to its end.
  lemma EveryConsumerOnce(s: State, before: seq<Action>, run: seq<Action>, r: nat)
    requires Initial(s) && Legal(s, before) && Enabled(Exec(s, before), Enter(r))
    requires Legal(Apply(Exec(s, before), Enter(r)), run) && Exit(r) !in run
    requires Enabled(Exec(Apply(Exec(s, before), Enter(r)), run), Exit(r))
    ensures var t := Apply(Exec(s, before), Enter(r));
            var w := Exec(t, run).readers[r];
            Distinct(w.seen) && forall n :: ListedThroughout(t, run, n) ==> n in w.seen
  {
    RunInv(s, before);
    var t := Apply(Exec(s, before), Enter(r));
    StepInv(Exec(s, before), Enter(r));
    RunInv(t, run);
    var w := Exec(t, run).readers[r];
    assert ReaderInv(Exec(t, run), r, w);
    forall n | ListedThroughout(t, run, n)
      ensures n in w.seen
    {
      OwedKept(t, run, r, n);
    }
  }

  // --------------------------------------------------------------------------------------
  // A removal completes
  // --------------------------------------------------------------------------------------

  // A removal waits only for walks that are under way.
  predicate WaitsForWalks(s: State) {
    s.writer.Waiting? ==> forall r :: r in s.writer.walks ==> r < |s.readers| && s.readers[r].Walking?
  }

  lemma {:induction false} WaitsAlways(s: State, run: seq<Action>)
    requires Legal(s, run) && WaitsForWalks(s)
    ensures WaitsForWalks(Exec(s, run))
    decreases |run|
  {
    if run != [] {
      WaitsAlways(Apply(s, run[0]), run[1..]);
    }
  }

  // A walk left alone comes to its end.
  lemma {:induction false} WalkEnds(s: State, r: nat) returns (run: seq<Action>)
    requires Inv(s) && r < |s.readers| && s.readers[r].Walking?
    ensures Legal(s, run) && Exit(r) in run
    ensures Exec(s, run) == s.(readers := s.readers[r := Outside],
                               writer := if s.writer.Ready? then Ready
                                         else Waiting(s.writer.victim, s.writer.walks - {r}))
    decreases |s.list| - s.readers[r].pos
  {
    assert ReaderInv(s, r, s.readers[r]);
    if Target(s, s.readers[r].cur).None? {
      run := [Exit(r)];
      assert run[1..] == [];
    } else {
      var t := Apply(s, Advance(r));
      StepInv(s, Advance(r));
      var rest := WalkEnds(t, r);
      run := [Advance(r)] + rest;
      assert run[1..] == rest;
    }
  }

  lemma {:induction false} ExecAppend(s: State, a: seq<Action>, b: seq<Action>)
    requires Legal(s, a) && Legal(Exec(s, a), b)
    ensures Legal(s, a + b) && Exec(s, a + b) == Exec(Exec(s, a), b)
    decreases |a|
  {
    if a == [] {
      assert a + b == b;
    } else {
      assert (a + b)[1..] == a[1..] + b;
      ExecAppend(Apply(s, a[0]), a[1..], b);
    }
  }

  lemma {:induction false} GraceEnds(s: State) returns (run: seq<Action>)
    requires Inv(s) && WaitsForWalks(s) && s.writer.Waiting?
    ensures Legal(s, run) && Enabled(Exec(s, run), Reclaim) && Exec(s, run).writer.victim == s.writer.victim
    decreases |s.writer.walks|
  {
    if s.writer.walks == {} {
      run := [];
    } else {
      var r :| r in s.writer.walks;
      var walk := WalkEnds(s, r);
      RunInv(s, walk);
      WaitsAlways(s, walk);
      var rest := GraceEnds(Exec(s, walk));
      ExecAppend(s, walk, rest);
      run := walk + rest;
    }
  }

  // In every run a consumer that has been unlinked can be freed: once the walks that were under way have
  // ended, which each can do by itself.
  lemma RemovalCompletes(s: State, run: seq<Action>) returns (more: seq<Action>)
    requires Initial(s) && Legal(s, run) && Exec(s, run).writer.Waiting?
    ensures Legal(Exec(s, run), more) && Enabled(Exec(Exec(s, run), more), Reclaim)
    ensures Exec(s, run).writer.victim in Apply(Exec(Exec(s, run), more), Reclaim).freed
  {
    RunInv(s, run);
    WaitsAlways(s, run);
    more := GraceEnds(Exec(s, run));
  }
}
