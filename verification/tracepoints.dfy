/**
 The kernel tracepoints the driver hooks, and which consumers asked for each of them. A
 tracepoint is registered with the kernel when the first consumer asks for it and
 unregistered when the last one gives it up (driver/main.c).
 */
module Tracepoints {
  const PROGRAMS: nat := 9

  // A call into the kernel. Only registering can fail.
  datatype Call = Register(ok: bool) | Unregister

  // One tracepoint: its attached bit, the ids of the consumers that refer to it, and the kernel
  // calls made for it so far.
  datatype Slot = Slot(attached: bool, refs: set<nat>, calls: seq<Call>)

  // The calls alternate: a registration only when not registered, an unregistration only when
  // registered, and after them the tracepoint is registered iff on.
  predicate Alternate(calls: seq<Call>, on: bool) {
    if calls == [] then !on
    else
      var before := calls[..|calls| - 1];
      match calls[|calls| - 1]
      case Register(ok) => on == ok && Alternate(before, false)
      case Unregister => !on && Alternate(before, true)
  }

  predicate SlotInv(slot: Slot, managed: bool) {
    && (slot.attached <==> slot.refs != {})
    && (if managed then Alternate(slot.calls, slot.attached) else slot.calls == [])
  }

  predicate SlotsInv(slots: seq<Slot>, managed: set<nat>) {
    && |slots| == PROGRAMS
    && forall i :: 0 <= i < PROGRAMS ==> SlotInv(slots[i], i in managed)
  }

  // A set of numbers with one put in or taken out.
  function Refer(nums: set<nat>, n: nat, want: bool): set<nat> {
    if want then nums + {n} else nums - {n}
  }

  // A tracepoint after consumer id asked for it or gave it up.
  function Settle(slot: Slot, managed: bool, id: nat, want: bool): Slot {
    var refs := Refer(slot.refs, id, want);
    var call := if want then Register(true) else Unregister;
    Slot(refs != {}, refs, if managed && (refs == {}) != (slot.refs == {}) then slot.calls + [call] else slot.calls)
  }

  // Asking for a tracepoint nobody refers to needs a registration, and that can fail.
  predicate Refused(slot: Slot, managed: bool, want: bool, fails: bool) {
    managed && want && slot.refs == {} && fails
  }

  // The first tracepoint from i on whose registration fails, or PROGRAMS.
  function Stop(slots: seq<Slot>, managed: set<nat>, wants: set<nat>, fails: set<nat>, i: nat): (n: nat)
    requires |slots| == PROGRAMS && i <= PROGRAMS
    ensures i <= n <= PROGRAMS
    ensures forall j :: i <= j < n ==> !Refused(slots[j], j in managed, j in wants, j in fails)
    ensures n < PROGRAMS ==> Refused(slots[n], n in managed, n in wants, n in fails)
    decreases PROGRAMS - i
  {
    if i == PROGRAMS || Refused(slots[i], i in managed, i in wants, i in fails) then i
    else Stop(slots, managed, wants, fails, i + 1)
  }

  // All tracepoints after consumer id asked for the set wants: settled up to the first
  // registration that fails, untouched from there on.
  function Forced(slots: seq<Slot>, managed: set<nat>, id: nat, wants: set<nat>, fails: set<nat>): (after: seq<Slot>)
    requires |slots| == PROGRAMS
    ensures |after| == PROGRAMS
  {
    var stop := Stop(slots, managed, wants, fails, 0);
    seq(PROGRAMS, i requires 0 <= i < PROGRAMS =>
      if i < stop then Settle(slots[i], i in managed, id, i in wants)
      else if i == stop then slots[i].(calls := slots[i].calls + [Register(false)])
      else slots[i])
  }

  // How many tracepoints such a request reports as processed: the one that failed counts.
  function Processed(slots: seq<Slot>, managed: set<nat>, wants: set<nat>, fails: set<nat>): (n: nat)
    requires |slots| == PROGRAMS
    ensures n <= PROGRAMS
  {
    var stop := Stop(slots, managed, wants, fails, 0);
    if stop == PROGRAMS then PROGRAMS else stop + 1
  }

  // The attached bit, the reference set and the alternation of kernel calls survive every
  // request, whichever registrations fail.
  lemma ForcedInv(slots: seq<Slot>, managed: set<nat>, id: nat, wants: set<nat>, fails: set<nat>)
    requires SlotsInv(slots, managed)
    ensures SlotsInv(Forced(slots, managed, id, wants, fails), managed)
  {
  }

  // Without failures every tracepoint is settled.
  lemma ForcedAll(slots: seq<Slot>, managed: set<nat>, id: nat, wants: set<nat>, fails: set<nat>)
    requires |slots| == PROGRAMS
    requires fails == {} || wants == {}
    ensures Processed(slots, managed, wants, fails) == PROGRAMS
    ensures forall i :: 0 <= i < PROGRAMS ==>
      Forced(slots, managed, id, wants, fails)[i] == Settle(slots[i], i in managed, id, i in wants)
  {
  }

  // A request changes only the references of the consumer that makes it.
  lemma ForcedRefs(slots: seq<Slot>, managed: set<nat>, id: nat, wants: set<nat>, fails: set<nat>, i: nat)
    requires |slots| == PROGRAMS && i < PROGRAMS
    ensures Forced(slots, managed, id, wants, fails)[i].refs - {id} == slots[i].refs - {id}
    ensures id in Forced(slots, managed, id, wants, fails)[i].refs ==> i in wants || id in slots[i].refs
  {
  }

  // The kernel is called for a tracepoint exactly if it becomes attached or detached by that, or if it
  // is the one whose registration fails; and then once.
  lemma KernelCalled(slots: seq<Slot>, managed: set<nat>, id: nat, wants: set<nat>, fails: set<nat>, i: nat)
    requires SlotsInv(slots, managed) && i < PROGRAMS
    ensures var before, after := slots[i], Forced(slots, managed, id, wants, fails)[i];
            after.calls == before.calls +
            if i == Stop(slots, managed, wants, fails, 0) then [Register(false)]
            else if i in managed && !before.attached && after.attached then [Register(true)]
            else if i in managed && before.attached && !after.attached then [Unregister]
            else []
  {
    assert SlotInv(slots[i], i in managed);
  }

  // After a request the consumer refers to a tracepoint exactly if it asked for it, up to the first
  // registration that fails; from there on its references are as before.
  lemma ReferredIff(slots: seq<Slot>, managed: set<nat>, id: nat, wants: set<nat>, fails: set<nat>, i: nat)
    requires |slots| == PROGRAMS && i < PROGRAMS
    ensures id in Forced(slots, managed, id, wants, fails)[i].refs <==>
            if forall j | 0 <= j <= i :: !Refused(slots[j], j in managed, j in wants, j in fails) then i in wants
            else id in slots[i].refs
  {
    var stop := Stop(slots, managed, wants, fails, 0);
    assert stop <= i ==> Refused(slots[stop], stop in managed, stop in wants, stop in fails);
  }
}
