/**
 The open, release and tracepoint calls of the capture device on its global state, each
 running under the consumer mutex (driver/main.c).
 */
module Device {
  import opened Tracepoints
  import opened Registry

  class Driver {
    const cfg: Config
    var list: seq<Consumer>
    var slots: seq<Slot>

    ghost function Value(): State
      reads this
    {
      State(list, slots)
    }

    ghost predicate Valid()
      reads this
    {
      Inv(cfg, Value())
    }

    constructor (cfg: Config)
      ensures this.cfg == cfg
      ensures Valid() && Initial(Value())
    {
      this.cfg := cfg;
      list := [];
      slots := seq(PROGRAMS, _ => Slot(false, {}, []));
    }

    // force_tp_set: walks the tracepoints in order and stops after the first registration that
    // fails. Registering a tracepoint in fails does not succeed.
    method ForceTpSet(id: nat, wants: set<nat>, fails: set<nat>) returns (processed: nat)
      requires SlotsInv(slots, cfg.managed)
      modifies this`slots
      ensures slots == Forced(old(slots), cfg.managed, id, wants, fails)
      ensures processed == Processed(old(slots), cfg.managed, wants, fails)
    {
      var idx, ok := 0, true;
      ghost var stop := Stop(slots, cfg.managed, wants, fails, 0);
      ghost var target := Forced(slots, cfg.managed, id, wants, fails);
      while idx < PROGRAMS && ok
        invariant idx <= PROGRAMS && |slots| == PROGRAMS
        invariant if ok then idx <= stop else idx == stop + 1
        invariant forall i :: 0 <= i < idx ==> slots[i] == target[i]
        invariant forall i :: idx <= i < PROGRAMS ==> slots[i] == old(slots)[i]
      {
        assert SlotInv(slots[idx], idx in cfg.managed);
        var slot: Slot;
        slot, ok := ForceOne(slots[idx], idx in cfg.managed, id, idx in wants, idx in fails);
        slots := slots[idx := slot];
        idx := idx + 1;
      }
      processed := idx;
    }

    // The body of that loop for one tracepoint.
    static method ForceOne(slot: Slot, managed: bool, id: nat, want: bool, fails: bool) returns (after: Slot, ok: bool)
      requires SlotInv(slot, managed)
      ensures ok == !Refused(slot, managed, want, fails)
      ensures after == if ok then Settle(slot, managed, id, want) else slot.(calls := slot.calls + [Register(false)])
    {
      after, ok := slot, true;
      if want == slot.attached {
        after := slot.(refs := if want then slot.refs + {id} else slot.refs - {id});
      } else if want && slot.refs != {} {
        after := slot.(refs := slot.refs + {id});
      } else if !want && slot.refs != {id} {
        after := slot.(refs := slot.refs - {id});
      } else {
        if managed {
          ok := !want || !fails;
          after := slot.(calls := slot.calls + [if want then Register(ok) else Unregister]);
        }
        if ok {
          var toggled := if id in slot.refs then slot.refs - {id} else slot.refs + {id};
          after := after.(attached := !slot.attached, refs := toggled);
        }
      }
    }

    // set_consumer_tracepoints: the mask follows the request up to and including a bit that failed.
    method SetConsumerTracepoints(k: nat, wants: set<nat>, fails: set<nat>)
      requires Valid() && k < |list| && forall i :: i in wants ==> i < PROGRAMS
      modifies this
      ensures Valid() && Value() == Trace(cfg, old(Value()), k, wants, fails)
    {
      TraceInv(cfg, Value(), k, wants, fails);
      var processed := ForceTpSet(list[k].id, wants, fails);
      var mask := FollowRequest(list[k].mask, wants, processed);
      list := list[k := list[k].(mask := mask)];
    }

    static method FollowRequest(mask: set<nat>, wants: set<nat>, processed: nat) returns (after: set<nat>)
      ensures after == NewMask(mask, wants, processed)
    {
      after := mask;
      for i := 0 to processed
        invariant forall n :: n in after <==> if n < i then n in wants else n in mask
      {
        after := if i in wants then after + {i} else after - {i};
      }
    }

    method FindConsumer(task: nat) returns (k: nat)
      ensures k == Find(list, task)
    {
      k := 0;
      while k < |list| && list[k].task != task
        invariant k <= |list|
        invariant Find(list, task) == k + Find(list[k..], task)
      {
        assert list[k..][1..] == list[k + 1..];
        k := k + 1;
      }
    }

    method CountOpen(rings: seq<Ring>) returns (n: nat)
      ensures n == 0 <==> !AnyOpen(rings)
    {
      n := 0;
      for i := 0 to |rings|
        invariant n == 0 <==> forall j :: 0 <= j < i ==> !rings[j].open
      {
        if rings[i].open {
          n := n + 1;
        }
      }
    }

    // check_remove_consumer for a listed consumer.
    method CheckRemoveConsumer(k: nat)
      requires Valid() && k < |list|
      modifies this
      ensures Valid()
      ensures Value() == if AnyOpen(old(list[k].rings)) then old(Value()) else Dismissed(cfg, old(Value()), k)
    {
      var open := CountOpen(list[k].rings);
      if open == 0 {
        DismissedInv(cfg, Value(), k);
        SetConsumerTracepoints(k, {}, {});
        list := list[..k] + list[k + 1..];
      }
    }

    method OpenDevice(task: nat, ring: nat, alloc: Alloc) returns (code: Code)
      requires Valid() && WellFormed(cfg, Open(task, ring, alloc))
      modifies this
      ensures Valid()
      ensures (Value(), code) == Opened(cfg, old(Value()), task, ring, alloc)
    {
      OpenedInv(cfg, Value(), task, ring, alloc);
      var k := FindConsumer(task);
      if k == |list| {
        if |list| >= cfg.max {
          return Busy;
        }
        match alloc {
          case Refuse =>
            return NoMemory;
          case RingFails =>
            var processed := ForceTpSet(|list|, {}, {});
            return NoMemory;
          case Ready(online) =>
            list := [Consumer(task, |list|, {}, FreshRings(online))] + list;
            k := 0;
        }
      }
      if !list[k].rings[ring].online {
        return NoDevice;
      }
      if list[k].rings[ring].open {
        return Busy;
      }
      var rings := list[k].rings;
      list := list[k := list[k].(rings := rings[ring := rings[ring].(open := true)])];
      return Done;
    }

    method ReleaseDevice(task: nat, ring: nat) returns (code: Code)
      requires Valid() && ring < cfg.cpus
      modifies this
      ensures Valid()
      ensures (Value(), code) == Released(cfg, old(Value()), task, ring)
    {
      var k := FindConsumer(task);
      if k == |list| || !list[k].rings[ring].open {
        return Busy;
      }
      var rings := list[k].rings;
      RingsInv(cfg, Value(), k, rings[ring := rings[ring].(open := false)]);
      list := list[k := list[k].(rings := rings[ring := rings[ring].(open := false)])];
      CheckRemoveConsumer(k);
      return Done;
    }

    method SetTracepoint(task: nat, tp: nat, on: bool, fails: set<nat>) returns (code: Code)
      requires Valid()
      modifies this
      ensures Valid()
      ensures (Value(), code) == TpSet(cfg, old(Value()), task, tp, on, fails)
    {
      var k := FindConsumer(task);
      if k == |list| {
        return Busy;
      }
      if tp >= PROGRAMS {
        return Invalid;
      }
      assert ConsumerInv(cfg, list[k]);
      var mask := list[k].mask;
      SetConsumerTracepoints(k, if on then mask + {tp} else mask - {tp}, fails);
      return Done;
    }
  }
}
