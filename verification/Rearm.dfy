/** A handler of `io_loop.h` that is taken out of its slot of the descriptor vector, runs other code, and
    writes itself back through the reference it was called with.  Code that waits on a large descriptor
    makes the vector reallocate; the reference is then stale and the write misses the slot. */
module Rearm {

  /** `armed`: the slot holds the handler; `busy`: the handler is running; `capacity` is that of the vector
      and `room` what it was when the handler was called; `stale`: it was reallocated since. */
  datatype Slot = Slot(armed: bool, busy: bool, capacity: nat, room: nat, stale: bool)

  function Armed(capacity: nat): Slot {
    Slot(true, false, capacity, capacity, false)
  }

  /** What happens to a slot: its handler is called; code runs that makes the loop use `need` slots, with
      `grown` the new capacity if the vector must grow; the handler writes itself back. */
  datatype Event = Enters | Uses(need: nat, grown: nat) | Leaves | Nothing

  predicate Legal(s: Slot, e: Event) {
    match e
    case Enters => s.armed && !s.busy
    case Uses(need, grown) => need <= grown
    case Leaves => s.busy
    case Nothing => true
  }

  function After(s: Slot, e: Event): Slot {
    match e
    case Enters => Slot(false, true, s.capacity, s.capacity, false)
    case Uses(need, grown) => if need > s.capacity then s.(capacity := grown, stale := s.stale || s.busy) else s
    case Leaves => s.(armed := !s.stale, busy := false)
    case Nothing => s
  }

  predicate Ok(s: Slot) {
    && (s.armed <==> !s.busy && !s.stale)
    && (s.busy && !s.stale ==> s.capacity == s.room)
  }

  /** The code run inside the handler does not fit the vector as it was when the handler was called. */
  predicate Outgrows(s: Slot, e: Event) {
    e.Uses? && s.busy && e.need > s.room
  }

  lemma StepKeeps(s: Slot, e: Event)
    requires Ok(s) && Legal(s, e)
    ensures Ok(After(s, e))
    ensures After(s, e).stale <==> s.stale || Outgrows(s, e)
  {
  }

  ghost predicate IsRun(slots: seq<Slot>, events: seq<Event>) {
    && |slots| == |events| + 1
    && slots[0] == Armed(slots[0].capacity)
    && forall i :: 0 <= i < |events| ==> Legal(slots[i], events[i]) && slots[i + 1] == After(slots[i], events[i])
  }

  /** Over every run: the slot has lost its handler exactly when some code run inside the handler outgrew
      the vector, and the handler is in its slot exactly when it is not running and not lost. */
  lemma {:induction false} LostIff(slots: seq<Slot>, events: seq<Event>)
    requires IsRun(slots, events)
    ensures Ok(slots[|events|])
    ensures slots[|events|].stale <==> exists i :: 0 <= i < |events| && Outgrows(slots[i], events[i])
    decreases |events|
  {
    if events != [] {
      var n := |events| - 1;
      LostIff(slots[..n + 1], events[..n]);
      StepKeeps(slots[n], events[n]);
      assert forall i :: 0 <= i < n ==> slots[..n + 1][i] == slots[i] && events[..n][i] == events[i];
    }
  }

  /** Event `i` made the vector grow to this capacity. */
  predicate GrownAt(slots: seq<Slot>, events: seq<Event>, i: nat, capacity: nat)
    requires |slots| == |events| + 1
  {
    i < |events| && events[i].Uses? && events[i].need > slots[i].capacity && events[i].grown == capacity
  }

  /** Event `i` was the last call of the handler, and found this capacity. */
  predicate EnteredAt(slots: seq<Slot>, events: seq<Event>, i: nat, room: nat)
    requires |slots| == |events| + 1
  {
    && i < |events| && events[i].Enters? && slots[i].capacity == room
    && forall j :: i < j < |events| ==> !events[j].Enters?
  }

  /** Over every run the vector holds every slot that was ever used, its capacity is the first one or one that
      it had to grow to, and `room` is the capacity when the running handler was called. */
  lemma {:induction false} CapacityIsHistory(slots: seq<Slot>, events: seq<Event>)
    requires IsRun(slots, events)
    ensures var s := slots[|events|];
            && (forall i :: 0 <= i < |events| && events[i].Uses? ==> events[i].need <= s.capacity)
            && (s.capacity == slots[0].capacity || exists i: nat :: GrownAt(slots, events, i, s.capacity))
            && (s.busy ==> exists i: nat :: EnteredAt(slots, events, i, s.room))
    decreases |events|
  {
    if events != [] {
      var n := |events| - 1;
      var slots', events', s, s' := slots[..n + 1], events[..n], slots[n], slots[n + 1];
      CapacityIsHistory(slots', events');
      assert forall i :: 0 <= i < n ==> events'[i] == events[i] && slots'[i] == slots[i];
      if s'.capacity != s.capacity {
        assert GrownAt(slots, events, n, s'.capacity);
      } else if s.capacity != slots[0].capacity {
        var i: nat :| GrownAt(slots', events', i, s.capacity);
        assert GrownAt(slots, events, i, s.capacity);
      }
      if s'.busy {
        if events[n].Enters? {
          assert EnteredAt(slots, events, n, s'.room);
        } else {
          var i: nat :| EnteredAt(slots', events', i, s.room);
          assert EnteredAt(slots, events, i, s.room);
        }
      }
    }
  }

  /** A lost handler is never called again. */
  lemma {:induction false} LostForever(slots: seq<Slot>, events: seq<Event>)
    requires IsRun(slots, events)
    ensures forall i, j :: 0 <= i <= j < |events| && slots[i].stale && !slots[i].busy ==> !events[j].Enters?
    decreases |events|
  {
    if events != [] {
      var n := |events| - 1;
      LostForever(slots[..n + 1], events[..n]);
      forall i | 0 <= i <= n && slots[i].stale && !slots[i].busy
        ensures !events[n].Enters?
      {
        StaleStays(slots, events, i, n);
      }
    }
  }

  lemma {:induction false} StaleStays(slots: seq<Slot>, events: seq<Event>, i: nat, j: nat)
    requires IsRun(slots, events) && i <= j <= |events| && slots[i].stale && !slots[i].busy
    ensures slots[j].stale && !slots[j].busy && Ok(slots[j])
  {
    LostIff(slots[..j + 1], events[..j]);
    if i < j {
      StaleStays(slots, events, i, j - 1);
    }
  }
}
