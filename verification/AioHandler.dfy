/** The eventfd handler of `fd_aio.cpp`: it harvests completions, runs their callbacks, which may submit
    and harvest again to any depth, and only then writes itself back through its reference. */
module AioHandler {
  import Aio
  import Rearm

  datatype Loop = Loop(aio: Aio.State, slot: Rearm.Slot)

  /** How many slots of the descriptor vector the callback of each request makes the loop use. */
  type Needs = nat -> nat

  /** A step of the AIO machine, with the new capacity if a callback makes the vector grow; or other code
      outside the handler that makes it grow. */
  datatype Label = Does(step: Aio.Label, grown: nat) | GrowElsewhere(grown: nat)

  function Start(capacity: nat): Loop {
    Loop(Aio.Initial, Rearm.Armed(capacity))
  }

  /** The request whose callback is next. */
  function Due(s: Aio.State): nat
    requires Aio.Enabled(s, Aio.Callback)
  {
    Aio.Top(s).batch[Aio.Top(s).i]
  }

  predicate Enabled(need: Needs, s: Loop, l: Label) {
    match l
    case Does(step, grown) =>
      && Aio.Enabled(s.aio, step)
      && (step.OnEvent? ==> s.slot.armed && !s.slot.busy)
      && (step.Callback? ==> need(Due(s.aio)) <= grown)
    case GrowElsewhere(_) => !s.slot.busy
  }

  /** What a step does to the handler's slot; the handler is over when its own harvest is. */
  function SlotEvent(need: Needs, s: Loop, l: Label): Rearm.Event
    requires Enabled(need, s, l)
  {
    match l
    case GrowElsewhere(grown) => Rearm.Uses(grown, grown)
    case Does(step, grown) =>
      match step
      case OnEvent => Rearm.Enters
      case Callback => Rearm.Uses(need(Due(s.aio)), grown)
      case FetchDone => if s.slot.busy && |s.aio.stack| == 1 then Rearm.Leaves else Rearm.Nothing
      case _ => Rearm.Nothing
  }

  function Apply(need: Needs, s: Loop, l: Label): Loop
    requires Enabled(need, s, l)
  {
    Loop(if l.Does? then Aio.Apply(s.aio, l.step) else s.aio, Rearm.After(s.slot, SlotEvent(need, s, l)))
  }

  /** While the handler runs, its harvest is the outermost call. */
  predicate Inv(s: Loop) {
    Rearm.Ok(s.slot) && (s.slot.busy ==> s.aio.stack != [] && !s.aio.stack[0].Submitting?)
  }

  lemma StepKeeps(need: Needs, s: Loop, l: Label)
    requires Inv(s) && Enabled(need, s, l)
    ensures Inv(Apply(need, s, l)) && Rearm.Legal(s.slot, SlotEvent(need, s, l))
  {
  }

  ghost predicate IsRun(need: Needs, states: seq<Loop>, labels: seq<Label>) {
    && |states| == |labels| + 1
    && states[0] == Start(states[0].slot.capacity)
    && forall i :: 0 <= i < |labels| ==>
         Enabled(need, states[i], labels[i]) && states[i + 1] == Apply(need, states[i], labels[i])
  }

  lemma {:induction false} RunInv(need: Needs, states: seq<Loop>, labels: seq<Label>)
    requires IsRun(need, states, labels)
    ensures Inv(states[|labels|])
    decreases |labels|
  {
    if labels != [] {
      var n := |labels| - 1;
      RunInv(need, states[..n + 1], labels[..n]);
      StepKeeps(need, states[n], labels[n]);
    }
  }

  /** The run of the slot alone. */
  ghost function Slots(states: seq<Loop>): seq<Rearm.Slot> {
    seq(|states|, i requires 0 <= i < |states| => states[i].slot)
  }

  ghost function Events(need: Needs, states: seq<Loop>, labels: seq<Label>): seq<Rearm.Event>
    requires IsRun(need, states, labels)
  {
    seq(|labels|, i requires 0 <= i < |labels| && Enabled(need, states[i], labels[i]) =>
                    SlotEvent(need, states[i], labels[i]))
  }

  lemma SlotsRun(need: Needs, states: seq<Loop>, labels: seq<Label>)
    requires IsRun(need, states, labels)
    ensures Rearm.IsRun(Slots(states), Events(need, states, labels))
  {
    forall i | 0 <= i < |labels|
      ensures Rearm.Legal(states[i].slot, SlotEvent(need, states[i], labels[i]))
    {
      RunInv(need, states[..i + 1], labels[..i]);
      StepKeeps(need, states[i], labels[i]);
    }
  }

  /** The step runs, inside the handler, a callback that does not fit the vector as it was when the handler
      was called. */
  predicate Outgrows(need: Needs, s: Loop, l: Label) {
    l.Does? && l.step.Callback? && Aio.Enabled(s.aio, l.step) && s.slot.busy && need(Due(s.aio)) > s.slot.room
  }

  /** Over every run, at any depth of re-entrancy: outside all calls the handler is in its slot if and only
      if no callback that ran inside it outgrew the vector. */
  lemma HandlerIsLostIff(need: Needs, states: seq<Loop>, labels: seq<Label>)
    requires IsRun(need, states, labels)
    ensures states[|labels|].slot.stale <==> exists i :: 0 <= i < |labels| && Outgrows(need, states[i], labels[i])
    ensures states[|labels|].aio.stack == [] ==> (states[|labels|].slot.armed <==> !states[|labels|].slot.stale)
  {
    var slots, events := Slots(states), Events(need, states, labels);
    SlotsRun(need, states, labels);
    RunInv(need, states, labels);
    Rearm.LostIff(slots, events);
    forall i | 0 <= i < |labels|
      ensures Outgrows(need, states[i], labels[i]) <==> Rearm.Outgrows(slots[i], events[i])
    {
    }
  }

  /** Once lost, the eventfd never reaches the handler again: completions are harvested only when a
      submission meets a full queue. */
  lemma LostHandlerIsSilent(need: Needs, states: seq<Loop>, labels: seq<Label>, i: nat, j: nat)
    requires IsRun(need, states, labels) && i <= j < |labels|
    requires states[i].slot.stale && states[i].aio.stack == []
    ensures labels[j] != Does(Aio.OnEvent, labels[j].grown)
  {
    var slots, events := Slots(states), Events(need, states, labels);
    SlotsRun(need, states, labels);
    RunInv(need, states[..i + 1], labels[..i]);
    Rearm.LostForever(slots, events);
    assert slots[i].stale && !slots[i].busy && !events[j].Enters?;
  }
}
