/** The hand-off of work from other threads to the loop of `io_loop.h`: a mutex-protected vector and
    an eventfd.  Every step below is one atomic action of one thread, and any number of producers
    interleave with the loop in any order.

    The handler of the eventfd re-arms itself as described in `Rearm`, after it ran the functions. */
module AsyncQueue {
  import Rearm

  /** Where the loop's thread is in `on_file_event`. */
  datatype Phase =
    | Polling           // in epoll_wait
    | Called            // the handler was taken out and called
    | HasRead           // the eventfd was read
    | Running(i: nat)   // the vectors were swapped; functions before `i` have run

  /** `funcs` and `tmp` are the two vectors, `counter` the eventfd, `mid` the producers that have
      pushed and not yet signalled, `slot` that of the eventfd in the descriptor vector.  `pushed` and
      `executed` record the history. */
  datatype Handoff = Handoff(funcs: seq<nat>, tmp: seq<nat>, counter: nat, mid: set<nat>, phase: Phase,
                             slot: Rearm.Slot, pushed: seq<nat>, executed: seq<nat>)

  /** A loop whose constructor left a descriptor vector of this capacity. */
  function Start(capacity: nat): Handoff {
    Handoff([], [], 0, {}, Polling, Rearm.Armed(capacity), [], [])
  }

  /** How many slots of the descriptor vector each function makes the loop use. */
  type Needs = nat -> nat

  /** The largest value of an eventfd; a non-blocking write beyond it fails and changes nothing. */
  const MaxCounter: nat := 0xFFFF_FFFF_FFFF_FFFE

  datatype Label =
    | Push(p: nat, func: nat)   // emplace_back under the lock
    | Signal(p: nat)            // eventfd_write
    | Dispatch                  // epoll reports the eventfd
    | Read                      // eventfd_read
    | Swap                      // swap the vectors under the lock
    | RunNext(grown: nat)       // call a function; `grown` is the new capacity if the vector must grow
    | Finish                    // clear, and write the handler back through the reference
    | GrowElsewhere(grown: nat) // another handler makes the vector grow

  predicate Enabled(need: Needs, q: Handoff, l: Label) {
    match l
    case Push(p, _) => p !in q.mid
    case Signal(p) => p in q.mid
    case Dispatch => q.phase.Polling? && q.slot.armed
    case Read => q.phase.Called?
    case Swap => q.phase.HasRead?
    case RunNext(grown) => q.phase.Running? && q.phase.i < |q.tmp| && need(q.tmp[q.phase.i]) <= grown
    case Finish => q.phase.Running? && q.phase.i >= |q.tmp|
    case GrowElsewhere(_) => q.phase.Polling?
  }

  /** What a step does to the slot. */
  function SlotEvent(need: Needs, q: Handoff, l: Label): Rearm.Event
    requires Enabled(need, q, l)
  {
    match l
    case Dispatch => Rearm.Enters
    case RunNext(grown) => Rearm.Uses(need(q.tmp[q.phase.i]), grown)
    case Finish => Rearm.Leaves
    case GrowElsewhere(grown) => Rearm.Uses(grown, grown)
    case _ => Rearm.Nothing
  }

  function Apply(need: Needs, q: Handoff, l: Label): Handoff
    requires Enabled(need, q, l)
  {
    match l
    case Push(p, func) => q.(funcs := q.funcs + [func], mid := q.mid + {p}, pushed := q.pushed + [func])
    case Signal(p) => q.(counter := if q.counter < MaxCounter then q.counter + 1 else q.counter, mid := q.mid - {p})
    case Dispatch => q.(phase := Called, slot := Rearm.After(q.slot, SlotEvent(need, q, l)))
    case Read => q.(counter := 0, phase := HasRead)
    case Swap => q.(funcs := q.tmp, tmp := q.funcs, phase := Running(0))
    case RunNext(_) =>
      q.(executed := q.executed + [q.tmp[q.phase.i]], phase := Running(q.phase.i + 1),
         slot := Rearm.After(q.slot, SlotEvent(need, q, l)))
    case Finish => q.(tmp := [], phase := Polling, slot := Rearm.After(q.slot, SlotEvent(need, q, l)))
    case GrowElsewhere(_) => q.(slot := Rearm.After(q.slot, SlotEvent(need, q, l)))
  }

  /** Functions swapped out and not yet run. */
  function Rest(q: Handoff): seq<nat> {
    if q.phase.Running? && q.phase.i <= |q.tmp| then q.tmp[q.phase.i..] else []
  }

  /** No function of `batch` makes a vector of this capacity grow. */
  predicate Fits(need: Needs, batch: seq<nat>, capacity: nat) {
    forall k :: 0 <= k < |batch| ==> need(batch[k]) <= capacity
  }

  /** Nothing is lost, repeated or reordered, and whenever work is queued somebody is about to wake
      the loop or the loop is about to take it. */
  ghost predicate QueueOk(q: Handoff) {
    && q.pushed == q.executed + Rest(q) + q.funcs
    && (q.phase.Running? ==> q.phase.i <= |q.tmp|)
    && (!q.phase.Running? ==> q.tmp == [])
    && (q.funcs != [] ==> q.counter > 0 || q.mid != {} || q.phase.HasRead?)
  }

  /** The slot holds the handler exactly while the loop polls with a good reference; while the handler
      runs, the reference is stale exactly when a function that has run did not fit the vector as it
      was when the handler was called. */
  ghost predicate SlotOk(need: Needs, q: Handoff) {
    && Rearm.Ok(q.slot) && (q.slot.busy <==> !q.phase.Polling?)
    && (q.phase.Called? || q.phase.HasRead? ==> !q.slot.stale)
    && (q.phase.Running? && q.phase.i <= |q.tmp| ==> (q.slot.stale <==> !Fits(need, q.tmp[..q.phase.i], q.slot.room)))
  }

  ghost predicate Inv(need: Needs, q: Handoff) {
    QueueOk(q) && SlotOk(need, q)
  }

  lemma StepKeeps(need: Needs, q: Handoff, l: Label)
    requires Inv(need, q) && Enabled(need, q, l)
    ensures Inv(need, Apply(need, q, l))
  {
    QueueKeeps(need, q, l);
    SlotKeeps(need, q, l);
  }

  lemma QueueKeeps(need: Needs, q: Handoff, l: Label)
    requires QueueOk(q) && Enabled(need, q, l)
    ensures QueueOk(Apply(need, q, l))
  {
    if l.Push? {
      PushKeeps(need, q, l);
    } else if l.RunNext? {
      RunKeeps(need, q, l);
    }
  }

  lemma PushKeeps(need: Needs, q: Handoff, l: Label)
    requires QueueOk(q) && Enabled(need, q, l) && l.Push?
    ensures QueueOk(Apply(need, q, l))
  {
    var q' := Apply(need, q, l);
    assert Rest(q') == Rest(q);
    assert q'.pushed == q.executed + Rest(q) + (q.funcs + [l.func]);
    assert l.p in q'.mid;
  }

  lemma RestShrinks(need: Needs, q: Handoff, l: Label)
    requires Enabled(need, q, l) && l.RunNext?
    ensures Rest(q) == [q.tmp[q.phase.i]] + Rest(Apply(need, q, l))
  {
  }

  lemma RunKeeps(need: Needs, q: Handoff, l: Label)
    requires QueueOk(q) && Enabled(need, q, l) && l.RunNext?
    ensures QueueOk(Apply(need, q, l))
  {
    RestShrinks(need, q, l);
    Regroup(q.executed, [q.tmp[q.phase.i]], Rest(Apply(need, q, l)), q.funcs);
  }

  lemma Regroup(a: seq<nat>, b: seq<nat>, c: seq<nat>, d: seq<nat>)
    ensures a + (b + c) + d == (a + b) + c + d
  {
  }

  lemma SlotKeeps(need: Needs, q: Handoff, l: Label)
    requires SlotOk(need, q) && Enabled(need, q, l)
    ensures SlotOk(need, Apply(need, q, l))
  {
    if l.RunNext? {
      var i := q.phase.i;
      assert q.tmp[..i + 1] == q.tmp[..i] + [q.tmp[i]];
      FitsSnoc(need, q.tmp[..i], q.tmp[i], q.slot.room);
    }
  }

  lemma FitsSnoc(need: Needs, batch: seq<nat>, func: nat, capacity: nat)
    ensures Fits(need, batch + [func], capacity) <==> Fits(need, batch, capacity) && need(func) <= capacity
  {
    var all := batch + [func];
    assert all[|batch|] == func;
    assert forall k :: 0 <= k < |batch| ==> all[k] == batch[k];
  }

  ghost predicate IsRun(need: Needs, states: seq<Handoff>, labels: seq<Label>) {
    && |states| == |labels| + 1
    && forall i :: 0 <= i < |labels| ==>
         Enabled(need, states[i], labels[i]) && states[i + 1] == Apply(need, states[i], labels[i])
  }

  lemma {:induction false} RunInv(need: Needs, states: seq<Handoff>, labels: seq<Label>)
    requires IsRun(need, states, labels) && Inv(need, states[0])
    ensures Inv(need, states[|labels|])
    decreases |labels|
  {
    if labels != [] {
      var n := |labels| - 1;
      RunInv(need, states[..n + 1], labels[..n]);
      StepKeeps(need, states[n], labels[n]);
    }
  }

  /** Main result, safety: in every reachable state what was executed is a prefix of what was pushed,
      in order and without repetition, the remainder is still held, and queued work is never left
      without a wake-up that is delivered, promised or being served. */
  lemma HandOffIsExactlyOnce(need: Needs, capacity: nat, states: seq<Handoff>, labels: seq<Label>)
    requires IsRun(need, states, labels) && states[0] == Start(capacity)
    ensures var q := states[|labels|];
            && q.pushed == q.executed + Rest(q) + q.funcs
            && (q.funcs != [] && q.mid == {} && !q.phase.HasRead? ==> q.counter > 0)
  {
    RunInv(need, states, labels);
  }

  // ------------------------------------------------------------------ every call has its signal

  function Signals(labels: seq<Label>): nat {
    if labels == [] then 0 else Signals(labels[..|labels| - 1]) + if labels[|labels| - 1].Signal? then 1 else 0
  }

  function Dispatches(labels: seq<Label>): nat {
    if labels == [] then 0 else Dispatches(labels[..|labels| - 1]) + if labels[|labels| - 1].Dispatch? then 1 else 0
  }

  /** What the handler read, or is about to read, came from signals that no earlier call has read. */
  predicate Backed(q: Handoff, dispatches: nat, signals: nat) {
    && dispatches + q.counter <= signals + (if q.phase.Called? then 1 else 0)
    && (q.phase.Called? ==> q.counter > 0)
  }

  lemma BackedStep(need: Needs, q: Handoff, l: Label, dispatches: nat, signals: nat)
    requires Enabled(need, q, l) && Backed(q, dispatches, signals) && (l.Dispatch? ==> q.counter > 0)
    ensures Backed(Apply(need, q, l), dispatches + (if l.Dispatch? then 1 else 0),
                   signals + (if l.Signal? then 1 else 0))
  {
  }

  /** Over every run in which epoll reports only an eventfd whose counter is positive, each call of the
      handler is backed by a signal of its own: the loop does not spin. */
  lemma {:induction false} EveryCallHasItsSignal(need: Needs, capacity: nat, states: seq<Handoff>, labels: seq<Label>)
    requires IsRun(need, states, labels) && states[0] == Start(capacity)
    requires forall i :: 0 <= i < |labels| && labels[i].Dispatch? ==> states[i].counter > 0
    ensures Backed(states[|labels|], Dispatches(labels), Signals(labels)) && Dispatches(labels) <= Signals(labels)
    decreases |labels|
  {
    if labels != [] {
      var n := |labels| - 1;
      EveryCallHasItsSignal(need, capacity, states[..n + 1], labels[..n]);
      BackedStep(need, states[n], labels[n], Dispatches(labels[..n]), Signals(labels[..n]));
    }
  }

  // ------------------------------------------------------------------ the handler's own slot

  /** After the handler has finished, its slot holds it again exactly when the whole batch fitted the
      descriptor vector as it was when the handler was called. */
  lemma RearmedIff(need: Needs, q: Handoff)
    requires Inv(need, q) && Enabled(need, q, Finish)
    ensures Apply(need, q, Finish).slot.armed <==> Fits(need, q.tmp, q.slot.room)
  {
    assert q.tmp[..q.phase.i] == q.tmp;
  }

  lemma StepIsSlotEvent(need: Needs, q: Handoff, l: Label)
    requires SlotOk(need, q) && Enabled(need, q, l)
    ensures Rearm.Legal(q.slot, SlotEvent(need, q, l))
          && Apply(need, q, l).slot == Rearm.After(q.slot, SlotEvent(need, q, l))
  {
  }

  /** Over every run: the loop has lost its handler exactly when some function outgrew the vector. */
  lemma HandlerIsLostIff(need: Needs, capacity: nat, states: seq<Handoff>, labels: seq<Label>)
    requires IsRun(need, states, labels) && states[0] == Start(capacity)
    ensures Lost(states[|labels|]) <==> exists i :: 0 <= i < |labels| && Outgrows(need, states[i], labels[i])
    ensures states[|labels|].phase.Polling? ==> (states[|labels|].slot.armed <==> !Lost(states[|labels|]))
  {
    var slots := seq(|states|, i requires 0 <= i < |states| => states[i].slot);
    var events := seq(|labels|, i requires 0 <= i < |labels| && Enabled(need, states[i], labels[i]) =>
                                  SlotEvent(need, states[i], labels[i]));
    forall i | 0 <= i < |labels|
      ensures Rearm.Legal(slots[i], events[i]) && slots[i + 1] == Rearm.After(slots[i], events[i])
      ensures Outgrows(need, states[i], labels[i]) <==> Rearm.Outgrows(slots[i], events[i])
    {
      RunInv(need, states[..i + 1], labels[..i]);
      StepIsSlotEvent(need, states[i], labels[i]);
    }
    Rearm.LostIff(slots, events);
    RunInv(need, states, labels);
  }

  predicate Lost(q: Handoff) {
    q.slot.stale
  }

  /** The step runs a function that does not fit the vector as it was when the handler was called. */
  predicate Outgrows(need: Needs, q: Handoff, l: Label) {
    l.RunNext? && q.slot.busy && q.phase.Running? && q.phase.i < |q.tmp| && need(q.tmp[q.phase.i]) > q.slot.room
  }

  // ------------------------------------------------------------------ which wake-ups are lost

  /** A run of the loop's thread alone, in which epoll only reports an eventfd whose counter is
      positive. */
  ghost predicate LoopAlone(need: Needs, states: seq<Handoff>, labels: seq<Label>) {
    && IsRun(need, states, labels)
    && forall i :: 0 <= i < |labels| ==>
         && !labels[i].Push? && !labels[i].Signal?
         && (labels[i].Dispatch? ==> states[i].counter > 0)
  }

  lemma Prefix1(need: Needs, states: seq<Handoff>, labels: seq<Label>, q: Handoff, l: Label)
    requires LoopAlone(need, states, labels) && Enabled(need, q, l) && states[0] == Apply(need, q, l)
    requires !l.Push? && !l.Signal? && (l.Dispatch? ==> q.counter > 0)
    ensures LoopAlone(need, [q] + states, [l] + labels)
  {
    var states', labels' := [q] + states, [l] + labels;
    forall i | 0 <= i < |labels'|
      ensures Enabled(need, states'[i], labels'[i]) && states'[i + 1] == Apply(need, states'[i], labels'[i])
      ensures !labels'[i].Push? && !labels'[i].Signal? && (labels'[i].Dispatch? ==> states'[i].counter > 0)
    {
      if i > 0 {
        assert states'[i] == states[i - 1] && states'[i + 1] == states[i] && labels'[i] == labels[i - 1];
      }
    }
  }

  /** The loop's next step when it is not idle. */
  function NextLabel(need: Needs, q: Handoff): Label {
    match q.phase
    case Polling => Dispatch
    case Called => Read
    case HasRead => Swap
    case Running(i) => if i < |q.tmp| then RunNext(need(q.tmp[i])) else Finish
  }

  /** How many steps the loop alone needs until nothing is left. */
  function StepsLeft(q: Handoff): nat {
    match q.phase
    case Polling => if q.funcs == [] then 0 else |q.funcs| + 4
    case Called => |q.funcs| + 3
    case HasRead => |q.funcs| + 2
    case Running(_) => |Rest(q)| + 1 + if q.funcs == [] then 0 else |q.funcs| + 4
  }

  /** The loop alone runs everything that was pushed. */
  ghost predicate Drains(need: Needs, q: Handoff, states: seq<Handoff>, labels: seq<Label>) {
    && LoopAlone(need, states, labels) && states[0] == q
    && |labels| == StepsLeft(q)
    && var e := states[|labels|]; e.executed == e.pushed == q.pushed && e.phase.Polling? && e.funcs == []
  }

  /** Work is queued behind a handler that is gone, or that the batch being run will lose. */
  predicate Doomed(need: Needs, q: Handoff) {
    && q.funcs != []
    && match q.phase
       case Polling => Lost(q)
       case Running(_) => Lost(q) || !Fits(need, Rest(q), q.slot.room)
       case _ => false
  }

  lemma NextStep(need: Needs, q: Handoff)
    requires Inv(need, q) && q.mid == {} && !Doomed(need, q) && !(q.phase.Polling? && q.funcs == [])
    ensures var l := NextLabel(need, q);
            && Enabled(need, q, l) && (l.Dispatch? ==> q.counter > 0)
            && var q' := Apply(need, q, l);
               q'.mid == {} && q'.pushed == q.pushed && !Doomed(need, q') && StepsLeft(q') == StepsLeft(q) - 1
  {
    if q.phase.Running? && q.phase.i < |q.tmp| {
      NextRun(need, q, NextLabel(need, q));
    }
  }

  lemma NextRun(need: Needs, q: Handoff, l: Label)
    requires SlotOk(need, q) && !Doomed(need, q) && Enabled(need, q, l) && l.RunNext?
    ensures !Doomed(need, Apply(need, q, l)) && StepsLeft(Apply(need, q, l)) == StepsLeft(q) - 1
  {
    RestShrinks(need, q, l);
    var rest := Rest(Apply(need, q, l));
    assert Rest(q)[0] == q.tmp[q.phase.i];
    assert forall k :: 0 <= k < |rest| ==> rest[k] == Rest(q)[k + 1];
  }

  lemma {:induction false} LoopDrains(need: Needs, q: Handoff)
    requires Inv(need, q) && q.mid == {} && !Doomed(need, q)
    ensures exists states, labels :: Drains(need, q, states, labels)
    decreases StepsLeft(q)
  {
    if q.phase.Polling? && q.funcs == [] {
      assert Drains(need, q, [q], []);
    } else {
      var l := NextLabel(need, q);
      NextStep(need, q);
      var q' := Apply(need, q, l);
      StepKeeps(need, q, l);
      LoopDrains(need, q');
      var states, labels :| Drains(need, q', states, labels);
      Prefix1(need, states, labels, q, l);
      assert ([q] + states)[|[l] + labels|] == states[|labels|];
      assert Drains(need, q, [q] + states, [l] + labels);
    }
  }

  lemma DoomedStep(need: Needs, q: Handoff, l: Label)
    requires Inv(need, q) && Doomed(need, q) && Enabled(need, q, l)
    ensures Doomed(need, Apply(need, q, l)) && q.funcs <= Apply(need, q, l).funcs
  {
    if l.RunNext? {
      var q' := Apply(need, q, l);
      RestShrinks(need, q, l);
      assert forall k :: 0 < k < |Rest(q)| ==> Rest(q)[k] == Rest(q')[k - 1];
    } else if l.Finish? {
      assert Rest(q) == [];
    }
  }

  /** Whatever any thread does, queued work that is doomed stays queued for ever. */
  lemma {:induction false} DoomedForever(need: Needs, states: seq<Handoff>, labels: seq<Label>)
    requires IsRun(need, states, labels) && Inv(need, states[0]) && Doomed(need, states[0])
    ensures Doomed(need, states[|labels|]) && states[0].funcs <= states[|labels|].funcs
    decreases |labels|
  {
    if labels != [] {
      var n := |labels| - 1;
      DoomedForever(need, states[..n + 1], labels[..n]);
      RunInv(need, states[..n + 1], labels[..n]);
      DoomedStep(need, states[n], labels[n]);
    }
  }

  /** Main result, progress: from every state in which no producer is between push and signal, the
      loop alone, woken only by a positive counter, can run everything that was pushed, in exactly the
      stated number of steps, if and only if the work is not doomed. */
  lemma EverythingPushedIsExecutedIff(need: Needs, q: Handoff)
    requires Inv(need, q) && q.mid == {}
    ensures (exists states, labels :: Drains(need, q, states, labels)) <==> !Doomed(need, q)
  {
    if Doomed(need, q) {
      forall states, labels
        ensures !Drains(need, q, states, labels)
      {
        if Drains(need, q, states, labels) {
          DoomedForever(need, states, labels);
        }
      }
    } else {
      LoopDrains(need, q);
    }
  }

  /** Work is queued, the eventfd is readable and nobody is in mid-call, and yet it is doomed. */
  predicate LostWakeUp(need: Needs, q: Handoff) {
    q.counter > 0 && q.mid == {} && q.funcs != [] && Doomed(need, q)
  }

  ghost predicate Reaches(need: Needs, capacity: nat, q: Handoff) {
    exists states, labels :: IsRun(need, states, labels) && states[0] == Start(capacity) && states[|labels|] == q
  }

  lemma ReachStep(need: Needs, capacity: nat, q: Handoff, l: Label, q': Handoff)
    requires Reaches(need, capacity, q) && Enabled(need, q, l) && q' == Apply(need, q, l)
    ensures Reaches(need, capacity, q')
  {
    var states, labels :| IsRun(need, states, labels) && states[0] == Start(capacity) && states[|labels|] == q;
    ExtendRun(need, states, labels, l, q');
  }

  lemma ExtendRun(need: Needs, states: seq<Handoff>, labels: seq<Label>, l: Label, q': Handoff)
    requires IsRun(need, states, labels) && Enabled(need, states[|labels|], l) && q' == Apply(need, states[|labels|], l)
    ensures IsRun(need, states + [q'], labels + [l]) && (states + [q'])[|labels + [l]|] == q'
    ensures (states + [q'])[0] == states[0]
  {
    var states', labels' := states + [q'], labels + [l];
    forall i | 0 <= i < |labels'|
      ensures Enabled(need, states'[i], labels'[i]) && states'[i + 1] == Apply(need, states'[i], labels'[i])
    {
      assert i < |labels| ==> states'[i + 1] == states[i + 1] && labels'[i] == labels[i];
    }
  }

  lemma StartReaches(need: Needs, capacity: nat)
    ensures Reaches(need, capacity, Start(capacity))
  {
    assert IsRun(need, [Start(capacity)], []);
  }

  /** The loop after one batch: `f` was pushed, signalled and run, and its slot is empty. */
  function AfterBatch(need: Needs, capacity: nat, f: nat): Handoff {
    Handoff([], [], 0, {}, Polling, Rearm.Slot(false, false, need(f), capacity, true), [f], [f])
  }

  lemma BatchLosesHandler(need: Needs, capacity: nat, f: nat)
    requires need(f) > capacity
    ensures Reaches(need, capacity, AfterBatch(need, capacity, f))
  {
    StartReaches(need, capacity);
    var q0 := Start(capacity);
    var q1 := q0.(funcs := [f], mid := {0}, pushed := [f]);
    ReachStep(need, capacity, q0, Push(0, f), q1);
    var q2 := q1.(counter := 1, mid := {});
    ReachStep(need, capacity, q1, Signal(0), q2);
    var q3 := q2.(phase := Called, slot := q2.slot.(armed := false, busy := true));
    ReachStep(need, capacity, q2, Dispatch, q3);
    var q4 := q3.(phase := HasRead, counter := 0);
    ReachStep(need, capacity, q3, Read, q4);
    var q5 := q4.(phase := Running(0), funcs := [], tmp := [f]);
    ReachStep(need, capacity, q4, Swap, q5);
    var q6 := q5.(phase := Running(1), executed := [f], slot := q5.slot.(capacity := need(f), stale := true));
    ReachStep(need, capacity, q5, RunNext(need(f)), q6);
    ReachStep(need, capacity, q6, Finish, AfterBatch(need, capacity, f));
  }

  /** A function that waits on a descriptor beyond the vector loses the wake-up of the next one. */
  lemma WakeUpIsLost(need: Needs, capacity: nat, f: nat, g: nat)
    requires need(f) > capacity
    ensures exists q :: Reaches(need, capacity, q) && LostWakeUp(need, q) && q.funcs == [g]
  {
    BatchLosesHandler(need, capacity, f);
    var q7 := AfterBatch(need, capacity, f);
    var q8 := q7.(funcs := [g], mid := {0}, pushed := [f, g]);
    ReachStep(need, capacity, q7, Push(0, g), q8);
    var q9 := q8.(counter := 1, mid := {});
    ReachStep(need, capacity, q8, Signal(0), q9);
    assert LostWakeUp(need, q9);
  }
}
