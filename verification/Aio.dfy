/** Kernel AIO in `fd_aio.cpp`: `submit` harvests completions when the kernel's queue is full, and the
    harvested callbacks may submit again, to any depth.  Native calls are an explicit stack. */
module Aio {
  import opened Common

  /** A call in progress: `submit` of a request, or `fetch_events`, before its harvest or with the
      first `i` of its batch dispatched. */
  datatype Call = Submitting(id: nat) | Fetching | Dispatching(batch: seq<nat>, i: nat)

  /** `req` and `res` are the counters of the class; `inflight` is what the kernel holds, and `done` the
      completed ones among them.  `signals` is the eventfd, and `owed` are the completions the kernel has
      yet to announce on it.  `submitted` and `dispatched` record the history. */
  datatype State = State(req: nat, res: nat, inflight: set<nat>, done: set<nat>, owed: nat, signals: nat,
                         stack: seq<Call>, submitted: set<nat>, dispatched: seq<nat>)

  const Initial := State(0, 0, {}, {}, 0, 0, [], {}, [])

  const MaxEvents: nat := 256

  datatype Label =
    | CallSubmit(id: nat)           // aio_read or aio_write, from a coroutine or from a callback
    | Accepted                      // io_submit returned 1
    | KernelFull                    // io_submit failed with EAGAIN
    | Retry                         // EINTR or another error: the call is repeated
    | Completes(id: nat)            // the kernel is done with a request
    | Notify                        // and announces it
    | OnEvent                       // the loop finds the eventfd readable, and the handler reads it
    | Harvest(batch: seq<nat>)      // io_getevents returned these completions
    | Callback                      // the next completion goes to its callback
    | FetchDone

  function Top(s: State): Call
    requires s.stack != []
  {
    s.stack[|s.stack| - 1]
  }

  function Pop(s: State): seq<Call>
    requires s.stack != []
  {
    s.stack[..|s.stack| - 1]
  }

  function IdSet(ids: seq<nat>): set<nat> {
    set id | id in ids
  }

  function AtMost(n: nat): nat {
    if n <= MaxEvents then n else MaxEvents
  }

  predicate Enabled(s: State, l: Label) {
    match l
    case CallSubmit(id) =>
      // user code runs outside all calls, or inside a callback
      && (s.stack == [] || (Top(s).Dispatching? && Top(s).i > 0))
      && id !in s.submitted && Submitting(id) !in s.stack
    case Accepted => s.stack != [] && Top(s).Submitting?
    case KernelFull => s.stack != [] && Top(s).Submitting?
    case Retry => s.stack != [] && !Top(s).Dispatching?
    case Completes(id) => id in s.inflight && id !in s.done
    case Notify => s.owed > 0
    case OnEvent => s.stack == [] && s.signals > 0
    case Harvest(batch) =>
      // waits for at least one completion, for ever if need be, and takes as many as there are
      && s.stack != [] && Top(s).Fetching?
      && 1 <= |batch| == AtMost(|s.done|) && Distinct(batch) && forall id :: id in batch ==> id in s.done
    case Callback => s.stack != [] && Top(s).Dispatching? && Top(s).i < |Top(s).batch|
    case FetchDone => s.stack != [] && Top(s).Dispatching? && Top(s).i >= |Top(s).batch|
  }

  function Apply(s: State, l: Label): State
    requires Enabled(s, l)
  {
    match l
    case CallSubmit(id) => s.(stack := s.stack + [Submitting(id)])
    case Accepted =>
      var id := Top(s).id;
      s.(req := s.req + 1, inflight := s.inflight + {id}, submitted := s.submitted + {id}, stack := Pop(s))
    case KernelFull => s.(stack := s.stack + [Fetching])
    case Retry => s
    case Completes(id) => s.(done := s.done + {id}, owed := s.owed + 1)
    case Notify => s.(owed := s.owed - 1, signals := s.signals + 1)
    case OnEvent => s.(signals := 0, stack := [Fetching])
    case Harvest(batch) =>
      s.(inflight := s.inflight - IdSet(batch), done := s.done - IdSet(batch),
         stack := Pop(s) + [Dispatching(batch, 0)])
    case Callback =>
      s.(dispatched := s.dispatched + [Top(s).batch[Top(s).i]], stack := Pop(s) + [Top(s).(i := Top(s).i + 1)])
    case FetchDone =>
      // the counter is advanced only after all callbacks have returned
      s.(res := s.res + |Top(s).batch|, stack := Pop(s))
  }

  // ------------------------------------------------------------------ counting

  function HeldBy(c: Call): nat {
    if c.Dispatching? then |c.batch| else 0
  }

  function WaitsIn(c: Call, id: nat): nat {
    if c.Dispatching? && c.i <= |c.batch| then Count(c.batch[c.i..], id) else 0
  }

  /** Completions harvested by calls still on the stack. */
  function Held(stack: seq<Call>): nat {
    if stack == [] then 0
    else Held(stack[..|stack| - 1]) + HeldBy(stack[|stack| - 1])
  }

  /** How often `id` waits for its callback in batches on the stack. */
  function Waiting(stack: seq<Call>, id: nat): nat {
    if stack == [] then 0
    else Waiting(stack[..|stack| - 1], id) + WaitsIn(stack[|stack| - 1], id)
  }

  function Places(s: State, id: nat): nat {
    (if id in s.inflight then 1 else 0) + Waiting(s.stack, id) + Count(s.dispatched, id)
  }

  /** Every submitted request is in the kernel, in a batch on the stack, or dispatched: in exactly one
      of these places, exactly once.  The counters differ by what the kernel holds and what the
      calls in progress have harvested. */
  ghost predicate Inv(s: State) {
    && s.req == s.res + |s.inflight| + Held(s.stack)
    && s.done <= s.inflight <= s.submitted
    && (forall id :: Places(s, id) == if id in s.submitted then 1 else 0)
    && (forall i :: 0 <= i < |s.stack| ==> CallOk(s, i))
  }

  /** A harvest is not interrupted before it has its batch. */
  predicate CallOk(s: State, i: nat)
    requires i < |s.stack|
  {
    match s.stack[i]
    case Submitting(id) =>
      id !in s.submitted && forall j :: 0 <= j < |s.stack| && j != i ==> s.stack[j] != Submitting(id)
    case Dispatching(batch, k) => k <= |batch|
    case Fetching => i == |s.stack| - 1
  }

  lemma {:induction false} CountFirst(ids: seq<nat>, id: nat)
    requires ids != []
    ensures Count(ids, id) == (if ids[0] == id then 1 else 0) + Count(ids[1..], id)
  {
    if |ids| > 1 {
      CountFirst(ids[..|ids| - 1], id);
      assert ids[..|ids| - 1][1..] == ids[1..][..|ids| - 2];
    }
  }

  lemma {:induction false} CountDistinct(ids: seq<nat>, id: nat)
    requires Distinct(ids)
    ensures Count(ids, id) == if id in ids then 1 else 0
  {
    if ids != [] {
      CountDistinct(ids[..|ids| - 1], id);
      assert ids == ids[..|ids| - 1] + [ids[|ids| - 1]];
    }
  }

  lemma PushCall(stack: seq<Call>, c: Call, id: nat)
    ensures Held(stack + [c]) == Held(stack) + HeldBy(c)
    ensures Waiting(stack + [c], id) == Waiting(stack, id) + WaitsIn(c, id)
  {
    assert (stack + [c])[..|stack|] == stack;
  }

  lemma {:induction false} DistinctSetSize(ids: seq<nat>)
    requires Distinct(ids)
    ensures |IdSet(ids)| == |ids|
  {
    if ids == [] {
      assert IdSet(ids) == {};
    } else {
      var n := |ids| - 1;
      DistinctSetSize(ids[..n]);
      assert ids == ids[..n] + [ids[n]];
      assert IdSet(ids) == IdSet(ids[..n]) + {ids[n]};
      assert ids[n] !in IdSet(ids[..n]);
    }
  }

  // ------------------------------------------------------------------ steps keep it

  lemma AcceptedKeeps(s: State)
    requires Inv(s) && Enabled(s, Accepted)
    ensures Inv(Apply(s, Accepted))
  {
    var s' := Apply(s, Accepted);
    var n := |s.stack| - 1;
    var x := Top(s).id;
    assert CallOk(s, n);
    assert x !in s.inflight;
    assert s.stack == s'.stack + [Submitting(x)];
    forall id
      ensures Places(s', id) == if id in s'.submitted then 1 else 0
    {
      assert Places(s, id) == if id in s.submitted then 1 else 0;
      PushCall(s'.stack, Submitting(x), id);
    }
    forall i | 0 <= i < |s'.stack|
      ensures CallOk(s', i)
    {
      assert CallOk(s, i) && s'.stack[i] == s.stack[i] && s.stack[n] == Submitting(x);
    }
  }

  /** What the kernel does by itself. */
  lemma QuietKeeps(s: State, s': State)
    requires Inv(s) && s' == s.(done := s'.done, owed := s'.owed, signals := s'.signals) && s'.done <= s.inflight
    ensures Inv(s')
  {
    forall id
      ensures Places(s', id) == if id in s'.submitted then 1 else 0
    {
      assert Places(s, id) == if id in s.submitted then 1 else 0;
    }
    forall i | 0 <= i < |s'.stack|
      ensures CallOk(s', i)
    {
      assert CallOk(s, i);
    }
  }

  lemma PushKeeps(s: State, c: Call, s': State)
    requires Inv(s) && s' == s.(stack := s.stack + [c]) && !c.Dispatching?
    requires s.stack != [] ==> !Top(s).Fetching?
    requires c.Submitting? ==> c.id !in s.submitted && c !in s.stack
    ensures Inv(s')
  {
    forall id
      ensures Places(s', id) == if id in s'.submitted then 1 else 0
    {
      assert Places(s, id) == if id in s.submitted then 1 else 0;
      PushCall(s.stack, c, id);
    }
    forall i | 0 <= i < |s'.stack|
      ensures CallOk(s', i)
    {
      if i < |s.stack| {
        assert CallOk(s, i) && s'.stack[i] == s.stack[i];
      }
    }
    PushCall(s.stack, c, 0);
  }

  lemma HarvestKeeps(s: State, batch: seq<nat>)
    requires Inv(s) && Enabled(s, Harvest(batch))
    ensures Inv(Apply(s, Harvest(batch)))
  {
    var s' := Apply(s, Harvest(batch));
    var taken := IdSet(batch);
    DistinctSetSize(batch);
    assert |s'.inflight| == |s.inflight| - |batch| by {
      assert s.inflight == s'.inflight + taken && s'.inflight !! taken;
    }
    TopChangeKeeps(s, s', Dispatching(batch, 0));
    forall id
      ensures Places(s', id) == if id in s'.submitted then 1 else 0
    {
      assert Places(s, id) == if id in s.submitted then 1 else 0;
      assert s.stack == Pop(s) + [Fetching];
      PushCall(Pop(s), Fetching, id);
      PushCall(Pop(s), Dispatching(batch, 0), id);
      assert batch[0..] == batch;
      CountDistinct(batch, id);
    }
    assert s.stack == Pop(s) + [Fetching];
    PushCall(Pop(s), Fetching, 0);
    PushCall(Pop(s), Dispatching(batch, 0), 0);
  }

  /** Replacing the top call by a batch in progress keeps the conditions on the calls. */
  lemma TopChangeKeeps(s: State, s': State, c: Call)
    requires Inv(s) && s.stack != [] && s'.stack == Pop(s) + [c] && s'.submitted == s.submitted
    requires c.Dispatching? && c.i <= |c.batch|
    ensures forall i :: 0 <= i < |s'.stack| ==> CallOk(s', i)
  {
    forall i | 0 <= i < |s'.stack|
      ensures CallOk(s', i)
    {
      if i < |s.stack| - 1 {
        assert CallOk(s, i) && s'.stack[i] == s.stack[i];
      }
    }
  }

  lemma CallbackKeeps(s: State)
    requires Inv(s) && Enabled(s, Callback)
    ensures Inv(Apply(s, Callback))
  {
    var s' := Apply(s, Callback);
    var c := Top(s);
    var c' := c.(i := c.i + 1);
    assert s.stack == Pop(s) + [c];
    TopChangeKeeps(s, s', c');
    forall id
      ensures Places(s', id) == if id in s'.submitted then 1 else 0
    {
      assert Places(s, id) == if id in s.submitted then 1 else 0;
      PushCall(Pop(s), c, id);
      PushCall(Pop(s), c', id);
      CountFirst(c.batch[c.i..], id);
      assert c.batch[c.i..][1..] == c.batch[c.i + 1..];
      CountSnoc(s.dispatched, c.batch[c.i], id);
    }
    PushCall(Pop(s), c, 0);
    PushCall(Pop(s), c', 0);
  }

  lemma FetchDoneKeeps(s: State)
    requires Inv(s) && Enabled(s, FetchDone)
    ensures Inv(Apply(s, FetchDone))
  {
    var s' := Apply(s, FetchDone);
    var c := Top(s);
    assert s.stack == s'.stack + [c];
    assert CallOk(s, |s.stack| - 1);
    forall id
      ensures Places(s', id) == if id in s'.submitted then 1 else 0
    {
      assert Places(s, id) == if id in s.submitted then 1 else 0;
      PushCall(s'.stack, c, id);
      assert c.batch[c.i..] == [];
    }
    PushCall(s'.stack, c, 0);
    forall i | 0 <= i < |s'.stack|
      ensures CallOk(s', i)
    {
      assert CallOk(s, i) && s'.stack[i] == s.stack[i];
    }
  }

  lemma StepKeeps(s: State, l: Label)
    requires Inv(s) && Enabled(s, l)
    ensures Inv(Apply(s, l))
  {
    match l {
      case CallSubmit(id) => PushKeeps(s, Submitting(id), Apply(s, l));
      case Accepted => AcceptedKeeps(s);
      case KernelFull => PushKeeps(s, Fetching, Apply(s, l));
      case Retry =>
      case Completes(_) => QuietKeeps(s, Apply(s, l));
      case Notify => QuietKeeps(s, Apply(s, l));
      case OnEvent =>
        var s1 := s.(signals := 0);
        QuietKeeps(s, s1);
        assert s1.stack + [Fetching] == [Fetching];
        PushKeeps(s1, Fetching, Apply(s, l));
      case Harvest(batch) => HarvestKeeps(s, batch);
      case Callback => CallbackKeeps(s);
      case FetchDone => FetchDoneKeeps(s);
    }
  }

  // ------------------------------------------------------------------ whole runs

  ghost predicate IsRun(states: seq<State>, labels: seq<Label>) {
    && |states| == |labels| + 1
    && states[0] == Initial
    && forall i :: 0 <= i < |labels| ==> Enabled(states[i], labels[i]) && states[i + 1] == Apply(states[i], labels[i])
  }

  lemma {:induction false} RunInv(states: seq<State>, labels: seq<Label>)
    requires IsRun(states, labels)
    ensures Inv(states[|labels|])
    decreases |labels|
  {
    if labels == [] {
      forall id ensures Places(Initial, id) == 0 {
      }
    } else {
      var n := |labels| - 1;
      RunInv(states[..n + 1], labels[..n]);
      StepKeeps(states[n], labels[n]);
    }
  }

  /** Main result: at any depth of re-entrancy no completion is dispatched twice or without having
      been submitted, and whenever no call is in progress the counters differ by exactly the
      requests the kernel still holds, and every other request has had its callback exactly once. */
  lemma CompletionsAreConserved(states: seq<State>, labels: seq<Label>)
    requires IsRun(states, labels)
    ensures var s := states[|labels|];
            && (forall id :: Count(s.dispatched, id) <= if id in s.submitted then 1 else 0)
            && (s.stack == [] ==>
                  && s.req - s.res == |s.inflight|
                  && forall id :: Count(s.dispatched, id) == if id in s.submitted && id !in s.inflight then 1 else 0)
  {
    RunInv(states, labels);
    var s := states[|labels|];
    forall id
      ensures Count(s.dispatched, id) <= if id in s.submitted then 1 else 0
      ensures s.stack == [] ==> Count(s.dispatched, id) == if id in s.submitted && id !in s.inflight then 1 else 0
    {
      assert Places(s, id) == if id in s.submitted then 1 else 0;
    }
  }

  // ------------------------------------------------------------------ what became of every call

  /** The requests that user code asked for. */
  function Asked(labels: seq<Label>): set<nat> {
    if labels == [] then {}
    else
      var l := labels[|labels| - 1];
      Asked(labels[..|labels| - 1]) + if l.CallSubmit? then {l.id} else {}
  }

  /** The requests that the kernel completed. */
  function Completed(labels: seq<Label>): set<nat> {
    if labels == [] then {}
    else
      var l := labels[|labels| - 1];
      Completed(labels[..|labels| - 1]) + if l.Completes? then {l.id} else {}
  }

  /** How often `io_submit` took a request. */
  function Taken(labels: seq<Label>): nat {
    if labels == [] then 0 else Taken(labels[..|labels| - 1]) + if labels[|labels| - 1].Accepted? then 1 else 0
  }

  /** What the handler has read from the eventfd, and in how many calls. */
  function Heard(states: seq<State>, labels: seq<Label>): (nat, nat)
    requires |states| == |labels| + 1
  {
    if labels == [] then (0, 0)
    else
      HeardNext(Heard(states[..|labels|], labels[..|labels| - 1]), states[|labels| - 1], labels[|labels| - 1])
  }

  function HeardNext(heard: (nat, nat), s: State, l: Label): (nat, nat) {
    if l.OnEvent? then (heard.0 + s.signals, heard.1 + 1) else heard
  }

  predicate AskedOk(s: State, asked: set<nat>, id: nat) {
    id in asked <==> id in s.submitted || Submitting(id) in s.stack
  }

  predicate CompletedOk(s: State, completed: set<nat>, id: nat) {
    id in completed <==> id in s.done || (id in s.submitted && id !in s.inflight)
  }

  lemma AskedStep(s: State, l: Label, asked: set<nat>, id: nat)
    requires Inv(s) && Enabled(s, l) && AskedOk(s, asked, id)
    ensures AskedOk(Apply(s, l), asked + if l.CallSubmit? then {l.id} else {}, id)
  {
    var s' := Apply(s, l);
    if s.stack != [] {
      assert s.stack == Pop(s) + [Top(s)];
    }
    match l {
      case CallSubmit(x) => assert s'.stack[|s.stack|] == Submitting(x);
      case KernelFull => assert Submitting(id) in s'.stack <==> Submitting(id) in s.stack + [Fetching];
      case _ =>
    }
  }

  lemma CompletedStep(s: State, l: Label, completed: set<nat>, id: nat)
    requires Inv(s) && Enabled(s, l) && CompletedOk(s, completed, id)
    ensures CompletedOk(Apply(s, l), completed + if l.Completes? then {l.id} else {}, id)
  {
    if l.Accepted? {
      assert CallOk(s, |s.stack| - 1);
    }
  }

  lemma {:induction false} RequestIsAccountedFor(states: seq<State>, labels: seq<Label>, id: nat)
    requires IsRun(states, labels)
    ensures AskedOk(states[|labels|], Asked(labels), id) && CompletedOk(states[|labels|], Completed(labels), id)
    decreases |labels|
  {
    if labels != [] {
      var n := |labels| - 1;
      RequestIsAccountedFor(states[..n + 1], labels[..n], id);
      RunInv(states[..n + 1], labels[..n]);
      AskedStep(states[n], labels[n], Asked(labels[..n]), id);
      CompletedStep(states[n], labels[n], Completed(labels[..n]), id);
    }
  }

  /** The eventfd tells of every completion once. */
  predicate HeardOk(s: State, heard: (nat, nat), completed: set<nat>) {
    heard.1 <= heard.0 && heard.0 + s.signals + s.owed == |completed|
  }

  lemma HeardStep(s: State, l: Label, heard: (nat, nat), completed: set<nat>)
    requires Enabled(s, l) && HeardOk(s, heard, completed) && (l.Completes? ==> l.id !in completed)
    ensures HeardOk(Apply(s, l), HeardNext(heard, s, l), completed + if l.Completes? then {l.id} else {})
  {
  }

  lemma HeardLast(states: seq<State>, labels: seq<Label>, n: nat)
    requires |states| == |labels| + 1 && |labels| == n + 1
    ensures Heard(states, labels) == HeardNext(Heard(states[..n + 1], labels[..n]), states[n], labels[n])
    ensures Completed(labels) == Completed(labels[..n]) + if labels[n].Completes? then {labels[n].id} else {}
  {
  }

  lemma FreshCompletion(states: seq<State>, labels: seq<Label>, id: nat)
    requires IsRun(states, labels) && Enabled(states[|labels|], Completes(id))
    ensures id !in Completed(labels)
  {
    RequestIsAccountedFor(states, labels, id);
  }

  lemma {:induction false} CompletionsAreHeard(states: seq<State>, labels: seq<Label>)
    requires IsRun(states, labels)
    ensures HeardOk(states[|labels|], Heard(states, labels), Completed(labels))
    decreases |labels|
  {
    if labels != [] {
      var n := |labels| - 1;
      var before, labels', s, l := states[..n + 1], labels[..n], states[n], labels[n];
      CompletionsAreHeard(before, labels');
      if l.Completes? {
        FreshCompletion(before, labels', l.id);
      }
      HeardLast(states, labels, n);
      HeardStep(s, l, Heard(before, labels'), Completed(labels'));
    }
  }

  lemma {:induction false} TakenIsCounted(states: seq<State>, labels: seq<Label>)
    requires IsRun(states, labels)
    ensures states[|labels|].req == Taken(labels)
    decreases |labels|
  {
    if labels != [] {
      TakenIsCounted(states[..|labels|], labels[..|labels| - 1]);
    }
  }

  /** Main result: over every run, at any depth of re-entrancy, every request that was asked for has been
      taken by the kernel or its `submit` is still trying; a request leaves the kernel only after the kernel
      completed it; and every completion was announced once, to a call of the handler, on the eventfd or
      yet to be. */
  lemma EveryCallIsAccountedFor(states: seq<State>, labels: seq<Label>)
    requires IsRun(states, labels)
    ensures var s := states[|labels|];
            && (forall id :: id in Asked(labels) <==> id in s.submitted || Submitting(id) in s.stack)
            && (forall id :: id in Completed(labels) <==> id in s.done || (id in s.submitted && id !in s.inflight))
            && s.req == Taken(labels)
            && HeardOk(s, Heard(states, labels), Completed(labels))
  {
    var s := states[|labels|];
    forall id
      ensures id in Asked(labels) <==> id in s.submitted || Submitting(id) in s.stack
      ensures id in Completed(labels) <==> id in s.done || (id in s.submitted && id !in s.inflight)
    {
      RequestIsAccountedFor(states, labels, id);
    }
    TakenIsCounted(states, labels);
    CompletionsAreHeard(states, labels);
  }
}
