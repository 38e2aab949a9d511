/** Coroutines of `task.h`: parent pointers and symmetric transfer against ordinary nested calls.

    A coroutine body is any deterministic automaton: `P(s, input)` says what the body in local
    state `s` does next when it is handed `input`.  Loops, recursion, catching or re-throwing are
    all expressible, because the type `S` of local states is arbitrary.

    `Eval` is the reference meaning: an `Await` calls itself on the child and then goes on with the
    child's outcome.  `Machine` is what `task.h` builds: one frame per task, a `parent` handle in
    every promise, `await_suspend` and `final_suspend` that hand control from frame to frame, and a
    native stack of `resume()` calls below them. */
module Coroutine {
  import opened Common

  datatype Outcome = Value(v: int) | Exception(e: int)

  /** What a body is given when it runs on: nothing (first activation or after a plain effect), the
      result of an I/O awaiter, or the outcome of an awaited task. */
  datatype Input = Begin | Answer(a: int) | Result(out: Outcome)

  datatype Action<S> =
    | Return(v: int)                  // co_return
    | Throw(e: int)                   // an exception leaves the body
    | Effect(x: int, next: S)         // anything observable that does not suspend
    | Suspend(op: int, next: S)       // co_await on an I/O awaiter
    | Await(child: S, next: S)        // co_await on a fresh task
    | Spawn(child: S, next: S)        // co_spawn of a fresh task on the loop's own thread

  type Program<!S> = (S, Input) -> Action<S>

  datatype Event = Did(x: int) | Asked(op: int) | Spawned | Awaited(out: Outcome)

  // ------------------------------------------------------------------ reference: nested calls

  datatype Ending =
    | Finished(out: Outcome, answersLeft: seq<int>, stepsLeft: nat)
    | Blocked       // no further I/O answer has arrived
    | OutOfSteps    // still running

  datatype Evaluation = Evaluation(trace: seq<Event>, ending: Ending)

  function Prepend(events: seq<Event>, e: Evaluation): Evaluation {
    Evaluation(events + e.trace, e.ending)
  }

  /** Direct recursive evaluation of a body that is given the I/O answers `answers` in turn and is
      observed for `steps` actions. */
  function Eval<S>(P: Program<S>, s: S, input: Input, answers: seq<int>, steps: nat): (r: Evaluation)
    ensures r.ending.Finished? ==> r.ending.stepsLeft < steps
    decreases steps, 0
  {
    if steps == 0 then Evaluation([], OutOfSteps)
    else
      match P(s, input)
      case Return(v) => Evaluation([], Finished(Value(v), answers, steps - 1))
      case Throw(e) => Evaluation([], Finished(Exception(e), answers, steps - 1))
      case Effect(x, next) => Prepend([Did(x)], Eval(P, next, Begin, answers, steps - 1))
      case Spawn(_, next) => Prepend([Spawned], Eval(P, next, Begin, answers, steps - 1))
      case Suspend(op, next) => Prepend([Asked(op)], EvalParked(P, next, answers, steps - 1))
      case Await(child, next) =>
        var r := Eval(P, child, Begin, answers, steps - 1);
        if !r.ending.Finished? then r
        else
          Prepend(r.trace + [Awaited(r.ending.out)],
                  Eval(P, next, Result(r.ending.out), r.ending.answersLeft, r.ending.stepsLeft))
  }

  /** A body parked on an I/O awaiter goes on when the next answer arrives. */
  function EvalParked<S>(P: Program<S>, s: S, answers: seq<int>, steps: nat): (r: Evaluation)
    ensures r.ending.Finished? ==> r.ending.stepsLeft < steps
    decreases steps, 1
  {
    if answers == [] then Evaluation([], Blocked)
    else Eval(P, s, Answer(answers[0]), answers[1..], steps)
  }

  /** What is left to do when a body in state `s` finishes into the waiting callers `callers`,
      innermost first. */
  function EvalChain<S>(P: Program<S>, s: S, input: Input, callers: seq<S>, answers: seq<int>, steps: nat): Evaluation
    decreases |callers|, 1
  {
    IntoCallers(P, Eval(P, s, input, answers, steps), callers)
  }

  function IntoCallers<S>(P: Program<S>, r: Evaluation, callers: seq<S>): Evaluation
    decreases |callers|, 0
  {
    if !r.ending.Finished? || callers == [] then r
    else
      Prepend(r.trace + [Awaited(r.ending.out)],
              EvalChain(P, callers[0], Result(r.ending.out), callers[1..], r.ending.answersLeft, r.ending.stepsLeft))
  }

  lemma IntoCallersPrepend<S>(P: Program<S>, events: seq<Event>, r: Evaluation, callers: seq<S>)
    ensures IntoCallers(P, Prepend(events, r), callers) == Prepend(events, IntoCallers(P, r, callers))
  {
    if r.ending.Finished? && callers != [] {
      assert events + r.trace + [Awaited(r.ending.out)] == events + (r.trace + [Awaited(r.ending.out)]);
      PrependTwice(events, r.trace + [Awaited(r.ending.out)],
                   EvalChain(P, callers[0], Result(r.ending.out), callers[1..],
                             r.ending.answersLeft, r.ending.stepsLeft));
    }
  }

  lemma PrependTwice(a: seq<Event>, b: seq<Event>, e: Evaluation)
    ensures Prepend(a, Prepend(b, e)) == Prepend(a + b, e)
  {
    assert a + (b + e.trace) == a + b + e.trace;
  }

  /** Awaiting a child is the same as pushing the awaiting body on the list of callers. */
  lemma AwaitPushesCaller<S>(P: Program<S>, next: S, r: Evaluation, callers: seq<S>)
    ensures IntoCallers(P,
                        if !r.ending.Finished? then r
                        else Prepend(r.trace + [Awaited(r.ending.out)],
                                     Eval(P, next, Result(r.ending.out), r.ending.answersLeft, r.ending.stepsLeft)),
                        callers)
         == IntoCallers(P, r, [next] + callers)
  {
    if r.ending.Finished? {
      assert ([next] + callers)[1..] == callers;
      IntoCallersPrepend(P, r.trace + [Awaited(r.ending.out)],
                         Eval(P, next, Result(r.ending.out), r.ending.answersLeft, r.ending.stepsLeft), callers);
    }
  }

  // ------------------------------------------------------------------ the machine of task.h

  datatype Handle = Noop | Coro(id: nat)

  /** The value slot of a promise: `mono`, a value, or a stored exception. */
  datatype Promise = Mono | Holds(out: Outcome)

  datatype Code<S> =
    | Ready(s: S, input: Input)     // at the initial suspend point, or just resumed
    | OnIo(s: S)                    // suspended in an I/O awaiter
    | OnTask(child: nat, s: S)      // suspended in `co_await child`
    | AtFinal                       // at the final suspend point

  /** `root` names the spawned task a frame works for; it is bookkeeping of the model only. */
  datatype Frame<S> = Frame(parent: Handle, code: Code<S>, promise: Promise, root: nat)

  /** History of one spawned task: its body, the answers it was given, its effects so far, the
      actions it took, and its outcome once it is over. */
  datatype Root<S> = Root(body: S, given: seq<int>, trace: seq<Event>, steps: nat, outcome: Option<Outcome>)

  /** `stack` holds the frames that native `resume()` calls are executing, innermost last; `stopped`
      says that an exception has left a spawned task and ended the loop. */
  datatype Machine<S> = Machine(frames: map<nat, Frame<S>>, stack: seq<nat>, next: nat, roots: map<nat, Root<S>>,
                                stopped: bool)

  function Boot<S>(): Machine<S> {
    Machine(map[], [], 0, map[], false)
  }

  datatype Label<S> =
    | Start(body: S)                 // a task handed over with co_spawn is run
    | Wake(id: nat, answer: int)     // an I/O awaiter resumes the frame `id`, from the loop or, when a
                                     // full AIO queue is harvested, inside another frame's execution
    | Run                            // the frame in control acts

  function Top<S>(m: Machine<S>): nat
    requires m.stack != []
  {
    m.stack[|m.stack| - 1]
  }

  function Below(stack: seq<nat>): seq<nat>
    requires stack != []
  {
    stack[..|stack| - 1]
  }

  predicate Enabled<S>(m: Machine<S>, l: Label<S>) {
    && !m.stopped
    && match l
       case Start(_) => true
       case Wake(id, _) => id in m.frames && m.frames[id].code.OnIo?
       case Run => m.stack != [] && CanRun(m, Top(m))
  }

  /** Control may only be given to a frame that exists and is not waiting for anything unfinished. */
  predicate CanRun<S>(m: Machine<S>, t: nat) {
    && t in m.frames
    && m.frames[t].root in m.roots
    && match m.frames[t].code
       case Ready(_, _) => true
       case OnTask(c, _) => c in m.frames && m.frames[c].code.AtFinal? && m.frames[c].promise.Holds?
       case _ => false
  }

  function Note<S>(m: Machine<S>, r: nat, events: seq<Event>, acted: nat): map<nat, Root<S>>
    requires r in m.roots
  {
    var h := m.roots[r];
    m.roots[r := h.(trace := h.trace + events, steps := h.steps + acted)]
  }

  function Apply<S>(P: Program<S>, m: Machine<S>, l: Label<S>): Machine<S>
    requires Enabled(m, l)
  {
    match l
    case Start(body) =>
      AddRoot(m, body)
    case Wake(id, a) =>
      var f := m.frames[id];
      var m1 := m.(frames := m.frames[id := f.(code := Ready(f.code.s, Answer(a)))], stack := m.stack + [id]);
      if f.root !in m.roots then m1
      else m1.(roots := m.roots[f.root := m.roots[f.root].(given := m.roots[f.root].given + [a])])
    case Run =>
      var t := Top(m);
      if m.frames[t].code.OnTask? then AwaitResume(m, t) else Act(P, m, t)
  }

  /** `await_resume` of the task awaiter: read the child's promise, then drop the temporary task,
      which destroys the child's frame. */
  function AwaitResume<S>(m: Machine<S>, t: nat): Machine<S>
    requires CanRun(m, t) && m.frames[t].code.OnTask?
  {
    var f := m.frames[t];
    var out := m.frames[f.code.child].promise.out;
    m.(frames := (m.frames - {f.code.child})[t := f.(code := Ready(f.code.s, Result(out)))],
       roots := Note(m, f.root, [Awaited(out)], 0))
  }

  /** A detached task starts to run in a `resume()` call of its own. */
  function AddRoot<S>(m: Machine<S>, body: S): Machine<S> {
    m.(frames := m.frames[m.next := Frame(Noop, Ready(body, Begin), Mono, m.next)], stack := m.stack + [m.next],
       next := m.next + 1, roots := m.roots[m.next := Root(body, [], [], 0, None)])
  }

  /** The frame in control moves on by itself; parking on I/O makes `resume()` return. */
  function Advance<S>(m: Machine<S>, t: nat, code: Code<S>, events: seq<Event>): Machine<S>
    requires m.stack != [] && Top(m) == t && CanRun(m, t)
  {
    var f := m.frames[t];
    m.(frames := m.frames[t := f.(code := code)], stack := if code.OnIo? then Below(m.stack) else m.stack,
       roots := Note(m, f.root, events, 1))
  }

  function Act<S>(P: Program<S>, m: Machine<S>, t: nat): Machine<S>
    requires m.stack != [] && Top(m) == t && CanRun(m, t) && m.frames[t].code.Ready?
  {
    var f := m.frames[t];
    match P(f.code.s, f.code.input)
    case Return(v) => FinalSuspend(m, t, Value(v))
    case Throw(e) => if f.parent.Noop? then Escape(m, t, e) else FinalSuspend(m, t, Exception(e))
    case Effect(x, next) =>
      Advance(m, t, Ready(next, Begin), [Did(x)])
    case Suspend(op, next) =>
      Advance(m, t, OnIo(next), [Asked(op)])
    case Await(child, next) =>
      // the child is created suspended, gets this frame as its parent, and control moves to it
      m.(frames := m.frames[t := f.(code := OnTask(m.next, next))]
                           [m.next := Frame(Coro(t), Ready(child, Begin), Mono, f.root)],
         stack := Below(m.stack) + [m.next], next := m.next + 1, roots := Note(m, f.root, [], 1))
    case Spawn(child, next) =>
      // the new task runs in a nested resume(); this frame goes on when that call returns
      AddRoot(Advance(m, t, Ready(next, Begin), [Spawned]), child)
  }

  /** `final_suspend`: the promise keeps the outcome and control moves to the parent.  A detached
      frame (only spawned tasks are detached) reads its continuation, the no-op, destroys itself
      and lets `resume()` return. */
  function FinalSuspend<S>(m: Machine<S>, t: nat, out: Outcome): Machine<S>
    requires m.stack != [] && Top(m) == t && CanRun(m, t)
  {
    var f := m.frames[t];
    var noted := Note(m, f.root, [], 1);
    match f.parent
    case Noop =>
      m.(frames := m.frames - {t}, stack := Below(m.stack),
         roots := noted[f.root := noted[f.root].(outcome := Some(out))])
    case Coro(p) =>
      m.(frames := m.frames[t := f.(code := AtFinal, promise := Holds(out))],
         stack := Below(m.stack) + [p], roots := noted)
  }

  /** An exception leaves a detached frame: `unhandled_exception` rethrows it, so the frame counts as
      finished but its final awaiter never runs and nobody destroys it.  The exception passes through
      every `resume()` call: it ends the process in one made by `co_spawn` or by the AIO harvest,
      which are `noexcept`, and leaves `run` otherwise. */
  function Escape<S>(m: Machine<S>, t: nat, e: int): Machine<S>
    requires CanRun(m, t)
  {
    var f := m.frames[t];
    var noted := Note(m, f.root, [], 1);
    m.(frames := m.frames[t := f.(code := AtFinal)], stack := [], stopped := true,
       roots := noted[f.root := noted[f.root].(outcome := Some(Exception(e)))])
  }

  // ------------------------------------------------------------------ the invariant

  /** The saved states of the callers of `chain[0]`, following the parent pointers. */
  function Callers<S>(m: Machine<S>, chain: seq<nat>): seq<S>
    requires Linked(m, chain)
  {
    if |chain| <= 1 then []
    else
      assert Link(m, chain[0], chain[1]);
      [m.frames[chain[1]].code.s] + Callers(m, chain[1..])
  }

  /** `chain` is a list of live frames, innermost first, each the parent of the one before and
      suspended on it, ending in a frame whose parent is the no-op. */
  predicate Linked<S>(m: Machine<S>, chain: seq<nat>) {
    && (forall i :: 0 <= i < |chain| ==> chain[i] in m.frames)
    && (forall i, j :: 0 <= i < |chain| && 0 <= j < |chain| && j == i + 1 ==> Link(m, chain[i], chain[j]))
    && (chain != [] ==> m.frames[chain[|chain| - 1]].parent.Noop?)
  }

  predicate Link<S>(m: Machine<S>, child: nat, parent: nat) {
    && child in m.frames && parent in m.frames
    && m.frames[parent].code.OnTask? && m.frames[parent].code.child == child
    && m.frames[child].parent == Coro(parent)
  }

  /** The frame of a chain that control is at, if it is anywhere: the innermost one, or its parent
      once the innermost one has finished. */
  function Control<S>(m: Machine<S>, chain: seq<nat>): Option<nat> {
    if chain == [] || chain[0] !in m.frames || m.frames[chain[0]].code.OnIo? then None
    else if m.frames[chain[0]].code.AtFinal? then if |chain| > 1 then Some(chain[1]) else None
    else Some(chain[0])
  }

  /** What a chain still has to do. */
  function Remaining<S>(P: Program<S>, m: Machine<S>, chain: seq<nat>, outcome: Option<Outcome>,
                        answers: seq<int>, steps: nat): Evaluation
    requires Linked(m, chain)
  {
    if outcome.Some? then Evaluation([], Finished(outcome.value, answers, steps))
    else if chain == [] then Evaluation([], Blocked)
    else
      var leaf := m.frames[chain[0]];
      match leaf.code
      case Ready(s, input) => EvalChain(P, s, input, Callers(m, chain), answers, steps)
      case OnIo(s) => IntoCallers(P, EvalParked(P, s, answers, steps), Callers(m, chain))
      case OnTask(_, _) => Evaluation([], Blocked)
      case AtFinal =>
        match leaf.promise
        case Holds(out) => IntoCallers(P, Evaluation([], Finished(out, answers, steps)), Callers(m, chain))
        case Mono => Evaluation([], Blocked)
  }

  /** The chain of one spawned task: live frames of that task only, linked through their parent
      pointers without repetition.  A task that is over has none, unless an exception left it. */
  predicate RootShape<S>(m: Machine<S>, r: nat, chain: seq<nat>)
    requires r in m.roots
  {
    && Linked(m, chain)
    && Distinct(chain)
    && (forall i :: 0 <= i < |chain| ==> m.frames[chain[i]].root == r)
    && match m.roots[r].outcome
       case None => chain != [] && LeafOk(m, chain)
       case Some(Value(_)) => chain == []
       case Some(Exception(_)) => |chain| == 1 && m.frames[chain[0]].code.AtFinal?
  }

  predicate LeafOk<S>(m: Machine<S>, chain: seq<nat>)
    requires chain != [] && Linked(m, chain)
  {
    var leaf := m.frames[chain[0]];
    && !leaf.code.OnTask?
    && (leaf.code.AtFinal? ==> leaf.promise.Holds? && |chain| > 1)
  }

  /** Every frame that exists is on the chain of its task, and exactly the tasks that are neither
      parked on I/O nor over are on the native stack, once each. */
  ghost predicate Shaped<S>(m: Machine<S>, chains: map<nat, seq<nat>>) {
    && chains.Keys == m.roots.Keys
    && (forall r {:trigger RootShape(m, r, chains[r])} :: r in m.roots ==> r < m.next && RootShape(m, r, chains[r]))
    && (forall id {:trigger Belongs(m, chains, id)} :: id in m.frames ==> Belongs(m, chains, id))
    && (if m.stopped then m.stack == [] else StackOk(m, chains))
  }

  /** As long as the loop goes on, no exception has left a spawned task. */
  predicate Quiet<S>(m: Machine<S>, r: nat)
    requires r in m.roots
  {
    !m.stopped && m.roots[r].outcome.Some? ==> m.roots[r].outcome.value.Value?
  }

  ghost predicate Belongs<S>(m: Machine<S>, chains: map<nat, seq<nat>>, id: nat)
    requires chains.Keys == m.roots.Keys && id in m.frames
  {
    id < m.next && m.frames[id].root in m.roots && id in chains[m.frames[id].root]
  }

  ghost predicate StackOk<S>(m: Machine<S>, chains: map<nat, seq<nat>>)
    requires chains.Keys == m.roots.Keys
  {
    && Distinct(m.stack)
    && (forall i :: 0 <= i < |m.stack| ==> InControl(m, chains, m.stack[i]))
    && (forall r {:trigger Activated(m, chains, r)} :: r in m.roots ==> Activated(m, chains, r))
  }

  ghost predicate InControl<S>(m: Machine<S>, chains: map<nat, seq<nat>>, id: nat)
    requires chains.Keys == m.roots.Keys
  {
    id in m.frames && m.frames[id].root in m.roots && Control(m, chains[m.frames[id].root]) == Some(id)
  }

  ghost predicate Activated<S>(m: Machine<S>, chains: map<nat, seq<nat>>, r: nat)
    requires chains.Keys == m.roots.Keys && r in m.roots
  {
    Control(m, chains[r]).Some? ==> Control(m, chains[r]).value in m.stack
  }

  /** The history of a task followed by what its chain still has to do is exactly the direct
      evaluation of its body, whatever answers are still to come and however long it is watched. */
  ghost predicate Meaning<S>(P: Program<S>, m: Machine<S>, r: nat, chain: seq<nat>)
    requires r in m.roots
  {
    var h := m.roots[r];
    && Linked(m, chain)
    && forall answers: seq<int>, steps: nat ::
         Eval(P, h.body, Begin, h.given + answers, h.steps + steps)
         == Prepend(h.trace, Remaining(P, m, chain, h.outcome, answers, steps))
  }

  ghost predicate Witnessed<S>(P: Program<S>, m: Machine<S>, chains: map<nat, seq<nat>>) {
    && Shaped(m, chains)
    && (forall r {:trigger Meaning(P, m, r, chains[r])} :: r in m.roots ==> Meaning(P, m, r, chains[r]))
    && (forall r {:trigger Quiet(m, r)} :: r in m.roots ==> Quiet(m, r))
  }

  // ------------------------------------------------------------------ steps keep the invariant

  /** The callers' saved states do not depend on the innermost frame's own code. */
  lemma {:induction false} CallersFrame<S>(m: Machine<S>, m': Machine<S>, chain: seq<nat>)
    requires Linked(m, chain) && Linked(m', chain)
    requires forall i :: 0 < i < |chain| ==> m'.frames[chain[i]] == m.frames[chain[i]]
    ensures Callers(m', chain) == Callers(m, chain)
  {
    if |chain| > 1 {
      CallersFrame(m, m', chain[1..]);
    }
  }

  lemma RemainingFrame<S>(P: Program<S>, m: Machine<S>, m': Machine<S>, r: nat, chain: seq<nat>)
    requires r in m.roots && Linked(m, chain) && Meaning(P, m, r, chain)
    requires r in m'.roots && m'.roots[r] == m.roots[r]
    requires forall i :: 0 <= i < |chain| ==> chain[i] in m'.frames && m'.frames[chain[i]] == m.frames[chain[i]]
    ensures Linked(m', chain) && Meaning(P, m', r, chain)
  {
    CallersFrame(m, m', chain);
    forall answers: seq<int>, steps: nat
      ensures Remaining(P, m', chain, m.roots[r].outcome, answers, steps)
           == Remaining(P, m, chain, m.roots[r].outcome, answers, steps)
    {
    }
  }

  /** The acting task: if what remained was `events` followed by what remains now, and the history
      grew by `events` and `acted` actions, the history still means the direct evaluation. */
  lemma MeaningStep<S>(P: Program<S>, m: Machine<S>, m': Machine<S>, r: nat, chain: seq<nat>, chain': seq<nat>,
                       events: seq<Event>, acted: nat)
    requires r in m.roots && Linked(m, chain) && Meaning(P, m, r, chain)
    requires r in m'.roots && Linked(m', chain')
    requires m'.roots[r].body == m.roots[r].body && m'.roots[r].given == m.roots[r].given
    requires m'.roots[r].trace == m.roots[r].trace + events && m'.roots[r].steps == m.roots[r].steps + acted
    requires forall answers: seq<int>, steps: nat ::
               Remaining(P, m, chain, m.roots[r].outcome, answers, steps + acted)
               == Prepend(events, Remaining(P, m', chain', m'.roots[r].outcome, answers, steps))
    ensures Meaning(P, m', r, chain')
  {
    var h, h' := m.roots[r], m'.roots[r];
    forall answers: seq<int>, steps: nat
      ensures Eval(P, h'.body, Begin, h'.given + answers, h'.steps + steps)
           == Prepend(h'.trace, Remaining(P, m', chain', h'.outcome, answers, steps))
    {
      var rest := Remaining(P, m', chain', h'.outcome, answers, steps);
      assert h'.steps + steps == h.steps + (steps + acted);
      assert Eval(P, h.body, Begin, h.given + answers, h.steps + (steps + acted))
          == Prepend(h.trace, Remaining(P, m, chain, h.outcome, answers, steps + acted));
      PrependTwice(h.trace, events, rest);
    }
  }

  /** A step on behalf of task `r` that leaves the frames and histories of the others alone. */
  ghost predicate OnlyTouches<S>(m: Machine<S>, m': Machine<S>, r: nat) {
    && (forall id :: id in m.frames && m.frames[id].root != r ==> id in m'.frames && m'.frames[id] == m.frames[id])
    && (forall q :: q in m.roots && q != r ==> q in m'.roots && m'.roots[q] == m.roots[q])
  }

  lemma OthersMean<S>(P: Program<S>, m: Machine<S>, m': Machine<S>, chains: map<nat, seq<nat>>, r: nat)
    requires Witnessed(P, m, chains) && OnlyTouches(m, m', r)
    ensures forall q :: q in m.roots && q != r ==> Meaning(P, m', q, chains[q])
  {
    forall q | q in m.roots && q != r
      ensures Meaning(P, m', q, chains[q])
    {
      assert RootShape(m, q, chains[q]) && Meaning(P, m, q, chains[q]);
      RemainingFrame(P, m, m', q, chains[q]);
    }
  }

  /** The chain of the frame in control, and where in it that frame stands. */
  lemma ControlPoint<S>(m: Machine<S>, chains: map<nat, seq<nat>>)
    requires Shaped(m, chains) && m.stack != []
    ensures CanRun(m, Top(m))
    ensures var t := Top(m); var chain := chains[m.frames[t].root];
            && RootShape(m, m.frames[t].root, chain) && m.roots[m.frames[t].root].outcome.None?
            && Control(m, chain) == Some(t)
            && (m.frames[t].code.Ready? ==> chain[0] == t)
            && (m.frames[t].code.OnTask? ==>
                  |chain| > 1 && chain[1] == t && m.frames[t].code.child == chain[0]
                  && m.frames[chain[0]].code.AtFinal?)
  {
    var t := Top(m);
    assert StackOk(m, chains);
    assert InControl(m, chains, m.stack[|m.stack| - 1]);
    var r := m.frames[t].root;
    assert RootShape(m, r, chains[r]);
  }

  lemma ShapeFrame<S>(m: Machine<S>, m': Machine<S>, r: nat, chain: seq<nat>)
    requires r in m.roots && RootShape(m, r, chain)
    requires r in m'.roots && m'.roots[r] == m.roots[r]
    requires forall i :: 0 <= i < |chain| ==> chain[i] in m'.frames && m'.frames[chain[i]] == m.frames[chain[i]]
    ensures RootShape(m', r, chain) && Control(m', chain) == Control(m, chain)
  {
    forall i, j | 0 <= i < |chain| && 0 <= j < |chain| && j == i + 1
      ensures Link(m', chain[i], chain[j])
    {
      assert Link(m, chain[i], chain[j]);
    }
  }

  lemma OthersShape<S>(m: Machine<S>, m': Machine<S>, chains: map<nat, seq<nat>>, r: nat)
    requires Shaped(m, chains) && OnlyTouches(m, m', r)
    ensures forall q :: q in m.roots && q != r ==>
              RootShape(m', q, chains[q]) && Control(m', chains[q]) == Control(m, chains[q])
  {
    forall q | q in m.roots && q != r
      ensures RootShape(m', q, chains[q]) && Control(m', chains[q]) == Control(m, chains[q])
    {
      assert RootShape(m, q, chains[q]);
      ShapeFrame(m, m', q, chains[q]);
    }
  }

  lemma ControlInChain<S>(m: Machine<S>, r: nat, chain: seq<nat>)
    requires r in m.roots && RootShape(m, r, chain) && Control(m, chain).Some?
    ensures var c := Control(m, chain).value; c in m.frames && m.frames[c].root == r
  {
  }

  function Push(stack: seq<nat>, c: Option<nat>): seq<nat> {
    match c case None => stack case Some(id) => stack + [id]
  }

  /** A step of the task in control that turns its chain into `chain'` and leaves its new control
      point, if any, on top of the stack. */
  ghost predicate Moves<S>(m: Machine<S>, m': Machine<S>, r: nat, chain': seq<nat>) {
    && m.stack != [] && Top(m) in m.frames && m.frames[Top(m)].root == r && r in m.roots
    && m'.roots.Keys == m.roots.Keys && OnlyTouches(m, m', r) && m.next <= m'.next && !m'.stopped && Quiet(m', r)
    && RootShape(m', r, chain')
    && (forall id {:trigger FrameOf(m, m', r, chain', id)} :: id in m'.frames ==>
          FrameOf(m, m', r, chain', id))
    && m'.stack == Push(Below(m.stack), Control(m', chain'))
  }

  ghost predicate FrameOf<S>(m: Machine<S>, m': Machine<S>, r: nat, chain': seq<nat>, id: nat)
    requires id in m'.frames
  {
    if m'.frames[id].root == r then id in chain' && id < m'.next
    else id in m.frames && m'.frames[id] == m.frames[id]
  }

  lemma ShapeStep<S>(m: Machine<S>, m': Machine<S>, chains: map<nat, seq<nat>>, r: nat, chain': seq<nat>)
    requires Shaped(m, chains) && Moves(m, m', r, chain')
    ensures Shaped(m', chains[r := chain'])
  {
    OthersShape(m, m', chains, r);
    StackStep(m, m', chains, r, chain');
    AllShaped(m, m', chains, r, chain');
    AllBelong(m, m', chains, r, chain');
  }

  lemma AllShaped<S>(m: Machine<S>, m': Machine<S>, chains: map<nat, seq<nat>>, r: nat, chain': seq<nat>)
    requires Shaped(m, chains) && Moves(m, m', r, chain')
    requires forall q :: q in m.roots && q != r ==> RootShape(m', q, chains[q])
    ensures forall q :: q in m'.roots ==> q < m'.next && RootShape(m', q, chains[r := chain'][q])
  {
    forall q | q in m'.roots
      ensures q < m'.next && RootShape(m', q, chains[r := chain'][q])
    {
      assert RootShape(m, q, chains[q]);
    }
  }

  lemma AllBelong<S>(m: Machine<S>, m': Machine<S>, chains: map<nat, seq<nat>>, r: nat, chain': seq<nat>)
    requires Shaped(m, chains) && Moves(m, m', r, chain')
    ensures forall id :: id in m'.frames ==> Belongs(m', chains[r := chain'], id)
  {
    forall id | id in m'.frames
      ensures Belongs(m', chains[r := chain'], id)
    {
      assert FrameOf(m, m', r, chain', id);
      if m'.frames[id].root != r {
        assert Belongs(m, chains, id);
      }
    }
  }

  /** The control point of a task other than the one on top of the stack is below the top. */
  lemma OtherControl<S>(m: Machine<S>, chains: map<nat, seq<nat>>, r: nat, q: nat)
    requires Shaped(m, chains) && m.stack != [] && Top(m) in m.frames && m.frames[Top(m)].root == r
    requires q in m.roots && q != r && Control(m, chains[q]).Some?
    ensures Control(m, chains[q]).value in Below(m.stack)
  {
    var id := Control(m, chains[q]).value;
    assert StackOk(m, chains) && RootShape(m, q, chains[q]);
    assert Activated(m, chains, q);
    ControlInChain(m, q, chains[q]);
    var i :| 0 <= i < |m.stack| && m.stack[i] == id;
    assert Below(m.stack)[i] == id;
  }

  lemma StackStep<S>(m: Machine<S>, m': Machine<S>, chains: map<nat, seq<nat>>, r: nat, chain': seq<nat>)
    requires Shaped(m, chains) && Moves(m, m', r, chain')
    requires forall q :: q in m.roots && q != r ==> Control(m', chains[q]) == Control(m, chains[q])
    ensures StackOk(m', chains[r := chain'])
  {
    var chains' := chains[r := chain'];
    var c := Control(m', chain');
    ControlPoint(m, chains);
    assert StackOk(m, chains);
    assert m.stack[|m.stack| - 1] == Top(m);
    if c.Some? {
      ControlInChain(m', r, chain');
    }
    forall i | 0 <= i < |m'.stack|
      ensures InControl(m', chains', m'.stack[i])
      ensures i < |m.stack| - 1 ==> m'.frames[m'.stack[i]].root != r
    {
      if i < |m.stack| - 1 {
        assert m'.stack[i] == m.stack[i];
        assert InControl(m, chains, m.stack[i]);
      }
    }
    forall q | q in m'.roots
      ensures Activated(m', chains', q)
    {
      if q != r && Control(m', chains'[q]).Some? {
        assert Activated(m, chains, q);
        OtherControl(m, chains, r, q);
      }
    }
    assert Distinct(m'.stack);
  }

  ghost predicate Advances<S>(a: Action<S>, code: Code<S>, events: seq<Event>) {
    match a
    case Effect(x, next) => events == [Did(x)] && code == Ready(next, Begin)
    case Spawn(_, next) => events == [Spawned] && code == Ready(next, Begin)
    case Suspend(op, next) => events == [Asked(op)] && code == OnIo(next)
    case _ => false
  }

  /** One action of the innermost frame, seen by what remains of its task: plain effects, spawning,
      parking on I/O. */
  lemma RemainingAfterLocal<S>(P: Program<S>, m: Machine<S>, m': Machine<S>, chain: seq<nat>, events: seq<Event>,
                               answers: seq<int>, steps: nat)
    requires chain != [] && Linked(m, chain) && Linked(m', chain)
    requires m.frames[chain[0]].code.Ready?
    requires forall i :: 0 < i < |chain| ==> m'.frames[chain[i]] == m.frames[chain[i]]
    requires var c := m.frames[chain[0]].code; Advances(P(c.s, c.input), m'.frames[chain[0]].code, events)
    ensures Remaining(P, m, chain, None, answers, steps + 1)
         == Prepend(events, Remaining(P, m', chain, None, answers, steps))
  {
    CallersFrame(m, m', chain);
    var c := m.frames[chain[0]].code;
    var ks := Callers(m, chain);
    match P(c.s, c.input) {
      case Effect(x, next) => IntoCallersPrepend(P, [Did(x)], Eval(P, next, Begin, answers, steps), ks);
      case Spawn(_, next) => IntoCallersPrepend(P, [Spawned], Eval(P, next, Begin, answers, steps), ks);
      case Suspend(op, next) => IntoCallersPrepend(P, [Asked(op)], EvalParked(P, next, answers, steps), ks);
    }
  }

  lemma RemainingAfterAwait<S>(P: Program<S>, m: Machine<S>, m': Machine<S>, chain: seq<nat>, longer: seq<nat>,
                               answers: seq<int>, steps: nat)
    requires |longer| > 1 && longer[1..] == chain
    requires Linked(m, chain) && Linked(m', longer) && Linked(m', chain)
    requires m.frames[chain[0]].code.Ready?
    requires forall i :: 0 < i < |chain| ==> m'.frames[chain[i]] == m.frames[chain[i]]
    requires var c := m.frames[chain[0]].code; var a := P(c.s, c.input);
             && a.Await? && m'.frames[longer[0]].code == Ready(a.child, Begin)
             && m'.frames[longer[1]].code.s == a.next
    ensures Remaining(P, m, chain, None, answers, steps + 1)
         == Prepend([], Remaining(P, m', longer, None, answers, steps))
  {
    var c := m.frames[chain[0]].code;
    var a := P(c.s, c.input);
    CallersFrame(m, m', chain);
    AwaitPushesCaller(P, a.next, Eval(P, a.child, Begin, answers, steps), Callers(m, chain));
  }

  predicate Ends<S>(a: Action<S>, out: Outcome) {
    match out case Value(v) => a == Return(v) case Exception(e) => a == Throw(e)
  }

  lemma RemainingAfterFinal<S>(P: Program<S>, m: Machine<S>, m': Machine<S>, chain: seq<nat>, out: Outcome,
                               answers: seq<int>, steps: nat)
    requires |chain| > 1 && Linked(m, chain) && Linked(m', chain)
    requires m.frames[chain[0]].code.Ready?
    requires forall i :: 0 < i < |chain| ==> m'.frames[chain[i]] == m.frames[chain[i]]
    requires var c := m.frames[chain[0]].code; Ends(P(c.s, c.input), out)
    requires m'.frames[chain[0]].code.AtFinal? && m'.frames[chain[0]].promise == Holds(out)
    ensures Remaining(P, m, chain, None, answers, steps + 1)
         == Prepend([], Remaining(P, m', chain, None, answers, steps))
  {
    CallersFrame(m, m', chain);
  }

  lemma RemainingAfterResume<S>(P: Program<S>, m: Machine<S>, m': Machine<S>, chain: seq<nat>,
                                answers: seq<int>, steps: nat)
    requires |chain| > 1 && Linked(m, chain) && Linked(m', chain[1..])
    requires m.frames[chain[0]].code.AtFinal? && m.frames[chain[0]].promise.Holds?
    requires forall i :: 1 < i < |chain| ==> m'.frames[chain[i]] == m.frames[chain[i]]
    requires m'.frames[chain[1]].code == Ready(m.frames[chain[1]].code.s, Result(m.frames[chain[0]].promise.out))
    ensures Remaining(P, m, chain, None, answers, steps)
         == Prepend([Awaited(m.frames[chain[0]].promise.out)], Remaining(P, m', chain[1..], None, answers, steps))
  {
    assert Link(m, chain[0], chain[1]);
    TailLinked(m, chain);
    CallersFrame(m, m', chain[1..]);
    var ks, out := Callers(m, chain), m.frames[chain[0]].promise.out;
    assert ks == [m.frames[chain[1]].code.s] + Callers(m, chain[1..]);
    assert ks[1..] == Callers(m, chain[1..]);
  }

  // One lemma per kind of step: the new chains witness the new state.

  /** Frames that exist before a step and keep their place afterwards. */
  lemma FramesStay<S>(m: Machine<S>, m': Machine<S>, chains: map<nat, seq<nat>>, r: nat, chain': seq<nat>, id: nat)
    requires Shaped(m, chains) && r in m.roots && id in m.frames && id in m'.frames
    requires m.frames[id].root == m'.frames[id].root && m.next <= m'.next
    requires m.frames[id].root != r ==> m'.frames[id] == m.frames[id]
    requires m.frames[id].root == r && id in chains[r] ==> id in chain'
    ensures FrameOf(m, m', r, chain', id)
  {
    assert Belongs(m, chains, id);
  }

  lemma LocalShape<S>(m: Machine<S>, chains: map<nat, seq<nat>>, code: Code<S>, events: seq<Event>)
    requires Shaped(m, chains) && m.stack != [] && CanRun(m, Top(m)) && m.frames[Top(m)].code.Ready?
    requires code.Ready? || code.OnIo?
    ensures Moves(m, Advance(m, Top(m), code, events), m.frames[Top(m)].root, chains[m.frames[Top(m)].root])
  {
    ControlPoint(m, chains);
    var t := Top(m);
    var r := m.frames[t].root;
    var chain := chains[r];
    var m' := Advance(m, t, code, events);
    forall i, j | 0 <= i < |chain| && 0 <= j < |chain| && j == i + 1
      ensures Link(m', chain[i], chain[j])
    {
      assert Link(m, chain[i], chain[j]);
    }
    forall id | id in m'.frames
      ensures FrameOf(m, m', r, chain, id)
    {
      FramesStay(m, m', chains, r, chain, id);
    }
  }

  lemma AwaitLinks<S>(P: Program<S>, m: Machine<S>, r: nat, chain: seq<nat>)
    requires m.stack != [] && CanRun(m, Top(m)) && m.frames[Top(m)].code.Ready? && m.frames[Top(m)].root == r
    requires var c := m.frames[Top(m)].code; P(c.s, c.input).Await?
    requires RootShape(m, r, chain) && chain != [] && chain[0] == Top(m) && m.next !in m.frames
    ensures RootShape(Act(P, m, Top(m)), r, [m.next] + chain)
  {
    var chain' := [m.next] + chain;
    var m' := Act(P, m, Top(m));
    forall i, j | 0 <= i < |chain'| && 0 <= j < |chain'| && j == i + 1
      ensures Link(m', chain'[i], chain'[j])
    {
      if i > 0 {
        assert chain'[i] == chain[i - 1] && chain'[j] == chain[i];
        assert Link(m, chain[i - 1], chain[i]);
      }
    }
  }

  lemma AwaitShape<S>(P: Program<S>, m: Machine<S>, chains: map<nat, seq<nat>>)
    requires Shaped(m, chains) && m.stack != [] && CanRun(m, Top(m)) && m.frames[Top(m)].code.Ready?
    requires var c := m.frames[Top(m)].code; P(c.s, c.input).Await?
    ensures Moves(m, Act(P, m, Top(m)), m.frames[Top(m)].root, [m.next] + chains[m.frames[Top(m)].root])
  {
    ControlPoint(m, chains);
    var t := Top(m);
    var r := m.frames[t].root;
    var chain := chains[r];
    var chain' := [m.next] + chain;
    var m' := Act(P, m, t);
    FreshId(m, chains);
    AwaitLinks(P, m, r, chain);
    forall id | id in m'.frames
      ensures FrameOf(m, m', r, chain', id)
    {
      if id != m.next {
        FramesStay(m, m', chains, r, chain', id);
      }
    }
  }

  lemma FreshId<S>(m: Machine<S>, chains: map<nat, seq<nat>>)
    requires Shaped(m, chains)
    ensures m.next !in m.frames && m.next !in m.roots
  {
    forall id | id in m.frames ensures id < m.next {
      assert Belongs(m, chains, id);
    }
    forall r | r in m.roots ensures r < m.next {
      assert RootShape(m, r, chains[r]);
    }
  }

  /** Finishing: a nested frame stays at its final suspend point under its parent's eyes; the
      outermost frame of a task is gone. */
  lemma FinalShape<S>(m: Machine<S>, chains: map<nat, seq<nat>>, out: Outcome)
    requires Shaped(m, chains) && m.stack != [] && CanRun(m, Top(m)) && m.frames[Top(m)].code.Ready?
    requires m.frames[Top(m)].parent.Noop? ==> out.Value?
    ensures var r := m.frames[Top(m)].root;
            && (m.frames[Top(m)].parent.Noop? <==> |chains[r]| == 1)
            && Moves(m, FinalSuspend(m, Top(m), out), r, if |chains[r]| == 1 then [] else chains[r])
  {
    ControlPoint(m, chains);
    var t := Top(m);
    var r := m.frames[t].root;
    var chain := chains[r];
    var m' := FinalSuspend(m, t, out);
    if |chain| > 1 {
      assert Link(m, chain[0], chain[1]);
      forall i, j | 0 <= i < |chain| && 0 <= j < |chain| && j == i + 1
        ensures Link(m', chain[i], chain[j])
      {
        assert Link(m, chain[i], chain[j]);
      }
    }
    var chain' := if |chain| == 1 then [] else chain;
    forall id | id in m'.frames
      ensures FrameOf(m, m', r, chain', id)
    {
      FramesStay(m, m', chains, r, chain', id);
    }
  }

  lemma ResumeShape<S>(m: Machine<S>, chains: map<nat, seq<nat>>)
    requires Shaped(m, chains) && m.stack != [] && CanRun(m, Top(m)) && m.frames[Top(m)].code.OnTask?
    ensures var r := m.frames[Top(m)].root; chains[r] != [] && Moves(m, AwaitResume(m, Top(m)), r, chains[r][1..])
  {
    ControlPoint(m, chains);
    var t := Top(m);
    var r := m.frames[t].root;
    var chain := chains[r];
    var chain' := chain[1..];
    var m' := AwaitResume(m, t);
    assert Link(m, chain[0], chain[1]);
    forall i, j | 0 <= i < |chain'| && 0 <= j < |chain'| && j == i + 1
      ensures Link(m', chain'[i], chain'[j])
    {
      assert chain'[i] == chain[i + 1] && chain'[j] == chain[j + 1];
      assert Link(m, chain[i + 1], chain[j + 1]);
    }
    forall id | id in m'.frames
      ensures FrameOf(m, m', r, chain', id)
    {
      FramesStay(m, m', chains, r, chain', id);
    }
    assert m'.stack == Push(Below(m.stack), Control(m', chain'));
  }

  /** Every action of the frame in control except spawning keeps the invariant. */
  lemma ActKeeps<S>(P: Program<S>, m: Machine<S>, chains: map<nat, seq<nat>>, chain': seq<nat>,
                    events: seq<Event>, acted: nat,
                    m': Machine<S>)
    requires Witnessed(P, m, chains)
    requires m.stack != [] && Top(m) in m.frames
    requires var r := m.frames[Top(m)].root;
             && Moves(m, m', r, chain') && Linked(m, chains[r])
             && m'.roots[r].body == m.roots[r].body && m'.roots[r].given == m.roots[r].given
             && m'.roots[r].trace == m.roots[r].trace + events && m'.roots[r].steps == m.roots[r].steps + acted
             && forall answers: seq<int>, steps: nat ::
                  Remaining(P, m, chains[r], m.roots[r].outcome, answers, steps + acted)
                  == Prepend(events, Remaining(P, m', chain', m'.roots[r].outcome, answers, steps))
    ensures Witnessed(P, m', chains[m.frames[Top(m)].root := chain'])
  {
    var r := m.frames[Top(m)].root;
    var chains' := chains[r := chain'];
    ShapeStep(m, m', chains, r, chain');
    OthersMean(P, m, m', chains, r);
    assert Meaning(P, m, r, chains[r]);
    MeaningStep(P, m, m', r, chains[r], chain', events, acted);
    forall q | q in m'.roots
      ensures Meaning(P, m', q, chains'[q]) && Quiet(m', q)
    {
      assert Quiet(m, q);
    }
  }

  lemma LocalKeeps<S>(P: Program<S>, m: Machine<S>, chains: map<nat, seq<nat>>, code: Code<S>, events: seq<Event>)
    requires Witnessed(P, m, chains) && m.stack != [] && CanRun(m, Top(m)) && m.frames[Top(m)].code.Ready?
    requires var c := m.frames[Top(m)].code; Advances(P(c.s, c.input), code, events)
    ensures Witnessed(P, Advance(m, Top(m), code, events), chains)
  {
    ControlPoint(m, chains);
    LocalShape(m, chains, code, events);
    var r := m.frames[Top(m)].root;
    var chain := chains[r];
    var m' := Advance(m, Top(m), code, events);
    forall answers: seq<int>, steps: nat
      ensures Remaining(P, m, chain, m.roots[r].outcome, answers, steps + 1)
           == Prepend(events, Remaining(P, m', chain, m'.roots[r].outcome, answers, steps))
    {
      RemainingAfterLocal(P, m, m', chain, events, answers, steps);
    }
    ActKeeps(P, m, chains, chain, events, 1, m');
    assert chains[r := chain] == chains;
  }

  lemma AwaitKeeps<S>(P: Program<S>, m: Machine<S>, chains: map<nat, seq<nat>>)
    requires Witnessed(P, m, chains) && m.stack != [] && CanRun(m, Top(m)) && m.frames[Top(m)].code.Ready?
    requires var c := m.frames[Top(m)].code; P(c.s, c.input).Await?
    requires m.frames[Top(m)].root in chains
    ensures Witnessed(P, Act(P, m, Top(m)),
                      chains[m.frames[Top(m)].root := [m.next] + chains[m.frames[Top(m)].root]])
  {
    ControlPoint(m, chains);
    AwaitShape(P, m, chains);
    var r := m.frames[Top(m)].root;
    var chain := chains[r];
    var longer := [m.next] + chain;
    var m' := Act(P, m, Top(m));
    assert Linked(m', chain) by { TailLinked(m', longer); assert longer[1..] == chain; }
    forall answers: seq<int>, steps: nat
      ensures Remaining(P, m, chain, m.roots[r].outcome, answers, steps + 1)
           == Prepend([], Remaining(P, m', longer, m'.roots[r].outcome, answers, steps))
    {
      RemainingAfterAwait(P, m, m', chain, longer, answers, steps);
    }
    ActKeeps(P, m, chains, longer, [], 1, m');
  }

  lemma TailLinked<S>(m: Machine<S>, chain: seq<nat>)
    requires chain != [] && Linked(m, chain)
    ensures Linked(m, chain[1..])
  {
    var tail := chain[1..];
    forall i, j | 0 <= i < |tail| && 0 <= j < |tail| && j == i + 1
      ensures Link(m, tail[i], tail[j])
    {
      assert Link(m, chain[i + 1], chain[j + 1]);
    }
  }

  lemma FinalKeeps<S>(P: Program<S>, m: Machine<S>, chains: map<nat, seq<nat>>, out: Outcome)
    requires Witnessed(P, m, chains) && m.stack != [] && CanRun(m, Top(m)) && m.frames[Top(m)].code.Ready?
    requires var c := m.frames[Top(m)].code; Ends(P(c.s, c.input), out)
    requires m.frames[Top(m)].parent.Noop? ==> out.Value?
    requires m.frames[Top(m)].root in chains
    ensures var r := m.frames[Top(m)].root;
            Witnessed(P, FinalSuspend(m, Top(m), out), chains[r := if |chains[r]| == 1 then [] else chains[r]])
  {
    ControlPoint(m, chains);
    FinalShape(m, chains, out);
    var r := m.frames[Top(m)].root;
    var chain := chains[r];
    var chain' := if |chain| == 1 then [] else chain;
    var m' := FinalSuspend(m, Top(m), out);
    forall answers: seq<int>, steps: nat
      ensures Remaining(P, m, chain, m.roots[r].outcome, answers, steps + 1)
           == Prepend([], Remaining(P, m', chain', m'.roots[r].outcome, answers, steps))
    {
      if |chain| > 1 {
        RemainingAfterFinal(P, m, m', chain, out, answers, steps);
      }
    }
    ActKeeps(P, m, chains, chain', [], 1, m');
  }

  lemma ResumeKeeps<S>(P: Program<S>, m: Machine<S>, chains: map<nat, seq<nat>>)
    requires Witnessed(P, m, chains) && m.stack != [] && CanRun(m, Top(m)) && m.frames[Top(m)].code.OnTask?
    requires m.frames[Top(m)].root in chains && chains[m.frames[Top(m)].root] != []
    ensures Witnessed(P, AwaitResume(m, Top(m)), chains[m.frames[Top(m)].root := chains[m.frames[Top(m)].root][1..]])
  {
    ControlPoint(m, chains);
    ResumeShape(m, chains);
    var r := m.frames[Top(m)].root;
    var chain := chains[r];
    var m' := AwaitResume(m, Top(m));
    var out := m.frames[chain[0]].promise.out;
    forall answers: seq<int>, steps: nat
      ensures Remaining(P, m, chain, m.roots[r].outcome, answers, steps + 0)
           == Prepend([Awaited(out)], Remaining(P, m', chain[1..], m'.roots[r].outcome, answers, steps))
    {
      RemainingAfterResume(P, m, m', chain, answers, steps);
    }
    ActKeeps(P, m, chains, chain[1..], [Awaited(out)], 0, m');
  }

  lemma AddRootOthers<S>(m: Machine<S>, chains: map<nat, seq<nat>>, body: S)
    requires Shaped(m, chains) && m.next !in m.frames && m.next !in m.roots
    ensures var m' := AddRoot(m, body);
            forall q :: q in m.roots ==>
              q < m'.next && RootShape(m', q, chains[q]) && Control(m', chains[q]) == Control(m, chains[q])
  {
    var m' := AddRoot(m, body);
    forall q | q in m.roots
      ensures q < m'.next && RootShape(m', q, chains[q]) && Control(m', chains[q]) == Control(m, chains[q])
    {
      assert RootShape(m, q, chains[q]);
      ShapeFrame(m, m', q, chains[q]);
    }
  }

  lemma AddRootShape<S>(m: Machine<S>, chains: map<nat, seq<nat>>, body: S)
    requires Shaped(m, chains) && !m.stopped
    ensures Shaped(AddRoot(m, body), chains[m.next := [m.next]])
  {
    FreshId(m, chains);
    var m' := AddRoot(m, body);
    var n := m.next;
    var chains' := chains[n := [n]];
    assert StackOk(m, chains);
    AddRootOthers(m, chains, body);
    forall id | id in m'.frames
      ensures Belongs(m', chains', id)
    {
      assert id in m.frames ==> Belongs(m, chains, id);
    }
    assert RootShape(m', n, chains'[n]);
    AddRootStack(m, chains, body);
  }

  lemma AddRootStack<S>(m: Machine<S>, chains: map<nat, seq<nat>>, body: S)
    requires chains.Keys == m.roots.Keys && m.next !in m.frames && m.next !in m.roots && StackOk(m, chains)
    requires forall q :: q in m.roots ==> Control(AddRoot(m, body), chains[q]) == Control(m, chains[q])
    ensures StackOk(AddRoot(m, body), chains[m.next := [m.next]])
  {
    var m' := AddRoot(m, body);
    var n := m.next;
    var chains' := chains[n := [n]];
    forall q | q in m'.roots
      ensures Activated(m', chains', q)
    {
      assert m'.stack[|m.stack|] == n;
      assert q in m.roots ==> Activated(m, chains, q);
    }
    forall i | 0 <= i < |m'.stack|
      ensures InControl(m', chains', m'.stack[i])
      ensures i < |m.stack| ==> m'.stack[i] != n
    {
      assert i < |m.stack| ==> InControl(m, chains, m.stack[i]);
    }
  }

  lemma AddRootKeeps<S>(P: Program<S>, m: Machine<S>, chains: map<nat, seq<nat>>, body: S)
    requires Witnessed(P, m, chains) && !m.stopped
    ensures Witnessed(P, AddRoot(m, body), chains[m.next := [m.next]])
  {
    FreshId(m, chains);
    AddRootShape(m, chains, body);
    var m' := AddRoot(m, body);
    var n := m.next;
    forall q | q in m'.roots
      ensures Meaning(P, m', q, chains[n := [n]][q]) && Quiet(m', q)
    {
      assert q != n ==> Quiet(m, q);
      if q == n {
        forall answers: seq<int>, steps: nat
          ensures Eval(P, body, Begin, [] + answers, 0 + steps)
               == Prepend([], Remaining(P, m', [n], None, answers, steps))
        {
          assert [] + answers == answers;
        }
      } else {
        assert RootShape(m, q, chains[q]) && Meaning(P, m, q, chains[q]);
        RemainingFrame(P, m, m', q, chains[q]);
      }
    }
  }

  /** A frame parked on I/O is the innermost one of its task. */
  lemma ParkedIsLeaf<S>(m: Machine<S>, chains: map<nat, seq<nat>>, id: nat)
    requires Shaped(m, chains) && id in m.frames && m.frames[id].code.OnIo?
    ensures m.frames[id].root in m.roots
    ensures var chain := chains[m.frames[id].root];
            chain != [] && chain[0] == id && RootShape(m, m.frames[id].root, chain)
  {
    assert Belongs(m, chains, id);
    var chain := chains[m.frames[id].root];
    assert RootShape(m, m.frames[id].root, chain);
    var i :| 0 <= i < |chain| && chain[i] == id;
    assert i > 0 ==> Link(m, chain[i - 1], chain[i]);
  }

  lemma WakeLinks<S>(P: Program<S>, m: Machine<S>, r: nat, chain: seq<nat>, a: int)
    requires r in m.roots && RootShape(m, r, chain) && chain != [] && Enabled(m, Wake(chain[0], a))
    ensures RootShape(Apply(P, m, Wake(chain[0], a)), r, chain)
    ensures Control(Apply(P, m, Wake(chain[0], a)), chain) == Some(chain[0])
  {
    var m' := Apply(P, m, Wake(chain[0], a));
    forall i, j | 0 <= i < |chain| && 0 <= j < |chain| && j == i + 1
      ensures Link(m', chain[i], chain[j])
    {
      assert Link(m, chain[i], chain[j]);
    }
  }

  lemma WakeRoots<S>(P: Program<S>, m: Machine<S>, chains: map<nat, seq<nat>>, id: nat, a: int, q: nat)
    requires Shaped(m, chains) && Enabled(m, Wake(id, a)) && q in m.roots
    ensures q in Apply(P, m, Wake(id, a)).roots && RootShape(Apply(P, m, Wake(id, a)), q, chains[q])
    ensures Control(Apply(P, m, Wake(id, a)), chains[q])
         == if q == m.frames[id].root then Some(id) else Control(m, chains[q])
  {
    ParkedIsLeaf(m, chains, id);
    assert RootShape(m, q, chains[q]);
    if q == m.frames[id].root {
      WakeLinks(P, m, q, chains[q], a);
    } else {
      ShapeFrame(m, Apply(P, m, Wake(id, a)), q, chains[q]);
    }
  }

  lemma WakeShape<S>(P: Program<S>, m: Machine<S>, chains: map<nat, seq<nat>>, id: nat, a: int)
    requires Shaped(m, chains) && Enabled(m, Wake(id, a))
    ensures Shaped(Apply(P, m, Wake(id, a)), chains)
  {
    ParkedIsLeaf(m, chains, id);
    var m' := Apply(P, m, Wake(id, a));
    forall q | q in m'.roots
      ensures q < m'.next && RootShape(m', q, chains[q])
    {
      assert RootShape(m, q, chains[q]);
      WakeRoots(P, m, chains, id, a, q);
    }
    forall i | i in m'.frames
      ensures Belongs(m', chains, i)
    {
      assert Belongs(m, chains, i);
    }
    WakeStack(P, m, chains, id, a);
  }

  /** The woken frame goes on top of whatever is executing; no other control point moves. */
  lemma WakeStack<S>(P: Program<S>, m: Machine<S>, chains: map<nat, seq<nat>>, id: nat, a: int)
    requires Shaped(m, chains) && Enabled(m, Wake(id, a))
    ensures StackOk(Apply(P, m, Wake(id, a)), chains)
  {
    ParkedIsLeaf(m, chains, id);
    var m' := Apply(P, m, Wake(id, a));
    var r := m.frames[id].root;
    assert StackOk(m, chains);
    assert m'.stack[|m.stack|] == id;
    forall q | q in m'.roots
      ensures Activated(m', chains, q)
    {
      WakeRoots(P, m, chains, id, a, q);
      assert Activated(m, chains, q);
    }
    forall i | 0 <= i < |m'.stack|
      ensures InControl(m', chains, m'.stack[i])
      ensures i < |m.stack| ==> m'.stack[i] != id
    {
      if i < |m.stack| {
        assert InControl(m, chains, m.stack[i]);
        WakeRoots(P, m, chains, id, a, m.frames[m.stack[i]].root);
      } else {
        WakeRoots(P, m, chains, id, a, r);
      }
    }
  }

  /** What a parked chain does with its next answer is what it does once it has been given it. */
  lemma WakeRemaining<S>(P: Program<S>, m: Machine<S>, m': Machine<S>, r: nat, chain: seq<nat>, a: int)
    requires Linked(m, chain) && Linked(m', chain) && chain != []
    requires m.frames[chain[0]].code.OnIo?
    requires m'.frames[chain[0]].code == Ready(m.frames[chain[0]].code.s, Answer(a))
    requires forall i :: 0 < i < |chain| ==> m'.frames[chain[i]] == m.frames[chain[i]]
    ensures forall answers: seq<int>, steps: nat ::
              Remaining(P, m', chain, None, answers, steps) == Remaining(P, m, chain, None, [a] + answers, steps)
  {
    CallersFrame(m, m', chain);
    forall answers: seq<int>, steps: nat
      ensures Remaining(P, m', chain, None, answers, steps) == Remaining(P, m, chain, None, [a] + answers, steps)
    {
      assert ([a] + answers)[1..] == answers;
    }
  }

  lemma WakeMeaning<S>(P: Program<S>, m: Machine<S>, m': Machine<S>, r: nat, chain: seq<nat>, a: int)
    requires r in m.roots && Meaning(P, m, r, chain) && m.roots[r].outcome.None? && Linked(m', chain)
    requires r in m'.roots && m'.roots[r] == m.roots[r].(given := m.roots[r].given + [a])
    requires forall answers: seq<int>, steps: nat ::
               Remaining(P, m', chain, None, answers, steps) == Remaining(P, m, chain, None, [a] + answers, steps)
    ensures Meaning(P, m', r, chain)
  {
    var h := m.roots[r];
    forall answers: seq<int>, steps: nat
      ensures Eval(P, h.body, Begin, (h.given + [a]) + answers, h.steps + steps)
           == Prepend(h.trace, Remaining(P, m', chain, None, answers, steps))
    {
      var more := [a] + answers;
      assert h.given + [a] + answers == h.given + more;
      assert Eval(P, h.body, Begin, h.given + more, h.steps + steps)
          == Prepend(h.trace, Remaining(P, m, chain, None, more, steps));
    }
  }

  lemma WakeKeeps<S>(P: Program<S>, m: Machine<S>, chains: map<nat, seq<nat>>, id: nat, a: int)
    requires Witnessed(P, m, chains) && Enabled(m, Wake(id, a))
    ensures Witnessed(P, Apply(P, m, Wake(id, a)), chains)
  {
    ParkedIsLeaf(m, chains, id);
    WakeShape(P, m, chains, id, a);
    var m' := Apply(P, m, Wake(id, a));
    var r := m.frames[id].root;
    OthersMean(P, m, m', chains, r);
    assert RootShape(m', r, chains[r]) && Meaning(P, m, r, chains[r]);
    WakeRemaining(P, m, m', r, chains[r], a);
    WakeMeaning(P, m, m', r, chains[r], a);
    forall q | q in m'.roots
      ensures Meaning(P, m', q, chains[q]) && Quiet(m', q)
    {
      assert Quiet(m, q);
    }
  }

  lemma EscapeShape<S>(m: Machine<S>, chains: map<nat, seq<nat>>, e: int)
    requires Shaped(m, chains) && m.stack != [] && CanRun(m, Top(m)) && m.frames[Top(m)].code.Ready?
    requires m.frames[Top(m)].parent.Noop?
    ensures |chains[m.frames[Top(m)].root]| == 1
    ensures Shaped(Escape(m, Top(m), e), chains)
  {
    ControlPoint(m, chains);
    var t := Top(m);
    var r := m.frames[t].root;
    var m' := Escape(m, t, e);
    assert |chains[r]| > 1 ==> Link(m, chains[r][0], chains[r][1]);
    OthersShape(m, m', chains, r);
    forall q | q in m'.roots
      ensures q < m'.next && RootShape(m', q, chains[q])
    {
      assert RootShape(m, q, chains[q]);
    }
    forall id | id in m'.frames
      ensures Belongs(m', chains, id)
    {
      assert Belongs(m, chains, id);
    }
  }

  /** An exception that leaves a spawned task is the outcome of its direct evaluation; every other
      task keeps its meaning. */
  lemma EscapeKeeps<S>(P: Program<S>, m: Machine<S>, chains: map<nat, seq<nat>>, e: int)
    requires Witnessed(P, m, chains) && m.stack != [] && CanRun(m, Top(m)) && m.frames[Top(m)].code.Ready?
    requires m.frames[Top(m)].parent.Noop?
    requires var c := m.frames[Top(m)].code; P(c.s, c.input) == Throw(e)
    ensures Witnessed(P, Escape(m, Top(m), e), chains)
  {
    ControlPoint(m, chains);
    EscapeShape(m, chains, e);
    var r := m.frames[Top(m)].root;
    var m' := Escape(m, Top(m), e);
    assert RootShape(m', r, chains[r]);
    OthersMean(P, m, m', chains, r);
    assert Meaning(P, m, r, chains[r]);
    MeaningStep(P, m, m', r, chains[r], chains[r], [], 1);
    forall q | q in m'.roots
      ensures Meaning(P, m', q, chains[q]) && Quiet(m', q)
    {
    }
  }

  lemma StepKeeps<S>(P: Program<S>, m: Machine<S>, chains: map<nat, seq<nat>>, l: Label<S>)
    returns (chains': map<nat, seq<nat>>)
    requires Witnessed(P, m, chains) && Enabled(m, l)
    ensures Witnessed(P, Apply(P, m, l), chains')
  {
    match l {
      case Start(body) =>
        AddRootKeeps(P, m, chains, body);
        chains' := chains[m.next := [m.next]];
      case Wake(id, a) =>
        WakeKeeps(P, m, chains, id, a);
        chains' := chains;
      case Run =>
        ControlPoint(m, chains);
        var t := Top(m);
        var r := m.frames[t].root;
        var c := m.frames[t].code;
        if c.OnTask? {
          ResumeKeeps(P, m, chains);
          chains' := chains[r := chains[r][1..]];
        } else {
          match P(c.s, c.input) {
            case Return(v) =>
              FinalKeeps(P, m, chains, Value(v));
              chains' := chains[r := if |chains[r]| == 1 then [] else chains[r]];
            case Throw(e) =>
              if m.frames[t].parent.Noop? {
                EscapeKeeps(P, m, chains, e);
                chains' := chains;
              } else {
                FinalKeeps(P, m, chains, Exception(e));
                chains' := chains[r := if |chains[r]| == 1 then [] else chains[r]];
              }
            case Effect(x, next) =>
              LocalKeeps(P, m, chains, Ready(next, Begin), [Did(x)]);
              chains' := chains;
            case Suspend(op, next) =>
              LocalKeeps(P, m, chains, OnIo(next), [Asked(op)]);
              chains' := chains;
            case Await(_, _) =>
              AwaitKeeps(P, m, chains);
              chains' := chains[r := [m.next] + chains[r]];
            case Spawn(child, next) =>
              LocalKeeps(P, m, chains, Ready(next, Begin), [Spawned]);
              AddRootKeeps(P, Advance(m, t, Ready(next, Begin), [Spawned]), chains, child);
              chains' := chains[m.next := [m.next]];
          }
        }
    }
  }

  // ------------------------------------------------------------------ whole runs

  /** The states reached from the empty machine by any sequence of enabled steps. */
  ghost predicate IsRun<S(!new)>(P: Program<S>, states: seq<Machine<S>>, labels: seq<Label<S>>) {
    && |states| == |labels| + 1
    && states[0] == Boot()
    && forall i :: 0 <= i < |labels| ==>
         Enabled(states[i], labels[i]) && states[i + 1] == Apply(P, states[i], labels[i])
  }

  lemma {:induction false} RunWitness<S(!new)>(P: Program<S>, states: seq<Machine<S>>, labels: seq<Label<S>>)
    returns (chains: map<nat, seq<nat>>)
    requires IsRun(P, states, labels)
    ensures Witnessed(P, states[|labels|], chains)
    decreases |labels|
  {
    if labels == [] {
      chains := map[];
    } else {
      var n := |labels| - 1;
      var before := RunWitness(P, states[..n + 1], labels[..n]);
      chains := StepKeeps(P, states[n], before, labels[n]);
    }
  }

  /** Main result.  In every state of every run, every spawned task has done exactly what direct
      recursive evaluation of its body does: the same effects, the same value or exception at each
      await, and, once it is over, the same outcome.  A task that is parked is one whose direct
      evaluation is waiting for its next I/O answer. */
  lemma MachineRefinesNestedCalls<S(!new)>(P: Program<S>, states: seq<Machine<S>>, labels: seq<Label<S>>, r: nat)
    requires IsRun(P, states, labels)
    requires r in states[|labels|].roots
    ensures var h := states[|labels|].roots[r]; var direct := Eval(P, h.body, Begin, h.given, h.steps);
            && h.trace <= direct.trace
            && (h.outcome.Some? ==> direct == Evaluation(h.trace, Finished(h.outcome.value, [], 0)))
            && (h.outcome.None? ==> !direct.ending.Finished?)
    ensures var m := states[|labels|]; var h := m.roots[r];
            (exists id :: id in m.frames && m.frames[id].root == r && m.frames[id].code.OnIo?)
            ==> Eval(P, h.body, Begin, h.given, h.steps) == Evaluation(h.trace, Blocked)
  {
    var chains := RunWitness(P, states, labels);
    var m := states[|labels|];
    var h := m.roots[r];
    assert RootShape(m, r, chains[r]) && Meaning(P, m, r, chains[r]);
    assert h.given + [] == h.given;
    assert Eval(P, h.body, Begin, h.given + [], h.steps + 0)
        == Prepend(h.trace, Remaining(P, m, chains[r], h.outcome, [], 0));
    RemainingNow(P, m, r, chains[r]);
    if id :| id in m.frames && m.frames[id].root == r && m.frames[id].code.OnIo? {
      ParkedIsLeaf(m, chains, id);
    }
  }

  /** In every state of every run: control is only ever handed to a frame that exists and can go on,
      no frame is being executed twice, and following parent pointers from any frame reaches the
      no-op without repetition.  A task that is over has a frame left if and only if an exception
      left it, and the loop goes on exactly as long as that has not happened. */
  lemma ControlTransferIsSafe<S(!new)>(P: Program<S>, states: seq<Machine<S>>, labels: seq<Label<S>>)
    requires IsRun(P, states, labels)
    ensures var m := states[|labels|];
            && (m.stack != [] ==> Enabled(m, Run))
            && Distinct(m.stack)
            && (forall id :: id in m.frames ==> exists chain :: Linked(m, chain) && Distinct(chain) && id in chain)
            && (forall r :: r in m.roots && m.roots[r].outcome.Some? ==>
                  (HasFrame(m, r) <==> m.roots[r].outcome.value.Exception?))
            && (m.stopped <==> exists r :: r in m.roots && EndedByException(m.roots[r]))
  {
    var chains := RunWitness(P, states, labels);
    var m := states[|labels|];
    if m.stack != [] {
      ControlPoint(m, chains);
    }
    assert !m.stopped ==> StackOk(m, chains);
    forall id | id in m.frames
      ensures exists chain :: Linked(m, chain) && Distinct(chain) && id in chain
    {
      assert Belongs(m, chains, id);
      assert RootShape(m, m.frames[id].root, chains[m.frames[id].root]);
    }
    forall r | r in m.roots && m.roots[r].outcome.Some?
      ensures HasFrame(m, r) <==> m.roots[r].outcome.value.Exception?
    {
      OverHasFrameIff(m, chains, r);
    }
    StoppedByException(P, states, labels);
    forall r | r in m.roots
      ensures EndedByException(m.roots[r]) ==> m.stopped
    {
      assert Quiet(m, r);
    }
  }

  predicate HasFrame<S>(m: Machine<S>, r: nat) {
    exists id :: id in m.frames && m.frames[id].root == r
  }

  predicate EndedByException<S>(h: Root<S>) {
    h.outcome.Some? && h.outcome.value.Exception?
  }

  lemma OverHasFrameIff<S>(m: Machine<S>, chains: map<nat, seq<nat>>, r: nat)
    requires Shaped(m, chains) && r in m.roots && m.roots[r].outcome.Some?
    ensures HasFrame(m, r) <==> m.roots[r].outcome.value.Exception?
  {
    assert RootShape(m, r, chains[r]);
    if HasFrame(m, r) {
      var id :| id in m.frames && m.frames[id].root == r;
      assert Belongs(m, chains, id);
    }
    if m.roots[r].outcome.value.Exception? {
      assert m.frames[chains[r][0]].root == r;
    }
  }

  /** Only an exception that leaves a spawned task stops the machine. */
  lemma {:induction false} StoppedByException<S(!new)>(P: Program<S>, states: seq<Machine<S>>, labels: seq<Label<S>>)
    requires IsRun(P, states, labels)
    ensures var m := states[|labels|]; m.stopped ==> exists r :: r in m.roots && EndedByException(m.roots[r])
    decreases |labels|
  {
    if labels != [] {
      var n := |labels| - 1;
      StoppedByException(P, states[..n + 1], labels[..n]);
      var m, m' := states[n], states[n + 1];
      if m'.stopped {
        var r := m.frames[Top(m)].root;
        assert r in m'.roots && EndedByException(m'.roots[r]);
      }
    }
  }

  /** With no more answers and no more steps, a task that is not over has not finished. */
  lemma RemainingNow<S>(P: Program<S>, m: Machine<S>, r: nat, chain: seq<nat>)
    requires r in m.roots && RootShape(m, r, chain)
    ensures var rest := Remaining(P, m, chain, m.roots[r].outcome, [], 0);
            && (m.roots[r].outcome.Some? ==> rest == Evaluation([], Finished(m.roots[r].outcome.value, [], 0)))
            && (m.roots[r].outcome.None? ==> !rest.ending.Finished?)
            && (chain != [] && m.frames[chain[0]].code.OnIo? ==> rest == Evaluation([], Blocked))
  {
    if |chain| > 1 && m.frames[chain[0]].code.AtFinal? {
      assert Link(m, chain[0], chain[1]);
      var ks, out := Callers(m, chain), m.frames[chain[0]].promise.out;
      assert EvalChain(P, ks[0], Result(out), ks[1..], [], 0) == Evaluation([], OutOfSteps);
    } else if chain != [] && m.frames[chain[0]].code.Ready? {
      var c := m.frames[chain[0]].code;
      assert EvalChain(P, c.s, c.input, Callers(m, chain), [], 0) == Evaluation([], OutOfSteps);
    }
  }
}
