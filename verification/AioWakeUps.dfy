/** Which completions of `fd_aio.cpp` reach their callbacks.  The handler reads the eventfd and then waits in
    `io_getevents` for at least one completion, without a timeout, and takes at most 256.  Completions that
    are harvested before their announcement is read leave an announcement with nothing behind it. */
module AioWakeUps {
  import opened Common
  import opened Aio

  /** The loop's thread waits for a completion, and the kernel holds no request. */
  predicate Hung(s: State) {
    s.stack != [] && Top(s).Fetching? && s.inflight == {}
  }

  /** A harvest begins although the kernel holds no request. */
  predicate InVain(s: State, l: Label) {
    (l.OnEvent? || l.KernelFull?) && s.inflight == {}
  }

  lemma HungStep(s: State, l: Label)
    requires Inv(s) && Enabled(s, l)
    ensures Hung(Apply(s, l)) <==> Hung(s) || InVain(s, l)
  {
    forall i | 0 <= i < |s.stack|
      ensures s.stack[i].Fetching? ==> i == |s.stack| - 1
    {
      assert CallOk(s, i);
    }
  }

  /** Over every run: the loop's thread is hung if and only if some harvest began in vain. */
  lemma {:induction false} HangsIff(states: seq<State>, labels: seq<Label>)
    requires IsRun(states, labels)
    ensures Hung(states[|labels|]) <==> exists i :: 0 <= i < |labels| && InVain(states[i], labels[i])
    decreases |labels|
  {
    if labels != [] {
      var n := |labels| - 1;
      HangsIff(states[..n + 1], labels[..n]);
      RunInv(states[..n + 1], labels[..n]);
      HungStep(states[n], labels[n]);
      assert forall i :: 0 <= i < n ==> states[..n + 1][i] == states[i] && labels[..n][i] == labels[i];
    }
  }

  // ------------------------------------------------------------------ which requests can be served

  /** Some `submit` is in progress. */
  ghost predicate Submits(s: State) {
    exists i :: 0 <= i < |s.stack| && s.stack[i].Submitting?
  }

  predicate InFetch(s: State) {
    s.stack != [] && Top(s).Fetching?
  }

  /** How many harvests can still come without a new request: one that has begun, one for what the eventfd
      holds, and one for every completion that is still to be announced. */
  function HarvestsLeft(s: State): nat {
    (if InFetch(s) then 1 else 0) + (if s.signals > 0 then 1 else 0) + s.owed + |s.inflight - s.done|
  }

  /** The loop's thread is hung, or more requests are with the kernel than all harvests to come can take. */
  ghost predicate Doomed(s: State) {
    Hung(s) || (!Submits(s) && |s.inflight| > MaxEvents * HarvestsLeft(s))
  }

  /** No call is in progress and every request has had its callback. */
  predicate AllServed(s: State) {
    s.stack == [] && s.inflight == {}
  }

  /** In at most `n` further steps, without a new request, everything can be served. */
  ghost predicate CanServe(s: State, n: nat)
    decreases n
  {
    || AllServed(s)
    || (n > 0 && exists l :: Enabled(s, l) && !l.CallSubmit? && CanServe(Apply(s, l), n - 1))
  }

  lemma StillSubmits(s: State, l: Label)
    requires Inv(s) && Enabled(s, l) && !Submits(s) && !l.CallSubmit?
    ensures !Submits(Apply(s, l)) && !l.Accepted? && !l.KernelFull?
    ensures l.FetchDone? ==> !InFetch(Apply(s, l))
  {
    var s' := Apply(s, l);
    assert s.stack != [] ==> !Top(s).Submitting?;
    forall i | 0 <= i < |s'.stack|
      ensures !s'.stack[i].Submitting?
    {
      assert i < |s.stack| ==> !s.stack[i].Submitting?;
    }
    if l.FetchDone? && s'.stack != [] {
      assert CallOk(s, |s.stack| - 2);
    }
  }

  /** A harvest takes at most 256 requests, and all that are done if they are no more. */
  lemma HarvestSize(s: State, batch: seq<nat>)
    requires Inv(s) && Enabled(s, Harvest(batch))
    ensures var s' := Apply(s, Harvest(batch));
            |s'.inflight| == |s.inflight| - AtMost(|s.done|) && s'.inflight - s'.done == s.inflight - s.done
  {
    DistinctSetSize(batch);
    var taken := IdSet(batch);
    assert s.inflight == (s.inflight - taken) + taken && (s.inflight - taken) !! taken;
    assert (s.inflight - taken) - (s.done - taken) == s.inflight - s.done;
  }

  lemma CompletionLeft(s: State, id: nat)
    requires Enabled(s, Completes(id))
    ensures |s.inflight - Apply(s, Completes(id)).done| == |s.inflight - s.done| - 1
  {
    assert s.inflight - s.done == (s.inflight - (s.done + {id})) + {id};
  }

  /** Without a new request, the harvests left only ever go down, and by one for each harvest. */
  lemma HarvestsStep(s: State, l: Label)
    requires Inv(s) && Enabled(s, l) && !Submits(s) && !l.CallSubmit?
    ensures HarvestsLeft(Apply(s, l)) <= HarvestsLeft(s) - if l.Harvest? then 1 else 0
    ensures l.Harvest? || (l.Notify? && s.signals > 0) || HarvestsLeft(Apply(s, l)) == HarvestsLeft(s)
    ensures l.Harvest? ==> HarvestsLeft(Apply(s, l)) == HarvestsLeft(s) - 1
  {
    StillSubmits(s, l);
    if l.Harvest? {
      HarvestSize(s, l.batch);
    } else if l.Completes? {
      CompletionLeft(s, l.id);
    }
  }

  lemma DoomedStep(s: State, l: Label)
    requires Inv(s) && Doomed(s) && Enabled(s, l) && !l.CallSubmit?
    ensures Doomed(Apply(s, l))
  {
    if Hung(s) {
      HungStep(s, l);
    } else {
      StillSubmits(s, l);
      HarvestsStep(s, l);
      if l.Harvest? {
        HarvestSize(s, l.batch);
      }
    }
  }

  lemma {:induction false} DoomedIsForever(s: State, n: nat)
    requires Inv(s) && Doomed(s)
    ensures !CanServe(s, n)
    decreases n
  {
    if n > 0 {
      forall l | Enabled(s, l) && !l.CallSubmit?
        ensures !CanServe(Apply(s, l), n - 1)
      {
        StepKeeps(s, l);
        DoomedStep(s, l);
        DoomedIsForever(Apply(s, l), n - 1);
      }
    }
  }

  // ------------------------------------------------------------------ a schedule that serves them

  function Submissions(stack: seq<Call>): nat {
    if stack == [] then 0
    else Submissions(stack[..|stack| - 1]) + if stack[|stack| - 1].Submitting? then 1 else 0
  }

  /** What a batch still has to do. */
  function WorkOf(c: Call): nat {
    if c.Dispatching? && c.i <= |c.batch| then |c.batch| - c.i + 2 else 0
  }

  function Work(stack: seq<Call>): nat {
    if stack == [] then 0 else Work(stack[..|stack| - 1]) + WorkOf(stack[|stack| - 1])
  }

  lemma PushedWork(stack: seq<Call>, c: Call)
    ensures Submissions(stack + [c]) == Submissions(stack) + if c.Submitting? then 1 else 0
    ensures Work(stack + [c]) == Work(stack) + WorkOf(c)
  {
    assert (stack + [c])[..|stack|] == stack;
  }

  function Effort(s: State): nat {
    Work(s.stack) + if s.stack == [] || Top(s).Submitting? then 1 else 0
  }

  /** `s'` is closer to having served everything. */
  predicate Closer(s: State, s': State) {
    var a, a' := Submissions(s.stack), Submissions(s'.stack);
    var b, b' := |s.inflight - s.done|, |s'.inflight - s'.done|;
    || a' < a
    || (a' == a && b' < b)
    || (a' == a && b' == b && s'.owed < s.owed)
    || (a' == a && b' == b && s'.owed == s.owed && |s'.inflight| < |s.inflight|)
    || (a' == a && b' == b && s'.owed == s.owed && |s'.inflight| == |s.inflight| && Effort(s') < Effort(s))
  }

  lemma {:induction false} Pick(ids: set<nat>, n: nat) returns (batch: seq<nat>)
    requires n <= |ids|
    ensures |batch| == n && Distinct(batch) && forall id :: id in batch ==> id in ids
    decreases n
  {
    if n == 0 {
      batch := [];
    } else {
      var id :| id in ids;
      var rest := Pick(ids - {id}, n - 1);
      batch := rest + [id];
    }
  }

  /** The next step of a schedule: let the kernel complete everything, then unwind the calls in progress,
      harvesting before anything more is submitted, and enter the handler once for each announcement. */
  lemma NextMove(s: State) returns (l: Label)
    requires Inv(s) && !Doomed(s) && !AllServed(s)
    ensures Enabled(s, l) && !l.CallSubmit? && !InVain(s, l)
    ensures l.Accepted? ==> s.inflight == {}
    ensures l.Notify? ==> s.signals == 0
    ensures l.Harvest? ==> s.done == s.inflight
    ensures !l.Retry?
  {
    if s.done != s.inflight {
      var id :| id in s.inflight && id !in s.done;
      l := Completes(id);
    } else if s.stack == [] {
      assert s.inflight - s.done == {};
      l := if s.signals > 0 then OnEvent else Notify;
    } else {
      match Top(s) {
        case Fetching =>
          var batch := Pick(s.done, AtMost(|s.done|));
          l := Harvest(batch);
        case Dispatching(batch, i) => l := if i < |batch| then Callback else FetchDone;
        case Submitting(_) => l := if s.inflight == {} then Accepted else KernelFull;
      }
    }
  }

  lemma CallIsCloser(s: State, l: Label)
    requires Inv(s) && Enabled(s, l) && (l.Accepted? || l.KernelFull? || l.Callback? || l.FetchDone?)
    ensures Closer(s, Apply(s, l))
  {
    var s' := Apply(s, l);
    assert s.stack == Pop(s) + [Top(s)];
    PushedWork(Pop(s), Top(s));
    match l {
      case KernelFull => PushedWork(s.stack, Fetching);
      case Callback => PushedWork(Pop(s), Top(s'));
      case FetchDone => assert CallOk(s, |s.stack| - 1);
      case _ =>
    }
  }

  lemma MoveIsCloser(s: State, l: Label)
    requires Inv(s) && Enabled(s, l) && !l.CallSubmit? && !l.Retry?
    ensures Closer(s, Apply(s, l))
  {
    match l {
      case Completes(id) => CompletionLeft(s, id);
      case Notify =>
      case OnEvent => PushedWork([], Fetching);
      case Harvest(batch) =>
        assert s.stack == Pop(s) + [Top(s)];
        PushedWork(Pop(s), Top(s));
        HarvestSize(s, batch);
        PushedWork(Pop(s), Dispatching(batch, 0));
      case _ => CallIsCloser(s, l);
    }
  }

  lemma LastSubmission(s: State, l: Label)
    requires Inv(s) && Enabled(s, l) && Submits(s) && !Submits(Apply(s, l))
    ensures l.Accepted?
  {
    var i :| 0 <= i < |s.stack| && s.stack[i].Submitting?;
    var s' := Apply(s, l);
    if i < |s'.stack| && s'.stack[i] == s.stack[i] {
      assert Submits(s');
    }
  }

  lemma MoveKeepsHope(s: State, l: Label)
    requires Inv(s) && !Doomed(s) && Enabled(s, l) && !l.CallSubmit? && !InVain(s, l)
    requires l.Accepted? ==> s.inflight == {}
    requires l.Notify? ==> s.signals == 0
    requires l.Harvest? ==> s.done == s.inflight
    ensures !Doomed(Apply(s, l))
  {
    var s' := Apply(s, l);
    HungStep(s, l);
    if !Submits(s') {
      if Submits(s) {
        LastSubmission(s, l);
        assert s'.inflight - s'.done == {Top(s).id};
      } else {
        HarvestsStep(s, l);
        if l.Harvest? {
          HarvestSize(s, l.batch);
        }
      }
    }
  }

  lemma ServesAfter(s: State, l: Label, n: nat)
    requires Enabled(s, l) && !l.CallSubmit? && CanServe(Apply(s, l), n)
    ensures CanServe(s, n + 1)
  {
    assert n + 1 - 1 == n;
  }

  lemma {:induction false} HopeIsFulfilled(s: State)
    requires Inv(s) && !Doomed(s)
    ensures exists n: nat :: CanServe(s, n)
    decreases Submissions(s.stack), |s.inflight - s.done|, s.owed, |s.inflight|, Effort(s)
  {
    if AllServed(s) {
      assert CanServe(s, 0);
    } else {
      var l := NextMove(s);
      StepKeeps(s, l);
      MoveKeepsHope(s, l);
      MoveIsCloser(s, l);
      HopeIsFulfilled(Apply(s, l));
      var n: nat :| CanServe(Apply(s, l), n);
      ServesAfter(s, l, n);
    }
  }

  /** Main result: in every reachable state, at any depth of re-entrancy, the requests made so far can all
      get their callbacks without a new one being made, if and only if the loop's thread is not hung and,
      once no `submit` is in progress, the kernel holds at most 256 requests for each harvest still to come. */
  lemma EverythingCanBeServedIff(states: seq<State>, labels: seq<Label>)
    requires IsRun(states, labels)
    ensures (exists n: nat :: CanServe(states[|labels|], n)) <==> !Doomed(states[|labels|])
  {
    var s := states[|labels|];
    RunInv(states, labels);
    if Doomed(s) {
      forall n: nat
        ensures !CanServe(s, n)
      {
        DoomedIsForever(s, n);
      }
    } else {
      HopeIsFulfilled(s);
    }
  }

  /** Being hung is for ever, whatever anybody does. */
  lemma {:induction false} HungIsForever(states: seq<State>, labels: seq<Label>, i: nat, j: nat)
    requires IsRun(states, labels) && i <= j <= |labels| && Hung(states[i])
    ensures Hung(states[j]) && states[j].dispatched == states[i].dispatched && states[j].stack == states[i].stack
    ensures j < |labels| ==> labels[j].Retry? || labels[j].Notify?
    decreases j
  {
    if i < j {
      HungIsForever(states, labels, i, j - 1);
      assert Enabled(states[j - 1], labels[j - 1]);
    }
    assert j < |labels| ==> Enabled(states[j], labels[j]);
    if j < |labels| {
      RunInv(states[..j + 1], labels[..j]);
    }
  }

  // ------------------------------------------------------------------ a run that hangs

  ghost predicate Reaches(s: State) {
    exists states, labels :: IsRun(states, labels) && states[|labels|] == s
  }

  lemma ReachStep(s: State, l: Label, s': State)
    requires Reaches(s) && Enabled(s, l) && s' == Apply(s, l)
    ensures Reaches(s')
  {
    var states, labels :| IsRun(states, labels) && states[|labels|] == s;
    assert IsRun(states + [s'], labels + [l]);
    assert (states + [s'])[|labels + [l]|] == s';
  }

  lemma TwoSubmitted()
    ensures Reaches(State(2, 0, {0, 1}, {}, 0, 0, [], {0, 1}, []))
  {
    assert IsRun([Initial], []);
    var s1 := Initial.(stack := [Submitting(0)]);
    ReachStep(Initial, CallSubmit(0), s1);
    var s2 := State(1, 0, {0}, {}, 0, 0, [], {0}, []);
    ReachStep(s1, Accepted, s2);
    var s3 := s2.(stack := [Submitting(1)]);
    ReachStep(s2, CallSubmit(1), s3);
    ReachStep(s3, Accepted, State(2, 0, {0, 1}, {}, 0, 0, [], {0, 1}, []));
  }

  /** The second of two requests is done after the handler has read the eventfd and before it harvests. */
  lemma BothHarvested()
    ensures Reaches(State(2, 0, {}, {}, 0, 1, [Dispatching([0, 1], 0)], {0, 1}, []))
  {
    TwoSubmitted();
    var s0 := State(2, 0, {0, 1}, {}, 0, 0, [], {0, 1}, []);
    var s1 := s0.(done := {0}, owed := 1);
    ReachStep(s0, Completes(0), s1);
    var s2 := s1.(owed := 0, signals := 1);
    ReachStep(s1, Notify, s2);
    var s3 := s2.(signals := 0, stack := [Fetching]);
    ReachStep(s2, OnEvent, s3);
    var s4 := s3.(done := {0, 1}, owed := 1);
    ReachStep(s3, Completes(1), s4);
    var s5 := s4.(owed := 0, signals := 1);
    ReachStep(s4, Notify, s5);
    var s6 := State(2, 0, {}, {}, 0, 1, [Dispatching([0, 1], 0)], {0, 1}, []);
    assert IdSet([0, 1]) == {0, 1};
    ReachStep(s5, Harvest([0, 1]), s6);
  }

  /** Two requests are enough to hang the loop: the announcement of the second one outlives its harvest, and
      the handler it wakes waits for a completion that never comes. */
  lemma LoopHangs()
    ensures exists s: State :: Reaches(s) && Hung(s) && s.dispatched == [0, 1]
  {
    BothHarvested();
    var s6 := State(2, 0, {}, {}, 0, 1, [Dispatching([0, 1], 0)], {0, 1}, []);
    var s7 := s6.(stack := [Dispatching([0, 1], 1)], dispatched := [0]);
    ReachStep(s6, Callback, s7);
    var s8 := s7.(stack := [Dispatching([0, 1], 2)], dispatched := [0, 1]);
    ReachStep(s7, Callback, s8);
    var s9 := s8.(stack := [], res := 2);
    ReachStep(s8, FetchDone, s9);
    var s10 := s9.(signals := 0, stack := [Fetching]);
    ReachStep(s9, OnEvent, s10);
    assert Hung(s10);
  }
}
