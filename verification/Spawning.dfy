/** Which tasks a run has: exactly those that were started by the loop or spawned by a coroutine, each with
    its own body, and a spawned one is entered at once. */
module Spawning {
  import opened Common
  import opened Coroutine
  import opened NestedCalls

  /** What the frame in control does next, if it acts. */
  function Doing<S>(P: Program<S>, m: Machine<S>): Option<Action<S>> {
    if m.stack != [] && Top(m) in m.frames && m.frames[Top(m)].code.Ready?
    then Some(P(m.frames[Top(m)].code.s, m.frames[Top(m)].code.input))
    else None
  }

  /** The body that a step brings to life. */
  function Birth<S>(P: Program<S>, m: Machine<S>, l: Label<S>): Option<S> {
    match l
    case Start(body) => Some(body)
    case Wake(_, _) => None
    case Run =>
      match Doing(P, m)
      case Some(Spawn(child, _)) => Some(child)
      case _ => None
  }

  predicate IsSpawn<S>(P: Program<S>, m: Machine<S>, l: Label<S>) {
    l.Run? && Birth(P, m, l).Some?
  }

  /** `r` is a new task with this body, and its frame, freshly made, has been entered on top of everything
      that was executing. */
  ghost predicate Enters<S>(m: Machine<S>, m': Machine<S>, r: nat, body: S) {
    && r !in m.roots && m'.roots.Keys == m.roots.Keys + {r} && m'.roots[r] == Root(body, [], [], 0, None)
    && |m'.stack| == |m.stack| + 1 && m'.stack[..|m.stack|] == m.stack
    && Top(m') !in m.frames && Top(m') in m'.frames
    && m'.frames[Top(m')] == Frame(Noop, Ready(body, Begin), Mono, r)
  }

  function SpawnedIn(trace: seq<Event>): nat {
    if trace == [] then 0 else SpawnedIn(trace[..|trace| - 1]) + if trace[|trace| - 1].Spawned? then 1 else 0
  }

  /** The task `r` goes on as it was, except that its trace may have grown; `spawned` says by how many
      `Spawned` events. */
  ghost predicate GoesOn<S>(m: Machine<S>, m': Machine<S>, r: nat, spawned: nat) {
    && r in m.roots && r in m'.roots && m'.roots[r].body == m.roots[r].body
    && SpawnedIn(m'.roots[r].trace) == SpawnedIn(m.roots[r].trace) + spawned
  }

  // ------------------------------------------------------------------ one step

  lemma SpawnedOn(trace: seq<Event>, e: Event)
    ensures SpawnedIn(trace + []) == SpawnedIn(trace)
    ensures SpawnedIn(trace + [e]) == SpawnedIn(trace) + if e.Spawned? then 1 else 0
  {
    assert trace + [] == trace;
    assert (trace + [e])[..|trace|] == trace;
  }

  /** How many `Spawned` events a step adds to the task `r`. */
  function Adds<S>(P: Program<S>, m: Machine<S>, l: Label<S>, r: nat): nat {
    if IsSpawn(P, m, l) && m.frames[Top(m)].root == r then 1 else 0
  }

  /** The histories of the old tasks after the task `q` noted `events`. */
  ghost predicate Notes<S>(roots: map<nat, Root<S>>, roots': map<nat, Root<S>>, q: nat, events: seq<Event>, r: nat)
    requires r in roots
  {
    && r in roots' && roots'[r].body == roots[r].body && roots'[r].given == roots[r].given
    && roots'[r].trace == if r == q then roots[r].trace + events else roots[r].trace
  }

  lemma FinalNotes<S>(m: Machine<S>, t: nat, out: Outcome, r: nat)
    requires m.stack != [] && Top(m) == t && CanRun(m, t) && r in m.roots
    ensures Notes(m.roots, FinalSuspend(m, t, out).roots, m.frames[t].root, [], r)
  {
  }

  lemma EscapeNotes<S>(m: Machine<S>, t: nat, e: int, r: nat)
    requires CanRun(m, t) && r in m.roots
    ensures Notes(m.roots, Escape(m, t, e).roots, m.frames[t].root, [], r)
  {
  }

  lemma AdvanceNotes<S>(m: Machine<S>, t: nat, code: Code<S>, events: seq<Event>, r: nat)
    requires m.stack != [] && Top(m) == t && CanRun(m, t) && r in m.roots
    ensures Notes(m.roots, Advance(m, t, code, events).roots, m.frames[t].root, events, r)
  {
  }

  /** What an action leaves in the trace. */
  function Told<S>(a: Action<S>): seq<Event> {
    match a
    case Effect(x, _) => [Did(x)]
    case Suspend(op, _) => [Asked(op)]
    case Spawn(_, _) => [Spawned]
    case _ => []
  }

  lemma ActNotes<S>(P: Program<S>, m: Machine<S>, t: nat, r: nat)
    requires m.stack != [] && Top(m) == t && CanRun(m, t) && m.frames[t].code.Ready?
    requires r in m.roots && m.next !in m.roots
    ensures var c := m.frames[t].code;
            Notes(m.roots, Act(P, m, t).roots, m.frames[t].root, Told(P(c.s, c.input)), r)
  {
    var f := m.frames[t];
    match P(f.code.s, f.code.input) {
      case Return(v) => FinalNotes(m, t, Value(v), r);
      case Throw(e) =>
        if f.parent.Noop? {
          EscapeNotes(m, t, e, r);
        } else {
          FinalNotes(m, t, Exception(e), r);
        }
      case Effect(x, next) => AdvanceNotes(m, t, Ready(next, Begin), [Did(x)], r);
      case Suspend(op, next) => AdvanceNotes(m, t, OnIo(next), [Asked(op)], r);
      case Await(_, _) =>
        assert m.roots[f.root].trace + [] == m.roots[f.root].trace;
      case Spawn(_, next) => AdvanceNotes(m, t, Ready(next, Begin), [Spawned], r);
    }
  }

  lemma NotesGoOn<S>(m: Machine<S>, m': Machine<S>, q: nat, events: seq<Event>, r: nat, n: nat)
    requires r in m.roots && Notes(m.roots, m'.roots, q, events, r) && |events| <= 1
    requires n == if r == q && |events| == 1 && events[0].Spawned? then 1 else 0
    ensures GoesOn(m, m', r, n)
  {
    if r == q {
      if events == [] {
        SpawnedOn(m.roots[r].trace, Spawned);
      } else {
        SpawnedOn(m.roots[r].trace, events[0]);
        assert events == [events[0]];
      }
    }
  }

  lemma ActGoesOn<S>(P: Program<S>, m: Machine<S>, t: nat, r: nat, a: Action<S>)
    requires m.stack != [] && Top(m) == t && CanRun(m, t) && m.frames[t].code.Ready?
    requires a == P(m.frames[t].code.s, m.frames[t].code.input)
    requires r in m.roots && m.next !in m.roots
    ensures GoesOn(m, Act(P, m, t), r, if r == m.frames[t].root && a.Spawn? then 1 else 0)
  {
    ActNotes(P, m, t, r);
    NotesGoOn(m, Act(P, m, t), m.frames[t].root, Told(a), r, if r == m.frames[t].root && a.Spawn? then 1 else 0);
  }

  lemma AwaitGoesOn<S>(m: Machine<S>, t: nat, r: nat)
    requires CanRun(m, t) && m.frames[t].code.OnTask? && r in m.roots
    ensures GoesOn(m, AwaitResume(m, t), r, 0)
  {
    var f := m.frames[t];
    NotesGoOn(m, AwaitResume(m, t), f.root, [Awaited(m.frames[f.code.child].promise.out)], r, 0);
  }

  lemma RunIs<S>(P: Program<S>, m: Machine<S>, r: nat)
    requires Enabled(m, Run)
    ensures var t := Top(m); var c := m.frames[t].code;
            && Apply(P, m, Run) == (if c.OnTask? then AwaitResume(m, t) else Act(P, m, t))
            && Adds(P, m, Run, r)
               == (if c.Ready? && P(c.s, c.input).Spawn? && m.frames[t].root == r then 1 else 0)
  {
  }

  lemma RunGoesOn<S>(P: Program<S>, m: Machine<S>, r: nat, m': Machine<S>, n: nat)
    requires m.stack != [] && CanRun(m, Top(m)) && r in m.roots && m.next !in m.roots
    requires var t := Top(m); var c := m.frames[t].code;
             && m' == (if c.OnTask? then AwaitResume(m, t) else Act(P, m, t))
             && n == (if c.Ready? && P(c.s, c.input).Spawn? && m.frames[t].root == r then 1 else 0)
    ensures GoesOn(m, m', r, n)
  {
    var f := m.frames[Top(m)];
    if f.code.OnTask? {
      AwaitGoesOn(m, Top(m), r);
    } else {
      ActGoesOn(P, m, Top(m), r, P(f.code.s, f.code.input));
    }
  }

  lemma OldTasksGoOn<S>(P: Program<S>, m: Machine<S>, l: Label<S>, r: nat)
    requires Enabled(m, l) && r in m.roots && m.next !in m.roots
    ensures GoesOn(m, Apply(P, m, l), r, Adds(P, m, l, r))
  {
    if l.Run? {
      RunIs(P, m, r);
      RunGoesOn(P, m, r, Apply(P, m, l), Adds(P, m, l, r));
    }
  }

  /** A step that starts or spawns a task enters it, and every other step makes none. */
  lemma BirthStep<S>(P: Program<S>, m: Machine<S>, chains: map<nat, seq<nat>>, l: Label<S>)
    requires Shaped(m, chains) && Enabled(m, l)
    ensures var m' := Apply(P, m, l);
            match Birth(P, m, l)
            case Some(body) => exists r :: Enters(m, m', r, body)
            case None => m'.roots.Keys == m.roots.Keys
  {
    NewId(m, chains);
    match Birth(P, m, l) {
      case Some(body) => assert Enters(m, Apply(P, m, l), m.next, body);
      case None =>
    }
  }

  /** `co_spawn` inside a coroutine: over every run, when the frame in control spawns `child`, the next state
      has exactly one task more, with that body, and its frame is on top of the native stack, right above
      the spawning frame, which goes on from `next` when the call returns. */
  lemma SpawnEntersChild<S(!new)>(P: Program<S>, states: seq<Machine<S>>, labels: seq<Label<S>>, i: nat,
                                  child: S, next: S)
    requires IsRun(P, states, labels) && i < |labels| && labels[i].Run?
    requires Doing(P, states[i]) == Some(Spawn(child, next))
    ensures var m, m' := states[i], states[i + 1];
            && (exists r :: Enters(m, m', r, child))
            && Top(m) in m'.frames && m'.frames[Top(m)] == m.frames[Top(m)].(code := Ready(next, Begin))
  {
    var chains := RunWitness(P, states[..i + 1], labels[..i]);
    assert Enabled(states[i], labels[i]);
    BirthStep(P, states[i], chains, labels[i]);
    NewId(states[i], chains);
    assert Birth(P, states[i], labels[i]) == Some(child);
    var r :| Enters(states[i], Apply(P, states[i], labels[i]), r, child);
    assert Enters(states[i], states[i + 1], r, child);
  }

  // ------------------------------------------------------------------ whole runs

  /** The bodies brought to life by a run, in order. */
  function Bodies<S>(P: Program<S>, states: seq<Machine<S>>, labels: seq<Label<S>>): seq<S>
    requires |states| == |labels| + 1
  {
    if labels == [] then []
    else
      var n := |labels| - 1;
      Bodies(P, states[..n + 1], labels[..n]) + Listed(Birth(P, states[n], labels[n]))
  }

  function Listed<S>(b: Option<S>): seq<S> {
    match b case Some(body) => [body] case None => []
  }

  /** How many of them were spawned. */
  function Spawns<S>(P: Program<S>, states: seq<Machine<S>>, labels: seq<Label<S>>): nat
    requires |states| == |labels| + 1
  {
    if labels == [] then 0
    else
      var n := |labels| - 1;
      Spawns(P, states[..n + 1], labels[..n]) + if IsSpawn(P, states[n], labels[n]) then 1 else 0
  }

  lemma BodiesOn<S>(P: Program<S>, states: seq<Machine<S>>, labels: seq<Label<S>>)
    requires |states| == |labels| + 1 && labels != []
    ensures var n := |labels| - 1; var before, labels' := states[..n + 1], labels[..n];
            && Bodies(P, states, labels) == Bodies(P, before, labels') + Listed(Birth(P, states[n], labels[n]))
            && Spawns(P, states, labels)
               == Spawns(P, before, labels') + if IsSpawn(P, states[n], labels[n]) then 1 else 0
  {
  }

  /** The tasks of `m` are `ids`, one by one, with these bodies. */
  ghost predicate Roster<S(!new)>(m: Machine<S>, ids: seq<nat>, bodies: seq<S>) {
    && Distinct(ids) && |ids| == |bodies| && (forall r :: r in m.roots <==> r in ids)
    && forall k :: 0 <= k < |ids| ==> m.roots[ids[k]].body == bodies[k]
  }

  /** The `Spawned` events in the traces of `ids`. */
  ghost function AllSpawned<S>(m: Machine<S>, ids: seq<nat>): nat
    requires forall k :: 0 <= k < |ids| ==> ids[k] in m.roots
  {
    if ids == [] then 0
    else AllSpawned(m, ids[..|ids| - 1]) + SpawnedIn(m.roots[ids[|ids| - 1]].trace)
  }

  lemma {:induction false} AllSpawnedStep<S>(P: Program<S>, m: Machine<S>, l: Label<S>, ids: seq<nat>)
    requires Enabled(m, l) && m.next !in m.roots && Distinct(ids) && forall k :: 0 <= k < |ids| ==> ids[k] in m.roots
    ensures forall k :: 0 <= k < |ids| ==> ids[k] in Apply(P, m, l).roots
    ensures AllSpawned(Apply(P, m, l), ids)
         == AllSpawned(m, ids) + if IsSpawn(P, m, l) && m.frames[Top(m)].root in ids then 1 else 0
  {
    forall k | 0 <= k < |ids|
      ensures ids[k] in Apply(P, m, l).roots
    {
      OldTasksGoOn(P, m, l, ids[k]);
    }
    if ids != [] {
      var n := |ids| - 1;
      AllSpawnedStep(P, m, l, ids[..n]);
      OldTasksGoOn(P, m, l, ids[n]);
      assert ids == ids[..n] + [ids[n]];
      assert ids[n] !in ids[..n];
    }
  }

  /** The new tasks of a step, if any. */
  lemma RosterStep<S(!new)>(P: Program<S>, m: Machine<S>, chains: map<nat, seq<nat>>, l: Label<S>,
                            ids: seq<nat>, bodies: seq<S>)
    returns (newer: seq<nat>)
    requires Shaped(m, chains) && Enabled(m, l) && Roster(m, ids, bodies)
    ensures Roster(Apply(P, m, l), ids + newer, bodies + Listed(Birth(P, m, l)))
    ensures |newer| <= 1 && forall r :: r in newer ==> Apply(P, m, l).roots[r].trace == []
  {
    NewId(m, chains);
    BirthStep(P, m, chains, l);
    var m' := Apply(P, m, l);
    forall k | 0 <= k < |ids|
      ensures ids[k] in m'.roots && m'.roots[ids[k]].body == bodies[k]
    {
      OldTasksGoOn(P, m, l, ids[k]);
    }
    var born := Birth(P, m, l);
    if born.Some? {
      var r :| Enters(m, m', r, born.value);
      RosterGrows(m, m', ids, bodies, r, born.value);
      newer := [r];
    } else {
      assert ids + [] == ids && bodies + [] == bodies;
      newer := [];
    }
  }

  lemma RosterGrows<S(!new)>(m: Machine<S>, m': Machine<S>, ids: seq<nat>, bodies: seq<S>, r: nat, body: S)
    requires Roster(m, ids, bodies) && Enters(m, m', r, body)
    requires forall k :: 0 <= k < |ids| ==> ids[k] in m'.roots && m'.roots[ids[k]].body == bodies[k]
    ensures Roster(m', ids + [r], bodies + [body])
  {
    var ids' := ids + [r];
    forall q
      ensures q in m'.roots <==> q in ids'
    {
      assert q in m'.roots.Keys <==> q in m.roots.Keys + {r};
    }
  }

  /** The roster of a run, with its account of spawned tasks. */
  ghost predicate Accounts<S(!new)>(m: Machine<S>, ids: seq<nat>, bodies: seq<S>, spawns: nat) {
    Roster(m, ids, bodies) && AllSpawned(m, ids) == spawns
  }

  lemma AccountStep<S(!new)>(P: Program<S>, m: Machine<S>, chains: map<nat, seq<nat>>, l: Label<S>,
                             ids: seq<nat>, bodies: seq<S>, spawns: nat)
    returns (ids': seq<nat>)
    requires Shaped(m, chains) && Enabled(m, l) && Accounts(m, ids, bodies, spawns)
    ensures Accounts(Apply(P, m, l), ids', bodies + Listed(Birth(P, m, l)), spawns + if IsSpawn(P, m, l) then 1 else 0)
  {
    NewId(m, chains);
    var newer := RosterStep(P, m, chains, l, ids, bodies);
    AllSpawnedStep(P, m, l, ids);
    AllSpawnedNew(Apply(P, m, l), ids, newer);
    ids' := ids + newer;
  }

  lemma AllSpawnedNew<S>(m: Machine<S>, ids: seq<nat>, newer: seq<nat>)
    requires |newer| <= 1 && forall k :: 0 <= k < |ids + newer| ==> (ids + newer)[k] in m.roots
    requires forall r :: r in newer ==> r in m.roots && m.roots[r].trace == []
    requires forall k :: 0 <= k < |ids| ==> ids[k] in m.roots
    ensures AllSpawned(m, ids + newer) == AllSpawned(m, ids)
  {
    if newer == [] {
      assert ids + newer == ids;
    } else {
      assert (ids + newer)[..|ids|] == ids && (ids + newer)[|ids|] == newer[0];
    }
  }

  /** Main result: over every run the tasks correspond one to one, with their bodies and in order, to what
      the loop started and what coroutines spawned, and their traces together tell of exactly as many
      spawned tasks as there are. */
  lemma {:induction false} TasksAreBirths<S(!new)>(P: Program<S>, states: seq<Machine<S>>, labels: seq<Label<S>>)
    requires IsRun(P, states, labels)
    ensures exists ids :: Accounts(states[|labels|], ids, Bodies(P, states, labels), Spawns(P, states, labels))
    decreases |labels|
  {
    if labels == [] {
      assert Accounts(states[|labels|], [], Bodies(P, states, labels), Spawns(P, states, labels));
    } else {
      var n := |labels| - 1;
      var before, labels' := states[..n + 1], labels[..n];
      TasksAreBirths(P, before, labels');
      var bodies, spawns := Bodies(P, before, labels'), Spawns(P, before, labels');
      var ids :| Accounts(before[n], ids, bodies, spawns);
      var chains := RunWitness(P, before, labels');
      assert Enabled(states[n], labels[n]);
      var ids' := AccountStep(P, states[n], chains, labels[n], ids, bodies, spawns);
      BodiesOn(P, states, labels);
      assert Accounts(states[n + 1], ids', Bodies(P, states, labels), Spawns(P, states, labels));
    }
  }

  // ------------------------------------------------------------------ the answers

  /** The answer that a step gives to the task `r`, if any. */
  function Given<S>(m: Machine<S>, l: Label<S>, r: nat): seq<int> {
    if l.Wake? && l.id in m.frames && m.frames[l.id].root == r then [l.answer] else []
  }

  /** All answers that a run gave to the task `r`. */
  function Answers<S>(states: seq<Machine<S>>, labels: seq<Label<S>>, r: nat): seq<int>
    requires |states| == |labels| + 1
  {
    if labels == [] then []
    else
      var n := |labels| - 1;
      Answers(states[..n + 1], labels[..n], r) + Given(states[n], labels[n], r)
  }

  lemma RunGivesNothing<S>(P: Program<S>, m: Machine<S>, r: nat, m': Machine<S>)
    requires m.stack != [] && CanRun(m, Top(m)) && r in m.roots && m.next !in m.roots
    requires var t := Top(m); m' == (if m.frames[t].code.OnTask? then AwaitResume(m, t) else Act(P, m, t))
    ensures r in m'.roots && m'.roots[r].given == m.roots[r].given
  {
    if !m.frames[Top(m)].code.OnTask? {
      ActNotes(P, m, Top(m), r);
    }
  }

  lemma GivenStep<S>(P: Program<S>, m: Machine<S>, l: Label<S>, r: nat)
    requires Enabled(m, l) && r in m.roots && m.next !in m.roots
    ensures r in Apply(P, m, l).roots && Apply(P, m, l).roots[r].given == m.roots[r].given + Given(m, l, r)
  {
    if l.Run? {
      RunIs(P, m, r);
      RunGivesNothing(P, m, r, Apply(P, m, l));
    }
  }

  ghost predicate GivenOk<S>(m: Machine<S>, r: nat, answers: seq<int>) {
    if r in m.roots then m.roots[r].given == answers else answers == []
  }

  lemma GivenKeeps<S>(P: Program<S>, m: Machine<S>, chains: map<nat, seq<nat>>, l: Label<S>, r: nat, answers: seq<int>)
    requires Shaped(m, chains) && Enabled(m, l) && GivenOk(m, r, answers)
    ensures GivenOk(Apply(P, m, l), r, answers + Given(m, l, r))
  {
    NewId(m, chains);
    if r in m.roots {
      GivenStep(P, m, l, r);
    } else {
      BirthStep(P, m, chains, l);
      if l.Wake? {
        assert Belongs(m, chains, l.id);
      }
      var born := Birth(P, m, l);
      if born.Some? {
        var q :| Enters(m, Apply(P, m, l), q, born.value);
        assert r in Apply(P, m, l).roots.Keys <==> r in m.roots.Keys + {q};
      } else {
        assert r !in Apply(P, m, l).roots.Keys;
      }
    }
  }

  lemma AnswersLast<S>(states: seq<Machine<S>>, labels: seq<Label<S>>, n: nat, r: nat)
    requires |states| == |labels| + 1 && |labels| == n + 1
    ensures Answers(states, labels, r) == Answers(states[..n + 1], labels[..n], r) + Given(states[n], labels[n], r)
  {
  }

  /** Over every run each task has been given exactly the answers with which its frames were woken, in order,
      and a task that does not exist yet none. */
  lemma {:induction false} AnswersAreDelivered<S(!new)>(P: Program<S>, states: seq<Machine<S>>, labels: seq<Label<S>>,
                                                        r: nat)
    requires IsRun(P, states, labels)
    ensures GivenOk(states[|labels|], r, Answers(states, labels, r))
    decreases |labels|
  {
    if labels != [] {
      var n := |labels| - 1;
      var before, labels', m, l := states[..n + 1], labels[..n], states[n], labels[n];
      AnswersAreDelivered(P, before, labels', r);
      var chains := RunWitness(P, before, labels');
      assert Enabled(m, l) && states[n + 1] == Apply(P, m, l);
      AnswersLast(states, labels, n, r);
      GivenKeeps(P, m, chains, l, r, Answers(before, labels', r));
    }
  }
}
