/** What nested `resume()` calls promise about the order between tasks: whoever starts or wakes a task,
    and everything below it on the native stack, waits until that task is parked or over. */
module NestedCalls {
  import opened Coroutine

  /** The first `n` entries of the native stack, and the frames they execute, are untouched. */
  ghost predicate KeepsBelow<S>(m: Machine<S>, m': Machine<S>, n: nat) {
    && n <= |m.stack| && n <= |m'.stack| && m'.stack[..n] == m.stack[..n]
    && forall a :: 0 <= a < n ==> SameFrame(m, m', m.stack[a])
  }

  ghost predicate SameFrame<S>(m: Machine<S>, m': Machine<S>, id: nat) {
    id in m.frames && id in m'.frames && m'.frames[id] == m.frames[id]
  }

  /** The task executed by entry `n` of the native stack. */
  predicate Executes<S>(m: Machine<S>, n: nat, r: nat) {
    n < |m.stack| && m.stack[n] in m.frames && m.frames[m.stack[n]].root == r
  }

  predicate AtRest<S>(m: Machine<S>, r: nat) {
    r in m.roots && (m.roots[r].outcome.Some? || exists id :: id in m.frames && Parked(m, id, r))
  }

  predicate Parked<S>(m: Machine<S>, id: nat, r: nat)
    requires id in m.frames
  {
    m.frames[id].root == r && m.frames[id].code.OnIo?
  }

  // ------------------------------------------------------------------ one step

  /** Entries below the top execute other tasks. */
  lemma OtherTask<S>(m: Machine<S>, chains: map<nat, seq<nat>>, a: nat)
    requires Shaped(m, chains) && a < |m.stack| - 1
    ensures m.stack[a] in m.frames && Top(m) in m.frames && m.frames[m.stack[a]].root != m.frames[Top(m)].root
  {
    assert StackOk(m, chains);
    assert InControl(m, chains, m.stack[a]) && InControl(m, chains, m.stack[|m.stack| - 1]);
  }

  lemma OnlyTop<S>(m: Machine<S>, m': Machine<S>, chains: map<nat, seq<nat>>)
    requires Shaped(m, chains) && m.stack != [] && Top(m) in m.frames
    requires OnlyTouches(m, m', m.frames[Top(m)].root)
    requires |m'.stack| >= |m.stack| - 1 && m'.stack[..|m.stack| - 1] == Below(m.stack)
    ensures KeepsBelow(m, m', |m.stack| - 1)
  {
    forall a | 0 <= a < |m.stack| - 1
      ensures SameFrame(m, m', m.stack[a])
    {
      OtherTask(m, chains, a);
    }
  }

  /** An awaiting frame's finished child belongs to its own task, and so does a frame's parent. */
  lemma Relatives<S>(m: Machine<S>, chains: map<nat, seq<nat>>)
    requires Shaped(m, chains) && m.stack != []
    ensures CanRun(m, Top(m))
    ensures var f := m.frames[Top(m)];
            && (f.code.OnTask? ==> f.code.child in m.frames && m.frames[f.code.child].root == f.root)
            && (f.code.Ready? && f.parent.Coro? ==> f.parent.id in m.frames && m.frames[f.parent.id].root == f.root)
  {
    ControlPoint(m, chains);
    var f := m.frames[Top(m)];
    var chain := chains[f.root];
    if f.code.Ready? && f.parent.Coro? {
      assert |chain| > 1;
      assert Link(m, chain[0], chain[1]);
    }
  }

  lemma NewId<S>(m: Machine<S>, chains: map<nat, seq<nat>>)
    requires Shaped(m, chains)
    ensures m.next !in m.frames && m.next !in m.roots
  {
    assert m.next in m.frames ==> Belongs(m, chains, m.next);
    forall r | r in m.roots
      ensures r < m.next
    {
      assert RootShape(m, r, chains[r]);
    }
  }

  /** The frame in control acts: entries below it wait; its own entry goes on with the same task, or is gone
      because that task is parked or over. */
  lemma TopActs<S>(P: Program<S>, m: Machine<S>, chains: map<nat, seq<nat>>)
    requires Shaped(m, chains) && Enabled(m, Run) && !Apply(P, m, Run).stopped
    ensures var m' := Apply(P, m, Run); var n := |m.stack| - 1; var r := m.frames[Top(m)].root;
            && KeepsBelow(m, m', n)
            && (if |m'.stack| > n then Executes(m', n, r) else AtRest(m', r))
  {
    Relatives(m, chains);
    NewId(m, chains);
    TopTouches(P, m, chains);
    OnlyTop(m, Apply(P, m, Run), chains);
    TopRests(P, m, chains);
  }

  lemma TopTouches<S>(P: Program<S>, m: Machine<S>, chains: map<nat, seq<nat>>)
    requires Shaped(m, chains) && Enabled(m, Run) && !Apply(P, m, Run).stopped
    ensures var m' := Apply(P, m, Run);
            && OnlyTouches(m, m', m.frames[Top(m)].root)
            && |m'.stack| >= |m.stack| - 1 && m'.stack[..|m.stack| - 1] == Below(m.stack)
  {
    Relatives(m, chains);
    NewId(m, chains);
    var t := Top(m);
    var c := m.frames[t].code;
    if c.Ready? {
      match P(c.s, c.input) {
        case Return(v) => FinalTouches(m, t, Value(v));
        case Throw(e) => FinalTouches(m, t, Exception(e));
        case Effect(x, next) => LocalTouches(m, t, Ready(next, Begin), [Did(x)]);
        case Suspend(op, next) => LocalTouches(m, t, OnIo(next), [Asked(op)]);
        case Await(_, _) =>
        case Spawn(_, next) => LocalTouches(m, t, Ready(next, Begin), [Spawned]);
      }
    }
  }

  lemma FinalTouches<S>(m: Machine<S>, t: nat, out: Outcome)
    requires m.stack != [] && Top(m) == t && CanRun(m, t)
    ensures var m' := FinalSuspend(m, t, out);
            && OnlyTouches(m, m', m.frames[t].root)
            && |m'.stack| >= |m.stack| - 1 && m'.stack[..|m.stack| - 1] == Below(m.stack)
  {
  }

  lemma LocalTouches<S>(m: Machine<S>, t: nat, code: Code<S>, events: seq<Event>)
    requires m.stack != [] && Top(m) == t && CanRun(m, t)
    ensures var m' := Advance(m, t, code, events);
            && OnlyTouches(m, m', m.frames[t].root)
            && |m'.stack| >= |m.stack| - 1 && m'.stack[..|m.stack| - 1] == Below(m.stack)
  {
  }

  lemma TopRests<S>(P: Program<S>, m: Machine<S>, chains: map<nat, seq<nat>>)
    requires Shaped(m, chains) && Enabled(m, Run) && !Apply(P, m, Run).stopped
    ensures var m' := Apply(P, m, Run); var n := |m.stack| - 1; var r := m.frames[Top(m)].root;
            if |m'.stack| > n then Executes(m', n, r) else AtRest(m', r)
  {
    Relatives(m, chains);
    NewId(m, chains);
    var m' := Apply(P, m, Run);
    var t := Top(m);
    if |m'.stack| < |m.stack| && m'.roots[m.frames[t].root].outcome.None? {
      assert Parked(m', t, m.frames[t].root);
    }
  }

  /** A new entry leaves those below it alone. */
  lemma Entered<S>(P: Program<S>, m: Machine<S>, chains: map<nat, seq<nat>>, l: Label<S>)
    requires Shaped(m, chains) && Enabled(m, l) && !l.Run?
    ensures KeepsBelow(m, Apply(P, m, l), |m.stack|)
  {
    NewId(m, chains);
    assert StackOk(m, chains);
    forall a | 0 <= a < |m.stack|
      ensures SameFrame(m, Apply(P, m, l), m.stack[a])
    {
      assert InControl(m, chains, m.stack[a]);
      assert RootShape(m, m.frames[m.stack[a]].root, chains[m.frames[m.stack[a]].root]);
    }
  }

  /** Seen from any entry that is still there before the step. */
  lemma EntryWaits<S>(P: Program<S>, m: Machine<S>, chains: map<nat, seq<nat>>, l: Label<S>, n: nat, r: nat)
    requires Shaped(m, chains) && Enabled(m, l) && !Apply(P, m, l).stopped && Executes(m, n, r)
    ensures var m' := Apply(P, m, l);
            KeepsBelow(m, m', n) && if |m'.stack| > n then Executes(m', n, r) else AtRest(m', r)
  {
    var m' := Apply(P, m, l);
    var k := |m.stack| - 1;
    if !l.Run? {
      Entered(P, m, chains, l);
      assert m'.stack[..|m.stack|][n] == m.stack[n] && SameFrame(m, m', m.stack[n]);
      assert m'.stack[..n] == m'.stack[..|m.stack|][..n];
    } else {
      TopActs(P, m, chains);
      if n < k {
        assert m'.stack[..k][n] == m.stack[..k][n] && SameFrame(m, m', m.stack[n]);
        assert m'.stack[..n] == m'.stack[..k][..n] && m.stack[..n] == m.stack[..k][..n];
      }
    }
  }

  // ------------------------------------------------------------------ whole runs

  lemma KeepsBelowTrans<S>(a: Machine<S>, b: Machine<S>, c: Machine<S>, n: nat)
    requires KeepsBelow(a, b, n) && KeepsBelow(b, c, n)
    ensures KeepsBelow(a, c, n)
  {
    forall k | 0 <= k < n
      ensures SameFrame(a, c, a.stack[k])
    {
      assert a.stack[..n][k] == b.stack[..n][k];
      assert SameFrame(a, b, a.stack[k]) && SameFrame(b, c, b.stack[k]);
    }
  }

  /** Main result: from the moment a `resume()` call has been entered for task `r`, at height `n` of the
      native stack, until it has returned, nothing below it moves; while it lasts, its entry executes `r`;
      and when it returns, `r` is parked or over.  In particular a spawned task runs to its first park or
      its end before the spawning frame goes on. */
  lemma {:induction false} ResumeCallNests<S(!new)>(P: Program<S>, states: seq<Machine<S>>, labels: seq<Label<S>>,
                                                    i: nat, j: nat, n: nat, r: nat)
    requires IsRun(P, states, labels) && i <= j <= |labels|
    requires Executes(states[i], n, r) && !states[j].stopped
    requires forall k :: i <= k < j ==> |states[k].stack| > n
    ensures KeepsBelow(states[i], states[j], n)
    ensures if |states[j].stack| > n then Executes(states[j], n, r) else |states[j].stack| == n && AtRest(states[j], r)
    decreases j
  {
    if i < j {
      assert Enabled(states[j - 1], labels[j - 1]);
      ResumeCallNests(P, states, labels, i, j - 1, n, r);
      var chains := RunWitness(P, states[..j], labels[..j - 1]);
      EntryWaits(P, states[j - 1], chains, labels[j - 1], n, r);
      KeepsBelowTrans(states[i], states[j - 1], states[j], n);
      HeightSteps(P, states[j - 1], labels[j - 1]);
    } else {
      var chains := RunWitness(P, states[..i + 1], labels[..i]);
      StackIsLive(states[i], chains);
    }
  }

  lemma StackIsLive<S>(m: Machine<S>, chains: map<nat, seq<nat>>)
    requires Shaped(m, chains)
    ensures forall a :: 0 <= a < |m.stack| ==> m.stack[a] in m.frames
  {
    assert m.stack != [] ==> StackOk(m, chains);
    forall a | 0 <= a < |m.stack|
      ensures m.stack[a] in m.frames
    {
      assert InControl(m, chains, m.stack[a]);
    }
  }

  /** One step removes at most one entry, as long as no exception leaves a task. */
  lemma HeightSteps<S>(P: Program<S>, m: Machine<S>, l: Label<S>)
    requires Enabled(m, l) && !Apply(P, m, l).stopped
    ensures |Apply(P, m, l).stack| >= |m.stack| - 1
  {
  }
}
