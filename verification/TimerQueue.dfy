/** The timer queue of `io_loop.h` against a multiset of pending timers: what is pending is what was
    added, less what fired, less what was cancelled; timers fire in deadline order and never early;
    exactly when the epoll timeout sleeps past a pending deadline. */
module TimerQueue {
  import opened Bits
  import opened TimerHeap

  /** The heap and the id counter, with the history of all timers ever added, fired (in order) and
      cancelled. */
  datatype Timers = Timers(timer: seq<EsTime>, lastId: int,
                           added: multiset<EsTime>, fired: seq<EsTime>, cancelled: multiset<EsTime>)

  const NoTimers := Timers([], 0, multiset{}, [], multiset{})

  ghost predicate Inv(s: Timers) {
    && IsHeap(s.timer)
    && s.lastId >= 0
    && s.added == multiset(s.timer) + multiset(s.fired) + s.cancelled
    && (forall t {:trigger OnceOnly(s.added, s.lastId, t)} :: OnceOnly(s.added, s.lastId, t))
    && (forall t, u {:trigger OneOwner(s.added, t, u)} :: OneOwner(s.added, t, u))
  }

  /** A timer is added at most once, with an id already handed out. */
  predicate OnceOnly(added: multiset<EsTime>, lastId: int, t: EsTime) {
    t in added ==> added[t] == 1 && 1 <= t.id <= lastId
  }

  /** No two timers share an id. */
  predicate OneOwner(added: multiset<EsTime>, t: EsTime, u: EsTime) {
    t in added && u in added && t.id == u.id ==> t == u
  }

  // Each step fixes the heap's contents and its order, not its layout, so the results hold for every
  // implementation of the heap algorithms of the C++ library.

  ghost predicate AddStep(s: Timers, when: int, func: nat, s': Timers) {
    var t := EsTime(s.lastId + 1, when, func);
    && IsHeap(s'.timer) && multiset(s'.timer) == multiset(s.timer) + multiset{t}
    && s' == s.(timer := s'.timer, lastId := s.lastId + 1, added := s.added + multiset{t})
  }

  ghost predicate CancelStep(s: Timers, id: int, s': Timers) {
    if forall t :: t in s.timer ==> t.id != id then s' == s
    else
      exists t :: t in s.timer && t.id == id
        && IsHeap(s'.timer) && multiset(s'.timer) + multiset{t} == multiset(s.timer)
        && s' == s.(timer := s'.timer, cancelled := s.cancelled + multiset{t})
  }

  /** One round of the drain loop at clock reading `now`: the root is due and is taken off. */
  ghost predicate FireStep(s: Timers, now: int, t: EsTime, s': Timers) {
    && s.timer != [] && t == s.timer[0] && t.when <= now
    && IsHeap(s'.timer) && multiset(s'.timer) + multiset{t} == multiset(s.timer)
    && s' == s.(timer := s'.timer, fired := s.fired + [t])
  }

  /** The loop ends: there is no timer, or the root is not due. */
  predicate DrainEnds(s: Timers, now: int) {
    s.timer == [] || s.timer[0].when > now
  }

  lemma AddKeepsInv(s: Timers, when: int, func: nat, s': Timers)
    requires Inv(s) && AddStep(s, when, func, s')
    ensures Inv(s')
  {
    var t := EsTime(s.lastId + 1, when, func);
    assert OnceOnly(s.added, s.lastId, t);
    forall u
      ensures OnceOnly(s'.added, s'.lastId, u)
    {
      assert OnceOnly(s.added, s.lastId, u);
    }
    forall u, w
      ensures OneOwner(s'.added, u, w)
    {
      assert OneOwner(s.added, u, w) && OnceOnly(s.added, s.lastId, u) && OnceOnly(s.added, s.lastId, w);
    }
  }

  lemma CancelKeepsInv(s: Timers, id: int, s': Timers)
    requires Inv(s) && CancelStep(s, id, s')
    ensures Inv(s')
  {
    if t :| t in s.timer && t.id == id && s' != s && multiset(s'.timer) + multiset{t} == multiset(s.timer)
            && s' == s.(timer := s'.timer, cancelled := s.cancelled + multiset{t}) {
      assert s'.added == multiset(s'.timer) + multiset(s'.fired) + s'.cancelled;
    }
  }

  lemma FireKeepsInv(s: Timers, now: int, t: EsTime, s': Timers)
    requires Inv(s) && FireStep(s, now, t, s')
    ensures Inv(s')
  {
    assert s'.added == multiset(s'.timer) + multiset(s'.fired) + s'.cancelled;
  }

  /** Adding: exactly one new timer is pending, with an id never used before, the deadline and the callback
      that were asked for; every other timer is as it was. */
  lemma AddAddsOne(s: Timers, when: int, func: nat, s': Timers, t: EsTime)
    requires Inv(s) && AddStep(s, when, func, s') && t == EsTime(s'.lastId, when, func)
    ensures forall u :: u in s.added ==> u.id < t.id
    ensures multiset(s'.timer)[t] == 1 && t !in s.timer
    ensures forall u :: u != t ==> multiset(s'.timer)[u] == multiset(s.timer)[u]
    ensures s'.fired == s.fired && s'.cancelled == s.cancelled
  {
    forall u | u in s.added
      ensures u.id < t.id
    {
      assert OnceOnly(s.added, s.lastId, u);
    }
    assert t in s.timer ==> t in s.added;
  }

  /** Cancelling: no pending timer has that id any more, every other timer is as it was, and what was
      removed is recorded as cancelled. */
  lemma CancelRemoves(s: Timers, id: int, s': Timers)
    requires Inv(s) && CancelStep(s, id, s')
    ensures forall t :: t in s'.timer ==> t.id != id
    ensures forall t: EsTime :: t.id != id ==> multiset(s'.timer)[t] == multiset(s.timer)[t]
    ensures s'.cancelled == s.cancelled + (multiset(s.timer) - multiset(s'.timer))
    ensures s'.added == s.added && s'.fired == s.fired && s'.lastId == s.lastId
  {
    if t :| t in s.timer && t.id == id {
      var r :| r in s.timer && r.id == id && multiset(s'.timer) + multiset{r} == multiset(s.timer)
               && s' == s.(timer := s'.timer, cancelled := s.cancelled + multiset{r});
      TakeOne(multiset(s.timer), multiset(s'.timer), r);
      assert multiset(s.timer)[r] == 1 by { OnlyOnePending(s, r, r); }
      forall u | u in s'.timer
        ensures u.id != id
      {
        OnlyOnePending(s, r, u);
        assert multiset(s'.timer)[u] > 0;
      }
    } else {
      assert multiset(s.timer) - multiset(s'.timer) == multiset{};
    }
  }

  lemma TakeOne(a: multiset<EsTime>, b: multiset<EsTime>, r: EsTime)
    requires b + multiset{r} == a
    ensures a - b == multiset{r} && b[r] + 1 == a[r]
    ensures forall u :: u != r ==> b[u] == a[u]
  {
    assert a - b == multiset{r};
    forall u | u != r
      ensures b[u] == a[u]
    {
      assert a[u] == b[u] + multiset{r}[u];
    }
    assert a[r] == b[r] + multiset{r}[r];
  }

  /** A pending timer is pending once, and no other pending timer shares its id. */
  lemma OnlyOnePending(s: Timers, t: EsTime, u: EsTime)
    requires Inv(s) && t in s.timer
    ensures multiset(s.timer)[t] == 1
    ensures u in s.timer && u.id == t.id ==> u == t
  {
    assert OnceOnly(s.added, s.lastId, t) && OneOwner(s.added, t, u);
    assert s.added[t] == multiset(s.timer)[t] + multiset(s.fired)[t] + s.cancelled[t];
    assert t in s.added && (u in s.timer ==> u in s.added);
  }

  // ------------------------------------------------------------------ events

  datatype Event = Added(when: int, func: nat) | Cancelled(id: int) | Fired(now: int, t: EsTime)

  ghost predicate Step(s: Timers, e: Event, s': Timers) {
    match e
    case Added(when, func) => AddStep(s, when, func, s')
    case Cancelled(id) => CancelStep(s, id, s')
    case Fired(now, t) => FireStep(s, now, t, s')
  }

  ghost predicate Path(states: seq<Timers>, events: seq<Event>) {
    && |states| == |events| + 1
    && forall i :: 0 <= i < |events| ==> Step(states[i], events[i], states[i + 1])
  }

  /** The events lead from `s` to `s'`, one after another. */
  ghost predicate Leads(s: Timers, events: seq<Event>, s': Timers) {
    exists states :: Path(states, events) && states[0] == s && states[|events|] == s'
  }

  lemma LeadsNowhere(s: Timers)
    ensures Leads(s, [], s)
  {
    assert Path([s], []);
  }

  lemma LeadsConcat(s: Timers, a: seq<Event>, mid: Timers, b: seq<Event>, s': Timers)
    requires Leads(s, a, mid) && Leads(mid, b, s')
    ensures Leads(s, a + b, s')
  {
    var p :| Path(p, a) && p[0] == s && p[|a|] == mid;
    var q :| Path(q, b) && q[0] == mid && q[|b|] == s';
    var all, events := p + q[1..], a + b;
    forall i | 0 <= i < |events|
      ensures Step(all[i], events[i], all[i + 1])
    {
      if i < |a| {
        assert all[i] == p[i] && all[i + 1] == p[i + 1];
      } else {
        assert all[i] == q[i - |a|] && all[i + 1] == q[i + 1 - |a|] && events[i] == b[i - |a|];
      }
    }
    assert Path(all, events) && all[0] == s && all[|events|] == s';
  }

  lemma LeadsOn(s: Timers, events: seq<Event>, mid: Timers, e: Event, s': Timers)
    requires Leads(s, events, mid) && Step(mid, e, s')
    ensures Leads(s, events + [e], s')
  {
    assert Path([mid, s'], [e]);
    LeadsConcat(s, events, mid, [e], s');
  }

  // ------------------------------------------------------------------ the class

  /** What a timer callback does to the queue: new timers and cancellations. */
  datatype Cmd = Add(when: int, func: nat) | Cancel(id: int)

  function CmdEvent(c: Cmd): Event {
    match c
    case Add(when, func) => Added(when, func)
    case Cancel(id) => Cancelled(id)
  }

  function CmdEvents(cmds: seq<Cmd>): seq<Event> {
    seq(|cmds|, i requires 0 <= i < |cmds| => CmdEvent(cmds[i]))
  }

  /** What a drain loop does: each timer fires at its clock reading and its callback does its commands. */
  function DrainEvents(ts: seq<EsTime>, clock: seq<int>, callbacks: seq<seq<Cmd>>): seq<Event>
    requires |ts| <= |clock| == |callbacks|
  {
    if ts == [] then []
    else
      var n := |ts| - 1;
      DrainEvents(ts[..n], clock, callbacks) + ([Fired(clock[n], ts[n])] + CmdEvents(callbacks[n]))
  }

  lemma CmdLeads(s: Timers, cmds: seq<Cmd>, i: nat, mid: Timers, s': Timers)
    requires i < |cmds| && Leads(s, CmdEvents(cmds[..i]), mid) && Step(mid, CmdEvent(cmds[i]), s')
    ensures Leads(s, CmdEvents(cmds[..i + 1]), s')
  {
    LeadsOn(s, CmdEvents(cmds[..i]), mid, CmdEvent(cmds[i]), s');
    assert CmdEvents(cmds[..i + 1]) == CmdEvents(cmds[..i]) + [CmdEvent(cmds[i])];
  }

  lemma DrainLeads(s: Timers, ts: seq<EsTime>, t: EsTime, clock: seq<int>, callbacks: seq<seq<Cmd>>,
                   mid: Timers, s': Timers)
    requires |ts| < |clock| == |callbacks| && Leads(s, DrainEvents(ts, clock, callbacks), mid)
    requires Leads(mid, [Fired(clock[|ts|], t)] + CmdEvents(callbacks[|ts|]), s')
    ensures Leads(s, DrainEvents(ts + [t], clock, callbacks), s')
  {
    LeadsConcat(s, DrainEvents(ts, clock, callbacks), mid, [Fired(clock[|ts|], t)] + CmdEvents(callbacks[|ts|]), s');
    assert (ts + [t])[..|ts|] == ts;
  }

  class Queue {
    var timer: seq<EsTime>
    var gTimerId: int
    ghost var added: multiset<EsTime>
    ghost var fired: seq<EsTime>
    ghost var cancelled: multiset<EsTime>

    ghost function State(): Timers
      reads this
    {
      Timers(timer, gTimerId, added, fired, cancelled)
    }

    constructor ()
      ensures State() == NoTimers && Inv(State())
    {
      timer, gTimerId := [], 0;
      added, fired, cancelled := multiset{}, [], multiset{};
    }

    method DelayCall(when: int, func: nat) returns (id: int)
      requires Inv(State())
      modifies this
      ensures AddStep(old(State()), when, func, State()) && Inv(State()) && id == gTimerId
      ensures forall t :: t in old(added) ==> t.id < id
      ensures multiset(timer) == multiset(old(timer)) + multiset{EsTime(id, when, func)}
    {
      ghost var before := State();
      gTimerId := gTimerId + 1;
      var t := EsTime(gTimerId, when, func);
      var v := timer + [t];
      assert v[..|v| - 1] == timer;
      timer := PushHeap(v);
      added := added + multiset{t};
      AddKeepsInv(before, when, func, State());
      AddAddsOne(before, when, func, State(), t);
      id := gTimerId;
    }

    method CancelDelay(id: int)
      requires Inv(State())
      modifies this
      ensures CancelStep(old(State()), id, State()) && Inv(State())
      ensures forall t :: t in timer ==> t.id != id
      ensures forall t: EsTime :: t.id != id ==> multiset(timer)[t] == multiset(old(timer))[t]
      ensures cancelled == old(cancelled) + (multiset(old(timer)) - multiset(timer))
      ensures added == old(added) && fired == old(fired) && gTimerId == old(gTimerId)
    {
      ghost var before := State();
      var i := 0;
      while i < |timer| && timer[i].id != id
        invariant 0 <= i <= |timer| && forall j :: 0 <= j < i ==> timer[j].id != id
      {
        i := i + 1;
      }
      if i < |timer| {
        var t := timer[i];
        var rest := timer[..i] + timer[i + 1..];
        MultisetErase(timer, i);
        timer := MakeHeap(rest);
        cancelled := cancelled + multiset{t};
        assert t in before.timer;
      }
      CancelKeepsInv(before, id, State());
      CancelRemoves(before, id, State());
    }

    method FireRoot(now: int) returns (t: EsTime)
      requires Inv(State()) && timer != [] && timer[0].when <= now
      modifies this
      ensures FireStep(old(State()), now, t, State()) && Inv(State())
    {
      ghost var before := State();
      var v := PopHeap(timer);
      t := v[|v| - 1];
      assert v == v[..|v| - 1] + [t];
      timer := v[..|v| - 1];
      fired := fired + [t];
      FireKeepsInv(before, now, t, State());
    }

    method RunCmd(c: Cmd)
      requires Inv(State())
      modifies this
      ensures Inv(State()) && fired == old(fired) && Step(old(State()), CmdEvent(c), State())
    {
      match c {
        case Add(when, func) =>
          var _ := DelayCall(when, func);
        case Cancel(id) => CancelDelay(id);
      }
    }

    method RunCallback(cmds: seq<Cmd>)
      requires Inv(State())
      modifies this
      ensures Inv(State()) && fired == old(fired)
      ensures Leads(old(State()), CmdEvents(cmds), State())
    {
      ghost var start := State();
      LeadsNowhere(start);
      for i := 0 to |cmds|
        invariant Inv(State()) && fired == old(fired)
        invariant Leads(start, CmdEvents(cmds[..i]), State())
      {
        ghost var mid := State();
        RunCmd(cmds[i]);
        CmdLeads(start, cmds, i, mid, State());
      }
      assert cmds[..|cmds|] == cmds;
    }

    method FireOne(now: int, cmds: seq<Cmd>) returns (t: EsTime)
      requires Inv(State()) && timer != [] && timer[0].when <= now
      modifies this
      ensures Inv(State()) && t.when <= now && fired == old(fired) + [t]
      ensures Leads(old(State()), [Fired(now, t)] + CmdEvents(cmds), State())
    {
      ghost var start := State();
      t := FireRoot(now);
      ghost var mid := State();
      LeadsNowhere(start);
      LeadsOn(start, [], start, Fired(now, t), mid);
      assert [] + [Fired(now, t)] == [Fired(now, t)];
      RunCallback(cmds);
      LeadsConcat(start, [Fired(now, t)], mid, CmdEvents(cmds), State());
    }

    /** The drain loop: `clock[k]` is the k-th reading of the clock, and the k-th fired callback
        performs `callbacks[k]`.  `rounds` timers fire; if the readings last until the loop ends, no
        pending timer is due at the last reading, even one added by a callback. */
    method Drain(clock: seq<int>, callbacks: seq<seq<Cmd>>) returns (rounds: nat, ts: seq<EsTime>)
      requires Inv(State()) && |callbacks| == |clock|
      modifies this
      ensures Inv(State()) && rounds <= |clock| && |ts| == rounds
      ensures fired == old(fired) + ts
      ensures NotEarly(ts, clock) && Leads(old(State()), DrainEvents(ts, clock, callbacks), State())
      ensures rounds < |clock| ==> forall t :: t in timer ==> t.when > clock[rounds]
    {
      ghost var start := State();
      LeadsNowhere(start);
      rounds, ts := 0, [];
      while rounds < |clock| && timer != [] && timer[0].when <= clock[rounds]
        invariant Inv(State()) && rounds <= |clock| && |ts| == rounds
        invariant fired == old(fired) + ts
        invariant NotEarly(ts, clock) && Leads(start, DrainEvents(ts, clock, callbacks), State())
      {
        ghost var mid := State();
        var t := FireOne(clock[rounds], callbacks[rounds]);
        DrainLeads(start, ts, t, clock, callbacks, mid, State());
        ts := ts + [t];
        rounds := rounds + 1;
      }
      if rounds < |clock| {
        NothingDue(State(), clock[rounds]);
      }
    }
  }

  // ------------------------------------------------------------------ order and accounting

  /** Each timer was due at the clock reading it fired at. */
  predicate NotEarly(ts: seq<EsTime>, clock: seq<int>) {
    |ts| <= |clock| && forall k :: 0 <= k < |ts| ==> ts[k].when <= clock[k]
  }

  lemma MultisetErase(ts: seq<EsTime>, i: nat)
    requires i < |ts|
    ensures multiset(ts[..i] + ts[i + 1..]) + multiset{ts[i]} == multiset(ts)
  {
    assert ts == ts[..i] + [ts[i]] + ts[i + 1..];
  }

  /** When the drain loop ends, no pending timer is due. */
  lemma NothingDue(s: Timers, now: int)
    requires Inv(s) && DrainEnds(s, now)
    ensures forall t :: t in s.timer ==> t.when > now
  {
    forall t | t in s.timer
      ensures t.when > now
    {
      var j: nat :| j < |s.timer| && s.timer[j] == t;
      RootIsLeast(s.timer, j);
    }
  }

  ghost predicate IsRun(states: seq<Timers>, events: seq<Event>) {
    && |states| == |events| + 1
    && states[0] == NoTimers
    && forall i :: 0 <= i < |events| ==> Step(states[i], events[i], states[i + 1])
  }

  lemma {:induction false} RunInv(states: seq<Timers>, events: seq<Event>)
    requires IsRun(states, events)
    ensures Inv(states[|events|])
    decreases |events|
  {
    if events != [] {
      var n := |events| - 1;
      RunInv(states[..n + 1], events[..n]);
      assert Step(states[n], events[n], states[n + 1]);
      match events[n] {
        case Added(when, func) => AddKeepsInv(states[n], when, func, states[n + 1]);
        case Cancelled(id) => CancelKeepsInv(states[n], id, states[n + 1]);
        case Fired(now, t) => FireKeepsInv(states[n], now, t, states[n + 1]);
      }
    }
  }

  /** Main result: over every run, what is pending is what was added less what fired less what was
      cancelled; no timer both fires and is cancelled, or does either twice; a timer that fires is
      due, and no pending timer has an earlier deadline. */
  lemma TimersFireOnceInOrder(states: seq<Timers>, events: seq<Event>)
    requires IsRun(states, events)
    ensures var s := states[|events|];
            && multiset(s.timer) == s.added - multiset(s.fired) - s.cancelled
            && (forall t :: t in s.added ==> multiset(s.fired)[t] + s.cancelled[t] <= 1)
            && (forall t :: t in s.fired || t in s.cancelled ==> t in s.added && t !in s.timer)
    ensures forall k :: 0 <= k < |events| && events[k].Fired? ==>
              && events[k].t.when <= events[k].now
              && forall u :: u in states[k].timer ==> events[k].t.when <= u.when
  {
    RunInv(states, events);
    var s := states[|events|];
    forall t | t in s.added
      ensures multiset(s.fired)[t] + s.cancelled[t] <= 1
    {
      assert OnceOnly(s.added, s.lastId, t);
    }
    forall t | t in s.fired || t in s.cancelled
      ensures t in s.added && t !in s.timer
    {
      assert OnceOnly(s.added, s.lastId, t);
      assert s.added[t] == multiset(s.timer)[t] + multiset(s.fired)[t] + s.cancelled[t];
    }
    forall k | 0 <= k < |events| && events[k].Fired?
      ensures events[k].t.when <= events[k].now
      ensures forall u :: u in states[k].timer ==> events[k].t.when <= u.when
    {
      assert Step(states[k], events[k], states[k + 1]);
      RunInv(states[..k + 1], events[..k]);
      NothingDue(states[k], events[k].t.when - 1);
    }
  }

  /** Cancelling the id of a timer that has fired, or was cancelled before, changes nothing. */
  lemma LateCancelChangesNothing(states: seq<Timers>, events: seq<Event>, t: EsTime, s': Timers)
    requires IsRun(states, events)
    requires var s := states[|events|]; (t in s.fired || t in s.cancelled) && CancelStep(s, t.id, s')
    ensures s' == states[|events|]
  {
    RunInv(states, events);
    var s := states[|events|];
    assert s.added[t] == multiset(s.timer)[t] + multiset(s.fired)[t] + s.cancelled[t];
    forall u | u in s.timer
      ensures u.id != t.id
    {
      assert OneOwner(s.added, u, t) && OnceOnly(s.added, s.lastId, t);
    }
  }

  // ------------------------------------------------------------------ where timers come from

  function AddedCount(events: seq<Event>): nat {
    if events == [] then 0
    else AddedCount(events[..|events| - 1]) + if events[|events| - 1].Added? then 1 else 0
  }

  /** The timer made by the event at `i`: the ids are handed out in turn. */
  predicate MadeAt(events: seq<Event>, i: nat, t: EsTime) {
    i < |events| && events[i] == Added(t.when, t.func) && t.id == AddedCount(events[..i + 1])
  }

  ghost predicate Asked(events: seq<Event>, t: EsTime) {
    exists i: nat :: MadeAt(events, i, t)
  }

  /** Over every run: the timers added are exactly those that were asked for, each with its deadline, its
      callback and the number of its request as id; so a timer that fires was asked for, as it fires. */
  lemma {:induction false} AddedAsAsked(states: seq<Timers>, events: seq<Event>, t: EsTime)
    requires IsRun(states, events)
    ensures states[|events|].lastId == AddedCount(events)
    ensures t in states[|events|].added <==> Asked(events, t)
    decreases |events|
  {
    if events != [] {
      var n := |events| - 1;
      AddedAsAsked(states[..n + 1], events[..n], t);
      assert Step(states[n], events[n], states[n + 1]);
      RunInv(states[..n + 1], events[..n]);
      AddedStep(states[n], events[n], states[n + 1], t);
      AskedOn(events, t);
    }
  }

  lemma AddedStep(s: Timers, e: Event, s': Timers, t: EsTime)
    requires Inv(s) && Step(s, e, s')
    ensures s'.lastId == s.lastId + if e.Added? then 1 else 0
    ensures t in s'.added <==> t in s.added || (e == Added(t.when, t.func) && t.id == s.lastId + 1)
  {
    match e {
      case Added(when, func) =>
        assert s'.added == s.added + multiset{EsTime(s.lastId + 1, when, func)};
      case Cancelled(id) => CancelRemoves(s, id, s');
      case Fired(_, _) =>
    }
  }

  lemma AskedOn(events: seq<Event>, t: EsTime)
    requires events != []
    ensures var n := |events| - 1;
            Asked(events, t)
            <==> Asked(events[..n], t) || (events[n] == Added(t.when, t.func) && t.id == AddedCount(events[..n]) + 1)
  {
    var n := |events| - 1;
    assert events[..n + 1] == events;
    forall i: nat | i < n
      ensures MadeAt(events[..n], i, t) <==> MadeAt(events, i, t)
    {
      assert events[..n][..i + 1] == events[..i + 1];
    }
    if i: nat :| MadeAt(events, i, t) {
      assert i < n ==> MadeAt(events[..n], i, t);
    }
    if i: nat :| MadeAt(events[..n], i, t) {
      assert MadeAt(events, i, t);
    }
    if events[n] == Added(t.when, t.func) && t.id == AddedCount(events[..n]) + 1 {
      assert MadeAt(events, n, t);
    }
  }

  /** Over every run: once the id of a timer has been cancelled, nothing with that id ever fires. */
  lemma CancelledNeverFires(states: seq<Timers>, events: seq<Event>, i: nat, j: nat)
    requires IsRun(states, events) && i < j < |events|
    requires events[i].Cancelled? && events[i].id <= states[i].lastId && events[j].Fired?
    ensures events[j].t.id != events[i].id
  {
    assert Step(states[i], events[i], states[i + 1]);
    RunInv(states[..i + 1], events[..i]);
    CancelRemoves(states[i], events[i].id, states[i + 1]);
    StaysGone(states, events, i + 1, j, events[i].id);
    assert Step(states[j], events[j], states[j + 1]);
  }

  /** An id that was handed out and is not pending does not become pending again. */
  lemma {:induction false} StaysGone(states: seq<Timers>, events: seq<Event>, i: nat, j: nat, id: int)
    requires IsRun(states, events) && i <= j <= |events|
    requires id <= states[i].lastId && forall t :: t in states[i].timer ==> t.id != id
    ensures id <= states[j].lastId && forall t :: t in states[j].timer ==> t.id != id
    decreases j
  {
    if i < j {
      StaysGone(states, events, i, j - 1, id);
      assert Step(states[j - 1], events[j - 1], states[j]);
      RunInv(states[..j], events[..j - 1]);
      GoneStep(states[j - 1], events[j - 1], states[j], id);
    }
  }

  lemma GoneStep(s: Timers, e: Event, s': Timers, id: int)
    requires Inv(s) && Step(s, e, s') && id <= s.lastId && forall t :: t in s.timer ==> t.id != id
    ensures id <= s'.lastId && forall t :: t in s'.timer ==> t.id != id
  {
    match e {
      case Added(when, func) =>
        forall t | t in s'.timer
          ensures t.id != id
        {
          assert t in multiset(s'.timer);
          assert t != EsTime(s.lastId + 1, when, func) ==> t in multiset(s.timer);
        }
      case Cancelled(c) =>
        CancelRemoves(s, c, s');
        forall t | t in s'.timer
          ensures t.id != id
        {
          assert multiset(s'.timer)[t] > 0;
        }
      case Fired(_, f) =>
        forall t | t in s'.timer
          ensures t.id != id
        {
          assert t in multiset(s'.timer) + multiset{f};
        }
    }
  }

  // ------------------------------------------------------------------ the epoll timeout

  /** `duration_cast<milliseconds>`: division that rounds toward zero. */
  function Milliseconds(ns: int): int {
    if ns >= 0 then ns / 1_000_000 else -(-ns / 1_000_000)
  }

  /** The timeout of `run`; the count of milliseconds is stored in an `int`. */
  function EpollTimeout(timer: seq<EsTime>, now: int): (ms: int)
    ensures 0 <= ms <= 100
  {
    if timer == [] then 100
    else
      var left := I32(Milliseconds(timer[0].when - now));
      if left < 0 then 0 else if left > 100 then 100 else left
  }

  /** The wait may last past the moment a pending timer becomes due. */
  ghost predicate Oversleeps(timer: seq<EsTime>, now: int) {
    exists t :: t in timer && EpollTimeout(timer, now) * 1_000_000 > (if t.when > now then t.when - now else 0)
  }

  /** The loop never waits longer than any pending timer has left, and not at all if one is due,
      unless the root has been overdue for so long that its age in milliseconds leaves the 32-bit
      range and wraps to a positive number. */
  lemma OversleepsIff(timer: seq<EsTime>, now: int)
    requires IsHeap(timer) && timer != []
    ensures Oversleeps(timer, now)
       <==> var left := Milliseconds(timer[0].when - now); left < -0x8000_0000 && I32(left) > 0
  {
    var root, left := timer[0], Milliseconds(timer[0].when - now);
    var ms := EpollTimeout(timer, now);
    if left < -0x8000_0000 && I32(left) > 0 {
      assert root in timer && ms >= 1;
    } else {
      assert ms * 1_000_000 <= if root.when > now then root.when - now else 0;
      forall t | t in timer
        ensures ms * 1_000_000 <= if t.when > now then t.when - now else 0
      {
        var j: nat :| j < |timer| && timer[j] == t;
        RootIsLeast(timer, j);
      }
    }
  }

  /** Waiting `ms` milliseconds does not last past any deadline, and not at all if a timer is due. */
  ghost predicate SafeWait(timer: seq<EsTime>, now: int, ms: int) {
    forall t :: t in timer ==> ms * 1_000_000 <= Left(t, now)
  }

  function Left(t: EsTime, now: int): int {
    if t.when > now then t.when - now else 0
  }

  /** The longest wait, up to 100 milliseconds, that is safe. */
  ghost predicate LongestWait(timer: seq<EsTime>, now: int, ms: int) {
    0 <= ms <= 100 && SafeWait(timer, now, ms) && (ms == 100 || !SafeWait(timer, now, ms + 1))
  }

  lemma RootDecides(timer: seq<EsTime>, now: int, ms: nat)
    requires IsHeap(timer) && timer != []
    ensures SafeWait(timer, now, ms) <==> ms * 1_000_000 <= Left(timer[0], now)
  {
    if ms * 1_000_000 <= Left(timer[0], now) {
      forall t | t in timer
        ensures ms * 1_000_000 <= Left(t, now)
      {
        var j: nat :| j < |timer| && timer[j] == t;
        RootIsLeast(timer, j);
      }
    } else {
      assert timer[0] in timer;
    }
  }

  /** The loop waits as long as it safely can, and 100 milliseconds without a timer, exactly unless the
      time to the root leaves the 32-bit range and wraps to the other side of the clamp. */
  lemma LongestWaitIff(timer: seq<EsTime>, now: int)
    requires IsHeap(timer)
    ensures timer == [] ==> LongestWait(timer, now, EpollTimeout(timer, now)) && EpollTimeout(timer, now) == 100
    ensures timer != [] ==>
              var left := Milliseconds(timer[0].when - now);
              (LongestWait(timer, now, EpollTimeout(timer, now)) <==>
                 (left >= 0x8000_0000 ==> I32(left) >= 100) && (left < -0x8000_0000 ==> I32(left) <= 0))
  {
    if timer != [] {
      var ms, left := EpollTimeout(timer, now), Milliseconds(timer[0].when - now);
      RootDecides(timer, now, ms);
      RootDecides(timer, now, ms + 1);
      assert forall k: nat :: k * 1_000_000 <= Left(timer[0], now) <==> k <= (if left > 0 then left else 0);
    }
  }

  /** One timer, overdue by 2^31 + 1 milliseconds: the loop waits although it is due. */
  lemma OversleepsAt(timer: seq<EsTime>, now: int)
    requires timer == [EsTime(1, 0, 0)] && now == 2_147_483_649 * 1_000_000
    ensures IsHeap(timer) && Oversleeps(timer, now) && EpollTimeout(timer, now) == 100
  {
    var left := Milliseconds(timer[0].when - now);
    assert left == -2_147_483_649;
    assert I32(left) == 2_147_483_647 by {
      DivUnique(left, TWO32, -1, 2_147_483_647);
    }
    OversleepsIff(timer, now);
  }
}
