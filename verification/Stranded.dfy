/** The converse of `SingleResume`: which suspended awaiters can still be resumed.  An awaiter stands in the
    slot of its descriptor and direction from its start on, through every EAGAIN, until it is resumed or
    displaced. */
module Stranded {
  import opened Common
  import opened FdTable
  import opened SingleResume

  /** The awaiter is the waiter of its own descriptor and direction, which is watched. */
  predicate Standing(s: Loop, a: nat)
    requires a in s.aws
  {
    var w := s.aws[a];
    && w.kind != Sleep
    && WaiterAt(s.watch, w.fd, Direction(w.kind)) == Some(a) && Watched(s.watch, w.fd, Direction(w.kind))
  }

  /** The step takes the slot of `a` away: the program cancels that direction, another awaiter is started
      there, or the timeout of another awaiter of that direction cancels it. */
  predicate Displaces(s: Loop, l: Label, a: nat)
    requires a in s.aws
  {
    var w := s.aws[a];
    match l
    case CancelFd(fd, evs) => fd == w.fd && Direction(w.kind) in evs
    case Start(_, kind, fd, _, _) => kind != Sleep && fd == w.fd && Direction(kind) == Direction(w.kind)
    case TimerEvent(id) =>
      && id in s.timers && s.timers[id] in s.aws && s.timers[id] != a
      && SameSlot(s.aws[s.timers[id]], w)
    case _ => false
  }

  predicate SameSlot(u: Awaiter, w: Awaiter) {
    u.kind != Sleep && u.fd == w.fd && Direction(u.kind) == Direction(w.kind)
  }

  // ------------------------------------------------------------------ one step

  lemma StartStanding(s: Loop, l: Label, a: nat)
    requires Inv(s) && l.Start? && Enabled(s, l) && a in s.aws && s.aws[a].kind != Sleep
    ensures a in Apply(s, l).aws && (Standing(Apply(s, l), a) <==> Standing(s, a) && !Displaces(s, l, a))
  {
    if l.kind != Sleep {
      WaitKeepsOthers(s.watch, l.fd, Direction(l.kind), l.a);
      var w := s.aws[a];
      assert !Displaces(s, l, a) ==> SameAt(s.watch, Apply(s, l).watch, w.fd, Direction(w.kind));
    }
  }

  /** A constructor leaves its awaiter standing. */
  lemma StartsStanding(s: Loop, l: Label)
    requires l.Start? && Enabled(s, l) && l.kind != Sleep
    ensures l.a in Apply(s, l).aws && Standing(Apply(s, l), l.a)
  {
    WaitKeepsOthers(s.watch, l.fd, Direction(l.kind), l.a);
  }

  lemma TakenStanding(s: Loop, v: Interest, fd: nat, ev: Ev, a: nat)
    requires fd in s.watch && v == WaiterSpec(s.watch, fd, ev, None) && a in s.aws && s.aws[a].kind != Sleep
    requires WaiterAt(s.watch, fd, ev) != Some(a)
    ensures Standing(s.(watch := v), a) <==> Standing(s, a)
  {
    WaiterKeepsOthers(s.watch, fd, ev, None);
    var w := s.aws[a];
    assert fd != w.fd || ev != Direction(w.kind) ==> SameAt(s.watch, v, w.fd, Direction(w.kind));
  }

  lemma CancelStanding(s: Loop, v: Interest, fd: nat, evs: set<Ev>, a: nat)
    requires WellWatched(s.watch) && v == CancelSpec(s.watch, fd, evs) && a in s.aws && s.aws[a].kind != Sleep
    ensures Standing(s.(watch := v), a) <==> Standing(s, a) && !(fd == s.aws[a].fd && Direction(s.aws[a].kind) in evs)
  {
    CancelStopsExactly(s.watch, fd, evs);
    var w := s.aws[a];
    assert fd != w.fd || Direction(w.kind) !in evs ==> SameAt(s.watch, v, w.fd, Direction(w.kind));
  }

  lemma ErrorStanding(s: Loop, l: Label, a: nat)
    requires Inv(s) && l.ErrorEvent? && Enabled(s, l) && a in s.aws && s.aws[a].kind != Sleep
    requires a in Apply(s, l).aws && Apply(s, l).aws[a].suspended
    ensures Standing(Apply(s, l), a) <==> Standing(s, a)
  {
    ErrorEventKeeps(s, l);
    var b := WaiterAt(s.watch, l.fd, l.ev).value;
    OnlyAtHome(s, l.fd, l.ev, b);
    TakenOut(s, l.fd, l.ev, b);
    var s1 := s.(watch := WaiterSpec(s.watch, l.fd, l.ev, None));
    TakenStanding(s, s1.watch, l.fd, l.ev, a);
    if s.aws[b].kind == Connect {
      CancelStanding(s1, CancelSpec(s1.watch, s.aws[b].fd, {Out}), s.aws[b].fd, {Out}, a);
    }
  }

  lemma TimeoutStanding(s: Loop, l: Label, a: nat)
    requires Inv(s) && l.TimerEvent? && Enabled(s, l) && !Apply(s, l).dead && a in s.aws && s.aws[a].kind != Sleep
    requires a in Apply(s, l).aws && Apply(s, l).aws[a].suspended
    ensures Standing(Apply(s, l), a) <==> Standing(s, a) && !Displaces(s, l, a)
  {
    TimerEventKeeps(s, l);
    var b := s.timers[l.id];
    var u := s.aws[b];
    if u.kind != Sleep {
      CancelStanding(s, CancelSpec(s.watch, u.fd, {Direction(u.kind)}), u.fd, {Direction(u.kind)}, a);
    }
  }

  /** An awaiter that stays suspended stands after a step exactly if it stood before and the step did not
      displace it. */
  lemma StandingStep(s: Loop, l: Label, a: nat)
    requires Inv(s) && Enabled(s, l) && !Apply(s, l).dead && a in s.aws && s.aws[a].kind != Sleep
    requires a in Apply(s, l).aws && Apply(s, l).aws[a].suspended
    ensures Standing(Apply(s, l), a) <==> Standing(s, a) && !Displaces(s, l, a)
  {
    match l {
      case Start(_, _, _, _, _) => StartStanding(s, l, a);
      case FileEvent(fd, ev, again) =>
        FileEventKeeps(s, l);
        if !again || s.aws[WaiterAt(s.watch, fd, ev).value].kind == Connect {
          TakenStanding(s, WaiterSpec(s.watch, fd, ev, None), fd, ev, a);
        }
      case ErrorEvent(_, _) => ErrorStanding(s, l, a);
      case TimerEvent(_) => TimeoutStanding(s, l, a);
      case End(_) =>
      case CancelFd(fd, evs) => CancelStanding(s, CancelSpec(s.watch, fd, evs), fd, evs, a);
    }
  }

  // ------------------------------------------------------------------ whole runs

  /** Some step since the start of `a` displaced it. */
  ghost predicate Displaced(states: seq<Loop>, labels: seq<Label>, a: nat)
    requires |states| == |labels| + 1
  {
    exists i :: 0 <= i < |labels| && a in states[i].aws && Displaces(states[i], labels[i], a)
  }

  lemma DisplacedOn(states: seq<Loop>, labels: seq<Label>, a: nat)
    requires |states| == |labels| + 1 && labels != []
    ensures var n := |labels| - 1;
            Displaced(states, labels, a)
            <==> || Displaced(states[..n + 1], labels[..n], a)
                 || (a in states[n].aws && Displaces(states[n], labels[n], a))
  {
    var n := |labels| - 1;
    var states', labels' := states[..n + 1], labels[..n];
    assert forall i :: 0 <= i < n ==> states'[i] == states[i] && labels'[i] == labels[i];
    if i :| 0 <= i < n && a in states'[i].aws && Displaces(states'[i], labels'[i], a) {
      assert a in states[i].aws && Displaces(states[i], labels[i], a);
    }
    if i :| 0 <= i < n && a in states[i].aws && Displaces(states[i], labels[i], a) {
      assert a in states'[i].aws && Displaces(states'[i], labels'[i], a);
    }
  }

  /** Awaiters are never forgotten, so one that is started was not there before. */
  lemma {:induction false} NotBefore(states: seq<Loop>, labels: seq<Label>, a: nat)
    requires IsRun(states, labels) && a !in states[|labels|].aws
    ensures !Displaced(states, labels, a)
    decreases |labels|
  {
    if labels != [] {
      var n := |labels| - 1;
      KeepsAwaiters(states[n], labels[n], a);
      NotBefore(states[..n + 1], labels[..n], a);
      DisplacedOn(states, labels, a);
    }
  }

  lemma KeepsAwaiters(s: Loop, l: Label, a: nat)
    requires Enabled(s, l)
    ensures a in s.aws ==> a in Apply(s, l).aws
  {
  }

  /** Over every run: a suspended awaiter of a descriptor stands in its slot if and only if nothing has
      displaced it since its start. */
  lemma {:induction false} StandingIff(states: seq<Loop>, labels: seq<Label>, a: nat)
    requires IsRun(states, labels) && !states[|labels|].dead
    requires a in states[|labels|].aws && states[|labels|].aws[a].suspended && states[|labels|].aws[a].kind != Sleep
    ensures Standing(states[|labels|], a) <==> !Displaced(states, labels, a)
    decreases |labels|
  {
    if labels != [] {
      var n := |labels| - 1;
      var s, l := states[n], labels[n];
      assert Enabled(s, l);
      RunInv(states[..n + 1], labels[..n]);
      DisplacedOn(states, labels, a);
      StartedAs(s, l, a);
      if a in s.aws {
        StillSuspended(s, l, a);
        StandingIff(states[..n + 1], labels[..n], a);
        StandingStep(s, l, a);
      } else {
        StartsStanding(s, l);
        NotBefore(states[..n + 1], labels[..n], a);
      }
    }
  }

  /** Nobody is suspended again. */
  lemma StillSuspended(s: Loop, l: Label, a: nat)
    requires Enabled(s, l) && !Apply(s, l).dead && a in s.aws && a in Apply(s, l).aws && Apply(s, l).aws[a].suspended
    ensures s.aws[a].suspended
  {
  }

  /** Some event makes the loop resume `a` next. */
  ghost predicate CanResume(s: Loop, a: nat) {
    exists l :: ResumedBy(s, l, a)
  }

  ghost predicate ResumedBy(s: Loop, l: Label, a: nat) {
    && (l.FileEvent? || l.ErrorEvent? || l.TimerEvent?) && Enabled(s, l)
    && !Apply(s, l).dead && Resumes(s, Apply(s, l), a)
  }

  lemma StandingResumes(s: Loop, a: nat)
    requires Inv(s) && !s.dead && a in s.aws && s.aws[a].suspended && Standing(s, a)
    ensures CanResume(s, a)
  {
    var l := FileEvent(s.aws[a].fd, Direction(s.aws[a].kind), false);
    FileEventKeeps(s, l);
    assert ResumedBy(s, l, a);
  }

  lemma TimerResumes(s: Loop, a: nat)
    requires Inv(s) && !s.dead && a in s.aws && s.aws[a].suspended && s.aws[a].regs != []
    ensures CanResume(s, a)
  {
    assert AwaiterOk(s, a);
    var l := TimerEvent(s.aws[a].regs[0]);
    TimerEventKeeps(s, l);
    assert ResumedBy(s, l, a);
  }

  /** Only the slot and the timers of an awaiter can resume it. */
  lemma ResumedHow(s: Loop, l: Label, a: nat)
    requires Inv(s) && ResumedBy(s, l, a)
    ensures Standing(s, a) || s.aws[a].regs != []
  {
    match l {
      case FileEvent(fd, ev, _) =>
        FileEventKeeps(s, l);
        OnlyAtHome(s, fd, ev, WaiterAt(s.watch, fd, ev).value);
      case ErrorEvent(fd, ev) =>
        ErrorEventKeeps(s, l);
        OnlyAtHome(s, fd, ev, WaiterAt(s.watch, fd, ev).value);
      case TimerEvent(id) =>
        TimerEventKeeps(s, l);
        assert TimerOk(s, id);
    }
  }

  /** Main result: over every run, a suspended awaiter can be resumed by the next event if and only if it
      has a timer, or waits on a descriptor and nothing has displaced it.  In particular a receiver that
      met EAGAIN any number of times can always be resumed, unless the program took its slot away. */
  lemma CanResumeIff(states: seq<Loop>, labels: seq<Label>, a: nat)
    requires IsRun(states, labels) && !states[|labels|].dead
    requires a in states[|labels|].aws && states[|labels|].aws[a].suspended
    ensures var s := states[|labels|];
            (CanResume(s, a) <==> s.aws[a].regs != [] || (s.aws[a].kind != Sleep && !Displaced(states, labels, a)))
  {
    var s := states[|labels|];
    RunInv(states, labels);
    if s.aws[a].kind != Sleep {
      StandingIff(states, labels, a);
      if Standing(s, a) {
        StandingResumes(s, a);
      }
    }
    if s.aws[a].regs != [] {
      TimerResumes(s, a);
    }
    if CanResume(s, a) {
      var l :| ResumedBy(s, l, a);
      ResumedHow(s, l, a);
    }
  }

  /** An awaiter keeps the kind and the number of timers it was started with. */
  lemma {:induction false} StartedWith(states: seq<Loop>, labels: seq<Label>, a: nat, i: nat)
    requires IsRun(states, labels) && i < |labels| && labels[i].Start? && labels[i].a == a
    ensures a in states[|labels|].aws
    ensures states[|labels|].aws[a].kind == labels[i].kind && |states[|labels|].aws[a].regs| == labels[i].regs
    decreases |labels|
  {
    var n := |labels| - 1;
    assert Enabled(states[n], labels[n]);
    if i < n {
      StartedWith(states[..n + 1], labels[..n], a, i);
      NoneVanishes(states[n], labels[n], a);
    }
    StartedAs(states[n], labels[n], a);
  }

  lemma NoneVanishes(s: Loop, l: Label, a: nat)
    requires Enabled(s, l) && a in s.aws
    ensures a in Apply(s, l).aws
  {
  }

  /** A sleeper wakes exactly if its duration was positive: `co_await timeout(0)` suspends and nothing is
      registered that could resume it. */
  lemma SleeperWakesIff(states: seq<Loop>, labels: seq<Label>, a: nat, i: nat)
    requires IsRun(states, labels) && i < |labels| && labels[i].Start? && labels[i].a == a && labels[i].kind == Sleep
    requires !states[|labels|].dead && a in states[|labels|].aws && states[|labels|].aws[a].suspended
    ensures CanResume(states[|labels|], a) <==> labels[i].regs > 0
  {
    StartedWith(states, labels, a, i);
    CanResumeIff(states, labels, a);
  }

  /** A receiver without timeout whose direction the program cancels waits for ever. */
  lemma CancelledReceiverIsStranded()
    ensures exists states: seq<Loop>, labels: seq<Label> ::
              && IsRun(states, labels) && !states[|labels|].dead
              && 0 in states[|labels|].aws && states[|labels|].aws[0].suspended && !CanResume(states[|labels|], 0)
  {
    var l0, l1 := Start(0, RecvLazy, 5, 0, false), CancelFd(5, {In});
    var s1 := Apply(Idle, l0);
    var s2 := Apply(s1, l1);
    var states, labels := [Idle, s1, s2], [l0, l1];
    assert IsRun(states, labels);
    assert s2.aws[0].regs == [] && s2.aws[0].suspended;
    assert Displaces(states[1], labels[1], 0);
    CanResumeIff(states, labels, 0);
  }

  // ------------------------------------------------------------------ what the kernel watches

  /** The step starts to wait for `ev` on `fd`. */
  predicate Begins(l: Label, fd: nat, ev: Ev) {
    l.Start? && l.kind != Sleep && l.fd == fd && Direction(l.kind) == ev
  }

  /** The step stops watching `ev` on `fd`: the program cancels it, an error meets a connect that waits
      there, or the timeout of an awaiter of that direction. */
  predicate Stops(s: Loop, l: Label, fd: nat, ev: Ev) {
    match l
    case CancelFd(fd', evs) => fd' == fd && ev in evs
    case ErrorEvent(fd', ev') =>
      var f := WaiterAt(s.watch, fd', ev');
      f.Some? && f.value in s.aws && s.aws[f.value].kind == Connect && fd' == fd && ev == Out
    case TimerEvent(id) =>
      && id in s.timers && s.timers[id] in s.aws
      && var w := s.aws[s.timers[id]]; w.suspended && w.kind != Sleep && w.fd == fd && Direction(w.kind) == ev
    case _ => false
  }

  lemma TimeoutInterest(s: Loop, l: Label, fd: nat, ev: Ev)
    requires Inv(s) && l.TimerEvent? && Enabled(s, l)
    ensures Watched(Apply(s, l).watch, fd, ev) <==> Watched(s.watch, fd, ev) && !Stops(s, l, fd, ev)
  {
    assert TimerOk(s, l.id);
    var w := s.aws[s.timers[l.id]];
    CancelStopsExactly(s.watch, w.fd, {Direction(w.kind)});
    assert SameAt(s.watch, CancelSpec(s.watch, w.fd, {Direction(w.kind)}), fd, ev)
        || (fd == w.fd && ev == Direction(w.kind));
  }

  lemma EventInterest(s: Loop, l: Label, fd: nat, ev: Ev)
    requires Inv(s) && (l.FileEvent? || l.ErrorEvent?) && Enabled(s, l)
    ensures Watched(Apply(s, l).watch, fd, ev) <==> Watched(s.watch, fd, ev) && !Stops(s, l, fd, ev)
  {
    var a := Waiter(s.watch[l.fd], l.ev).value;
    OnlyAtHome(s, l.fd, l.ev, a);
    TakenOut(s, l.fd, l.ev, a);
    var v := WaiterSpec(s.watch, l.fd, l.ev, None);
    WaiterKeepsOthers(s.watch, l.fd, l.ev, None);
    assert Watched(v, fd, ev) <==> Watched(s.watch, fd, ev) by {
      assert fd != l.fd || ev != l.ev ==> SameAt(s.watch, v, fd, ev);
    }
    if l.ErrorEvent? && s.aws[a].kind == Connect {
      CancelStopsExactly(v, l.fd, {Out});
      assert fd != l.fd || ev !in {Out} ==> SameAt(v, CancelSpec(v, l.fd, {Out}), fd, ev);
    }
  }

  lemma InterestStep(s: Loop, l: Label, fd: nat, ev: Ev)
    requires Inv(s) && Enabled(s, l)
    ensures Watched(Apply(s, l).watch, fd, ev)
       <==> Begins(l, fd, ev) || (Watched(s.watch, fd, ev) && !Stops(s, l, fd, ev))
  {
    match l {
      case Start(a, kind, f, _, _) =>
        if kind != Sleep {
          WaitKeepsOthers(s.watch, f, Direction(kind), a);
          assert !Begins(l, fd, ev) ==> SameAt(s.watch, Apply(s, l).watch, fd, ev);
        }
      case FileEvent(_, _, _) => EventInterest(s, l, fd, ev);
      case ErrorEvent(_, _) => EventInterest(s, l, fd, ev);
      case TimerEvent(_) => TimeoutInterest(s, l, fd, ev);
      case CancelFd(f, evs) =>
        CancelStopsExactly(s.watch, f, evs);
        assert fd != f || ev !in evs ==> SameAt(s.watch, CancelSpec(s.watch, f, evs), fd, ev);
      case End(_) =>
    }
  }

  /** The wait that began at `i` was never stopped. */
  ghost predicate BegunAndKept(states: seq<Loop>, labels: seq<Label>, fd: nat, ev: Ev, i: nat)
    requires |states| == |labels| + 1
  {
    && i < |labels| && Begins(labels[i], fd, ev)
    && forall j :: i < j < |labels| ==> !Stops(states[j], labels[j], fd, ev)
  }

  ghost predicate SomeoneBegan(states: seq<Loop>, labels: seq<Label>, fd: nat, ev: Ev)
    requires |states| == |labels| + 1
  {
    exists i: nat :: BegunAndKept(states, labels, fd, ev, i)
  }

  lemma BegunOn(states: seq<Loop>, labels: seq<Label>, fd: nat, ev: Ev)
    requires |states| == |labels| + 1 && labels != []
    ensures var n := |labels| - 1;
            SomeoneBegan(states, labels, fd, ev)
            <==> || Begins(labels[n], fd, ev)
                 || (!Stops(states[n], labels[n], fd, ev) && SomeoneBegan(states[..n + 1], labels[..n], fd, ev))
  {
    var n := |labels| - 1;
    var states', labels' := states[..n + 1], labels[..n];
    if Begins(labels[n], fd, ev) {
      assert BegunAndKept(states, labels, fd, ev, n);
    }
    if i: nat :| BegunAndKept(states, labels, fd, ev, i) {
      assert i < n ==> BegunAndKept(states', labels', fd, ev, i);
    }
    if !Stops(states[n], labels[n], fd, ev) {
      if i: nat :| BegunAndKept(states', labels', fd, ev, i) {
        forall j | i < j < |labels|
          ensures !Stops(states[j], labels[j], fd, ev)
        {
          assert j < n ==> states'[j] == states[j] && labels'[j] == labels[j];
        }
        assert BegunAndKept(states, labels, fd, ev, i);
      }
    }
  }

  /** Over every run the kernel watches a direction exactly if some awaiter began to wait there and nothing has
      stopped it since.  That an awaiter was resumed by its descriptor does not: the descriptor stays watched
      when nobody waits. */
  lemma {:induction false} WatchedIff(states: seq<Loop>, labels: seq<Label>, fd: nat, ev: Ev)
    requires IsRun(states, labels)
    ensures Watched(states[|labels|].watch, fd, ev) <==> SomeoneBegan(states, labels, fd, ev)
    decreases |labels|
  {
    if labels != [] {
      var n := |labels| - 1;
      WatchedIff(states[..n + 1], labels[..n], fd, ev);
      RunInv(states[..n + 1], labels[..n]);
      InterestStep(states[n], labels[n], fd, ev);
      BegunOn(states, labels, fd, ev);
    }
  }
}
