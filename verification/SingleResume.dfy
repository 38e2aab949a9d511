/** Awaiters, the descriptor table and the timers together: who may call an awaiter, and when.

    An awaiter's constructor registers it with the loop and the coroutine is suspended on it.  If it is
    a temporary of the `co_await` expression, the call that resumes the coroutine also ends its life,
    because the resumed expression destroys it at once; if it is a named variable, it lives on until
    the end of its scope, with its timers.  The machine records any call on an awaiter that is gone or
    has been resumed already. */
module SingleResume {
  import opened Common
  import opened FdTable

  datatype Kind = Connect | RecvLazy | RecvRequest | SendLazy | Sleep

  function Direction(k: Kind): Ev {
    if k == RecvLazy || k == RecvRequest then In else Out
  }

  /** `timerId` is the field the destructor looks at; `regs` are the timers registered for it; `named`
      tells variables from temporaries; `byTimer` says that a timer resumed it. */
  datatype Awaiter = Awaiter(kind: Kind, fd: nat, timerId: int, regs: seq<int>, named: bool,
                             suspended: bool, alive: bool, byTimer: bool, resumes: nat)

  /** `timers` maps the ids of pending timers to the awaiters they call; `dead` says that an awaiter
      was called after it had been resumed. */
  datatype Loop = Loop(watch: Interest, timers: map<int, nat>, lastId: int, aws: map<nat, Awaiter>, dead: bool)

  const Idle := Loop(map[], map[], 0, map[], false)

  // ------------------------------------------------------------------ steps

  datatype Label =
    | Start(a: nat, kind: Kind, fd: nat, regs: nat, named: bool)   // construct, register, suspend
    | FileEvent(fd: nat, ev: Ev, again: bool)   // ready; `again` if the handler met EAGAIN
    | ErrorEvent(fd: nat, ev: Ev)               // error or hang-up
    | TimerEvent(id: int)
    | End(a: nat)                               // a named awaiter goes out of scope
    | CancelFd(fd: nat, evs: set<Ev>)           // the program stops watching

  /** Timers a constructor registers: none without a positive timeout, else one; `send_lazy` as written
      registers a second one in its own constructor. */
  predicate RegsAsWritten(kind: Kind, regs: nat) {
    if kind == SendLazy then regs == 0 || regs == 2 else regs <= 1
  }

  /** The same with a single registration in `send_lazy`. */
  predicate RegsIntended(regs: nat) {
    regs <= 1
  }

  predicate Enabled(s: Loop, l: Label) {
    && !s.dead
    && match l
       case Start(a, kind, fd, regs, _) => a !in s.aws && (RegsAsWritten(kind, regs) || RegsIntended(regs))
       case FileEvent(fd, ev, _) => fd in s.watch && Waiter(s.watch[fd], ev).Some?
       case ErrorEvent(fd, ev) => fd in s.watch && Waiter(s.watch[fd], ev).Some?
       case TimerEvent(id) => id in s.timers
       case End(a) => a in s.aws && !s.aws[a].suspended && s.aws[a].alive
       case CancelFd(_, evs) => evs != {}
  }

  function AddTimers(s: Loop, a: nat, n: nat): Loop
    requires n <= 2
  {
    var t1 := if n >= 1 then s.timers[s.lastId + 1 := a] else s.timers;
    var t2 := if n == 2 then t1[s.lastId + 2 := a] else t1;
    s.(timers := t2, lastId := s.lastId + n)
  }

  /** The destructor cancels `timerId` if positive. */
  function Destruct(s: Loop, a: nat): Loop
    requires a in s.aws
  {
    var w := s.aws[a];
    s.(aws := s.aws[a := w.(alive := false)],
       timers := if w.timerId > 0 then s.timers - {w.timerId} else s.timers)
  }

  /** Resumption: the coroutine goes on, and a temporary is destroyed at once. */
  function Resume(s: Loop, a: nat, byTimer: bool): Loop
    requires a in s.aws
  {
    var w := s.aws[a];
    var s1 := s.(aws := s.aws[a := w.(suspended := false, byTimer := byTimer, resumes := w.resumes + 1)]);
    if w.named then s1 else Destruct(s1, a)
  }

  function Apply(s: Loop, l: Label): Loop
    requires Enabled(s, l)
  {
    match l
    case Start(a, kind, fd, regs, named) =>
      var ids := seq(regs, i requires i >= 0 => s.lastId + 1 + i);
      var s1 := AddTimers(s, a, regs);
      var w := Awaiter(kind, fd, if regs == 0 then -1 else s.lastId + regs, ids, named, true, true, false, 0);
      var s2 := s1.(aws := s1.aws[a := w]);
      if kind == Sleep then s2 else s2.(watch := WaitSpec(s2.watch, fd, Direction(kind), a))
    case FileEvent(fd, ev, again) =>
      var a := Waiter(s.watch[fd], ev).value;
      var s1 := s.(watch := WaiterSpec(s.watch, fd, ev, None));
      if a !in s.aws || !s.aws[a].suspended then s1.(dead := true)
      else if again && s.aws[a].kind != Connect then s1.(watch := WaiterSpec(s1.watch, fd, ev, Some(a)))
      else Resume(s1, a, false)
    case ErrorEvent(fd, ev) =>
      var a := Waiter(s.watch[fd], ev).value;
      var s1 := s.(watch := WaiterSpec(s.watch, fd, ev, None));
      if a !in s.aws || !s.aws[a].suspended then s1.(dead := true)
      else if s.aws[a].kind == Connect then Resume(s1.(watch := CancelSpec(s1.watch, s.aws[a].fd, {Out})), a, false)
      else Resume(s1, a, false)
    case TimerEvent(id) =>
      var a := s.timers[id];
      var s1 := s.(timers := s.timers - {id});
      if a !in s.aws || !s.aws[a].suspended then s1.(dead := true)
      else
        var w := s.aws[a];
        // the receiving awaiters leave `_timer_id` alone, the others clear it
        var w' := if Direction(w.kind) == In then w else w.(timerId := 0);
        var s2 := s1.(aws := s1.aws[a := w']);
        Resume(if w.kind == Sleep then s2 else s2.(watch := CancelSpec(s2.watch, w.fd, {Direction(w.kind)})), a, true)
    case End(a) => Destruct(s, a)
    case CancelFd(fd, evs) => s.(watch := CancelSpec(s.watch, fd, evs))
  }

  // ------------------------------------------------------------------ the invariant

  /** A waiter in the table is a suspended awaiter of that descriptor and direction. */
  predicate WaiterOk(s: Loop, fd: nat, ev: Ev)
    requires fd in s.watch
  {
    var f := Waiter(s.watch[fd], ev);
    f.Some? ==>
      && f.value in s.aws && s.aws[f.value].suspended
      && s.aws[f.value].kind != Sleep && s.aws[f.value].fd == fd && Direction(s.aws[f.value].kind) == ev
  }

  /** A pending timer was registered for the awaiter it calls. */
  predicate TimerOk(s: Loop, id: int)
    requires id in s.timers
  {
    s.timers[id] in s.aws && id in s.aws[s.timers[id]].regs
  }

  /** A suspended awaiter has all its timers pending and was not resumed.  One that was resumed by its
      descriptor and lives on has all of them pending still; otherwise a timer is left exactly if two
      were registered. */
  predicate AwaiterOk(s: Loop, a: nat)
    requires a in s.aws
  {
    var w := s.aws[a];
    && |w.regs| <= 2
    && (forall i :: 0 <= i < |w.regs| ==> 1 <= w.regs[i] <= s.lastId)
    && (|w.regs| == 2 ==> w.kind == SendLazy && w.regs[0] != w.regs[1])
    && (forall i :: 0 <= i < |w.regs| && w.regs[i] in s.timers ==> s.timers[w.regs[i]] == a)
    && (w.suspended ==> w.alive && !w.byTimer && w.resumes == 0)
    && (w.alive && !w.byTimer ==>
          && w.timerId == (if w.regs == [] then -1 else w.regs[|w.regs| - 1])
          && forall i :: 0 <= i < |w.regs| ==> w.regs[i] in s.timers)
    && (!w.suspended ==> w.resumes == 1 && (w.alive ==> w.named) && (w.kind == Sleep ==> w.byTimer))
    && (w.alive && w.byTimer ==> (w.timerId == 0 || |w.regs| <= 1) && (w.timerId > 0 ==> w.timerId in w.regs))
    && (!w.alive || w.byTimer ==>
          && (|w.regs| <= 1 ==> forall i :: 0 <= i < |w.regs| ==> w.regs[i] !in s.timers)
          && (|w.regs| == 2 ==> (w.regs[0] in s.timers <==> w.regs[1] !in s.timers)))
  }

  /** The awaiter is over, or has at least been resumed, and a timer will still call it. */
  predicate Haunted(w: Awaiter) {
    !w.suspended && (|w.regs| == 2 || (w.alive && !w.byTimer && w.regs != []))
  }

  ghost predicate Inv(s: Loop) {
    && WellWatched(s.watch) && s.lastId >= 0
    && (forall fd, ev {:trigger WaiterOk(s, fd, ev)} :: fd in s.watch ==> WaiterOk(s, fd, ev))
    && (forall id {:trigger TimerOk(s, id)} :: id in s.timers ==> TimerOk(s, id))
    && (forall a {:trigger AwaiterOk(s, a)} :: a in s.aws ==> AwaiterOk(s, a))
  }

  // ------------------------------------------------------------------ steps keep it

  /** `v'` has no waiters that `v` had not, and none of them is `a`. */
  ghost predicate Fewer(v: Interest, v': Interest, a: nat) {
    forall fd, ev {:trigger KeptFrom(v, v', a, fd, ev)} :: KeptFrom(v, v', a, fd, ev)
  }

  predicate KeptFrom(v: Interest, v': Interest, a: nat, fd: nat, ev: Ev) {
    fd in v' && Waiter(v'[fd], ev).Some? ==>
      fd in v && Waiter(v[fd], ev) == Waiter(v'[fd], ev) && Waiter(v'[fd], ev).value != a
  }

  /** A suspended awaiter stands at most at its own descriptor and direction. */
  lemma OnlyAtHome(s: Loop, fd: nat, ev: Ev, a: nat)
    requires Inv(s) && fd in s.watch && Waiter(s.watch[fd], ev) == Some(a)
    ensures a in s.aws && s.aws[a].suspended && s.aws[a].kind != Sleep
    ensures s.aws[a].fd == fd && Direction(s.aws[a].kind) == ev
  {
    assert WaiterOk(s, fd, ev);
  }

  lemma TakenOut(s: Loop, fd: nat, ev: Ev, a: nat)
    requires Inv(s) && fd in s.watch && Waiter(s.watch[fd], ev) == Some(a)
    ensures Fewer(s.watch, WaiterSpec(s.watch, fd, ev, None), a) && WellWatched(WaiterSpec(s.watch, fd, ev, None))
  {
    var v' := WaiterSpec(s.watch, fd, ev, None);
    OnlyAtHome(s, fd, ev, a);
    forall fd', ev'
      ensures KeptFrom(s.watch, v', a, fd', ev')
    {
      if fd' in v' && Waiter(v'[fd'], ev').Some? && Waiter(v'[fd'], ev').value == a {
        OnlyAtHome(s, fd', ev', a);
      }
    }
  }

  /** Cancelling an awaiter's own direction leaves no reference to it. */
  lemma CancelledOut(s: Loop, v: Interest, a: nat)
    requires Inv(s) && a in s.aws && WellWatched(v)
    requires v == s.watch || Fewer(s.watch, v, a)
    ensures var v' := CancelSpec(v, s.aws[a].fd, {Direction(s.aws[a].kind)});
            Fewer(s.watch, v', a) && WellWatched(v')
  {
    var fd0, ev0 := s.aws[a].fd, Direction(s.aws[a].kind);
    var v' := CancelSpec(v, fd0, {ev0});
    forall fd, ev
      ensures KeptFrom(s.watch, v', a, fd, ev)
    {
      assert v != s.watch ==> KeptFrom(s.watch, v, a, fd, ev);
      if fd in v' && Waiter(v'[fd], ev).Some? {
        assert fd in v && Waiter(v[fd], ev) == Waiter(v'[fd], ev);
        if v == s.watch && Waiter(v[fd], ev).value == a {
          OnlyAtHome(s, fd, ev, a);
        }
      }
    }
  }

  /** The common part of every resumption and destruction: the table no longer refers to `a`, of the
      timers only its own may be gone, and nothing else changed. */
  lemma ChangeKeeps(s: Loop, s': Loop, a: nat)
    requires Inv(s) && a in s.aws
    requires a in s'.aws && s'.aws == s.aws[a := s'.aws[a]] && s'.aws[a].regs == s.aws[a].regs && s'.lastId == s.lastId
    requires forall id :: id in s'.timers ==> id in s.timers && s'.timers[id] == s.timers[id]
    requires forall id :: id in s.timers && id !in s.aws[a].regs ==> id in s'.timers
    requires WellWatched(s'.watch) && Fewer(s.watch, s'.watch, a) && AwaiterOk(s', a)
    ensures Inv(s')
  {
    assert AwaiterOk(s, a);
    forall fd, ev | fd in s'.watch
      ensures WaiterOk(s', fd, ev)
    {
      assert KeptFrom(s.watch, s'.watch, a, fd, ev);
      if Waiter(s'.watch[fd], ev).Some? {
        assert WaiterOk(s, fd, ev);
      }
    }
    forall id | id in s'.timers
      ensures TimerOk(s', id)
    {
      assert TimerOk(s, id);
    }
    forall b | b in s'.aws
      ensures AwaiterOk(s', b)
    {
      assert AwaiterOk(s, b);
      if b != a {
        OthersTimers(s, s', a, b);
      }
    }
  }

  /** Timers of another awaiter are pending before and after alike. */
  lemma OthersTimers(s: Loop, s': Loop, a: nat, b: nat)
    requires Inv(s) && a in s.aws && b in s.aws && a != b && AwaiterOk(s, a) && AwaiterOk(s, b)
    requires forall id :: id in s'.timers ==> id in s.timers
    requires forall id :: id in s.timers && id !in s.aws[a].regs ==> id in s'.timers
    ensures forall i :: 0 <= i < |s.aws[b].regs| ==> (s.aws[b].regs[i] in s'.timers <==> s.aws[b].regs[i] in s.timers)
  {
  }

  /** Ids of pending timers have been handed out already. */
  lemma PendingIds(s: Loop, id: int)
    requires Inv(s) && id in s.timers
    ensures 1 <= id <= s.lastId
  {
    assert TimerOk(s, id);
    assert AwaiterOk(s, s.timers[id]);
  }

  lemma StartWaiters(s: Loop, l: Label)
    requires Inv(s) && l.Start? && Enabled(s, l)
    ensures var s' := Apply(s, l); WellWatched(s'.watch) && forall fd, ev :: fd in s'.watch ==> WaiterOk(s', fd, ev)
  {
    var s' := Apply(s, l);
    forall fd, ev | fd in s'.watch
      ensures WaiterOk(s', fd, ev)
    {
      if fd in s.watch {
        assert WaiterOk(s, fd, ev);
      }
    }
  }

  lemma StartTimers(s: Loop, l: Label)
    requires Inv(s) && l.Start? && Enabled(s, l)
    ensures var s' := Apply(s, l); forall id :: id in s'.timers ==> TimerOk(s', id)
  {
    var s' := Apply(s, l);
    forall id | id in s'.timers
      ensures TimerOk(s', id)
    {
      if id in s.timers {
        PendingIds(s, id);
        assert TimerOk(s, id);
      } else {
        assert s'.aws[l.a].regs[id - s.lastId - 1] == id;
      }
    }
  }

  lemma NewTimers(s: Loop, a: nat, n: nat)
    requires n <= 2
    ensures var t := AddTimers(s, a, n).timers;
            && (forall id :: id <= s.lastId ==> (id in t <==> id in s.timers) && (id in t ==> t[id] == s.timers[id]))
            && (forall id :: s.lastId < id <= s.lastId + n ==> id in t && t[id] == a)
  {
  }

  lemma StartOthers(s: Loop, s': Loop, b: nat)
    requires b in s.aws && b in s'.aws && s'.aws[b] == s.aws[b] && AwaiterOk(s, b) && s.lastId <= s'.lastId
    requires forall id :: id <= s.lastId ==>
               (id in s'.timers <==> id in s.timers) && (id in s'.timers ==> s'.timers[id] == s.timers[id])
    ensures AwaiterOk(s', b)
  {
  }

  lemma StartAwaiters(s: Loop, l: Label, b: nat)
    requires Inv(s) && l.Start? && Enabled(s, l) && b in Apply(s, l).aws
    ensures AwaiterOk(Apply(s, l), b)
  {
    NewTimers(s, l.a, l.regs);
    if b != l.a {
      assert AwaiterOk(s, b);
      StartOthers(s, Apply(s, l), b);
    }
  }

  lemma StartKeeps(s: Loop, l: Label)
    requires Inv(s) && l.Start? && Enabled(s, l)
    ensures Inv(Apply(s, l))
  {
    var s' := Apply(s, l);
    StartWaiters(s, l);
    StartTimers(s, l);
    forall b | b in s'.aws
      ensures AwaiterOk(s', b)
    {
      StartAwaiters(s, l, b);
    }
  }

  /** The step resumes the suspended awaiter `a` and leaves all others as they were. */
  ghost predicate Resumes(s: Loop, s': Loop, a: nat) {
    && a in s.aws && s.aws[a].suspended && s'.aws.Keys == s.aws.Keys
    && !s'.aws[a].suspended && s'.aws[a].resumes == s.aws[a].resumes + 1
    && forall b :: b in s.aws && b != a ==> s'.aws[b] == s.aws[b]
  }

  /** A ready event calls the waiter of that direction: it is resumed, or, if it met EAGAIN, it is back in
      its slot and nothing has changed. */
  lemma FileEventKeeps(s: Loop, l: Label)
    requires Inv(s) && l.FileEvent? && Enabled(s, l)
    ensures Inv(Apply(s, l)) && !Apply(s, l).dead
    ensures var a := WaiterAt(s.watch, l.fd, l.ev).value;
            a in s.aws && if l.again && s.aws[a].kind != Connect then Apply(s, l) == s else Resumes(s, Apply(s, l), a)
  {
    var a := Waiter(s.watch[l.fd], l.ev).value;
    OnlyAtHome(s, l.fd, l.ev, a);
    TakenOut(s, l.fd, l.ev, a);
    var s' := Apply(s, l);
    assert AwaiterOk(s, a);
    if l.again && s.aws[a].kind != Connect {
      assert s'.watch == s.watch;
      assert s' == s;
    } else {
      ResumeKeeps(s, s.(watch := WaiterSpec(s.watch, l.fd, l.ev, None)), a);
    }
  }

  lemma ErrorEventKeeps(s: Loop, l: Label)
    requires Inv(s) && l.ErrorEvent? && Enabled(s, l)
    ensures Inv(Apply(s, l)) && !Apply(s, l).dead
    ensures Resumes(s, Apply(s, l), WaiterAt(s.watch, l.fd, l.ev).value)
  {
    var a := Waiter(s.watch[l.fd], l.ev).value;
    OnlyAtHome(s, l.fd, l.ev, a);
    TakenOut(s, l.fd, l.ev, a);
    CancelledOut(s, WaiterSpec(s.watch, l.fd, l.ev, None), a);
    var s1 := s.(watch := WaiterSpec(s.watch, l.fd, l.ev, None));
    if s.aws[a].kind == Connect {
      ResumeKeeps(s, s1.(watch := CancelSpec(s1.watch, s.aws[a].fd, {Out})), a);
    } else {
      ResumeKeeps(s, s1, a);
    }
  }

  /** Resuming an awaiter that the table no longer refers to. */
  lemma ResumeKeeps(s: Loop, s1: Loop, a: nat)
    requires Inv(s) && a in s.aws && s.aws[a].suspended && s.aws[a].kind != Sleep
    requires s1 == s.(watch := s1.watch) && WellWatched(s1.watch) && Fewer(s.watch, s1.watch, a)
    ensures Inv(Resume(s1, a, false)) && Resume(s1, a, false).dead == s.dead
    ensures Resumes(s, Resume(s1, a, false), a)
  {
    assert AwaiterOk(s, a);
    ResumeOk(s, s1, a);
    ResumeFrame(s, s1, a);
    ChangeKeeps(s, Resume(s1, a, false), a);
  }

  lemma ResumeFrame(s: Loop, s1: Loop, a: nat)
    requires a in s.aws && AwaiterOk(s, a) && s.aws[a].suspended && s1 == s.(watch := s1.watch)
    ensures var s' := Resume(s1, a, false);
            && a in s'.aws && s'.aws == s.aws[a := s'.aws[a]] && s'.aws[a].regs == s.aws[a].regs
            && s'.watch == s1.watch && s'.lastId == s.lastId && s'.dead == s.dead
            && (forall id :: id in s'.timers ==> id in s.timers && s'.timers[id] == s.timers[id])
            && (forall id :: id in s.timers && id !in s.aws[a].regs ==> id in s'.timers)
            && Resumes(s, s', a)
  {
  }

  /** Resuming an awaiter because of its descriptor leaves it in order. */
  lemma ResumeOk(s: Loop, s1: Loop, a: nat)
    requires a in s.aws && AwaiterOk(s, a) && s.aws[a].suspended && s.aws[a].kind != Sleep
    requires s1 == s.(watch := s1.watch)
    ensures AwaiterOk(Resume(s1, a, false), a)
  {
  }

  /** Resuming an awaiter because of its timer leaves it in order. */
  lemma TimeoutOk(s: Loop, s2: Loop, a: nat, id: int)
    requires a in s.aws && AwaiterOk(s, a) && s.aws[a].suspended && id in s.timers && id in s.aws[a].regs
    requires s2.lastId == s.lastId && s2.timers == s.timers - {id}
    requires a in s2.aws && s2.aws[a] == if Direction(s.aws[a].kind) == In then s.aws[a] else s.aws[a].(timerId := 0)
    ensures AwaiterOk(Resume(s2, a, true), a)
  {
  }

  lemma EndKeeps(s: Loop, l: Label)
    requires Inv(s) && l.End? && Enabled(s, l)
    ensures Inv(Apply(s, l)) && !Apply(s, l).dead
  {
    assert AwaiterOk(s, l.a);
    assert AwaiterOk(Apply(s, l), l.a);
    NotWatched(s, l.a);
    ChangeKeeps(s, Apply(s, l), l.a);
  }

  /** A timer event is safe exactly if its awaiter is still suspended; one that is not and still has a
      timer had two registered, or was resumed by its descriptor and lives on. */
  lemma TimerEventKeeps(s: Loop, l: Label)
    requires Inv(s) && l.TimerEvent? && Enabled(s, l)
    ensures s.timers[l.id] in s.aws
    ensures Apply(s, l).dead <==> !s.aws[s.timers[l.id]].suspended
    ensures Apply(s, l).dead ==> Haunted(s.aws[s.timers[l.id]])
    ensures !Apply(s, l).dead ==> Inv(Apply(s, l)) && Resumes(s, Apply(s, l), s.timers[l.id])
  {
    assert TimerOk(s, l.id);
    var a := s.timers[l.id];
    assert AwaiterOk(s, a);
    if s.aws[a].suspended {
      TimeoutKeeps(s, l, a);
    }
  }

  lemma TimeoutKeeps(s: Loop, l: Label, a: nat)
    requires Inv(s) && l.TimerEvent? && Enabled(s, l) && a == s.timers[l.id] && a in s.aws && s.aws[a].suspended
    ensures Inv(Apply(s, l)) && !Apply(s, l).dead && Resumes(s, Apply(s, l), a)
  {
    assert TimerOk(s, l.id) && AwaiterOk(s, a);
    var w := s.aws[a];
    var w' := if Direction(w.kind) == In then w else w.(timerId := 0);
    var s2 := s.(timers := s.timers - {l.id}, aws := s.aws[a := w']);
    var s3 := if w.kind == Sleep then s2 else s2.(watch := CancelSpec(s2.watch, w.fd, {Direction(w.kind)}));
    if w.kind == Sleep {
      NotWatched(s, a);
    } else {
      CancelledOut(s, s.watch, a);
    }
    TimeoutOk(s, s3, a, l.id);
    assert Apply(s, l) == Resume(s3, a, true);
    TimeoutFrame(s, s3, a, l.id);
    ChangeKeeps(s, Resume(s3, a, true), a);
  }

  lemma TimeoutFrame(s: Loop, s3: Loop, a: nat, id: int)
    requires a in s.aws && AwaiterOk(s, a) && s.aws[a].suspended && id in s.timers && id in s.aws[a].regs
    requires s3.timers == s.timers - {id} && a in s3.aws
    requires s3.aws == s.aws[a := s3.aws[a]]
    requires s3.aws[a] == if Direction(s.aws[a].kind) == In then s.aws[a] else s.aws[a].(timerId := 0)
    ensures var s' := Resume(s3, a, true);
            && a in s'.aws && s'.aws == s.aws[a := s'.aws[a]] && s'.aws[a].regs == s.aws[a].regs
            && (forall id :: id in s'.timers ==> id in s.timers && s'.timers[id] == s.timers[id])
            && (forall id :: id in s.timers && id !in s.aws[a].regs ==> id in s'.timers)
  {
  }

  lemma NotWatched(s: Loop, a: nat)
    requires Inv(s) && a in s.aws && (s.aws[a].kind == Sleep || !s.aws[a].suspended)
    ensures Fewer(s.watch, s.watch, a)
  {
    forall fd, ev
      ensures KeptFrom(s.watch, s.watch, a, fd, ev)
    {
      if fd in s.watch && Waiter(s.watch[fd], ev) == Some(a) {
        OnlyAtHome(s, fd, ev, a);
      }
    }
  }

  lemma CancelFdKeeps(s: Loop, l: Label)
    requires Inv(s) && l.CancelFd? && Enabled(s, l)
    ensures Inv(Apply(s, l))
  {
    var s' := Apply(s, l);
    forall fd, ev | fd in s'.watch
      ensures WaiterOk(s', fd, ev)
    {
      assert WaiterOk(s, fd, ev);
    }
    forall id | id in s'.timers ensures TimerOk(s', id) {
      assert TimerOk(s, id);
    }
    forall b | b in s'.aws ensures AwaiterOk(s', b) {
      assert AwaiterOk(s, b);
    }
  }

  // ------------------------------------------------------------------ whole runs

  ghost predicate IsRun(states: seq<Loop>, labels: seq<Label>) {
    && |states| == |labels| + 1
    && states[0] == Idle
    && forall i :: 0 <= i < |labels| ==> Enabled(states[i], labels[i]) && states[i + 1] == Apply(states[i], labels[i])
  }

  lemma StepKeeps(s: Loop, l: Label)
    requires Inv(s) && Enabled(s, l)
    ensures !Apply(s, l).dead ==> Inv(Apply(s, l))
    ensures Apply(s, l).dead ==> l.TimerEvent? && s.timers[l.id] in s.aws && Haunted(s.aws[s.timers[l.id]])
  {
    match l {
      case Start(_, _, _, _, _) => StartKeeps(s, l);
      case FileEvent(_, _, _) => FileEventKeeps(s, l);
      case ErrorEvent(_, _) => ErrorEventKeeps(s, l);
      case TimerEvent(_) => TimerEventKeeps(s, l);
      case End(_) => EndKeeps(s, l);
      case CancelFd(_, _) => CancelFdKeeps(s, l);
    }
  }

  lemma {:induction false} RunInv(states: seq<Loop>, labels: seq<Label>)
    requires IsRun(states, labels)
    ensures !states[|labels|].dead ==> Inv(states[|labels|])
    decreases |labels|
  {
    if labels != [] {
      var n := |labels| - 1;
      RunInv(states[..n + 1], labels[..n]);
      StepKeeps(states[n], labels[n]);
    }
  }

  /** How to start an awaiter safely: no second timer, and no timer at all on a named awaiter of a
      descriptor. */
  predicate SafeStart(kind: Kind, regs: nat, named: bool) {
    RegsIntended(regs) && (named && kind != Sleep ==> regs == 0)
  }

  ghost predicate SafelyStarted(labels: seq<Label>) {
    forall i :: 0 <= i < |labels| && labels[i].Start? ==> SafeStart(labels[i].kind, labels[i].regs, labels[i].named)
  }

  predicate SafeAwaiter(w: Awaiter) {
    |w.regs| <= 1 && (w.named && w.kind != Sleep ==> w.regs == [])
  }

  lemma {:induction false} SafeAwaiters(states: seq<Loop>, labels: seq<Label>, a: nat)
    requires IsRun(states, labels) && a in states[|labels|].aws && SafelyStarted(labels)
    ensures SafeAwaiter(states[|labels|].aws[a])
    decreases |labels|
  {
    if labels != [] {
      var n := |labels| - 1;
      StartedAs(states[n], labels[n], a);
      if a in states[n].aws {
        SafeAwaiters(states[..n + 1], labels[..n], a);
      }
    }
  }

  /** What an awaiter was started with never changes. */
  predicate SameStart(w: Awaiter, w': Awaiter) {
    w'.kind == w.kind && w'.named == w.named && w'.regs == w.regs
  }

  lemma EventSame(s: Loop, l: Label, a: nat)
    requires (l.FileEvent? || l.ErrorEvent?) && Enabled(s, l) && a in Apply(s, l).aws
    ensures a in s.aws && SameStart(s.aws[a], Apply(s, l).aws[a])
  {
  }

  lemma TimerSame(s: Loop, l: Label, a: nat)
    requires l.TimerEvent? && Enabled(s, l) && a in Apply(s, l).aws
    ensures a in s.aws && SameStart(s.aws[a], Apply(s, l).aws[a])
  {
  }

  lemma StartedAs(s: Loop, l: Label, a: nat)
    requires Enabled(s, l) && a in Apply(s, l).aws
    ensures var w' := Apply(s, l).aws[a];
            if a in s.aws then SameStart(s.aws[a], w')
            else l.Start? && w'.kind == l.kind && w'.named == l.named && |w'.regs| == l.regs
  {
    if l.FileEvent? || l.ErrorEvent? {
      EventSame(s, l, a);
    } else if l.TimerEvent? {
      TimerSame(s, l, a);
    }
  }

  /** Safe awaiters are not haunted. */
  lemma SafeIsNotHaunted(s: Loop, a: nat)
    requires a in s.aws && AwaiterOk(s, a) && SafeAwaiter(s.aws[a])
    ensures !Haunted(s.aws[a])
  {
  }

  lemma {:induction false} SafeRunIsNotDead(states: seq<Loop>, labels: seq<Label>)
    requires IsRun(states, labels) && SafelyStarted(labels)
    ensures !states[|labels|].dead
    decreases |labels|
  {
    if labels != [] {
      var n := |labels| - 1;
      var before := states[..n + 1];
      SafeRunIsNotDead(before, labels[..n]);
      RunInv(before, labels[..n]);
      StepKeeps(states[n], labels[n]);
      if states[n + 1].dead {
        var a := states[n].timers[labels[n].id];
        SafeAwaiters(before, labels[..n], a);
        assert AwaiterOk(states[n], a);
        SafeIsNotHaunted(states[n], a);
      }
    }
  }

  /** Main result: if every awaiter is started safely, then over every sequence of file, error and timer
      events no awaiter is called after it was resumed, none is resumed twice, and the table and the
      timers refer to suspended awaiters only. */
  lemma EveryAwaiterIsResumedOnce(states: seq<Loop>, labels: seq<Label>)
    requires IsRun(states, labels) && SafelyStarted(labels)
    ensures var s := states[|labels|];
            && !s.dead
            && (forall a :: a in s.aws ==> s.aws[a].resumes == if s.aws[a].suspended then 0 else 1)
            && (forall fd, ev :: fd in s.watch && Waiter(s.watch[fd], ev).Some? ==>
                  Waiter(s.watch[fd], ev).value in s.aws && s.aws[Waiter(s.watch[fd], ev).value].suspended)
            && (forall id :: id in s.timers ==> s.timers[id] in s.aws && s.aws[s.timers[id]].suspended)
  {
    var s := states[|labels|];
    SafeRunIsNotDead(states, labels);
    RunInv(states, labels);
    forall a | a in s.aws
      ensures s.aws[a].resumes == if s.aws[a].suspended then 0 else 1
    {
      assert AwaiterOk(s, a);
    }
    forall fd, ev | fd in s.watch && Waiter(s.watch[fd], ev).Some?
      ensures Waiter(s.watch[fd], ev).value in s.aws && s.aws[Waiter(s.watch[fd], ev).value].suspended
    {
      assert WaiterOk(s, fd, ev);
    }
    forall id | id in s.timers
      ensures s.timers[id] in s.aws && s.aws[s.timers[id]].suspended
    {
      TimerOfSafe(states, labels, id);
    }
  }

  lemma TimerOfSafe(states: seq<Loop>, labels: seq<Label>, id: int)
    requires IsRun(states, labels) && SafelyStarted(labels) && Inv(states[|labels|]) && id in states[|labels|].timers
    ensures var s := states[|labels|]; s.timers[id] in s.aws && s.aws[s.timers[id]].suspended
  {
    var s := states[|labels|];
    assert TimerOk(s, id);
    var a := s.timers[id];
    SafeAwaiters(states, labels, a);
    assert AwaiterOk(s, a);
  }

  /** The code as written: at every moment before the first such call, a timer refers to an awaiter
      that is no longer suspended exactly if a `send_lazy` with a timeout has been resumed, or a named
      awaiter with a timeout has been resumed by its descriptor and lives on. */
  lemma DanglingTimerIff(states: seq<Loop>, labels: seq<Label>)
    requires IsRun(states, labels) && !states[|labels|].dead
    ensures var s := states[|labels|];
            (exists id :: id in s.timers && s.timers[id] in s.aws && !s.aws[s.timers[id]].suspended)
            <==> (exists a :: a in s.aws && Haunted(s.aws[a]))
  {
    RunInv(states, labels);
    var s := states[|labels|];
    if id :| id in s.timers && s.timers[id] in s.aws && !s.aws[s.timers[id]].suspended {
      assert TimerOk(s, id);
      assert AwaiterOk(s, s.timers[id]);
      assert Haunted(s.aws[s.timers[id]]);
    }
    if a :| a in s.aws && Haunted(s.aws[a]) {
      assert AwaiterOk(s, a);
      var id := if s.aws[a].regs[0] in s.timers then s.aws[a].regs[0] else s.aws[a].regs[1];
      assert s.timers[id] == a;
    }
  }

  /** An awaiter of a descriptor, started first, with its timers pending. */
  predicate JustStarted(s: Loop, l: Label) {
    && l.Start? && l.regs <= 2
    && !s.dead && l.fd in s.watch && Waiter(s.watch[l.fd], Direction(l.kind)) == Some(l.a)
    && l.a in s.aws
    && s.aws[l.a] == Awaiter(l.kind, l.fd, if l.regs == 0 then -1 else l.regs,
                             if l.regs == 0 then [] else if l.regs == 1 then [1] else [1, 2],
                             l.named, true, true, false, 0)
    && (l.regs >= 1 ==> 1 in s.timers && s.timers[1] == l.a)
  }

  lemma StartsAwaiter(l: Label)
    requires l.Start? && l.kind != Sleep && Enabled(Idle, l)
    ensures JustStarted(Apply(Idle, l), l)
  {
    var ids := Apply(Idle, l).aws[l.a].regs;
    assert l.regs == 0 ==> ids == [];
    assert l.regs == 1 ==> ids == [1];
    assert l.regs == 2 ==> ids == [1, 2];
  }

  lemma CompletesWithTimerLeft(s: Loop, l: Label, e: Label)
    requires JustStarted(s, l) && l.kind != Sleep && l.regs >= 1 && (l.named || l.regs == 2)
    requires e == FileEvent(l.fd, Direction(l.kind), false)
    ensures Enabled(s, e)
    ensures var s' := Apply(s, e);
            !s'.dead && 1 in s'.timers && s'.timers[1] == l.a && l.a in s'.aws && !s'.aws[l.a].suspended
  {
  }

  /** Every way to start an awaiter that is not safe has a run in which it completes normally and its
      timer then calls it. */
  lemma UnsafeStartFails(l: Label)
    requires l.Start? && Enabled(Idle, l) && !SafeStart(l.kind, l.regs, l.named)
    ensures exists states: seq<Loop>, labels: seq<Label> ::
              && IsRun(states, labels) && states[|labels|].dead
              && |labels| == 3 && labels[0] == l && !labels[1].Start? && !labels[2].Start?
  {
    var e, t := FileEvent(l.fd, Direction(l.kind), false), TimerEvent(1);
    StartsAwaiter(l);
    var s1 := Apply(Idle, l);
    CompletesWithTimerLeft(s1, l, e);
    var s2 := Apply(s1, e);
    var states, labels := [Idle, s1, s2, Apply(s2, t)], [l, e, t];
    assert IsRun(states, labels) && states[|labels|].dead;
  }

  /** In particular a `send_lazy` with a timeout, as written. */
  lemma SendLazyTimesOutAfterItsEnd()
    ensures exists states: seq<Loop>, labels: seq<Label> ::
              && IsRun(states, labels) && states[|labels|].dead
              && forall i :: 0 <= i < |labels| && labels[i].Start? ==>
                   RegsAsWritten(labels[i].kind, labels[i].regs) && !labels[i].named
  {
    UnsafeStartFails(Start(0, SendLazy, 7, 2, false));
  }
}
