/** Ownership of coroutine frames in `task.h`: `task` objects that move, swap, detach and drop, and
    frames that start, suspend, resume and finish under them.  A frame that is executing is never
    destroyed by its owner; a suspended one may be, and then it matters what was to resume it. */
module FrameLifetime {
  import opened Common

  /** A suspended frame is waiting for somebody to resume it.  `cancels` says that this registration
      goes away when the frame is destroyed, as that of a timer does and that of a descriptor does
      not. */
  datatype Status = NotStarted | Running | Suspended(cancels: bool) | Done

  /** `Early` and `Late`: detached before or after the frame finished. */
  datatype Detached = No | Early | Late

  /** What is known of a frame, also after its destruction.  `flag` is `is_detached_flag`, which only
      `task<void>` has; `threw` says that an exception left a detached frame. */
  datatype Info = Info(isVoid: bool, flag: bool, status: Status, detached: Detached, threw: bool)

  /** `vars` are the living `task` objects with their handles, `alive` the frames not yet destroyed,
      `destroyed` all destructions in order, `tickets` the handles of detached frames handed to the
      loop and not yet resumed, and `refs` the handles registered to resume a suspended frame.  The
      world is `broken` once a destroyed frame is resumed. */
  datatype World = World(vars: map<nat, Option<nat>>, info: map<nat, Info>, alive: set<nat>,
                         destroyed: seq<nat>, tickets: set<nat>, refs: set<nat>, broken: bool, next: nat)

  const Nothing := World(map[], map[], {}, [], {}, {}, false, 0)

  datatype Op =
    | Create(v: nat, isVoid: bool)     // call a coroutine function
    | MoveNew(v: nat, src: nat)        // task(task &&)
    | MoveAssign(v: nat, src: nat)     // operator=(task &&)
    | SwapVars(v: nat, src: nat)
    | Drop(v: nat)                     // ~task
    | Detach(v: nat)                   // detach, the handle going to the loop if not resumed yet
    | Begin(id: nat)                   // first resumption, by an await or by the loop
    | Pause(id: nat, cancels: bool)    // suspend on I/O, on a timer or on a child
    | Continue(id: nat)                // what the frame waited for resumes it
    | Finish(id: nat)                  // final suspend point
    | Escape(id: nat)                  // an exception leaves a detached frame and is rethrown

  predicate MayDestroy(w: World, h: Option<nat>) {
    h.Some? && h.value in w.info ==> !w.info[h.value].status.Running?
  }

  predicate Enabled(w: World, op: Op) {
    !w.broken &&
    match op
    case Create(v, _) => v !in w.vars
    case MoveNew(v, src) => v !in w.vars && src in w.vars
    case MoveAssign(v, src) => v in w.vars && src in w.vars && (v != src ==> MayDestroy(w, w.vars[v]))
    case SwapVars(v, src) => v in w.vars && src in w.vars
    case Drop(v) => v in w.vars && MayDestroy(w, w.vars[v])
    case Detach(v) => v in w.vars && w.vars[v].Some? && w.vars[v].value in w.info
    case Begin(id) =>
      && id in w.info && w.info[id].status.NotStarted?
      && (id in w.tickets || exists v :: v in w.vars && w.vars[v] == Some(id))
    case Pause(id, _) => id in w.info && w.info[id].status.Running?
    case Continue(id) => id in w.info && id in w.refs
    case Finish(id) => id in w.info && w.info[id].status.Running?
    case Escape(id) => id in w.info && w.info[id].status.Running? && w.info[id].flag
  }

  function Destroy(w: World, h: Option<nat>): World {
    match h
    case None => w
    case Some(id) =>
      w.(alive := w.alive - {id}, destroyed := w.destroyed + [id],
         refs := if id in w.info && w.info[id].status == Suspended(true) then w.refs - {id} else w.refs)
  }

  function SetInfo(w: World, id: nat, i: Info): World {
    w.(info := w.info[id := i])
  }

  function Apply(w: World, op: Op): World
    requires Enabled(w, op)
  {
    match op
    case Create(v, isVoid) =>
      w.(vars := w.vars[v := Some(w.next)], info := w.info[w.next := Info(isVoid, false, NotStarted, No, false)],
         alive := w.alive + {w.next}, next := w.next + 1)
    case MoveNew(v, src) => w.(vars := w.vars[v := w.vars[src]][src := None])
    case MoveAssign(v, src) =>
      if v == src then w
      else Destroy(w, w.vars[v]).(vars := w.vars[v := w.vars[src]][src := None])
    case SwapVars(v, src) => w.(vars := w.vars[v := w.vars[src]][src := w.vars[v]])
    case Drop(v) => Destroy(w, w.vars[v]).(vars := w.vars - {v})
    case Detach(v) =>
      var id := w.vars[v].value;
      var i := w.info[id];
      SetInfo(w, id, i.(flag := i.isVoid, detached := if i.status.Done? then Late else Early))
        .(vars := w.vars[v := None], tickets := if i.status.NotStarted? then w.tickets + {id} else w.tickets)
    case Begin(id) => SetInfo(w, id, w.info[id].(status := Running)).(tickets := w.tickets - {id})
    case Pause(id, cancels) => SetInfo(w, id, w.info[id].(status := Suspended(cancels))).(refs := w.refs + {id})
    case Continue(id) =>
      if id in w.alive then SetInfo(w, id, w.info[id].(status := Running)).(refs := w.refs - {id})
      else w.(broken := true)
    case Finish(id) =>
      // the continuation is read first; a detached task<void> then destroys its own frame
      var w1 := SetInfo(w, id, w.info[id].(status := Done));
      if w.info[id].flag then Destroy(w1, Some(id)) else w1
    case Escape(id) => SetInfo(w, id, w.info[id].(status := Done, threw := true))
  }

  // ------------------------------------------------------------------ the invariant

  /** A detached frame that finished is still there exactly in these cases. */
  predicate LeftBehind(i: Info) {
    !i.isVoid || i.detached.Late? || i.threw
  }

  predicate FrameOk(w: World, id: nat)
    requires id in w.info
  {
    var i := w.info[id];
    && id < w.next
    && Count(w.destroyed, id) == (if id in w.alive then 0 else 1)
    && (i.flag <==> i.isVoid && !i.detached.No?)
    && (i.status.Running? ==> id in w.alive)
    && (id in w.refs <==> i.status.Suspended? && (id in w.alive || !i.status.cancels))
    && (id in w.tickets <==> !i.detached.No? && i.status.NotStarted?)
    && (i.threw ==> i.flag && i.status.Done?)
    && (i.detached.Late? ==> i.status.Done?)
    && (!i.detached.No? ==> (id in w.alive <==> !i.status.Done? || LeftBehind(i)))
  }

  /** An undetached frame lives exactly as long as the one task object that owns it. */
  predicate VarOk(w: World, v: nat)
    requires v in w.vars
  {
    w.vars[v].Some? ==> w.vars[v].value in w.info && w.vars[v].value in w.alive && w.info[w.vars[v].value].detached.No?
  }

  ghost predicate Owned(w: World, id: nat) {
    exists v :: v in w.vars && w.vars[v] == Some(id)
  }

  predicate Separate(w: World, v: nat, u: nat)
    requires v in w.vars && u in w.vars
  {
    w.vars[v].Some? && w.vars[v] == w.vars[u] ==> v == u
  }

  ghost predicate Inv(w: World) {
    && (forall id {:trigger FrameOk(w, id)} :: id in w.info ==> FrameOk(w, id))
    && (forall id {:trigger Owned(w, id)} :: id in w.info && w.info[id].detached.No? && id in w.alive ==> Owned(w, id))
    && (forall id :: id in w.alive || id in w.tickets || id in w.refs ==> id in w.info)
    && (forall id :: id in w.destroyed ==> id in w.info)
    && (forall v {:trigger VarOk(w, v)} :: v in w.vars ==> VarOk(w, v))
    && (forall v, u {:trigger Separate(w, v, u)} :: v in w.vars && u in w.vars ==> Separate(w, v, u))
  }

  // ------------------------------------------------------------------ operations on task objects

  /** Only task objects changed, and they own the same frames as before, one each. */
  lemma Reshuffle(w: World, w': World)
    requires Inv(w) && w' == w.(vars := w'.vars)
    requires forall v :: v in w'.vars && w'.vars[v].Some? ==> exists u :: u in w.vars && w.vars[u] == w'.vars[v]
    requires forall u :: u in w.vars && w.vars[u].Some? ==> exists v :: v in w'.vars && w'.vars[v] == w.vars[u]
    requires forall v, u :: v in w'.vars && u in w'.vars && w'.vars[v].Some? && w'.vars[v] == w'.vars[u] ==> v == u
    ensures Inv(w')
  {
    forall id | id in w'.info
      ensures FrameOk(w', id)
      ensures w'.info[id].detached.No? && id in w'.alive ==> Owned(w', id)
    {
      assert FrameOk(w, id);
      if w.info[id].detached.No? && id in w.alive {
        assert Owned(w, id);
      }
    }
    forall v | v in w'.vars
      ensures VarOk(w', v)
    {
      if w'.vars[v].Some? {
        var u :| u in w.vars && w.vars[u] == w'.vars[v];
        assert VarOk(w, u);
      }
    }
  }

  lemma MoveNewKeeps(w: World, v: nat, src: nat)
    requires Inv(w) && src in w.vars && v != src && (v in w.vars ==> w.vars[v].None?)
    ensures Inv(w.(vars := w.vars[v := w.vars[src]][src := None]))
  {
    var w' := w.(vars := w.vars[v := w.vars[src]][src := None]);
    forall u | u in w.vars && w.vars[u].Some?
      ensures exists x :: x in w'.vars && w'.vars[x] == w.vars[u]
    {
      assert w'.vars[if u == src then v else u] == w.vars[u];
    }
    forall x, u | x in w'.vars && u in w'.vars && w'.vars[x].Some? && w'.vars[x] == w'.vars[u]
      ensures x == u
    {
      var x', u' := if x == v then src else x, if u == v then src else u;
      assert Separate(w, x', u');
    }
    Reshuffle(w, w');
  }

  lemma SwapKeeps(w: World, v: nat, src: nat)
    requires Inv(w) && v in w.vars && src in w.vars
    ensures Inv(w.(vars := w.vars[v := w.vars[src]][src := w.vars[v]]))
  {
    var w' := w.(vars := w.vars[v := w.vars[src]][src := w.vars[v]]);
    forall u | u in w.vars && w.vars[u].Some?
      ensures exists x :: x in w'.vars && w'.vars[x] == w.vars[u]
    {
      assert w'.vars[if u == src then v else if u == v then src else u] == w.vars[u];
    }
    forall x, u | x in w'.vars && u in w'.vars && w'.vars[x].Some? && w'.vars[x] == w'.vars[u]
      ensures x == u
    {
      var x' := if x == v then src else if x == src then v else x;
      var u' := if u == v then src else if u == src then v else u;
      assert Separate(w, x', u');
    }
    Reshuffle(w, w');
  }

  /** A task object destroys the frame it holds, if any, and is left empty. */
  function Release(w: World, v: nat): World
    requires v in w.vars
  {
    Destroy(w, w.vars[v]).(vars := w.vars[v := None])
  }

  lemma ReleaseFrameOk(w: World, v: nat, id: nat)
    requires v in w.vars && VarOk(w, v) && MayDestroy(w, w.vars[v]) && id in w.info && FrameOk(w, id)
    ensures FrameOk(Release(w, v), id)
  {
    if w.vars[v].Some? {
      CountSnoc(w.destroyed, w.vars[v].value, id);
    }
  }

  lemma ReleaseKeeps(w: World, v: nat)
    requires Inv(w) && v in w.vars && MayDestroy(w, w.vars[v])
    ensures Inv(Release(w, v))
  {
    var w' := Release(w, v);
    assert VarOk(w, v);
    forall id | id in w'.info
      ensures FrameOk(w', id)
    {
      assert FrameOk(w, id);
      ReleaseFrameOk(w, v, id);
    }
    forall id | id in w'.info && w'.info[id].detached.No? && id in w'.alive
      ensures Owned(w', id)
    {
      assert Owned(w, id);
      var u :| u in w.vars && w.vars[u] == Some(id);
      assert u in w'.vars && w'.vars[u] == Some(id);
    }
    forall u | u in w'.vars
      ensures VarOk(w', u)
    {
      assert VarOk(w, u) && Separate(w, v, u);
    }
    forall x, u | x in w'.vars && u in w'.vars
      ensures Separate(w', x, u)
    {
      assert Separate(w, x, u);
    }
  }

  lemma DropKeeps(w: World, v: nat)
    requires Inv(w) && Enabled(w, Drop(v))
    ensures Inv(Apply(w, Drop(v)))
  {
    ReleaseKeeps(w, v);
    var w1, w' := Release(w, v), Apply(w, Drop(v));
    assert w' == w1.(vars := w1.vars - {v});
    forall u | u in w1.vars && w1.vars[u].Some?
      ensures exists x :: x in w'.vars && w'.vars[x] == w1.vars[u]
    {
      assert u in w'.vars;
    }
    forall x, u | x in w'.vars && u in w'.vars && w'.vars[x].Some? && w'.vars[x] == w'.vars[u]
      ensures x == u
    {
      assert Separate(w1, x, u);
    }
    Reshuffle(w1, w');
  }

  lemma MoveAssignKeeps(w: World, v: nat, src: nat)
    requires Inv(w) && Enabled(w, MoveAssign(v, src))
    ensures Inv(Apply(w, MoveAssign(v, src)))
  {
    if v != src {
      ReleaseKeeps(w, v);
      var w1 := Release(w, v);
      MoveNewKeeps(w1, v, src);
      assert Apply(w, MoveAssign(v, src)).vars == w1.vars[v := w1.vars[src]][src := None];
    }
  }

  lemma CreateKeeps(w: World, v: nat, isVoid: bool)
    requires Inv(w) && Enabled(w, Create(v, isVoid))
    ensures Inv(Apply(w, Create(v, isVoid)))
  {
    var w' := Apply(w, Create(v, isVoid));
    forall id | id in w.info ensures id < w.next {
      assert FrameOk(w, id);
    }
    NeverCounted(w.destroyed, w.next);
    forall id | id in w'.info
      ensures FrameOk(w', id)
      ensures w'.info[id].detached.No? && id in w'.alive ==> Owned(w', id)
    {
      if id == w.next {
        assert w'.vars[v] == Some(id);
      } else {
        assert FrameOk(w, id);
        if w.info[id].detached.No? && id in w.alive {
          assert Owned(w, id);
          var u :| u in w.vars && w.vars[u] == Some(id);
          assert w'.vars[u] == Some(id);
        }
      }
    }
    forall u | u in w'.vars
      ensures VarOk(w', u)
    {
      assert u != v ==> VarOk(w, u);
    }
    forall x, u | x in w'.vars && u in w'.vars
      ensures Separate(w', x, u)
    {
      if x != v && u != v {
        assert Separate(w, x, u);
      } else {
        assert x != v ==> VarOk(w, x);
        assert u != v ==> VarOk(w, u);
      }
    }
  }

  lemma {:induction false} NeverCounted(ids: seq<nat>, id: nat)
    requires id !in ids
    ensures Count(ids, id) == 0
  {
    if ids != [] {
      NeverCounted(ids[..|ids| - 1], id);
    }
  }

  lemma DetachKeeps(w: World, v: nat)
    requires Inv(w) && Enabled(w, Detach(v))
    ensures Inv(Apply(w, Detach(v)))
  {
    var w' := Apply(w, Detach(v));
    var d := w.vars[v].value;
    assert VarOk(w, v);
    forall id | id in w'.info
      ensures FrameOk(w', id)
      ensures w'.info[id].detached.No? && id in w'.alive ==> Owned(w', id)
    {
      assert FrameOk(w, id);
      if w'.info[id].detached.No? && id in w'.alive {
        assert Owned(w, id);
        var u :| u in w.vars && w.vars[u] == Some(id);
        assert w'.vars[u] == Some(id);
      }
    }
    forall u | u in w'.vars
      ensures VarOk(w', u)
    {
      assert VarOk(w, u) && Separate(w, v, u);
    }
    forall x, u | x in w'.vars && u in w'.vars
      ensures Separate(w', x, u)
    {
      assert Separate(w, x, u);
    }
  }

  predicate Runs(op: Op) {
    op.Begin? || op.Pause? || op.Continue? || op.Finish? || op.Escape?
  }

  lemma RunFrameOk(w: World, op: Op, id: nat)
    requires Inv(w) && Enabled(w, op) && Runs(op) && id in w.info
    ensures FrameOk(Apply(w, op), id)
  {
    assert FrameOk(w, op.id) && FrameOk(w, id);
    if op.Begin? {
      BeginIsLive(w, op.id);
    }
    CountSnoc(w.destroyed, op.id, id);
  }

  lemma RunOwners(w: World, op: Op)
    requires Inv(w) && Enabled(w, op) && Runs(op)
    ensures var w' := Apply(w, op);
            && (forall u :: u in w'.vars ==> VarOk(w', u))
            && (forall x, u :: x in w'.vars && u in w'.vars ==> Separate(w', x, u))
            && (forall id :: id in w'.info && w'.info[id].detached.No? && id in w'.alive ==> Owned(w', id))
  {
    var w' := Apply(w, op);
    assert FrameOk(w, op.id);
    forall u | u in w'.vars
      ensures VarOk(w', u)
    {
      assert VarOk(w, u);
    }
    forall x, u | x in w'.vars && u in w'.vars
      ensures Separate(w', x, u)
    {
      assert Separate(w, x, u);
    }
    forall id | id in w'.info && w'.info[id].detached.No? && id in w'.alive
      ensures Owned(w', id)
    {
      assert Owned(w, id);
      var u :| u in w.vars && w.vars[u] == Some(id);
      assert w'.vars[u] == Some(id);
    }
  }

  /** Running a frame changes its status only, and possibly destroys it if it is detached. */
  lemma RunKeeps(w: World, op: Op)
    requires Inv(w) && Enabled(w, op) && Runs(op)
    ensures Inv(Apply(w, op))
  {
    var w' := Apply(w, op);
    RunOwners(w, op);
    forall id | id in w'.info
      ensures FrameOk(w', id)
    {
      RunFrameOk(w, op, id);
    }
    assert w'.info.Keys == w.info.Keys;
    assert op.Continue? ==> FrameOk(w, op.id);
  }

  /** Whoever resumes a frame for the first time finds it alive. */
  lemma BeginIsLive(w: World, id: nat)
    requires Inv(w) && Enabled(w, Begin(id))
    ensures id in w.alive
  {
    assert FrameOk(w, id);
    if id !in w.tickets {
      var v :| v in w.vars && w.vars[v] == Some(id);
      assert VarOk(w, v);
    }
  }

  lemma StepKeeps(w: World, op: Op)
    requires Inv(w) && Enabled(w, op)
    ensures Inv(Apply(w, op))
  {
    match op {
      case Create(v, isVoid) => CreateKeeps(w, v, isVoid);
      case MoveNew(v, src) => MoveNewKeeps(w, v, src);
      case MoveAssign(v, src) => MoveAssignKeeps(w, v, src);
      case SwapVars(v, src) => SwapKeeps(w, v, src);
      case Drop(v) => DropKeeps(w, v);
      case Detach(v) => DetachKeeps(w, v);
      case _ => RunKeeps(w, op);
    }
  }

  // ------------------------------------------------------------------ whole runs

  ghost predicate IsRun(states: seq<World>, ops: seq<Op>) {
    && |states| == |ops| + 1
    && states[0] == Nothing
    && forall i :: 0 <= i < |ops| ==> Enabled(states[i], ops[i]) && states[i + 1] == Apply(states[i], ops[i])
  }

  lemma {:induction false} RunInv(states: seq<World>, ops: seq<Op>)
    requires IsRun(states, ops)
    ensures Inv(states[|ops|])
    decreases |ops|
  {
    if ops != [] {
      var n := |ops| - 1;
      RunInv(states[..n + 1], ops[..n]);
      StepKeeps(states[n], ops[n]);
    }
  }

  /** A handle is registered to resume a frame that no longer exists. */
  predicate Dangling(w: World, id: nat) {
    id in w.refs && id !in w.alive
  }

  /** The operation destroys the owner of a frame that is suspended on something that will not notice. */
  predicate Abandons(w: World, op: Op, id: nat) {
    && id in w.info && w.info[id].status == Suspended(false)
    && match op
       case Drop(v) => v in w.vars && w.vars[v] == Some(id)
       case MoveAssign(v, src) => v != src && v in w.vars && w.vars[v] == Some(id)
       case _ => false
  }

  lemma DanglingStep(w: World, op: Op, id: nat)
    requires Inv(w) && Enabled(w, op)
    ensures Dangling(Apply(w, op), id) <==> Dangling(w, id) || Abandons(w, op, id)
  {
    assert id in w.info ==> FrameOk(w, id);
    match op {
      case MoveAssign(v, _) => assert VarOk(w, v);
      case Drop(v) => assert VarOk(w, v);
      case Detach(v) => assert VarOk(w, v);
      case Begin(i) => BeginIsLive(w, i);
      case Pause(i, _) => assert FrameOk(w, i);
      case Finish(i) => assert FrameOk(w, i);
      case Escape(i) => assert FrameOk(w, i);
      case _ =>
    }
  }

  /** Over every run: a handle dangles exactly when its frame was abandoned on the way. */
  lemma {:induction false} DanglingIff(states: seq<World>, ops: seq<Op>, id: nat)
    requires IsRun(states, ops)
    ensures Dangling(states[|ops|], id) <==> exists i :: 0 <= i < |ops| && Abandons(states[i], ops[i], id)
    decreases |ops|
  {
    if ops != [] {
      var n := |ops| - 1;
      DanglingIff(states[..n + 1], ops[..n], id);
      RunInv(states[..n + 1], ops[..n]);
      DanglingStep(states[n], ops[n], id);
      assert forall i :: 0 <= i < n ==> states[..n + 1][i] == states[i] && ops[..n][i] == ops[i];
    }
  }

  /** A run resumes a destroyed frame only if it abandoned one, and any abandoned frame can be resumed
      by the very next event. */
  lemma ResumesDeadFrame(states: seq<World>, ops: seq<Op>)
    requires IsRun(states, ops)
    ensures states[|ops|].broken ==> exists id :: Dangling(states[|ops|], id)
    ensures forall id :: Dangling(states[|ops|], id) && !states[|ops|].broken ==>
              Enabled(states[|ops|], Continue(id)) && Apply(states[|ops|], Continue(id)).broken
  {
    RunInv(states, ops);
    if states[|ops|].broken {
      BrokenDangles(states, ops);
    }
  }

  lemma {:induction false} BrokenDangles(states: seq<World>, ops: seq<Op>)
    requires IsRun(states, ops) && states[|ops|].broken
    ensures exists id :: Dangling(states[|ops|], id)
  {
    var n := |ops| - 1;
    assert Enabled(states[n], ops[n]);
    assert Dangling(states[n + 1], ops[n].id);
  }

  /** Main result: over every run, no frame is destroyed twice; every handle that a task object holds,
      that the loop was given, or that belongs to an executing frame refers to a frame that is alive,
      and so does every handle registered to resume a suspended frame, unless its owner abandoned it;
      and an undetached frame is alive exactly while a task object owns it, which is then the only
      one. */
  lemma FramesAreDestroyedOnce(states: seq<World>, ops: seq<Op>)
    requires IsRun(states, ops)
    ensures var w := states[|ops|];
            && (forall id :: id in w.info ==> Count(w.destroyed, id) == if id in w.alive then 0 else 1)
            && (forall v :: v in w.vars && w.vars[v].Some? ==> w.vars[v].value in w.alive)
            && (forall id :: id in w.tickets ==> id in w.alive)
            && (forall id :: id in w.info && w.info[id].status.Running? ==> id in w.alive)
            && (forall id :: id in w.refs ==>
                  id in w.alive || exists i :: 0 <= i < |ops| && Abandons(states[i], ops[i], id))
            && (forall id :: id in w.info && w.info[id].detached.No? ==> (id in w.alive <==> Owned(w, id)))
            && (forall v, u :: v in w.vars && u in w.vars && w.vars[v].Some? && w.vars[v] == w.vars[u] ==> v == u)
  {
    RunInv(states, ops);
    var w := states[|ops|];
    forall id | id in w.info
      ensures Count(w.destroyed, id) == if id in w.alive then 0 else 1
      ensures w.info[id].status.Running? ==> id in w.alive
      ensures id in w.refs ==> id in w.alive || exists i :: 0 <= i < |ops| && Abandons(states[i], ops[i], id)
      ensures w.info[id].detached.No? ==> (id in w.alive <==> Owned(w, id))
      ensures id in w.tickets ==> id in w.alive
    {
      assert FrameOk(w, id);
      DanglingIff(states, ops, id);
      if Owned(w, id) {
        var v :| v in w.vars && w.vars[v] == Some(id);
        assert VarOk(w, v);
      }
    }
    forall v | v in w.vars && w.vars[v].Some?
      ensures w.vars[v].value in w.alive
    {
      assert VarOk(w, v);
    }
    forall v, u | v in w.vars && u in w.vars && w.vars[v].Some? && w.vars[v] == w.vars[u]
      ensures v == u
    {
      assert Separate(w, v, u);
    }
  }

  /** A detached frame that has finished is gone, except exactly when its task returns a value, when
      it was detached only after it had finished, or when an exception left it. */
  lemma DetachedFrameIsFreedIff(states: seq<World>, ops: seq<Op>, id: nat)
    requires IsRun(states, ops)
    requires var w := states[|ops|]; id in w.info && !w.info[id].detached.No? && w.info[id].status.Done?
    ensures var w := states[|ops|];
            id !in w.alive <==> w.info[id].isVoid && w.info[id].detached.Early? && !w.info[id].threw
  {
    RunInv(states, ops);
    assert FrameOk(states[|ops|], id);
  }

  // ------------------------------------------------------------------ one frame by itself

  /** The life of one frame: the task object that holds it, if any. */
  datatype Life = Unborn | Held(v: nat, isVoid: bool) | Loose(isVoid: bool) | Freed

  function Creations(ops: seq<Op>): nat {
    if ops == [] then 0 else Creations(ops[..|ops| - 1]) + if ops[|ops| - 1].Create? then 1 else 0
  }

  /** What an operation means for the one frame `id`, when `made` frames were created before. */
  function LifeStep(life: Life, op: Op, id: nat, made: nat): Life {
    match life
    case Unborn => if op.Create? && made == id then Held(op.v, op.isVoid) else Unborn
    case Held(u, isVoid) =>
      (match op
       case MoveNew(v, src) => if u == src then Held(v, isVoid) else life
       case MoveAssign(v, src) =>
         if u == src then Held(v, isVoid) else if u == v then Freed else life
       case SwapVars(v, src) =>
         if u == src then Held(v, isVoid) else if u == v then Held(src, isVoid) else life
       case Drop(v) => if u == v then Freed else life
       case Detach(v) => if u == v then Loose(isVoid) else life
       case _ => life)
    case Loose(isVoid) => if isVoid && op == Finish(id) then Freed else life
    case Freed => Freed
  }

  function LifeOf(ops: seq<Op>, id: nat): Life {
    if ops == [] then Unborn
    else LifeStep(LifeOf(ops[..|ops| - 1], id), ops[|ops| - 1], id, Creations(ops[..|ops| - 1]))
  }

  predicate Holds(w: World, v: nat, id: nat) {
    v in w.vars && w.vars[v] == Some(id)
  }

  ghost predicate Lives(w: World, id: nat, life: Life) {
    && (forall v :: Holds(w, v, id) <==> life.Held? && life.v == v)
    && (id in w.info <==> !life.Unborn?)
    && (id in w.alive <==> life.Held? || life.Loose?)
    && (life.Held? ==> w.info[id].isVoid == life.isVoid && w.info[id].detached.No?)
    && (life.Loose? ==> w.info[id].isVoid == life.isVoid && !w.info[id].detached.No?)
  }

  lemma HolderIsSingle(w: World, id: nat)
    requires Inv(w)
    ensures id in w.info ==> id < w.next
    ensures forall v :: Holds(w, v, id) ==> id in w.info && id in w.alive && w.info[id].detached.No?
    ensures forall v, u :: Holds(w, v, id) && Holds(w, u, id) ==> v == u
  {
    assert id in w.info ==> FrameOk(w, id);
    forall v | Holds(w, v, id)
      ensures id in w.info && id in w.alive && w.info[id].detached.No?
    {
      assert VarOk(w, v);
    }
    forall v, u | Holds(w, v, id) && Holds(w, u, id)
      ensures v == u
    {
      assert Separate(w, v, u);
    }
  }

  lemma LivesStep(w: World, op: Op, id: nat, life: Life)
    requires Inv(w) && Enabled(w, op) && Lives(w, id, life)
    ensures Lives(Apply(w, op), id, LifeStep(life, op, id, w.next))
  {
    HolderIsSingle(w, id);
    if Runs(op) {
      assert FrameOk(w, op.id) && (id in w.info ==> FrameOk(w, id));
      RunsLife(w, op, id, life);
    } else {
      assert id in w.info ==> FrameOk(w, id);
      var w', life' := Apply(w, op), LifeStep(life, op, id, w.next);
      assert life.Held? ==> Holds(w, life.v, id);
      assert op.v in w.vars && w.vars[op.v] == Some(id) ==> Holds(w, op.v, id);
      assert (op.MoveNew? || op.MoveAssign? || op.SwapVars?) && w.vars[op.src] == Some(id) ==> Holds(w, op.src, id);
      forall v
        ensures Holds(w', v, id) <==> life'.Held? && life'.v == v
      {
        assert v in w.vars && w.vars[v] == Some(id) ==> Holds(w, v, id);
      }
    }
  }

  lemma RunsLife(w: World, op: Op, id: nat, life: Life)
    requires Enabled(w, op) && Lives(w, id, life) && Runs(op) && FrameOk(w, op.id)
    ensures Lives(Apply(w, op), id, LifeStep(life, op, id, w.next))
  {
    forall v
      ensures Holds(Apply(w, op), v, id) <==> Holds(w, v, id)
    {
    }
  }

  /** Main result: over every run each frame lives its own life, which its moves, swaps, drops and its detach
      determine.  It is held by the task object its handle was passed to and by no other, and it is destroyed
      exactly when its holder is dropped or assigned to, or when, detached, it finishes by itself. */
  lemma {:induction false} EachFrameLivesItsLife(states: seq<World>, ops: seq<Op>, id: nat)
    requires IsRun(states, ops)
    ensures Lives(states[|ops|], id, LifeOf(ops, id)) && states[|ops|].next == Creations(ops)
    decreases |ops|
  {
    if ops != [] {
      var n := |ops| - 1;
      EachFrameLivesItsLife(states[..n + 1], ops[..n], id);
      RunInv(states[..n + 1], ops[..n]);
      LivesStep(states[n], ops[n], id, LifeOf(ops[..n], id));
    }
  }

  datatype Happening = Begun | Paused | Resumed | Ended | Nil

  /** What an operation does to the execution of the frame `id`. */
  function Happens(op: Op, id: nat): Happening {
    if !Runs(op) || op.id != id then Nil
    else
      match op
      case Begin(_) => Begun
      case Pause(_, _) => Paused
      case Continue(_) => Resumed
      case _ => Ended
  }

  function Times(ops: seq<Op>, id: nat, h: Happening): nat {
    if ops == [] then 0 else Times(ops[..|ops| - 1], id, h) + if Happens(ops[|ops| - 1], id) == h then 1 else 0
  }

  /** A frame begins once and ends once, and each suspension is followed by one resumption or is the
      present one. */
  predicate Tells(status: Status, ops: seq<Op>, id: nat) {
    && Times(ops, id, Begun) == (if status.NotStarted? then 0 else 1)
    && Times(ops, id, Ended) == (if status.Done? then 1 else 0)
    && Times(ops, id, Paused) == Times(ops, id, Resumed) + if status.Suspended? then 1 else 0
  }

  function StatusOf(w: World, id: nat): Status {
    if id in w.info then w.info[id].status else NotStarted
  }

  predicate Goes(before: Status, after: Status, h: Happening) {
    match h
    case Begun => before.NotStarted? && after.Running?
    case Paused => before.Running? && after.Suspended?
    case Resumed => before.Suspended? && after.Running?
    case Ended => before.Running? && after.Done?
    case Nil => after == before
  }

  lemma StatusStep(w: World, op: Op, id: nat)
    requires Inv(w) && Enabled(w, op) && !Apply(w, op).broken
    ensures Goes(StatusOf(w, id), StatusOf(Apply(w, op), id), Happens(op, id))
  {
    assert id in w.info ==> FrameOk(w, id);
  }

  lemma TellsOn(before: Status, after: Status, ops: seq<Op>, id: nat, op: Op)
    requires Tells(before, ops, id) && Goes(before, after, Happens(op, id))
    ensures Tells(after, ops + [op], id)
  {
    var ops' := ops + [op];
    assert ops'[..|ops'| - 1] == ops;
    assert forall h :: Times(ops', id, h) == Times(ops, id, h) + if Happens(op, id) == h then 1 else 0;
  }

  /** Over every run the status of a frame is its history, and a frame not yet created has none. */
  lemma {:induction false} StatusIsHistory(states: seq<World>, ops: seq<Op>, id: nat)
    requires IsRun(states, ops) && !states[|ops|].broken
    ensures Tells(StatusOf(states[|ops|], id), ops, id)
    decreases |ops|
  {
    if ops != [] {
      var n := |ops| - 1;
      assert Enabled(states[n], ops[n]);
      StatusIsHistory(states[..n + 1], ops[..n], id);
      RunInv(states[..n + 1], ops[..n]);
      StatusStep(states[n], ops[n], id);
      TellsOn(StatusOf(states[n], id), StatusOf(states[n + 1], id), ops[..n], id, ops[n]);
      assert ops[..n] + [ops[n]] == ops;
    }
  }

  /** Nothing that is alive and was not resumed yet is out of reach: its owner or the loop can begin it, and
      then it executes. */
  lemma EveryFrameCanBegin(states: seq<World>, ops: seq<Op>, id: nat)
    requires IsRun(states, ops) && !states[|ops|].broken
    requires var w := states[|ops|]; id in w.alive && id in w.info && w.info[id].status.NotStarted?
    ensures var w := states[|ops|]; Enabled(w, Begin(id)) && Apply(w, Begin(id)).info[id].status.Running?
  {
    RunInv(states, ops);
    var w := states[|ops|];
    assert FrameOk(w, id);
    if w.info[id].detached.No? {
      assert Owned(w, id);
    }
  }

  /** A finished frame that nobody owns and that is still there. */
  predicate Leaks(w: World, id: nat) {
    && id in w.info && w.info[id].status.Done? && w.info[id].detached.Early? && !w.info[id].threw
    && id in w.alive && !exists v :: v in w.vars && w.vars[v] == Some(id)
  }

  ghost predicate Reaches(w: World) {
    exists states, ops :: IsRun(states, ops) && states[|ops|] == w
  }

  lemma ReachStep(w: World, op: Op, w': World)
    requires Reaches(w) && Enabled(w, op) && w' == Apply(w, op)
    ensures Reaches(w')
  {
    var states, ops :| IsRun(states, ops) && states[|ops|] == w;
    assert IsRun(states + [w'], ops + [op]);
    assert (states + [w'])[|ops + [op]|] == w';
  }

  /** One task object with one frame in the given condition. */
  function One(isVoid: bool, status: Status, refs: set<nat>): World {
    World(map[0 := Some(0)], map[0 := Info(isVoid, false, status, No, false)], {0}, [], {}, refs, false, 1)
  }

  lemma CreatesOne(isVoid: bool)
    ensures Reaches(One(isVoid, NotStarted, {}))
  {
    assert IsRun([Nothing], []);
    ReachStep(Nothing, Create(0, isVoid), One(isVoid, NotStarted, {}));
  }

  /** A `task` that returns a value and is detached before it runs is never freed. */
  lemma DetachedValueTaskLeaks()
    ensures exists w :: Reaches(w) && Leaks(w, 0)
  {
    CreatesOne(false);
    var i := Info(false, false, NotStarted, Early, false);
    var w2 := World(map[0 := None], map[0 := i], {0}, [], {0}, {}, false, 1);
    ReachStep(One(false, NotStarted, {}), Detach(0), w2);
    var w3 := w2.(info := map[0 := i.(status := Running)], tickets := {});
    ReachStep(w2, Begin(0), w3);
    var w4 := w3.(info := map[0 := i.(status := Done)]);
    ReachStep(w3, Finish(0), w4);
    assert Leaks(w4, 0);
  }

  /** A task dropped while it waits on a descriptor is resumed after its destruction. */
  lemma AbandonedFrameIsResumed()
    ensures exists w: World :: Reaches(w) && w.broken
  {
    CreatesOne(true);
    var w1, w2, w3 := One(true, NotStarted, {}), One(true, Running, {}), One(true, Suspended(false), {0});
    assert w1.vars[0] == Some(0);
    ReachStep(w1, Begin(0), w2);
    ReachStep(w2, Pause(0, false), w3);
    DropsOne(w3);
    var w4 := Abandoned(w3);
    ReachStep(w3, Drop(0), w4);
    ReachStep(w4, Continue(0), w4.(broken := true));
  }

  function Abandoned(w: World): World {
    w.(vars := map[], alive := {}, destroyed := [0])
  }

  lemma DropsOne(w: World)
    requires w == One(true, Suspended(false), {0})
    ensures Enabled(w, Drop(0)) && Apply(w, Drop(0)) == Abandoned(w)
  {
    assert w.vars - {0} == map[] && w.alive - {0} == {};
  }
}
