/** The per-descriptor table of `io_loop.h` and the kernel's epoll interest set.

    The table decides between EPOLL_CTL_ADD, MOD, DEL and no call at all from its own copy of the
    masks.  Here it refines a plain map from descriptors to what is watched, and the kernel's set
    equals the masks of that map after every operation. */
module FdTable {
  import opened Common

  datatype Ev = In | Out

  /** What is watched on one descriptor, and who is to be called. */
  datatype Watch = Watch(mask: set<Ev>, reader: Option<nat>, writer: Option<nat>)

  type Interest = map<nat, Watch>

  function Waiter(w: Watch, ev: Ev): Option<nat> {
    if ev == In then w.reader else w.writer
  }

  function SetWaiter(w: Watch, ev: Ev, f: Option<nat>): Watch {
    if ev == In then w.(reader := f) else w.(writer := f)
  }

  // ------------------------------------------------------------------ what the operations mean

  function WaitSpec(v: Interest, fd: nat, ev: Ev, func: nat): Interest {
    var w := if fd in v then v[fd] else Watch({}, None, None);
    v[fd := SetWaiter(w.(mask := w.mask + {ev}), ev, Some(func))]
  }

  /** Stop watching `evs`: those directions lose their bit and their waiter, the other keeps both,
      and a descriptor with nothing left is forgotten. */
  function CancelSpec(v: Interest, fd: nat, evs: set<Ev>): Interest {
    if fd !in v then v
    else
      var w := v[fd];
      var left := w.mask - evs;
      if left == {} then v - {fd}
      else v[fd := Watch(left, if In in left then w.reader else None, if Out in left then w.writer else None)]
  }

  /** Dispatch takes the waiter out before calling it; a handler may put itself back. */
  function WaiterSpec(v: Interest, fd: nat, ev: Ev, f: Option<nat>): Interest
    requires fd in v
  {
    v[fd := SetWaiter(v[fd], ev, f)]
  }

  /** A waiter is only ever registered on a direction that is watched. */
  predicate WellWatched(v: Interest) {
    forall fd :: fd in v ==>
      && v[fd].mask != {}
      && (v[fd].reader.Some? ==> In in v[fd].mask)
      && (v[fd].writer.Some? ==> Out in v[fd].mask)
  }

  // ------------------------------------------------------------------ direction by direction

  /** Who waits for `ev` on `fd`, and whether that direction is watched. */
  function WaiterAt(v: Interest, fd: nat, ev: Ev): Option<nat> {
    if fd in v then Waiter(v[fd], ev) else None
  }

  predicate Watched(v: Interest, fd: nat, ev: Ev) {
    fd in v && ev in v[fd].mask
  }

  predicate KernelWatches(kernel: map<nat, set<Ev>>, fd: nat, ev: Ev) {
    fd in kernel && ev in kernel[fd]
  }

  /** Nothing changed for `ev` on `fd`. */
  predicate SameAt(v: Interest, v': Interest, fd: nat, ev: Ev) {
    WaiterAt(v', fd, ev) == WaiterAt(v, fd, ev) && (Watched(v', fd, ev) <==> Watched(v, fd, ev))
  }

  /** Waiting in one direction registers the callback and watches that direction, and leaves the other
      direction and every other descriptor alone. */
  lemma WaitKeepsOthers(v: Interest, fd: nat, ev: Ev, func: nat)
    ensures var v' := WaitSpec(v, fd, ev, func);
            && WaiterAt(v', fd, ev) == Some(func) && Watched(v', fd, ev)
            && forall fd', ev' :: fd' != fd || ev' != ev ==> SameAt(v, v', fd', ev')
  {
  }

  /** Cancelling stops the given directions of one descriptor, and leaves the other direction and every
      other descriptor alone. */
  lemma CancelStopsExactly(v: Interest, fd: nat, evs: set<Ev>)
    requires WellWatched(v)
    ensures var v' := CancelSpec(v, fd, evs);
            && (forall ev :: ev in evs ==> WaiterAt(v', fd, ev) == None && !Watched(v', fd, ev))
            && forall fd', ev' :: fd' != fd || ev' !in evs ==> SameAt(v, v', fd', ev')
  {
    if fd in v {
      var left := v[fd].mask - evs;
      assert forall ev :: ev in left <==> ev in v[fd].mask && ev !in evs;
    }
  }

  /** Taking a waiter out, or putting one back, concerns that waiter only. */
  lemma WaiterKeepsOthers(v: Interest, fd: nat, ev: Ev, f: Option<nat>)
    requires fd in v
    ensures var v' := WaiterSpec(v, fd, ev, f);
            && WaiterAt(v', fd, ev) == f && (Watched(v', fd, ev) <==> Watched(v, fd, ev))
            && forall fd', ev' :: fd' != fd || ev' != ev ==> SameAt(v, v', fd', ev')
  {
  }

  // ------------------------------------------------------------------ the table

  /** `es_file`; a free slot has descriptor -1. */
  datatype EsFile = EsFile(fd: int, event: set<Ev>, funcW: Option<nat>, funcR: Option<nat>)

  const FreeSlot := EsFile(-1, {}, None, None)

  predicate SlotOk(slot: EsFile, fd: nat, kernel: map<nat, set<Ev>>) {
    if slot.fd == -1 then slot == FreeSlot && fd !in kernel
    else
      && slot.fd == fd && fd in kernel && kernel[fd] == slot.event && slot.event != {}
      && (slot.funcR.Some? ==> In in slot.event)
      && (slot.funcW.Some? ==> Out in slot.event)
  }

  /** The kernel side of `epoll_ctl`: ADD fails on a known descriptor, MOD and DEL on an unknown one. */
  datatype Ctl = Add(mask: set<Ev>) | Mod(mask: set<Ev>) | Del

  function EpollCtl(kernel: map<nat, set<Ev>>, fd: nat, op: Ctl): (map<nat, set<Ev>>, int) {
    match op
    case Add(mask) => if fd in kernel then (kernel, -1) else (kernel[fd := mask], 0)
    case Mod(mask) => if fd !in kernel then (kernel, -1) else (kernel[fd := mask], 0)
    case Del => if fd !in kernel then (kernel, -1) else (kernel - {fd}, 0)
  }

  /** Cancelling anything leaves at most one direction. */
  lemma BothLeft(left: set<Ev>, evs: set<Ev>)
    requires evs != {} && left !! evs
    ensures In !in left || Out !in left
    ensures In !in left && Out !in left ==> left == {}
  {
    var e :| e in evs;
    assert e == In || e == Out;
    assert forall x :: x in left ==> x == In || x == Out;
  }

  ghost predicate TableOk(fds: seq<EsFile>, kernel: map<nat, set<Ev>>) {
    && (forall fd :: 0 <= fd < |fds| ==> SlotOk(fds[fd], fd, kernel))
    && (forall fd :: fd in kernel ==> fd < |fds|)
  }

  /** The watched descriptors, as the table records them. */
  ghost function ViewOf(fds: seq<EsFile>, kernel: map<nat, set<Ev>>): Interest
    requires TableOk(fds, kernel)
  {
    map fd: nat | fd in kernel :: Watch(fds[fd].event, fds[fd].funcR, fds[fd].funcW)
  }

  /** Storing a slot in use and telling the kernel its mask changes the view of that descriptor only. */
  lemma StoreSlot(fds: seq<EsFile>, kernel: map<nat, set<Ev>>, fd: nat, fe: EsFile)
    requires TableOk(fds, kernel) && fd < |fds|
    requires fe.fd == fd && fe.event != {}
          && (fe.funcR.Some? ==> In in fe.event) && (fe.funcW.Some? ==> Out in fe.event)
    ensures TableOk(fds[fd := fe], kernel[fd := fe.event])
    ensures ViewOf(fds[fd := fe], kernel[fd := fe.event])
         == ViewOf(fds, kernel)[fd := Watch(fe.event, fe.funcR, fe.funcW)]
    ensures fds[fd].fd == -1 <==> fd !in ViewOf(fds, kernel)
    ensures fd in kernel && kernel[fd] == fe.event ==> kernel[fd := fe.event] == kernel
  {
    assert SlotOk(fds[fd], fd, kernel);
    var fds', kernel' := fds[fd := fe], kernel[fd := fe.event];
    forall i | 0 <= i < |fds'|
      ensures SlotOk(fds'[i], i, kernel')
    {
      assert SlotOk(fds[i], i, kernel);
    }
  }

  lemma FreeTheSlot(fds: seq<EsFile>, kernel: map<nat, set<Ev>>, fd: nat)
    requires TableOk(fds, kernel) && fd < |fds|
    ensures TableOk(fds[fd := FreeSlot], kernel - {fd})
    ensures ViewOf(fds[fd := FreeSlot], kernel - {fd}) == ViewOf(fds, kernel) - {fd}
  {
    var fds', kernel' := fds[fd := FreeSlot], kernel - {fd};
    forall i | 0 <= i < |fds'|
      ensures SlotOk(fds'[i], i, kernel')
    {
      assert SlotOk(fds[i], i, kernel);
    }
  }

  lemma GrowTable(fds: seq<EsFile>, kernel: map<nat, set<Ev>>, more: seq<EsFile>)
    requires TableOk(fds, kernel) && forall i :: 0 <= i < |more| ==> more[i] == FreeSlot
    ensures TableOk(fds + more, kernel) && ViewOf(fds + more, kernel) == ViewOf(fds, kernel)
  {
    forall i | 0 <= i < |fds + more|
      ensures SlotOk((fds + more)[i], i, kernel)
    {
      if i < |fds| {
        assert SlotOk(fds[i], i, kernel);
      }
    }
  }

  /** The kernel's interest set is exactly the set of masks the table shows. */
  lemma KernelIsShadowed(fds: seq<EsFile>, kernel: map<nat, set<Ev>>)
    requires TableOk(fds, kernel)
    ensures kernel == map fd | fd in ViewOf(fds, kernel) :: ViewOf(fds, kernel)[fd].mask
  {
    forall fd | fd in kernel
      ensures kernel[fd] == ViewOf(fds, kernel)[fd].mask
    {
      assert SlotOk(fds[fd], fd, kernel);
    }
  }

  /** The kernel watches a direction exactly when the table does. */
  lemma KernelWatchesIff(fds: seq<EsFile>, kernel: map<nat, set<Ev>>, fd: nat, ev: Ev)
    requires TableOk(fds, kernel)
    ensures KernelWatches(kernel, fd, ev) <==> Watched(ViewOf(fds, kernel), fd, ev)
  {
    if fd in kernel {
      assert SlotOk(fds[fd], fd, kernel);
    }
  }

  /** Cancelling one direction of a descriptor never disturbs the waiter of the other, nor any other
      descriptor. */
  lemma CancelKeepsOthers(v: Interest, fd: nat, ev: Ev, other: Ev, fd': nat)
    requires WellWatched(v) && fd' in v
    requires fd' != fd || (other != ev && Waiter(v[fd'], other).Some?)
    ensures fd' in CancelSpec(v, fd, {ev})
    ensures Waiter(CancelSpec(v, fd, {ev})[fd'], other) == Waiter(v[fd'], other)
    ensures other != ev || fd' != fd ==> (other in CancelSpec(v, fd, {ev})[fd'].mask <==> other in v[fd'].mask)
    ensures WellWatched(CancelSpec(v, fd, {ev}))
  {
    var left := v[fd'].mask - {ev};
    if fd' == fd {
      assert other in left;
    }
  }

  lemma ViewIsWellWatched(fds: seq<EsFile>, kernel: map<nat, set<Ev>>)
    requires TableOk(fds, kernel)
    ensures WellWatched(ViewOf(fds, kernel))
  {
    forall fd | fd in kernel
      ensures SlotOk(fds[fd], fd, kernel)
    {
    }
  }

  class Table {
    var fds: seq<EsFile>
    var kernel: map<nat, set<Ev>>

    ghost predicate Valid()
      reads this
    {
      TableOk(fds, kernel)
    }

    ghost function View(): Interest
      reads this
      requires Valid()
    {
      ViewOf(fds, kernel)
    }

    constructor ()
      ensures Valid() && View() == map[]
    {
      fds, kernel := [], map[];
    }

    method Ctl(fd: nat, op: Ctl) returns (rc: int)
      modifies this`kernel
      ensures (kernel, rc) == EpollCtl(old(kernel), fd, op)
    {
      var r := EpollCtl(kernel, fd, op);
      kernel := r.0;
      rc := r.1;
    }

    /** `wait_fd`: no call to the kernel ever fails, and none is needed when the bit is set already. */
    method WaitFd(fd: nat, ev: Ev, func: nat) returns (rc: int)
      requires Valid()
      modifies this
      ensures Valid() && View() == WaitSpec(old(View()), fd, ev, func) && WellWatched(View())
      ensures WaiterAt(View(), fd, ev) == Some(func) && Watched(View(), fd, ev)
      ensures forall fd', ev' :: fd' != fd || ev' != ev ==> SameAt(old(View()), View(), fd', ev')
      ensures forall fd', ev' ::
                KernelWatches(kernel, fd', ev') <==> KernelWatches(old(kernel), fd', ev') || (fd' == fd && ev' == ev)
      ensures rc == 0
    {
      ghost var was, wasKernel := View(), kernel;
      ghost var wasFds := fds;
      if |fds| <= fd {
        var more := seq(fd + 1 - |fds|, _ => FreeSlot);
        GrowTable(fds, kernel, more);
        fds := fds + more;
      }
      ghost var v := View();
      assert SlotOk(fds[fd], fd, kernel);
      var fe := fds[fd];
      if fe.fd == -1 {
        fe := fe.(fd := fd, event := {ev});
        if ev == In {
          fe := fe.(funcR := Some(func));
        } else {
          fe := fe.(funcW := Some(func));
        }
        StoreSlot(fds, kernel, fd, fe);
        fds := fds[fd := fe];
        rc := Ctl(fd, Add({ev}));
        assert {} + {ev} == {ev};
      } else {
        if ev == In {
          fe := fe.(funcR := Some(func));
        } else {
          fe := fe.(funcW := Some(func));
        }
        assert ev in fe.event ==> fe.event + {ev} == fe.event;
        StoreSlot(fds, kernel, fd, fe.(event := fe.event + {ev}));
        if ev in fe.event {
          fds := fds[fd := fe];
          rc := 0;
        } else {
          fe := fe.(event := fe.event + {ev});
          fds := fds[fd := fe];
          rc := Ctl(fd, Mod(fe.event));
        }
      }
      ViewIsWellWatched(fds, kernel);
      WaitKeepsOthers(was, fd, ev, func);
      KernelFollows(wasFds, wasKernel);
    }

    /** The kernel's bits, before and after, in terms of the two views. */
    lemma KernelFollows(wasFds: seq<EsFile>, wasKernel: map<nat, set<Ev>>)
      requires Valid() && TableOk(wasFds, wasKernel)
      ensures forall fd, ev :: KernelWatches(kernel, fd, ev) <==> Watched(View(), fd, ev)
      ensures forall fd, ev :: KernelWatches(wasKernel, fd, ev) <==> Watched(ViewOf(wasFds, wasKernel), fd, ev)
    {
      forall fd, ev
        ensures KernelWatches(kernel, fd, ev) <==> Watched(View(), fd, ev)
        ensures KernelWatches(wasKernel, fd, ev) <==> Watched(ViewOf(wasFds, wasKernel), fd, ev)
      {
        KernelWatchesIff(fds, kernel, fd, ev);
        KernelWatchesIff(wasFds, wasKernel, fd, ev);
      }
    }

    /** `cancel_ev`: -1 beyond the table, 0 otherwise; the kernel calls it makes never fail. */
    method CancelEv(fd: nat, evs: set<Ev>) returns (rc: int)
      requires Valid() && evs != {}
      modifies this
      ensures Valid() && View() == CancelSpec(old(View()), fd, evs) && WellWatched(View())
      ensures forall ev :: ev in evs ==> WaiterAt(View(), fd, ev) == None && !KernelWatches(kernel, fd, ev)
      ensures forall fd', ev' :: fd' != fd || ev' !in evs ==>
                && SameAt(old(View()), View(), fd', ev')
                && (KernelWatches(kernel, fd', ev') <==> KernelWatches(old(kernel), fd', ev'))
      ensures rc == if fd < old(|fds|) then 0 else -1
    {
      ViewIsWellWatched(fds, kernel);
      ghost var wasFds, wasKernel := fds, kernel;
      CancelStopsExactly(View(), fd, evs);
      if |fds| <= fd {
        KernelFollows(wasFds, wasKernel);
        return -1;
      }
      assert SlotOk(fds[fd], fd, kernel);
      var fe := fds[fd];
      if fe.fd == -1 {
        KernelFollows(wasFds, wasKernel);
        return 0;
      }
      fe := fe.(event := fe.event - evs);
      BothLeft(fe.event, evs);
      if In in fe.event {
        fe := fe.(funcW := None);
        StoreSlot(fds, kernel, fd, fe);
        fds := fds[fd := fe];
        rc := Ctl(fd, Mod(fe.event));
      } else if Out in fe.event {
        fe := fe.(funcR := None);
        StoreSlot(fds, kernel, fd, fe);
        fds := fds[fd := fe];
        rc := Ctl(fd, Mod(fe.event));
      } else {
        FreeTheSlot(fds, kernel, fd);
        fds := fds[fd := FreeSlot];
        rc := Ctl(fd, Del);
      }
      ViewIsWellWatched(fds, kernel);
      KernelFollows(wasFds, wasKernel);
      assert View() == CancelSpec(ViewOf(wasFds, wasKernel), fd, evs);
      forall fd', ev' | fd' != fd || ev' !in evs
        ensures SameAt(ViewOf(wasFds, wasKernel), View(), fd', ev')
        ensures KernelWatches(kernel, fd', ev') <==> KernelWatches(wasKernel, fd', ev')
      {
        KernelWatchesIff(fds, kernel, fd', ev');
        KernelWatchesIff(wasFds, wasKernel, fd', ev');
      }
    }

    /** Dispatch of one ready direction: the waiter is taken out before it is called, and the bit that
        `run` asserts is always set. */
    method TakeWaiter(fd: nat, ev: Ev) returns (f: Option<nat>)
      requires Valid()
      modifies this
      ensures Valid() && WellWatched(View())
      ensures if fd in old(View())
              then f == Waiter(old(View())[fd], ev) && View() == WaiterSpec(old(View()), fd, ev, None)
              else f == None && View() == old(View())
      ensures f == WaiterAt(old(View()), fd, ev) && WaiterAt(View(), fd, ev) == None
      ensures forall fd', ev' :: fd' != fd || ev' != ev ==> SameAt(old(View()), View(), fd', ev')
      ensures kernel == old(kernel) && (f.Some? ==> KernelWatches(kernel, fd, ev))
    {
      f := None;
      ViewIsWellWatched(fds, kernel);
      if fd < |fds| && fds[fd].fd != -1 {
        assert SlotOk(fds[fd], fd, kernel);
        var fe := fds[fd];
        if ev == In {
          f := fe.funcR;
          fe := fe.(funcR := None);
        } else {
          f := fe.funcW;
          fe := fe.(funcW := None);
        }
        StoreSlot(fds, kernel, fd, fe);
        fds := fds[fd := fe];
        ViewIsWellWatched(fds, kernel);
      } else if fd < |fds| {
        assert SlotOk(fds[fd], fd, kernel);
      }
    }
  }
}
