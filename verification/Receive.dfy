/** The receiving awaiters of `nio_awaiter.cpp` as machines over the results of their system calls.

    A log lists what happened to an awaiter, in order: the bytes each `recv` returned, EAGAIN, EINTR,
    end of stream, an error, an error reported by epoll, a timeout, and wake-ups.  Every legal log is a schedule
    the kernel may choose.  The main lemma says that only the bytes and the first terminal event of a
    log matter, never how the bytes were cut up. */
module Receive {
  import opened Common
  import opened Bits
  import opened BlockLayout
  import opened Wire

  datatype Io =
    | Data(bytes: seq<byte>)   // recv returned a positive count
    | Again                    // EAGAIN: the awaiter re-arms itself and returns to the loop
    | Intr                     // EINTR: the call is repeated
    | Closed                   // recv returned 0
    | Failed                   // any other error
    | PollError                // the loop reports an error or hang-up
    | TimedOut                 // the awaiter's timer fires
    | Ready                    // the loop reports the descriptor readable

  datatype Phase =
    | Waiting                  // in progress
    | Resumed(result: int)     // `_result` set and the coroutine resumed
    | Fault                    // a write outside the buffer, or an undefined shift

  /** The bytes a log delivered. */
  function Bytes(log: seq<Io>): seq<byte> {
    if log == [] then []
    else Bytes(log[..|log| - 1]) + match log[|log| - 1] case Data(b) => b case _ => []
  }

  function EndResult(ev: Io): Option<int> {
    match ev
    case Closed => Some(0)
    case Failed => Some(-1)
    case PollError => Some(-1)
    case TimedOut => Some(-1)
    case _ => None
  }

  /** The result carried by the first terminal event of a log. */
  function FirstEnd(log: seq<Io>): Option<int> {
    if log == [] then None
    else
      var earlier := FirstEnd(log[..|log| - 1]);
      if earlier.Some? then earlier else EndResult(log[|log| - 1])
  }

  /** The events that end a reception whatever has arrived. */
  predicate Ends(ev: Io) {
    ev.Closed? || ev.Failed? || ev.PollError? || ev.TimedOut?
  }

  predicate EndsFirstAt(log: seq<Io>, i: nat) {
    i < |log| && Ends(log[i]) && forall j :: 0 <= j < i ==> !Ends(log[j])
  }

  /** The first of these events is the peer's close, or is one of the others. */
  ghost predicate EndedByClose(log: seq<Io>) {
    exists i: nat :: EndsFirstAt(log, i) && log[i].Closed?
  }

  ghost predicate EndedByFailure(log: seq<Io>) {
    exists i: nat :: EndsFirstAt(log, i) && !log[i].Closed?
  }

  predicate NotEnded(log: seq<Io>) {
    forall i :: 0 <= i < |log| ==> !Ends(log[i])
  }

  /** A close is reported as 0, every other end as -1. */
  ghost predicate Reports(log: seq<Io>, result: Option<int>) {
    && (result == Some(0) <==> EndedByClose(log))
    && (result == Some(-1) <==> EndedByFailure(log))
    && (result == None <==> NotEnded(log))
  }

  lemma EndsFirstOn(log: seq<Io>, ev: Io, i: nat)
    ensures i < |log| ==> (EndsFirstAt(log + [ev], i) <==> EndsFirstAt(log, i))
    ensures EndsFirstAt(log + [ev], |log|) <==> NotEnded(log) && Ends(ev)
  {
    var all := log + [ev];
    assert all[|log|] == ev && forall j :: 0 <= j < |log| ==> all[j] == log[j];
  }

  lemma ReportsOn(log: seq<Io>, ev: Io)
    ensures EndedByClose(log + [ev]) <==> EndedByClose(log) || (NotEnded(log) && ev.Closed?)
    ensures EndedByFailure(log + [ev]) <==> EndedByFailure(log) || (NotEnded(log) && Ends(ev) && !ev.Closed?)
    ensures NotEnded(log + [ev]) <==> NotEnded(log) && !Ends(ev)
  {
    var all := log + [ev];
    forall i: nat
      ensures i < |log| ==> (EndsFirstAt(all, i) <==> EndsFirstAt(log, i)) && all[i] == log[i]
      ensures EndsFirstAt(all, |log|) <==> NotEnded(log) && Ends(ev)
    {
      EndsFirstOn(log, ev, i);
    }
    assert all[|log|] == ev;
    if i: nat :| EndsFirstAt(log, i) {
      assert EndsFirstAt(all, i) && all[i] == log[i];
    }
    if i: nat :| EndsFirstAt(all, i) {
      assert i < |log| ==> EndsFirstAt(log, i) && all[i] == log[i];
    }
  }

  /** What the first terminal event means for the caller. */
  lemma {:induction false} FirstEndReports(log: seq<Io>)
    ensures Reports(log, FirstEnd(log))
  {
    if log != [] {
      var before, ev := log[..|log| - 1], log[|log| - 1];
      FirstEndReports(before);
      FirstEndValues(before);
      assert log == before + [ev];
      ReportsStep(before, ev, before + [ev], FirstEnd(before));
    }
  }

  lemma ReportsStep(before: seq<Io>, ev: Io, log: seq<Io>, end: Option<int>)
    requires log == before + [ev] && Reports(before, end)
    requires end.Some? ==> end.value == 0 || end.value == -1
    ensures Reports(log, if end.Some? then end else EndResult(ev))
  {
    ReportsOn(before, ev);
  }

  /** A log has one first terminal event at most. */
  lemma EndIsOne(log: seq<Io>)
    ensures !(EndedByClose(log) && EndedByFailure(log))
  {
  }

  /** The result of an awaiter that needs no bytes: it completes at the first wake-up or terminal
      event. */
  function FirstStop(log: seq<Io>): Option<int> {
    if log == [] then None
    else
      var earlier := FirstStop(log[..|log| - 1]);
      if earlier.Some? then earlier else if log[|log| - 1].Ready? then Some(0) else EndResult(log[|log| - 1])
  }

  // ------------------------------------------------------------------ recv_lazy

  /** `recv_lazy`: `got` is what the span holds so far, `size` is `(int)_buff.size()`. */
  datatype Lazy = Lazy(size: int, got: seq<byte>, phase: Phase)

  function LazyInit(size: int): Lazy {
    Lazy(size, [], Waiting)
  }

  function LazyWant(st: Lazy): int {
    if st.phase.Waiting? then st.size - |st.got| else 0
  }

  function LazySettle(st: Lazy): Lazy {
    if |st.got| >= st.size then st.(phase := Resumed(|st.got|)) else st
  }

  function LazyStep(st: Lazy, ev: Io): Lazy {
    if !st.phase.Waiting? then st
    else
      match ev
      case Data(b) => LazySettle(st.(got := st.got + b))
      case Ready => LazySettle(st)
      case Again => st
      case Intr => st
      case _ => st.(phase := Resumed(EndResult(ev).value))
  }

  function LazyFold(st: Lazy, log: seq<Io>): Lazy {
    if log == [] then st else LazyStep(LazyFold(st, log[..|log| - 1]), log[|log| - 1])
  }

  predicate LazyLegal(st: Lazy, log: seq<Io>) {
    log != [] ==>
      && LazyLegal(st, log[..|log| - 1])
      && (log[|log| - 1].Data? ==> 1 <= |log[|log| - 1].bytes| <= LazyWant(LazyFold(st, log[..|log| - 1])))
  }

  /** `recv_lazy` fills its span with exactly the bytes that arrived and no more, and completes when,
      and only when, the span is full; an empty span is full at the first wake-up. */
  lemma {:induction false} LazyFillsSpan(size: int, log: seq<Io>)
    requires LazyLegal(LazyInit(size), log)
    ensures var st := LazyFold(LazyInit(size), log);
            && st.size == size && st.got == Bytes(log) && (|Bytes(log)| <= size || Bytes(log) == [])
            && st.phase == if size > 0 && |Bytes(log)| == size then Resumed(size)
                           else match if size > 0 then FirstEnd(log) else FirstStop(log)
                                case None => Waiting
                                case Some(rc) => Resumed(rc)
  {
    if log != [] {
      LazyFillsSpan(size, log[..|log| - 1]);
      assert !log[|log| - 1].Data? ==> Bytes(log) == Bytes(log[..|log| - 1]);
    }
  }

  /** What a caller of `recv_lazy` sees as long as the span is not full: 0 if and only if the peer closed
      first, -1 if and only if an error, a hang-up or a timeout came first, and else it still waits. */
  lemma LazyReports(size: nat, log: seq<Io>)
    requires LazyLegal(LazyInit(size), log) && |Bytes(log)| < size
    ensures var phase := LazyFold(LazyInit(size), log).phase;
            && (phase == Resumed(0) <==> EndedByClose(log))
            && (phase == Resumed(-1) <==> EndedByFailure(log))
            && (phase == Waiting <==> NotEnded(log))
  {
    LazyFillsSpan(size, log);
    FirstEndReports(log);
  }

  // ------------------------------------------------------------------ recv_request

  /** Where the pool places a frame with a given header, or none if the allocation is undefined. */
  datatype Place = Place(capacity: nat, begin: nat)

  /** The receiver's surroundings: placement of frames, and the contents of memory before use. */
  datatype Env = Env(place: Header -> Option<Place>, junk: nat -> byte)

  datatype Buf = Buf(begin: nat, len: nat, mem: seq<byte>)

  predicate WindowIn(b: Buf) {
    b.begin + b.len <= |b.mem|
  }

  function Window(b: Buf): seq<byte>
    requires WindowIn(b)
  {
    b.mem[b.begin..b.begin + b.len]
  }

  function Put(mem: seq<byte>, at: nat, bytes: seq<byte>): (r: seq<byte>)
    requires at + |bytes| <= |mem|
    ensures |r| == |mem|
  {
    mem[..at] + bytes + mem[at + |bytes|..]
  }

  /** `recv_request`; `header` is the received part of its 6-byte header. */
  datatype Req = Req(recved: nat, cmdLen: int, header: seq<byte>, buf: Option<Buf>, phase: Phase)

  const ReqInit := Req(0, 0, [], None, Waiting)

  function Want(st: Req): int {
    if !st.phase.Waiting? then 0 else if st.recved < 6 then 6 - st.recved else st.cmdLen - st.recved
  }

  /** After the header: allocate, set the data window, copy the header in, and go on with the body. */
  function Open(env: Env, st: Req): Req
    requires |st.header| == 6
  {
    var h := Parse(st.header);
    match env.place(h)
    case None => st.(phase := Fault)
    case Some(p) =>
      if p.begin + 6 > p.capacity then st.(phase := Fault)
      else
        Settle(st.(cmdLen := CommandLength(h),
                   buf := Some(Buf(p.begin, U32(h.length + 4),
                                  Put(seq(p.capacity, i requires i >= 0 => env.junk(i)), p.begin, st.header)))))
  }

  function Settle(st: Req): Req {
    if st.recved >= st.cmdLen then st.(phase := Resumed(st.recved)) else st
  }

  function Deliver(env: Env, st: Req, b: seq<byte>): Req {
    if st.recved < 6 then
      var st1 := st.(recved := st.recved + |b|, header := st.header + b);
      if |st1.header| == 6 then Open(env, st1) else st1
    else
      match st.buf
      case None => st.(phase := Fault)
      case Some(f) =>
        if f.begin + st.recved + |b| > |f.mem| then st.(phase := Fault)
        else
          Settle(st.(recved := st.recved + |b|,
                     buf := Some(f.(mem := Put(f.mem, f.begin + st.recved, b)))))
  }

  function Step(env: Env, st: Req, ev: Io): Req {
    if !st.phase.Waiting? then st
    else
      match ev
      case Data(b) => Deliver(env, st, b)
      case Ready => st
      case Again => st
      case Intr => st
      case _ => st.(phase := Resumed(EndResult(ev).value))
  }

  function Fold(env: Env, st: Req, log: seq<Io>): Req {
    if log == [] then st else Step(env, Fold(env, st, log[..|log| - 1]), log[|log| - 1])
  }

  /** No `recv` returned more than it was asked for, or data when nothing was asked. */
  predicate Legal(env: Env, st: Req, log: seq<Io>) {
    log != [] ==>
      && Legal(env, st, log[..|log| - 1])
      && (log[|log| - 1].Data? ==> 1 <= |log[|log| - 1].bytes| <= Want(Fold(env, st, log[..|log| - 1])))
  }

  lemma FoldAppend(env: Env, st: Req, log: seq<Io>, ev: Io)
    ensures Fold(env, st, log + [ev]) == Step(env, Fold(env, st, log), ev)
    ensures Bytes(log + [ev]) == Bytes(log) + (if ev.Data? then ev.bytes else [])
    ensures Legal(env, st, log + [ev]) <==>
              Legal(env, st, log) && (ev.Data? ==> 1 <= |ev.bytes| <= Want(Fold(env, st, log)))
  {
    assert (log + [ev])[..|log|] == log;
  }

  // ------------------------------------------------------------------ cutting does not matter

  /** The frame announced by `h` fits where it is placed. */
  predicate Roomy(env: Env, h: Header) {
    && 2 <= h.length && h.length + 4 < 0x8000_0000
    && env.place(h).Some?
    && env.place(h).value.begin + h.length + 4 <= env.place(h).value.capacity
  }

  predicate RoomyStart(env: Env, s: seq<byte>) {
    |s| >= 6 ==> Roomy(env, Parse(s))
  }

  /** The state after receiving exactly the bytes `s`: the header so far, or the whole of `s` at the
      start of the frame's window. */
  function Whole(env: Env, s: seq<byte>): Req
    requires RoomyStart(env, s)
    requires |s| >= 6 ==> |s| <= Parse(s).length + 4
  {
    if |s| < 6 then Req(|s|, 0, s, None, Waiting)
    else
      var h := Parse(s);
      var p := env.place(h).value;
      Req(|s|, h.length + 4, s[..6],
          Some(Buf(p.begin, h.length + 4, Put(seq(p.capacity, i requires i >= 0 => env.junk(i)), p.begin, s))),
          if |s| == h.length + 4 then Resumed(|s|) else Waiting)
  }

  lemma PutTwice(mem: seq<byte>, at: nat, x: seq<byte>, y: seq<byte>)
    requires at + |x| + |y| <= |mem|
    ensures Put(Put(mem, at, x), at + |x|, y) == Put(mem, at, x + y)
  {
  }

  /** Bytes put at the start of a window are its first bytes. */
  lemma PutWindow(mem: seq<byte>, at: nat, bytes: seq<byte>, len: nat)
    requires |bytes| <= len && at + len <= |mem|
    ensures Window(Buf(at, len, Put(mem, at, bytes)))[..|bytes|] == bytes
  {
    var after := Put(mem, at, bytes);
    assert after[at..at + len][..|bytes|] == after[at..at + |bytes|];
    assert forall i :: 0 <= i < |bytes| ==> after[at + i] == bytes[i];
  }

  lemma ParsePrefix(s: seq<byte>, b: seq<byte>)
    requires |s| >= 6
    ensures Parse(s + b) == Parse(s) && (s + b)[..6] == s[..6] && Parse(s[..6]) == Parse(s)
  {
  }

  lemma WholeHeader(env: Env, s: seq<byte>, b: seq<byte>)
    requires |s| < 6 && 1 <= |b| <= 6 - |s| && RoomyStart(env, s + b)
    ensures Deliver(env, Whole(env, s), b) == Whole(env, s + b)
  {
    if |s + b| == 6 {
      assert (s + b)[..6] == s + b;
    }
  }

  lemma WholeBody(env: Env, s: seq<byte>, b: seq<byte>)
    requires |s| >= 6 && RoomyStart(env, s) && |s| < Parse(s).length + 4
    requires 1 <= |b| <= Parse(s).length + 4 - |s|
    ensures Parse(s + b) == Parse(s)
    ensures Deliver(env, Whole(env, s), b) == Whole(env, s + b)
  {
    ParsePrefix(s, b);
    var p := env.place(Parse(s)).value;
    PutTwice(seq(p.capacity, i requires i >= 0 => env.junk(i)), p.begin, s, b);
  }

  /** The state of a receiver depends on the bytes it got and on the first terminal event only. */
  function Canonical(env: Env, s: seq<byte>, end: Option<int>): Req
    requires RoomyStart(env, s)
    requires |s| >= 6 ==> |s| <= Parse(s).length + 4
  {
    var w := Whole(env, s);
    if w.phase.Waiting? && end.Some? then w.(phase := Resumed(end.value)) else w
  }

  /** For every legal log of a receiver whose frame fits its buffer, the receiver never takes a byte beyond
      the frame and its state is the canonical one. */
  lemma {:induction false} FoldIsCanonical(env: Env, log: seq<Io>)
    requires Legal(env, ReqInit, log) && RoomyStart(env, Bytes(log))
    ensures |Bytes(log)| >= 6 ==> |Bytes(log)| <= Parse(Bytes(log)).length + 4
    ensures Fold(env, ReqInit, log) == Canonical(env, Bytes(log), FirstEnd(log))
  {
    if log != [] {
      var n := |log| - 1;
      var before, s := log[..n], Bytes(log[..n]);
      assert RoomyStart(env, s) by {
        if |s| >= 6 && log[n].Data? {
          ParsePrefix(s, log[n].bytes);
        }
      }
      FoldIsCanonical(env, before);
      if log[n].Data? {
        var b := log[n].bytes;
        assert FirstEnd(before).None?;
        if |s| < 6 {
          WholeHeader(env, s, b);
        } else {
          WholeBody(env, s, b);
        }
      } else {
        assert Bytes(log) == s;
      }
    }
  }

  /** Main lemma: two schedules that deliver the same bytes, and whose first terminal events are both a close,
      both a failure, or both missing, leave the receiver in the same state. */
  lemma CuttingDoesNotMatter(env: Env, log: seq<Io>, log': seq<Io>)
    requires Legal(env, ReqInit, log) && Legal(env, ReqInit, log') && RoomyStart(env, Bytes(log))
    requires Bytes(log) == Bytes(log')
    requires (EndedByClose(log) <==> EndedByClose(log')) && (EndedByFailure(log) <==> EndedByFailure(log'))
    ensures Fold(env, ReqInit, log) == Fold(env, ReqInit, log')
    ensures |Bytes(log)| >= 6 ==> |Bytes(log)| <= Parse(Bytes(log)).length + 4
  {
    FoldIsCanonical(env, log);
    FoldIsCanonical(env, log');
    FirstEndReports(log);
    FirstEndReports(log');
    FirstEndValues(log);
    FirstEndValues(log');
  }

  /** What a caller sees: the result is the frame length exactly when the whole frame arrived, and
      then the data window holds exactly the bytes received; otherwise the awaiter is still waiting
      or reports the end of the stream or the error. */
  lemma ReceivesExactlyOneFrame(env: Env, log: seq<Io>)
    requires Legal(env, ReqInit, log) && |Bytes(log)| >= 6 && Roomy(env, Parse(Bytes(log)))
    ensures var s := Bytes(log); var n := Parse(s).length + 4; var st := Fold(env, ReqInit, log);
            && |s| <= n
            && (st.phase == Resumed(n) <==> |s| == n)
            && (|s| < n ==>
                  && (st.phase == Resumed(0) <==> EndedByClose(log))
                  && (st.phase == Resumed(-1) <==> EndedByFailure(log))
                  && (st.phase == Waiting <==> NotEnded(log)))
            && st.buf.Some? && st.buf.value.len == n && WindowIn(st.buf.value)
            && Window(st.buf.value)[..|s|] == s
  {
    FoldIsCanonical(env, log);
    FirstEndValues(log);
    FirstEndReports(log);
    WholeWindow(env, Bytes(log));
  }

  /** The same before the header is complete, and in any buffer: a result of 0 means that the peer closed,
      -1 that something else ended the reception, and an end that meets a waiting receiver is reported
      so. */
  lemma {:induction false} EndIsReported(env: Env, log: seq<Io>)
    requires Legal(env, ReqInit, log)
    ensures var phase := Fold(env, ReqInit, log).phase;
            && (phase == Resumed(0) ==> EndedByClose(log))
            && (phase == Resumed(-1) ==> EndedByFailure(log))
            && (phase == Waiting ==> NotEnded(log))
            && (EndedByClose(log) ==> phase == Resumed(0) || phase.Fault? || (phase.Resumed? && phase.result >= 6))
            && (EndedByFailure(log) ==> phase == Resumed(-1) || phase.Fault? || (phase.Resumed? && phase.result >= 6))
            && (phase.Resumed? ==> phase.result == 0 || phase.result == -1 || phase.result >= 6)
  {
    if log != [] {
      var before, ev := log[..|log| - 1], log[|log| - 1];
      EndIsReported(env, before);
      HeaderSoFar(env, before);
      assert log == before + [ev];
      ReportsOn(before, ev);
      if Fold(env, ReqInit, before).phase.Waiting? {
        ResultStep(env, Fold(env, ReqInit, before), ev);
      }
    }
  }

  lemma ResultStep(env: Env, st: Req, ev: Io)
    requires st.phase.Waiting? && (st.recved < 6 ==> |st.header| == st.recved)
    ensures var phase := Step(env, st, ev).phase;
            && (Ends(ev) ==> phase == Resumed(if ev.Closed? then 0 else -1))
            && (!Ends(ev) ==> !phase.Resumed? || phase.result >= 6)
  {
  }

  /** A waiting receiver has as many header bytes as it has counted, up to six. */
  lemma {:induction false} HeaderSoFar(env: Env, log: seq<Io>)
    requires Legal(env, ReqInit, log)
    ensures var st := Fold(env, ReqInit, log); st.recved < 6 ==> |st.header| == st.recved
  {
    if log != [] {
      HeaderSoFar(env, log[..|log| - 1]);
    }
  }

  lemma WholeWindow(env: Env, s: seq<byte>)
    requires |s| >= 6 && Roomy(env, Parse(s)) && |s| <= Parse(s).length + 4
    ensures var b := Whole(env, s).buf; b.Some? && WindowIn(b.value) && Window(b.value)[..|s|] == s
  {
    var p := env.place(Parse(s)).value;
    PutWindow(seq(p.capacity, i requires i >= 0 => env.junk(i)), p.begin, s, Parse(s).length + 4);
  }

  lemma {:induction false} FirstEndValues(log: seq<Io>)
    ensures FirstEnd(log).Some? ==> FirstEnd(log).value == 0 || FirstEnd(log).value == -1
  {
    if log != [] {
      FirstEndValues(log[..|log| - 1]);
    }
  }

  // ------------------------------------------------------------------ placement by a fresh allocation

  function FreshPlace(h: Header): Option<Place> {
    if IsRequest(RequestFor(h)) then Some(Place(Capacity(h), DataBegin(h))) else None
  }

  function FreshEnv(junk: nat -> byte): Env {
    Env(FreshPlace, junk)
  }

  /** A frame has room in a block that was allocated for it exactly when it is well-formed. */
  lemma FreshRoomyIff(h: Header, junk: nat -> byte)
    requires OnWire(h)
    ensures Roomy(FreshEnv(junk), h) <==> WellFormed(h)
  {
    if 2 <= h.length && h.length + 4 < 0x8000_0000 {
      WindowInsideIff(h);
    }
  }
}
