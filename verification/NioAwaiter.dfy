/** The event handlers of `nio_awaiter.cpp` as they are written: loops over system calls that update
    the awaiter's fields, each proved to compute the corresponding machine of `Receive` or
    `Transport` on exactly the results those calls returned. */
module NioAwaiter {
  import opened Common
  import opened Bits
  import opened Wire
  import opened Receive
  import opened Transport

  /** What the kernel answers to the next calls; a count is cut to what is legal at that moment. */
  datatype Answer = Count(n: nat) | WouldBlock | Interrupt | EndOfStream | OtherError

  function Clamp(n: nat, want: nat, available: nat): (k: nat)
    requires want > 0 && available > 0
    ensures 1 <= k <= want && k <= available
  {
    var k := if n == 0 then 1 else n;
    var k' := if k > want then want else k;
    if k' > available then available else k'
  }

  /** A non-blocking socket: bytes that have arrived, bytes handed to the kernel, and what happened
      on it so far. */
  class Socket {
    var script: seq<Answer>
    var incoming: seq<byte>
    var outgoing: seq<byte>
    ghost var log: seq<Io>
    ghost var outLog: seq<OutIo>

    constructor (script: seq<Answer>, incoming: seq<byte>)
      ensures this.script == script && this.incoming == incoming && outgoing == [] && log == [] && outLog == []
    {
      this.script, this.incoming, outgoing := script, incoming, [];
      log, outLog := [], [];
    }

    method Recv(want: nat) returns (ev: Io)
      requires want > 0
      modifies this
      ensures log == old(log) + [ev] && outLog == old(outLog) && outgoing == old(outgoing)
      ensures ev.Data? ==> 1 <= |ev.bytes| <= want && old(incoming) == ev.bytes + incoming
      ensures !ev.Data? ==> incoming == old(incoming)
      ensures ev.Data? || ev == Again || ev == Intr || ev == Closed || ev == Failed
      ensures ev == Again || |script| < |old(script)|
    {
      if script == [] {
        ev := Again;
      } else {
        var a := script[0];
        script := script[1..];
        match a {
          case Count(n) =>
            if incoming == [] {
              ev := Again;
            } else {
              var k := Clamp(n, want, |incoming|);
              ev := Data(incoming[..k]);
              incoming := incoming[k..];
            }
          case WouldBlock => ev := Again;
          case Interrupt => ev := Intr;
          case EndOfStream => ev := Closed;
          case OtherError => ev := Failed;
        }
      }
      log := log + [ev];
    }

    method Send(data: seq<byte>) returns (ev: OutIo)
      requires data != []
      modifies this
      ensures outLog == old(outLog) + [ev] && log == old(log) && incoming == old(incoming)
      ensures ev.Took? ==> 1 <= ev.n <= |data| && outgoing == old(outgoing) + data[..ev.n]
      ensures !ev.Took? ==> outgoing == old(outgoing)
      ensures ev != Writable && ev != Expired
      ensures ev == Full || |script| < |old(script)|
    {
      if script == [] {
        ev := Full;
      } else {
        var a := script[0];
        script := script[1..];
        match a {
          case Count(n) =>
            var k := Clamp(n, |data|, |data|);
            ev := Took(k);
            outgoing := outgoing + data[..k];
          case WouldBlock => ev := Full;
          case Interrupt => ev := Interrupted;
          case EndOfStream => ev := Refused;
          case OtherError => ev := Refused;
        }
      }
      outLog := outLog + [ev];
    }
  }

  /** What the loop calls an awaiter for: an event on its descriptor, or its timer. */
  datatype LoopEvent = File(event: int) | Timer

  predicate Readable(e: LoopEvent) {
    e.File? && e.event > 0
  }

  /** The part of a log written since it was `before`. */
  function Since<T>(log: seq<T>, before: seq<T>): seq<T>
    requires before <= log
  {
    log[|before|..]
  }

  /** The log has grown, and `ev` is its last entry. */
  predicate EndsWith<T(==)>(log: seq<T>, before: seq<T>, ev: T) {
    |before| < |log| && log[|log| - 1] == ev
  }

  /** The last system call tells how an event ended: EAGAIN leaves the awaiter waiting, a close gives 0 and
      an error gives -1. */
  predicate SaysWhy(log: seq<Io>, before: seq<Io>, phase: Phase) {
    && (phase == Waiting <==> EndsWith(log, before, Again))
    && (phase == Resumed(0) <==> EndsWith(log, before, Closed))
    && (phase == Resumed(-1) <==> EndsWith(log, before, Failed))
  }

  /** The last system call brought data. */
  predicate GotData(log: seq<Io>, before: seq<Io>) {
    |before| < |log| && log[|log| - 1].Data?
  }

  lemma SinceAppend<T>(log: seq<T>, before: seq<T>, ev: T)
    requires before <= log
    ensures before <= log + [ev] && Since(log + [ev], before) == Since(log, before) + [ev]
  {
  }

  lemma ArrivedAppend(made: seq<Io>, ev: Io, before: seq<byte>, after: seq<byte>)
    requires before == (if ev.Data? then ev.bytes else []) + after
    ensures Bytes(made + [ev]) + after == Bytes(made) + before
  {
    assert (made + [ev])[..|made|] == made;
  }

  /** Consecutive histories compose. */
  lemma {:induction false} FoldConcat(env: Env, st: Req, a: seq<Io>, b: seq<Io>)
    ensures Fold(env, st, a + b) == Fold(env, Fold(env, st, a), b)
    ensures Bytes(a + b) == Bytes(a) + Bytes(b)
    ensures Legal(env, st, a) && Legal(env, Fold(env, st, a), b) ==> Legal(env, st, a + b)
  {
    if b == [] {
      assert a + b == a;
    } else {
      var front, last := b[..|b| - 1], b[|b| - 1];
      FoldConcat(env, st, a, front);
      assert (a + b)[..|a + b| - 1] == a + front && (a + b)[|a + b| - 1] == last;
      var tail := if last.Data? then last.bytes else [];
      assert Bytes(a) + Bytes(front) + tail == Bytes(a) + (Bytes(front) + tail);
    }
  }

  /** The fields of a waiting `recv_request` fit together. */
  predicate ReqOk(st: Req) {
    && st.phase.Waiting?
    && (st.recved < 6 ==> |st.header| == st.recved)
    && (st.recved >= 6 ==> |st.header| == 6 && st.buf.Some? && st.recved < st.cmdLen)
  }

  class RecvRequest {
    const env: Env
    var recved: nat
    var cmdLen: int
    var header: seq<byte>
    var buf: Option<Buf>
    var phase: Phase

    ghost function State(): Req
      reads this
    {
      Req(recved, cmdLen, header, buf, phase)
    }

    constructor (env: Env)
      ensures this.env == env && State() == ReqInit
    {
      this.env := env;
      recved, cmdLen, header, buf, phase := 0, 0, [], None, Waiting;
    }

    /** `made` are the results of the calls made since the log was `before`, in legal order, and the
        bytes taken from the socket are exactly those they delivered. */
    ghost predicate Made(sock: Socket, st: Req, before: seq<Io>, arrived: seq<byte>)
      reads sock
    {
      && before <= sock.log
      && Legal(env, st, Since(sock.log, before))
      && arrived == Bytes(Since(sock.log, before)) + sock.incoming
    }

    /** The handler: it returns to the loop still waiting exactly after re-arming on EAGAIN, and its
        state is the machine's state after exactly the results its calls returned. */
    method OnFileEvent(sock: Socket, event: int) returns (rearmed: bool)
      requires ReqOk(State())
      modifies this, sock
      ensures Made(sock, old(State()), old(sock.log), old(sock.incoming))
      ensures event <= 0 ==> sock.log == old(sock.log) && State() == Step(env, old(State()), PollError)
      ensures event > 0 ==> State() == Fold(env, old(State()), Since(sock.log, old(sock.log)))
      ensures phase == Resumed(0) <==> event > 0 && EndsWith(sock.log, old(sock.log), Closed)
      ensures phase == Resumed(-1) <==> event <= 0 || EndsWith(sock.log, old(sock.log), Failed)
      ensures rearmed <==> phase.Waiting?
      ensures rearmed <==> event > 0 && EndsWith(sock.log, old(sock.log), Again)
      ensures rearmed ==> ReqOk(State())
    {
      if event <= 0 {
        phase := Resumed(-1);
        return false;
      }
      if recved < 6 {
        var bodyNext := ReadHeader(sock);
        if !bodyNext {
          return phase.Waiting?;
        }
      }
      rearmed := ReadBody(sock, old(State()), old(sock.log), old(sock.incoming));
    }

    /** `_result` keeps its initial value, -1. */
    method OnTimeEvent()
      requires phase.Waiting?
      modifies this
      ensures State() == Step(env, old(State()), TimedOut) == old(State()).(phase := Resumed(-1))
    {
      phase := Resumed(-1);
    }

    /** One call from the loop; `made` is what happened to the awaiter in it. */
    method OnEvent(sock: Socket, event: LoopEvent) returns (ghost made: seq<Io>)
      requires ReqOk(State())
      modifies this, sock
      ensures Legal(env, old(State()), made) && State() == Fold(env, old(State()), made)
      ensures old(sock.incoming) == Bytes(made) + sock.incoming
      ensures phase.Waiting? ==> ReqOk(State()) && made != [] && Readable(event)
    {
      match event {
        case File(e) =>
          var _ := OnFileEvent(sock, e);
          made := if e <= 0 then [PollError] else Since(sock.log, old(sock.log));
        case Timer =>
          OnTimeEvent();
          made := [TimedOut];
      }
      assert |made| == 1 ==> made[..0] == [];
    }

    /** The whole life of an awaiter: the loop reports `events` on its descriptor, or that its timer
        is due, one after another until it is resumed.  It is still waiting only if all of them were
        served and left it so.  If the header announces a frame that fits, a result equal to the frame's
        length means that exactly the frame was taken from the socket and fills the window. */
    method Serve(sock: Socket, events: seq<LoopEvent>) returns (ghost history: seq<Io>)
      requires State() == ReqInit
      modifies this, sock
      ensures Legal(env, ReqInit, history) && State() == Fold(env, ReqInit, history)
      ensures old(sock.incoming) == Bytes(history) + sock.incoming
      ensures phase.Waiting? ==> |events| <= |history| && forall i :: 0 <= i < |events| ==> Readable(events[i])
      ensures phase.Resumed? && phase.result <= 0 ==>
                (phase.result == 0 <==> EndedByClose(history)) && (phase.result == -1 <==> EndedByFailure(history))
      ensures var s := Bytes(history);
              |s| >= 6 && Roomy(env, Parse(s)) ==>
                && |s| <= Parse(s).length + 4
                && (phase == Resumed(Parse(s).length + 4) <==> |s| == Parse(s).length + 4)
                && buf.Some? && buf.value.len == Parse(s).length + 4
                && WindowIn(buf.value) && Window(buf.value)[..|s|] == s
    {
      history := [];
      for i := 0 to |events|
        invariant Legal(env, ReqInit, history) && State() == Fold(env, ReqInit, history)
        invariant old(sock.incoming) == Bytes(history) + sock.incoming
        invariant phase.Waiting? ==> ReqOk(State()) && i <= |history|
        invariant phase.Waiting? ==> forall k :: 0 <= k < i ==> Readable(events[k])
      {
        if phase.Waiting? {
          ghost var made := OnEvent(sock, events[i]);
          FoldConcat(env, ReqInit, history, made);
          assert Bytes(history) + (Bytes(made) + sock.incoming) == Bytes(history) + Bytes(made) + sock.incoming;
          history := history + made;
        }
      }
      EndIsReported(env, history);
      EndIsOne(history);
      var s := Bytes(history);
      if |s| >= 6 && Roomy(env, Parse(s)) {
        ReceivesExactlyOneFrame(env, history);
      }
    }

    /** One `recv` for what the machine asks for next. */
    method ReadSome(sock: Socket, want: nat, ghost st0: Req, ghost before: seq<Io>, ghost arrived: seq<byte>)
      returns (ev: Io)
      requires Made(sock, st0, before, arrived)
      requires want > 0 && want == Want(Fold(env, st0, Since(sock.log, before)))
      modifies sock
      ensures Made(sock, st0, before, arrived)
      ensures Fold(env, st0, Since(sock.log, before)) == Step(env, old(Fold(env, st0, Since(sock.log, before))), ev)
      ensures ev.Data? ==> 1 <= |ev.bytes| <= want
      ensures ev.Data? || ev == Again || ev == Intr || ev == Closed || ev == Failed
      ensures ev == Again || |sock.script| < |old(sock.script)|
      ensures sock.log == old(sock.log) + [ev]
    {
      ghost var log, left := sock.log, sock.incoming;
      ev := sock.Recv(want);
      FoldAppend(env, st0, Since(log, before), ev);
      SinceAppend(log, before, ev);
      ArrivedAppend(Since(log, before), ev, left, sock.incoming);
    }

    /** First loop and allocation; `bodyNext` says that the body is to be read next. */
    method ReadHeader(sock: Socket) returns (bodyNext: bool)
      requires ReqOk(State()) && recved < 6
      modifies this, sock
      ensures Made(sock, old(State()), old(sock.log), old(sock.incoming))
      ensures var now := Fold(env, old(State()), Since(sock.log, old(sock.log)));
              if bodyNext then phase.Waiting? && recved == 6 == |header| && buf.Some? && Settle(State()) == now
              else State() == now && (phase.Waiting? ==> ReqOk(State()))
      ensures if bodyNext then GotData(sock.log, old(sock.log)) else SaysWhy(sock.log, old(sock.log), phase)
    {
      ghost var st0, before := State(), sock.log;
      while recved < 6
        invariant recved <= 6 && |header| == recved && phase.Waiting? && buf == st0.buf && cmdLen == st0.cmdLen
        invariant Made(sock, st0, before, old(sock.incoming))
        invariant Fold(env, st0, Since(sock.log, before)) == if recved == 6 then Open(env, State()) else State()
        invariant recved < 6 || GotData(sock.log, before)
        decreases |sock.script|
      {
        var ev := ReadSome(sock, 6 - recved, st0, before, old(sock.incoming));
        match ev {
          case Data(b) =>
            header := header + b;
            recved := recved + |b|;
          case Again =>
            return false;
          case Intr =>
          case Closed =>
            phase := Resumed(0);
            return false;
          case Failed =>
            phase := Resumed(-1);
            return false;
        }
      }
      bodyNext := Allocate();
    }

    /** Allocation, the data window and the copy of the header. */
    method Allocate() returns (ok: bool)
      requires phase.Waiting? && recved == 6 == |header|
      modifies this
      ensures Open(env, old(State())) == if ok then Settle(State()) else State()
      ensures if ok then phase.Waiting? && buf.Some? else phase.Fault?
      ensures recved == 6 && header == old(header)
    {
      var h := Parse(header);
      match env.place(h) {
        case None =>
          phase := Fault;
          ok := false;
        case Some(p) =>
          if p.begin + 6 > p.capacity {
            phase := Fault;
            ok := false;
          } else {
            buf := Some(Buf(p.begin, U32(h.length + 4),
                            Put(seq(p.capacity, i requires i >= 0 => env.junk(i)), p.begin, header)));
            cmdLen := CommandLength(h);
            ok := true;
          }
      }
    }

    /** `recv` writes behind what has arrived, or outside the buffer. */
    method Store(b: seq<byte>)
      requires phase.Waiting? && recved >= 6 && buf.Some?
      modifies this
      ensures Deliver(env, old(State()), b) == if phase.Fault? then State() else Settle(State())
      ensures phase == Waiting || phase == Fault
      ensures header == old(header) && cmdLen == old(cmdLen) && buf.Some? && recved >= old(recved)
    {
      var f := buf.value;
      if f.begin + recved + |b| > |f.mem| {
        phase := Fault;
      } else {
        buf := Some(f.(mem := Put(f.mem, f.begin + recved, b)));
        recved := recved + |b|;
      }
    }

    /** Second loop. */
    method ReadBody(sock: Socket, ghost st0: Req, ghost before: seq<Io>, ghost arrived: seq<byte>)
      returns (rearmed: bool)
      requires phase.Waiting? && |header| == 6 && recved >= 6 && buf.Some?
      requires Made(sock, st0, before, arrived)
      requires Settle(State()) == Fold(env, st0, Since(sock.log, before))
      requires recved < cmdLen || GotData(sock.log, before)
      modifies this, sock
      ensures Made(sock, st0, before, arrived)
      ensures State() == Fold(env, st0, Since(sock.log, before))
      ensures SaysWhy(sock.log, before, phase)
      ensures rearmed <==> phase.Waiting?
      ensures rearmed ==> ReqOk(State())
    {
      while recved < cmdLen
        invariant phase.Waiting? && |header| == 6 && recved >= 6 && buf.Some?
        invariant Made(sock, st0, before, arrived)
        invariant Settle(State()) == Fold(env, st0, Since(sock.log, before))
        invariant recved < cmdLen || GotData(sock.log, before)
        decreases |sock.script|
      {
        var ev := ReadSome(sock, cmdLen - recved, st0, before, arrived);
        match ev {
          case Data(b) =>
            Store(b);
            if phase.Fault? {
              return false;
            }
          case Again =>
            return true;
          case Intr =>
          case Closed =>
            phase := Resumed(0);
            return false;
          case Failed =>
            phase := Resumed(-1);
            return false;
        }
      }
      phase := Resumed(recved);
      rearmed := false;
    }
  }

  // ------------------------------------------------------------------ recv_lazy

  lemma LazyAppend(st: Lazy, log: seq<Io>, ev: Io)
    ensures LazyFold(st, log + [ev]) == LazyStep(LazyFold(st, log), ev)
    ensures Bytes(log + [ev]) == Bytes(log) + (if ev.Data? then ev.bytes else [])
    ensures LazyLegal(st, log + [ev]) <==>
              LazyLegal(st, log) && (ev.Data? ==> 1 <= |ev.bytes| <= LazyWant(LazyFold(st, log)))
  {
    assert (log + [ev])[..|log|] == log;
  }

  class RecvLazy {
    const size: int
    var got: seq<byte>
    var phase: Phase

    ghost function State(): Lazy
      reads this
    {
      Lazy(size, got, phase)
    }

    constructor (size: int)
      ensures State() == LazyInit(size)
    {
      this.size := size;
      got, phase := [], Waiting;
    }

    ghost predicate Made(sock: Socket, st: Lazy, before: seq<Io>, arrived: seq<byte>)
      reads sock
    {
      && before <= sock.log
      && LazyLegal(st, Since(sock.log, before))
      && arrived == Bytes(Since(sock.log, before)) + sock.incoming
    }

    method ReadSome(sock: Socket, want: nat, ghost st0: Lazy, ghost before: seq<Io>, ghost arrived: seq<byte>)
      returns (ev: Io)
      requires Made(sock, st0, before, arrived)
      requires want > 0 && want == LazyWant(LazyFold(st0, Since(sock.log, before)))
      modifies sock
      ensures Made(sock, st0, before, arrived)
      ensures LazyFold(st0, Since(sock.log, before)) == LazyStep(old(LazyFold(st0, Since(sock.log, before))), ev)
      ensures ev.Data? ==> 1 <= |ev.bytes| <= want
      ensures ev.Data? || ev == Again || ev == Intr || ev == Closed || ev == Failed
      ensures ev == Again || |sock.script| < |old(sock.script)|
      ensures sock.log == old(sock.log) + [ev]
    {
      ghost var log, left := sock.log, sock.incoming;
      ev := sock.Recv(want);
      LazyAppend(st0, Since(log, before), ev);
      SinceAppend(log, before, ev);
      ArrivedAppend(Since(log, before), ev, left, sock.incoming);
    }

    method OnTimeEvent()
      requires phase.Waiting?
      modifies this
      ensures State() == LazyStep(old(State()), TimedOut) == old(State()).(phase := Resumed(-1))
    {
      phase := Resumed(-1);
    }

    /** A readable event starts the loop, which computes the machine on what its calls returned. */
    method OnFileEvent(sock: Socket, event: int) returns (rearmed: bool)
      requires phase.Waiting?
      modifies this, sock
      ensures Made(sock, LazyStep(old(State()), Ready), old(sock.log), old(sock.incoming))
      ensures event > 0 ==> State() == LazyFold(LazyStep(old(State()), Ready), Since(sock.log, old(sock.log)))
      ensures event <= 0 ==> sock.log == old(sock.log) && State() == LazyStep(old(State()), PollError)
      ensures event <= 0 ==> phase == Resumed(-1)
      ensures event > 0 && |old(got)| < size ==> SaysWhy(sock.log, old(sock.log), phase)
      ensures event > 0 && |old(got)| >= size ==> phase == Resumed(|old(got)|) && sock.log == old(sock.log)
      ensures rearmed <==> phase.Waiting?
    {
      ghost var before, st1 := sock.log, LazyStep(State(), Ready);
      if event <= 0 {
        phase := Resumed(-1);
        return false;
      }
      while |got| < size
        invariant phase.Waiting? && Made(sock, st1, before, old(sock.incoming))
        invariant LazySettle(State()) == LazyFold(st1, Since(sock.log, before))
        invariant if |old(got)| < size then |got| < size || (GotData(sock.log, before) && |got| > 0)
                  else got == old(got) && sock.log == before
        decreases |sock.script|
      {
        var ev := ReadSome(sock, size - |got|, st1, before, old(sock.incoming));
        match ev {
          case Data(b) =>
            got := got + b;
          case Again =>
            return true;
          case Intr =>
          case Closed =>
            phase := Resumed(0);
            return false;
          case Failed =>
            phase := Resumed(-1);
            return false;
        }
      }
      phase := Resumed(|got|);
      rearmed := false;
    }
  }

  // ------------------------------------------------------------------ send_lazy

  lemma OutExtends(base: seq<byte>, buf: seq<byte>, a: nat, b: nat, n: nat)
    requires a <= b <= b + n <= |buf|
    ensures base + buf[a..b] + buf[b..b + n] == base + buf[a..b + n]
  {
    assert buf[a..b] + buf[b..b + n] == buf[a..b + n];
    Regroup(base, buf[a..b], buf[b..b + n]);
  }

  lemma TookNext(base: seq<byte>, buf: seq<byte>, a: nat, b: nat, left: seq<byte>, n: nat)
    requires a <= b <= b + n <= |buf| && left == buf[b..]
    ensures base + buf[a..b] + left[..n] == base + buf[a..b + n]
  {
    assert left[..n] == buf[b..b + n];
    OutExtends(base, buf, a, b, n);
  }

  class SendLazy {
    const buf: seq<byte>
    var sent: nat
    var phase: Phase

    ghost function State(): Sender
      reads this
    {
      Sender(buf, sent, phase)
    }

    constructor (buf: seq<byte>)
      ensures State() == SendInit(buf)
    {
      this.buf := buf;
      sent, phase := 0, Waiting;
    }

    method OnTimeEvent()
      requires phase.Waiting?
      modifies this
      ensures State() == SendStep(old(State()), Expired) == old(State()).(phase := Resumed(0))
    {
      phase := Resumed(0);
    }

    /** The results since the log was `before` take the machine from `st1` to `now`. */
    ghost predicate Made(sock: Socket, st1: Sender, before: seq<OutIo>, now: Sender)
      reads sock
    {
      before <= sock.outLog && SendFold(st1, Since(sock.outLog, before)) == now
    }

    /** The kernel was handed the buffer from `start` on, after `base`. */
    ghost predicate Handed(sock: Socket, start: nat, base: seq<byte>)
      reads this, sock
    {
      start <= sent <= |buf| && sock.outgoing == base + buf[start..sent]
    }

    /** A writable event: the awaiter computes the machine on exactly the results its calls returned,
        and what reaches the kernel continues the buffer where the last event left off. */
    method OnFileEvent(sock: Socket, event: int) returns (rearmed: bool)
      requires phase.Waiting? && SendOk(State())
      modifies this, sock
      ensures event > 0 ==> Made(sock, SendStep(old(State()), Writable), old(sock.outLog), State())
      ensures event <= 0 ==> sock.outLog == old(sock.outLog) && State() == SendStep(old(State()), Refused)
      ensures SendOk(State()) && Handed(sock, old(sent), old(sock.outgoing))
      ensures rearmed <==> phase.Waiting?
      ensures rearmed <==> event > 0 && EndsWith(sock.outLog, old(sock.outLog), Full)
      ensures phase == Resumed(-1) <==> event <= 0 || EndsWith(sock.outLog, old(sock.outLog), Refused)
      ensures !rearmed ==> phase == Resumed(-1) || (phase == Resumed(|buf|) && sent == |buf|)
    {
      ghost var before, st1 := sock.outLog, SendStep(State(), Writable);
      if event <= 0 {
        phase := Resumed(-1);
        return false;
      }
      while sent < |buf|
        invariant phase.Waiting? && Handed(sock, old(sent), old(sock.outgoing))
        invariant Made(sock, st1, before, SendSettle(State()))
        invariant sent < |buf| || !(EndsWith(sock.outLog, before, Full) || EndsWith(sock.outLog, before, Refused))
        decreases |sock.script|
      {
        var ev := SendSome(sock, st1, before, State(), old(sent), old(sock.outgoing));
        match ev {
          case Took(n) =>
            sent := sent + n;
          case Full =>
            return true;
          case Interrupted =>
          case Refused =>
            phase := Resumed(-1);
            return false;
        }
      }
      phase := Resumed(sent);
      rearmed := false;
    }

    /** One `send` of what is left of the buffer. */
    method SendSome(sock: Socket, ghost st1: Sender, ghost before: seq<OutIo>, ghost now: Sender,
                    ghost start: nat, ghost base: seq<byte>)
      returns (ev: OutIo)
      requires sent < |buf| && Made(sock, st1, before, now) && Handed(sock, start, base)
      modifies sock
      ensures Made(sock, st1, before, SendStep(now, ev))
      ensures ev.Took? ==> 1 <= ev.n <= |buf| - sent && sock.outgoing == base + buf[start..sent + ev.n]
      ensures !ev.Took? ==> Handed(sock, start, base)
      ensures ev.Took? || ev == Full || ev == Interrupted || ev == Refused
      ensures ev == Full || |sock.script| < |old(sock.script)|
      ensures sock.outLog == old(sock.outLog) + [ev]
    {
      ghost var log := sock.outLog;
      var left := buf[sent..];
      ev := sock.Send(left);
      SendFoldAppend(st1, Since(log, before), ev);
      SinceAppend(log, before, ev);
      if ev.Took? {
        TookNext(base, buf, start, sent, left, ev.n);
      }
    }
  }
}
