/** A `send_lazy` loop and a `recv_request` loop joined by a FIFO byte channel, next to other clients of
    the receiver's buffer pool: a list of well-formed frames is decoded to the same list, under every
    interleaving of partial sends, partial receives, wake-ups, retries and pool operations, exactly
    when no recycled block can be too short for one of them. */
module Transport {
  import opened Common
  import opened BufferPool
  import opened Recycling
  import opened Wire
  import opened Receive
  import opened Overrun
  import opened Placement

  // ------------------------------------------------------------------ send_lazy

  datatype OutIo =
    | Took(n: nat)     // send returned a positive count
    | Full             // EAGAIN: re-armed
    | Interrupted      // EINTR: repeated
    | Refused          // send returned 0, another error, or epoll reported one
    | Expired          // the awaiter's timer fires
    | Writable         // the loop reports the descriptor writable

  datatype Sender = Sender(buf: seq<byte>, sent: nat, phase: Phase)

  function SendInit(buf: seq<byte>): Sender {
    Sender(buf, 0, Waiting)
  }

  function SendSettle(st: Sender): Sender {
    if st.sent >= |st.buf| then st.(phase := Resumed(st.sent)) else st
  }

  /** A refused send resumes with the initial `_result`, -1, and an expired one with 0. */
  function SendStep(st: Sender, ev: OutIo): Sender {
    if !st.phase.Waiting? then st
    else
      match ev
      case Took(n) => SendSettle(st.(sent := st.sent + n))
      case Writable => SendSettle(st)
      case Refused => st.(phase := Resumed(-1))
      case Expired => st.(phase := Resumed(0))
      case _ => st
  }

  /** What a legal result of `send` puts on the channel. */
  predicate SendLegal(st: Sender, ev: OutIo) {
    ev.Took? ==> st.phase.Waiting? && 1 <= ev.n <= |st.buf| - st.sent
  }

  function Sends(st: Sender, ev: OutIo): seq<byte>
    requires SendLegal(st, ev) && st.sent <= |st.buf|
  {
    if ev.Took? then st.buf[st.sent..st.sent + ev.n] else []
  }

  function SendFold(st: Sender, log: seq<OutIo>): Sender {
    if log == [] then st else SendStep(SendFold(st, log[..|log| - 1]), log[|log| - 1])
  }

  lemma SendFoldAppend(st: Sender, log: seq<OutIo>, ev: OutIo)
    ensures SendFold(st, log + [ev]) == SendStep(SendFold(st, log), ev)
  {
    assert (log + [ev])[..|log|] == log;
  }

  predicate SendStops(ev: OutIo) {
    ev.Refused? || ev.Expired?
  }

  /** The event at `i` stopped a sender that was still waiting. */
  predicate StoppedAt(buf: seq<byte>, log: seq<OutIo>, i: nat, ev: OutIo) {
    i < |log| && log[i] == ev && SendStops(ev) && SendFold(SendInit(buf), log[..i]).phase.Waiting?
  }

  /** What a caller of `send_lazy` sees: -1 if and only if the send was refused, 0 if and only if it timed
      out, and else it still waits or everything was taken. */
  lemma {:induction false} SendReports(buf: seq<byte>, log: seq<OutIo>)
    requires buf != []
    ensures var st := SendFold(SendInit(buf), log);
            && st.buf == buf
            && (st.phase == Resumed(-1) <==> exists i: nat :: StoppedAt(buf, log, i, Refused))
            && (st.phase == Resumed(0) <==> exists i: nat :: StoppedAt(buf, log, i, Expired))
            && (st.phase == Waiting || st.phase == Resumed(-1) || st.phase == Resumed(0)
                || (st.phase == Resumed(st.sent) && st.sent >= |buf|))
  {
    if log != [] {
      var n := |log| - 1;
      SendReports(buf, log[..n]);
      StoppedOn(buf, log, Refused);
      StoppedOn(buf, log, Expired);
    }
  }

  lemma StoppedOn(buf: seq<byte>, log: seq<OutIo>, ev: OutIo)
    requires log != []
    ensures var n := |log| - 1;
            (exists i: nat :: StoppedAt(buf, log, i, ev))
            <==> StoppedAt(buf, log, n, ev) || exists i: nat :: StoppedAt(buf, log[..n], i, ev)
  {
    var n := |log| - 1;
    forall i: nat | i < n
      ensures StoppedAt(buf, log, i, ev) <==> StoppedAt(buf, log[..n], i, ev)
    {
      assert log[..n][..i] == log[..i];
    }
    if i: nat :| StoppedAt(buf, log, i, ev) {
      assert i < n ==> StoppedAt(buf, log[..n], i, ev);
    }
    if i: nat :| StoppedAt(buf, log[..n], i, ev) {
      assert StoppedAt(buf, log, i, ev);
    }
  }

  /** The bytes put on the channel are always the first `sent` bytes of the buffer, in order, and
      a positive result is the buffer's length and means that all of them were taken. */
  predicate SendOk(st: Sender) {
    && st.sent <= |st.buf|
    && (st.phase.Resumed? ==> st.phase.result == -1 || st.phase.result == 0 || st.phase.result == st.sent == |st.buf|)
    && (st.phase.Waiting? && st.sent > 0 ==> st.sent < |st.buf|)
    && !st.phase.Fault?
  }

  lemma SendKeeps(st: Sender, ev: OutIo)
    requires SendOk(st) && SendLegal(st, ev)
    ensures SendOk(SendStep(st, ev)) && SendStep(st, ev).buf == st.buf
    ensures st.buf[..SendStep(st, ev).sent] == st.buf[..st.sent] + Sends(st, ev)
  {
  }

  // ------------------------------------------------------------------ frames and streams

  /** A complete frame as a sender lays it out. */
  predicate IsFrame(f: seq<byte>) {
    |f| >= 6 && WellFormed(Parse(f)) && |f| == Parse(f).length + 4
  }

  function Concat(fs: seq<seq<byte>>): seq<byte> {
    if fs == [] then [] else fs[0] + Concat(fs[1..])
  }

  lemma {:induction false} ConcatAppend(fs: seq<seq<byte>>, f: seq<byte>)
    ensures Concat(fs + [f]) == Concat(fs) + f
  {
    if fs == [] {
    } else {
      ConcatAppend(fs[1..], f);
      assert (fs + [f])[1..] == fs[1..] + [f];
    }
  }

  lemma {:induction false} ConcatSplit(fs: seq<seq<byte>>, k: nat)
    requires k <= |fs|
    ensures Concat(fs) == Concat(fs[..k]) + Concat(fs[k..])
  {
    if k == 0 {
      assert fs[0..] == fs;
    } else {
      ConcatSplit(fs[1..], k - 1);
      assert fs[1..][..k - 1] == fs[..k][1..] && fs[1..][k - 1..] == fs[k..];
    }
  }

  lemma Regroup(a: seq<byte>, b: seq<byte>, c: seq<byte>)
    ensures a + b + c == a + (b + c)
  {
  }

  /** Two prefixes of one stream: the shorter is a prefix of the longer. */
  lemma PrefixOfPrefix(a: seq<byte>, b: seq<byte>, s: seq<byte>)
    requires a <= s && b <= s && |a| <= |b|
    ensures a <= b
  {
  }

  lemma PrefixTrans(a: seq<byte>, b: seq<byte>, s: seq<byte>)
    requires a + b <= s
    ensures a <= s
  {
    assert a <= a + b;
  }

  lemma DropCommon(a: seq<byte>, b: seq<byte>, c: seq<byte>)
    requires a + b <= a + c
    ensures b <= c
  {
    forall i | 0 <= i < |b|
      ensures b[i] == c[i]
    {
      assert (a + b)[|a| + i] == (a + c)[|a| + i];
    }
  }

  /** A receiver fed from the stream of frames `fs` starting at frame `k`: its header, once complete,
      is that of frame `k`. */
  lemma HeaderOfNext(fs: seq<seq<byte>>, k: nat, s: seq<byte>)
    requires Headed(fs)
    requires k <= |fs| && s <= Concat(fs[k..])
    ensures |s| > 0 ==> k < |fs|
    ensures |s| >= 6 ==> Parse(s) == Parse(fs[k])
    ensures k < |fs| && |s| <= |fs[k]| ==> s <= fs[k]
  {
    if k < |fs| {
      assert fs[k..][0] == fs[k];
      var stream := Concat(fs[k..]);
      assert fs[k] <= stream;
      forall i | 0 <= i < 6 && i < |s|
        ensures s[i] == fs[k][i]
      {
        assert stream[i] == fs[k][i];
      }
      if |s| <= |fs[k]| {
        PrefixOfPrefix(s, fs[k], stream);
      }
    }
  }

  /** The frame `f` fits where `env` places it. */
  predicate FrameIn(env: Env, f: seq<byte>) {
    |f| >= 6 && Roomy(env, Parse(f)) && |f| == Parse(f).length + 4
  }

  /** A receiver that reports a positive result has received exactly the next frame. */
  lemma CompletedFrame(env: Env, fs: seq<seq<byte>>, k: nat, log: seq<Io>)
    requires Headed(fs)
    requires k <= |fs| && Bytes(log) <= Concat(fs[k..])
    requires |Bytes(log)| >= 6 ==> k < |fs| && FrameIn(env, fs[k])
    requires Legal(env, ReqInit, log)
    ensures var st := Fold(env, ReqInit, log);
            && !st.phase.Fault?
            && (st.phase.Resumed? && st.phase.result > 0 ==>
                  && k < |fs| && Bytes(log) == fs[k] && st.phase.result == |fs[k]|
                  && st.buf.Some? && WindowIn(st.buf.value) && Window(st.buf.value) == fs[k])
  {
    var s := Bytes(log);
    HeaderOfNext(fs, k, s);
    FoldIsCanonical(env, log);
    FirstEndValues(log);
    if |s| >= 6 {
      ReceivesExactlyOneFrame(env, log);
      var st := Fold(env, ReqInit, log);
      assert |s| == |fs[k]| ==> Window(st.buf.value) == Window(st.buf.value)[..|s|];
    }
  }

  // ------------------------------------------------------------------ the whole system

  /** The sender is at frame `index`; `wire` is everything it ever put on the channel and `chan` the
      part not yet received.  The receiver has decoded `got`, and `inbox` is its current
      `recv_request`; `pool` is the pool it shares with the other clients of its context. */
  datatype Sys = Sys(index: nat, snd: Sender, wire: seq<byte>, chan: seq<byte>, got: seq<seq<byte>>,
                     pool: PoolState, inbox: Inbox)

  function SenderFor(fs: seq<seq<byte>>, index: nat): Sender {
    if index < |fs| then SendInit(fs[index]) else Sender([], 0, Resumed(0))
  }

  function Begin(ctx: Context, fs: seq<seq<byte>>, junk: nat -> byte): Sys {
    Sys(0, SenderFor(fs, 0), [], [], [], Empty(ctx.limit), NewInbox(junk))
  }

  datatype Move =
    | SendIo(out: OutIo)
    | SendNext
    | RecvIo(ev: Io)
    | RecvNext(junk: nat -> byte)
    | Others(op: Op)

  ghost predicate SysStep(ctx: Context, fs: seq<seq<byte>>, s: Sys, m: Move, s': Sys) {
    match m
    case SendIo(ev) =>
      && s.snd.sent <= |s.snd.buf| && SendLegal(s.snd, ev)
      && s' == s.(snd := SendStep(s.snd, ev), wire := s.wire + Sends(s.snd, ev), chan := s.chan + Sends(s.snd, ev))
    case SendNext =>
      && s.index < |fs| && s.snd.phase == Resumed(|fs[s.index]|)
      && s' == s.(index := s.index + 1, snd := SenderFor(fs, s.index + 1))
    case RecvIo(ev) =>
      && (ev.Data? ==> ev.bytes <= s.chan)
      && InboxStep(ctx, s.pool, s.inbox, ev, s'.pool, s'.inbox)
      && s' == s.(chan := if ev.Data? then s.chan[|ev.bytes|..] else s.chan, pool := s'.pool, inbox := s'.inbox)
    case RecvNext(junk) =>
      var r := Received(s.inbox);
      && r.phase.Resumed? && r.phase.result > 0 && r.buf.Some? && WindowIn(r.buf.value)
      && s' == s.(got := s.got + [Window(r.buf.value)], inbox := NewInbox(junk))
    case Others(op) =>
      && OthersStep(ctx, s.pool, s.inbox.own, op, s'.pool)
      && s' == s.(pool := s'.pool)
  }

  /** A frame that every block the context may hand out for it can hold. */
  ghost predicate Suits(ctx: Context, f: seq<byte>) {
    && |f| >= 6 && |f| == Parse(f).length + 4 && 2 <= Parse(f).length && Parse(f).length + 4 < 0x8000_0000
    && RequestFor(Parse(f)) in ctx.menu && !Risky(ctx, Parse(f))
  }

  /** Every frame is long enough for a header. */
  predicate Headed(fs: seq<seq<byte>>) {
    forall i :: 0 <= i < |fs| ==> |fs[i]| >= 6
  }

  ghost predicate AllSuit(ctx: Context, fs: seq<seq<byte>>) {
    Headed(fs) && KeysMatch(ctx.lay) && forall i :: 0 <= i < |fs| ==> Suits(ctx, fs[i])
  }

  ghost predicate SenderInv(fs: seq<seq<byte>>, s: Sys) {
    && s.index <= |fs| && SendOk(s.snd)
    && (s.index < |fs| ==> s.snd.buf == fs[s.index] && s.wire == Concat(fs[..s.index]) + fs[s.index][..s.snd.sent])
    && (s.index == |fs| ==> s.wire == Concat(fs) && s.snd.buf == [])
  }

  /** The current receiver: its pool is in order, and once its header is complete the next frame fits
      the buffer it was handed. */
  ghost predicate InboxInv(ctx: Context, fs: seq<seq<byte>>, k: nat, pool: PoolState, i: Inbox) {
    && PoolOk(ctx, pool) && InboxOk(i)
    && (|Bytes(i.log)| >= 6 ==> k < |fs| && FrameIn(InboxEnv(i), fs[k]))
  }

  /** The bytes: what was decoded, what the receiver holds and what is under way make up what was sent. */
  ghost predicate Stream(fs: seq<seq<byte>>, s: Sys) {
    && SenderInv(fs, s)
    && |s.got| <= |fs| && s.got == fs[..|s.got|]
    && s.wire == Concat(s.got) + Bytes(s.inbox.log) + s.chan
  }

  ghost predicate Inv(ctx: Context, fs: seq<seq<byte>>, s: Sys) {
    Stream(fs, s) && InboxInv(ctx, fs, |s.got|, s.pool, s.inbox)
  }

  /** What was put on the channel is a prefix of the stream of all frames. */
  lemma WireIsPrefix(fs: seq<seq<byte>>, s: Sys)
    requires SenderInv(fs, s)
    ensures s.wire <= Concat(fs)
  {
    if s.index < |fs| {
      ConcatSplit(fs, s.index);
      assert fs[s.index..][0] == fs[s.index];
      assert fs[s.index][..s.snd.sent] <= fs[s.index] <= Concat(fs[s.index..]);
    }
  }

  /** After the first `k` frames of a stream prefix come bytes of the remaining frames. */
  lemma StreamTail(fs: seq<seq<byte>>, k: nat, wire: seq<byte>, b: seq<byte>, chan: seq<byte>)
    requires k <= |fs| && wire <= Concat(fs) && wire == Concat(fs[..k]) + b + chan
    ensures b + chan <= Concat(fs[k..]) && b <= Concat(fs[k..])
  {
    ConcatSplit(fs, k);
    Regroup(Concat(fs[..k]), b, chan);
    DropCommon(Concat(fs[..k]), b + chan, Concat(fs[k..]));
    PrefixTrans(b, chan, Concat(fs[k..]));
  }

  /** What the current receiver got, and what is still on the channel, continues the stream after
      the frames already decoded. */
  lemma ReceiverIsOnStream(fs: seq<seq<byte>>, s: Sys)
    requires Stream(fs, s)
    ensures Bytes(s.inbox.log) + s.chan <= Concat(fs[|s.got|..])
    ensures Bytes(s.inbox.log) <= Concat(fs[|s.got|..])
  {
    WireIsPrefix(fs, s);
    StreamTail(fs, |s.got|, s.wire, Bytes(s.inbox.log), s.chan);
  }

  lemma SenderKeeps(ctx: Context, fs: seq<seq<byte>>, s: Sys, m: Move, s': Sys)
    requires SenderInv(fs, s) && SysStep(ctx, fs, s, m, s') && (m.SendIo? || m.SendNext?)
    requires Headed(fs)
    ensures SenderInv(fs, s')
  {
    match m {
      case SendIo(ev) =>
        SendKeeps(s.snd, ev);
        if s.index < |fs| {
          Regroup(Concat(fs[..s.index]), fs[s.index][..s.snd.sent], Sends(s.snd, ev));
        }
      case SendNext =>
        assert s.snd.sent == |fs[s.index]|;
        assert fs[..s.index + 1] == fs[..s.index] + [fs[s.index]];
        ConcatAppend(fs[..s.index], fs[s.index]);
        assert s.index + 1 == |fs| ==> fs[..s.index + 1] == fs;
    }
  }

  /** The header that the pool is asked to place is that of the next frame, whose bytes have room in
      whatever block the pool hands out. */
  lemma InboxKeeps(ctx: Context, fs: seq<seq<byte>>, k: nat, pool: PoolState, i: Inbox, ev: Io,
                   pool': PoolState, i': Inbox)
    requires AllSuit(ctx, fs) && k <= |fs| && InboxInv(ctx, fs, k, pool, i) && InboxStep(ctx, pool, i, ev, pool', i')
    requires Bytes(i.log) + (if ev.Data? then ev.bytes else []) <= Concat(fs[k..])
    ensures InboxInv(ctx, fs, k, pool', i')
  {
    InboxStepKeeps(ctx, pool, i, ev, pool', i');
    HeaderOfNext(fs, k, Bytes(i'.log));
    if Opens(i.log, ev) {
      var h := Parse(fs[k]);
      assert Suits(ctx, fs[k]);
      TakesKeeps(ctx, pool, h, pool', i'.own);
      TakesRoom(ctx, pool, h, pool', i'.own, i'.junk);
      WrittenValue(h);
    }
  }

  lemma StepKeeps(ctx: Context, fs: seq<seq<byte>>, s: Sys, m: Move, s': Sys)
    requires AllSuit(ctx, fs) && Inv(ctx, fs, s) && SysStep(ctx, fs, s, m, s')
    ensures Inv(ctx, fs, s')
  {
    match m {
      case SendIo(_) => SendStream(ctx, fs, s, m, s');
      case SendNext => SendStream(ctx, fs, s, m, s');
      case RecvIo(_) => RecvIoKeeps(ctx, fs, s, m, s');
      case RecvNext(_) => RecvNextKeeps(ctx, fs, s, m, s');
      case Others(op) => OthersKeep(ctx, s.pool, s.inbox.own, op, s'.pool);
    }
  }

  lemma SendStream(ctx: Context, fs: seq<seq<byte>>, s: Sys, m: Move, s': Sys)
    requires Headed(fs) && Stream(fs, s) && SysStep(ctx, fs, s, m, s') && (m.SendIo? || m.SendNext?)
    ensures Stream(fs, s')
  {
    SenderKeeps(ctx, fs, s, m, s');
    if m.SendIo? {
      assert s'.wire == Concat(s.got) + Bytes(s.inbox.log) + (s.chan + Sends(s.snd, m.out));
    }
  }

  /** Bytes move from the channel to the receiver. */
  lemma RecvStream(fs: seq<seq<byte>>, s: Sys, taken: seq<byte>, s': Sys)
    requires Stream(fs, s) && s' == s.(chan := s'.chan, pool := s'.pool, inbox := s'.inbox)
    requires s.chan == taken + s'.chan && Bytes(s'.inbox.log) == Bytes(s.inbox.log) + taken
    ensures Stream(fs, s') && Bytes(s.inbox.log) + taken <= Concat(fs[|s.got|..])
  {
    ReceiverIsOnStream(fs, s);
    Regroup(Bytes(s.inbox.log), taken, s'.chan);
    PrefixTrans(Bytes(s.inbox.log) + taken, s'.chan, Concat(fs[|s.got|..]));
    assert s.wire == Concat(s.got) + (Bytes(s.inbox.log) + taken) + s'.chan;
  }

  lemma RecvIoKeeps(ctx: Context, fs: seq<seq<byte>>, s: Sys, m: Move, s': Sys)
    requires AllSuit(ctx, fs) && Inv(ctx, fs, s) && SysStep(ctx, fs, s, m, s') && m.RecvIo?
    ensures Inv(ctx, fs, s')
  {
    var taken := if m.ev.Data? then m.ev.bytes else [];
    assert s.chan == taken + s'.chan;
    InboxStepKeeps(ctx, s.pool, s.inbox, m.ev, s'.pool, s'.inbox);
    RecvStream(fs, s, taken, s');
    InboxKeeps(ctx, fs, |s.got|, s.pool, s.inbox, m.ev, s'.pool, s'.inbox);
  }

  /** A completed frame is counted as decoded. */
  lemma NextStream(fs: seq<seq<byte>>, s: Sys, s': Sys)
    requires Stream(fs, s) && |s.got| < |fs| && Bytes(s.inbox.log) == fs[|s.got|]
    requires s' == s.(got := s.got + [fs[|s.got|]], inbox := s'.inbox) && s'.inbox.log == []
    ensures Stream(fs, s')
  {
    var k := |s.got|;
    ConcatAppend(s.got, fs[k]);
    assert s'.got == fs[..k + 1];
    assert Concat(s'.got) + [] == Concat(s.got) + fs[k];
  }

  lemma RecvNextKeeps(ctx: Context, fs: seq<seq<byte>>, s: Sys, m: Move, s': Sys)
    requires AllSuit(ctx, fs) && Inv(ctx, fs, s) && SysStep(ctx, fs, s, m, s') && m.RecvNext?
    ensures Inv(ctx, fs, s')
  {
    ReceiverIsOnStream(fs, s);
    CompletedFrame(InboxEnv(s.inbox), fs, |s.got|, s.inbox.log);
    NextStream(fs, s, s');
  }

  ghost predicate IsRun(ctx: Context, fs: seq<seq<byte>>, states: seq<Sys>, moves: seq<Move>) {
    && |states| == |moves| + 1
    && states[0] == Begin(ctx, fs, states[0].inbox.junk)
    && forall i :: 0 <= i < |moves| ==> SysStep(ctx, fs, states[i], moves[i], states[i + 1])
  }

  lemma BeginInv(ctx: Context, fs: seq<seq<byte>>, junk: nat -> byte)
    requires Headed(fs)
    ensures Inv(ctx, fs, Begin(ctx, fs, junk))
  {
    StartOk(ctx);
    assert fs[..0] == [];
  }

  lemma RunPrefix(ctx: Context, fs: seq<seq<byte>>, states: seq<Sys>, moves: seq<Move>, n: nat)
    requires IsRun(ctx, fs, states, moves) && n < |moves|
    ensures IsRun(ctx, fs, states[..n + 1], moves[..n]) && SysStep(ctx, fs, states[n], moves[n], states[n + 1])
  {
  }

  lemma {:induction false} RunInv(ctx: Context, fs: seq<seq<byte>>, states: seq<Sys>, moves: seq<Move>)
    requires AllSuit(ctx, fs) && IsRun(ctx, fs, states, moves)
    ensures Inv(ctx, fs, states[|moves|])
    decreases |moves|
  {
    if moves == [] {
      BeginInv(ctx, fs, states[0].inbox.junk);
    } else {
      var n := |moves| - 1;
      RunPrefix(ctx, fs, states, moves, n);
      RunInv(ctx, fs, states[..n + 1], moves[..n]);
      StepKeeps(ctx, fs, states[n], moves[n], states[n + 1]);
    }
  }

  /** The frames decoded so far are the first frames sent, in order and complete; the current
      receiver holds a part of the next frame only; a positive result is that frame's length and
      its window is that frame; and once everything is sent and received, all is decoded. */
  ghost predicate InOrder(fs: seq<seq<byte>>, s: Sys) {
    var r := Received(s.inbox);
    var k := |s.got|;
    && k <= |fs| && s.got == fs[..k]
    && !r.phase.Fault?
    && (Bytes(s.inbox.log) != [] ==> k < |fs| && Bytes(s.inbox.log) <= fs[k])
    && (r.phase.Resumed? && r.phase.result > 0 ==>
          && k < |fs| && r.phase.result == |fs[k]|
          && r.buf.Some? && WindowIn(r.buf.value) && Window(r.buf.value) == fs[k])
    && (s.index == |fs| && s.chan == [] && Bytes(s.inbox.log) == [] ==> s.got == fs)
  }

  lemma InvIsInOrder(ctx: Context, fs: seq<seq<byte>>, s: Sys)
    requires Headed(fs) && Inv(ctx, fs, s)
    ensures InOrder(fs, s)
  {
    var k := |s.got|;
    ReceiverIsOnStream(fs, s);
    CompletedFrame(InboxEnv(s.inbox), fs, k, s.inbox.log);
    HeaderOfNext(fs, k, Bytes(s.inbox.log));
    FoldIsCanonical(InboxEnv(s.inbox), s.inbox.log);
    if s.index == |fs| && s.chan == [] && Bytes(s.inbox.log) == [] {
      if k < |fs| {
        StreamLeft(fs, k);
      }
    }
  }

  /** As long as a frame is left, so is a part of the stream. */
  lemma StreamLeft(fs: seq<seq<byte>>, k: nat)
    requires Headed(fs)
    requires k < |fs|
    ensures |Concat(fs[..k])| < |Concat(fs)|
  {
    ConcatSplit(fs, k);
    assert fs[k..][0] == fs[k];
  }

  // ------------------------------------------------------------------ exactly which frames arrive

  /** A well-formed frame suits a context of the real pool exactly if no recycled block can be too
      short for it. */
  lemma FrameSuitsIff(ctx: Context, f: seq<byte>)
    requires ctx.lay == PoolSizing && Offered(ctx, f)
    ensures Suits(ctx, f) <==> Safe(ctx, f)
  {
    HopelessIff(Parse(f));
    OrdinaryOverruns(Parse(f));
  }

  /** A well-formed frame that the clients of the context may receive. */
  ghost predicate Offered(ctx: Context, f: seq<byte>) {
    IsFrame(f) && RequestFor(Parse(f)) in ctx.menu
  }

  /** No block of the context's clients can be recycled for it and be too short. */
  ghost predicate Safe(ctx: Context, f: seq<byte>) {
    Offered(ctx, f) && !Poisoned(ctx, Parse(f))
  }

  lemma SafeFramesSuit(ctx: Context, fs: seq<seq<byte>>)
    requires ctx.lay == PoolSizing && forall i :: 0 <= i < |fs| ==> Safe(ctx, fs[i])
    ensures AllSuit(ctx, fs)
  {
    PoolKeysMatch();
    forall i | 0 <= i < |fs|
      ensures Suits(ctx, fs[i])
    {
      FrameSuitsIff(ctx, fs[i]);
    }
  }

  /** For every list of well-formed frames, none of which can be handed a recycled block that is too
      short, and every interleaving of every schedule of system call results and pool operations, the
      frames arrive in order, complete and unaltered. */
  lemma FramesArriveInOrder(ctx: Context, fs: seq<seq<byte>>, states: seq<Sys>, moves: seq<Move>)
    requires ctx.lay == PoolSizing && forall i :: 0 <= i < |fs| ==> Safe(ctx, fs[i])
    requires IsRun(ctx, fs, states, moves)
    ensures InOrder(fs, states[|moves|])
  {
    SafeFramesSuit(ctx, fs);
    RunInv(ctx, fs, states, moves);
    InvIsInOrder(ctx, fs, states[|moves|]);
  }

  /** No hazard among the requests is enough. */
  lemma NoHazardIsSafe(ctx: Context, f: seq<byte>)
    requires ctx.lay == PoolSizing && Offered(ctx, f)
    requires NoHazard(ctx.lay, ctx.policy, ctx.limit, ctx.menu)
    ensures Safe(ctx, f)
  {
    var h := Parse(f);
    HopelessIff(h);
    OrdinaryOverruns(h);
    SameLengthIsSafe(ctx, h);
  }

  lemma SameLengthIsSafe(ctx: Context, h: Header)
    requires !Hopeless(ctx.lay, h) && RequestFor(h) in ctx.menu
    requires NoHazard(ctx.lay, ctx.policy, ctx.limit, ctx.menu)
    ensures !Poisoned(ctx, h)
  {
    if Poisoned(ctx, h) {
      var q :| q in ctx.menu && TooShort(ctx.lay, q, h) && CanCache(ctx.lay, ctx.policy, ctx.limit, ctx.menu, q);
      assert Hazard(ctx.lay, ctx.policy, ctx.limit, ctx.menu, q, RequestFor(h));
    }
  }

  ghost predicate Reached(ctx: Context, fs: seq<seq<byte>>, s: Sys) {
    exists states, moves :: IsRun(ctx, fs, states, moves) && states[|moves|] == s
  }

  lemma ReachStep(ctx: Context, fs: seq<seq<byte>>, s: Sys, m: Move, s': Sys)
    requires Reached(ctx, fs, s) && SysStep(ctx, fs, s, m, s')
    ensures Reached(ctx, fs, s')
  {
    var states, moves :| IsRun(ctx, fs, states, moves) && states[|moves|] == s;
    assert IsRun(ctx, fs, states + [s'], moves + [m]);
    assert (states + [s'])[|moves + [m]|] == s';
  }

  /** The other clients can bring the pool into any state that a run of theirs leads to. */
  lemma {:induction false} OthersReach(ctx: Context, fs: seq<seq<byte>>, junk: nat -> byte,
                                       pools: seq<PoolState>, ops: seq<Op>, pool: PoolState)
    requires PoolRun(ctx, pools, ops, pool)
    ensures Reached(ctx, fs, Begin(ctx, fs, junk).(pool := pool))
    decreases |ops|
  {
    var s := Begin(ctx, fs, junk);
    if ops == [] {
      assert IsRun(ctx, fs, [s], []);
    } else {
      var n := |ops| - 1;
      OthersReach(ctx, fs, junk, pools[..n + 1], ops[..n], pools[n]);
      assert BufferPool.Step(ctx.lay, ctx.policy, pools[n], ops[n], pools[n + 1]);
      ReachStep(ctx, fs, s.(pool := pools[n]), Others(ops[n]), s.(pool := pools[n + 1]));
    }
  }

  /** The only frame is on the channel. */
  function FrameSent(f: seq<byte>, pool: PoolState, junk: nat -> byte): Sys {
    Sys(0, Sender(f, |f|, Resumed(|f|)), f, f, [], pool, NewInbox(junk))
  }

  lemma SendsFrame(ctx: Context, f: seq<byte>, pool: PoolState, junk: nat -> byte)
    requires |f| >= 6 && Reached(ctx, [f], Begin(ctx, [f], junk).(pool := pool))
    ensures Reached(ctx, [f], FrameSent(f, pool, junk))
  {
    assert f[0..|f|] == f && [] + f == f;
    ReachStep(ctx, [f], Begin(ctx, [f], junk).(pool := pool), SendIo(Took(|f|)), FrameSent(f, pool, junk));
  }

  /** Its header has arrived, and the pool has handed out `b`. */
  function HeaderIn(f: seq<byte>, b: Buffer, pool: PoolState, junk: nat -> byte): Sys
    requires |f| >= 6
  {
    FrameSent(f, pool, junk).(chan := f[6..], inbox := Inbox(Some(b), junk, [Data(f[..6])]))
  }

  lemma HeaderArrives(ctx: Context, f: seq<byte>, b: Buffer, pool: PoolState, pool': PoolState, junk: nat -> byte)
    requires |f| >= 6 && Reached(ctx, [f], FrameSent(f, pool, junk)) && Takes(ctx, pool, Parse(f), pool', Some(b))
    ensures Reached(ctx, [f], HeaderIn(f, b, pool', junk))
  {
    var s, s', ev := FrameSent(f, pool, junk), HeaderIn(f, b, pool', junk), Data(f[..6]);
    assert [] + [ev] == [ev] && [] + f[..6] == f[..6] && f == f[..6] + f[6..];
    ParsePrefix(f[..6], f[6..]);
    assert InboxStep(ctx, pool, s.inbox, ev, pool', s'.inbox);
    ReachStep(ctx, [f], s, RecvIo(ev), s');
  }

  lemma BodyArrives(ctx: Context, f: seq<byte>, b: Buffer, pool: PoolState, junk: nat -> byte)
    requires |f| > 6 && Reached(ctx, [f], HeaderIn(f, b, pool, junk))
    requires Want(Received(HeaderIn(f, b, pool, junk).inbox)) == |f| - 6
    ensures var i' := Inbox(Some(b), junk, [Data(f[..6]), Data(f[6..])]);
            Reached(ctx, [f], HeaderIn(f, b, pool, junk).(chan := [], inbox := i'))
  {
    var s, ev := HeaderIn(f, b, pool, junk), Data(f[6..]);
    var i' := Inbox(Some(b), junk, [Data(f[..6]), ev]);
    assert [Data(f[..6])] + [ev] == i'.log && s.chan[|f[6..]|..] == [];
    OneRead(InboxEnv(s.inbox), f[..6]);
    assert InboxStep(ctx, pool, s.inbox, ev, pool, i');
    ReachStep(ctx, [f], s, RecvIo(ev), s.(chan := [], inbox := i'));
  }

  /** A frame that is handed a block without room makes its receiver fault. */
  lemma ReceptionFaults(ctx: Context, f: seq<byte>, b: Buffer, pool: PoolState, junk: nat -> byte)
    requires |f| >= 6 && |f| == Parse(f).length + 4 < 0x8000_0000
    requires Reached(ctx, [f], HeaderIn(f, b, pool, junk)) && !HasRoom(EnvOf(Some(b), junk), Parse(f))
    ensures exists s :: Reached(ctx, [f], s) && Received(s.inbox).phase.Fault?
  {
    var s, env := HeaderIn(f, b, pool, junk), EnvOf(Some(b), junk);
    assert f == f[..6] + f[6..];
    ParsePrefix(f[..6], f[6..]);
    OneRead(env, f[..6]);
    if !Received(s.inbox).phase.Fault? {
      WrittenValue(Parse(f));
      BodyArrives(ctx, f, b, pool, junk);
      TwoReads(env, f[..6], f[6..]);
      var s' := s.(chan := [], inbox := Inbox(Some(b), junk, [Data(f[..6]), Data(f[6..])]));
      assert Received(s'.inbox).phase.Fault?;
    }
  }

  /** A frame that can be handed a recycled block that is too short has a run in which it does not
      arrive. */
  lemma PoisonedFrameFaults(ctx: Context, f: seq<byte>, junk: nat -> byte)
    requires KeysMatch(ctx.lay) && |f| >= 6 && |f| == Parse(f).length + 4 < 0x8000_0000
    requires ctx.lay(RequestFor(Parse(f))).Some? && Poisoned(ctx, Parse(f))
    ensures exists s :: Reached(ctx, [f], s) && Received(s.inbox).phase.Fault?
  {
    RiskyAnswer(ctx, Parse(f));
    var own :| CanAnswer(ctx, RequestFor(Parse(f)), own) && forall junk :: !HasRoom(EnvOf(own, junk), Parse(f));
    var r, b := RequestFor(Parse(f)), own.value;
    AnswerSplit(ctx, r, b);
    var pools, ops, pool, pool' :|
      PoolRun(ctx, pools, ops, pool) && MallocStep(pool, ctx.lay(r).value, r.bit, pool', b);
    OthersReach(ctx, [f], junk, pools, ops, pool);
    SendsFrame(ctx, f, pool, junk);
    HeaderArrives(ctx, f, b, pool, pool', junk);
    ReceptionFaults(ctx, f, b, pool', junk);
  }

  /** Every list of frames from `frames` arrives in order, in every run. */
  ghost predicate AlwaysInOrder(ctx: Context, frames: iset<seq<byte>>) {
    forall fs, s :: (forall i :: 0 <= i < |fs| ==> fs[i] in frames) && Reached(ctx, fs, s) ==> InOrder(fs, s)
  }

  /** Main result: of well-formed frames, every list arrives in order in every run if and only if none
      of them can be handed a recycled block that is too short. */
  lemma ArrivalIff(ctx: Context, frames: iset<seq<byte>>)
    requires ctx.lay == PoolSizing && forall f :: f in frames ==> Offered(ctx, f)
    ensures AlwaysInOrder(ctx, frames) <==> forall f :: f in frames ==> Safe(ctx, f)
  {
    if f :| f in frames && !Safe(ctx, f) {
      UnsafeFrame(ctx, f);
      var s :| Reached(ctx, [f], s) && Received(s.inbox).phase.Fault?;
      assert !InOrder([f], s);
    } else {
      forall fs, s | (forall i :: 0 <= i < |fs| ==> fs[i] in frames) && Reached(ctx, fs, s)
        ensures InOrder(fs, s)
      {
        SafeIsInOrder(ctx, fs, s);
      }
    }
  }

  lemma SafeIsInOrder(ctx: Context, fs: seq<seq<byte>>, s: Sys)
    requires ctx.lay == PoolSizing && (forall i :: 0 <= i < |fs| ==> Safe(ctx, fs[i])) && Reached(ctx, fs, s)
    ensures InOrder(fs, s)
  {
    var states, moves :| IsRun(ctx, fs, states, moves) && states[|moves|] == s;
    FramesArriveInOrder(ctx, fs, states, moves);
  }

  lemma UnsafeFrame(ctx: Context, f: seq<byte>)
    requires ctx.lay == PoolSizing && IsFrame(f) && Poisoned(ctx, Parse(f))
    ensures exists s :: Reached(ctx, [f], s) && Received(s.inbox).phase.Fault?
  {
    PoolKeysMatch();
    HopelessIff(Parse(f));
    OrdinaryOverruns(Parse(f));
    PoisonedFrameFaults(ctx, f, i => 0);
  }

  /** With the real limit of 32 MiB, well-formed frames among which there is one of 1 KiB and one of
      1 GiB + 1 KiB do not always arrive. */
  lemma FramesThatCollide(small: seq<byte>, large: seq<byte>, frames: iset<seq<byte>>)
    requires small in frames && large in frames && forall f :: f in frames ==> IsFrame(f)
    requires |small| >= 6 && Parse(small) == Header(1020, 0, 0)
    requires |large| >= 6 && Parse(large) == Header(0x4000_03FC, 0, 0)
    ensures !AlwaysInOrder(PoolContext(AsWritten, 0x200_0000, frames), frames)
  {
    LargeIsPoisoned(small, large, frames);
    AskedIsOffered(AsWritten, 0x200_0000, frames);
    PoisonedIsNotInOrder(PoolContext(AsWritten, 0x200_0000, frames), frames, large);
  }

  lemma LargeIsPoisoned(small: seq<byte>, large: seq<byte>, frames: iset<seq<byte>>)
    requires |small| >= 6 && Parse(small) == Header(1020, 0, 0) && small in frames
    requires |large| >= 6 && Parse(large) == Header(0x4000_03FC, 0, 0) && large in frames
    ensures Poisoned(PoolContext(AsWritten, 0x200_0000, frames), Parse(large))
  {
    var r1, r2 := RequestFor(Parse(small)), RequestFor(Parse(large));
    assert AskedFor(frames, r1) && AskedFor(frames, r2);
    ShortForLarge(Parse(small), Parse(large), r1, r2, frames);
  }

  lemma AskedIsOffered(p: Policy, limit: nat, frames: iset<seq<byte>>)
    requires forall f :: f in frames ==> IsFrame(f)
    ensures forall f :: f in frames ==> Offered(PoolContext(p, limit, frames), f)
  {
    forall f | f in frames
      ensures Offered(PoolContext(p, limit, frames), f)
    {
      assert AskedFor(frames, RequestFor(Parse(f)));
    }
  }

  lemma PoisonedIsNotInOrder(ctx: Context, frames: iset<seq<byte>>, f: seq<byte>)
    requires ctx.lay == PoolSizing && (forall f :: f in frames ==> Offered(ctx, f))
    requires f in frames && |f| >= 6 && Poisoned(ctx, Parse(f))
    ensures !AlwaysInOrder(ctx, frames)
  {
    ArrivalIff(ctx, frames);
    assert !Safe(ctx, f);
  }

  // ------------------------------------------------------------------ nothing gets stuck

  /** Neither end has failed. */
  ghost predicate Sound(s: Sys) {
    (s.snd.phase.Waiting? || s.snd.phase == Resumed(|s.snd.buf|)) && FirstEnd(s.inbox.log).None?
  }

  /** In at most `n` further steps the system can have decoded every frame. */
  ghost predicate CanDeliver(ctx: Context, fs: seq<seq<byte>>, s: Sys, n: nat)
    decreases n
  {
    || s.got == fs
    || (n > 0 && exists m, s' :: SysStep(ctx, fs, s, m, s') && CanDeliver(ctx, fs, s', n - 1))
  }

  lemma InboxAsks(ctx: Context, fs: seq<seq<byte>>, k: nat, pool: PoolState, i: Inbox)
    requires Headed(fs) && InboxInv(ctx, fs, k, pool, i) && FirstEnd(i.log).None?
    requires k < |fs| && Bytes(i.log) <= Concat(fs[k..])
    ensures var r := Received(i);
            && (|Bytes(i.log)| < |fs[k]| ==> r.phase.Waiting? && Want(r) > 0)
            && (|Bytes(i.log)| >= |fs[k]| ==> r.phase.Resumed? && r.phase.result > 0)
  {
    HeaderOfNext(fs, k, Bytes(i.log));
    FoldIsCanonical(InboxEnv(i), i.log);
  }

  /** A receiver that is neither done nor failed asks for at least one byte. */
  lemma ReceiverAsks(ctx: Context, fs: seq<seq<byte>>, s: Sys)
    requires Headed(fs) && Inv(ctx, fs, s) && Sound(s) && |s.got| < |fs|
    ensures var r := Received(s.inbox); var k := |s.got|;
            && (|Bytes(s.inbox.log)| < |fs[k]| ==> r.phase.Waiting? && Want(r) > 0)
            && (|Bytes(s.inbox.log)| >= |fs[k]| ==> r.phase.Resumed? && r.phase.result > 0)
  {
    ReceiverIsOnStream(fs, s);
    InboxAsks(ctx, fs, |s.got|, s.pool, s.inbox);
  }

  /** Whatever arrives, the pool can play its part. */
  lemma InboxCanStep(ctx: Context, pool: PoolState, i: Inbox, ev: Io) returns (pool': PoolState, i': Inbox)
    requires ev.Data? ==> 1 <= |ev.bytes| <= Want(Received(i))
    ensures InboxStep(ctx, pool, i, ev, pool', i') && i'.log == i.log + [ev]
  {
    if Opens(i.log, ev) {
      TakesPossible(ctx, pool, Parse(Bytes(i.log) + ev.bytes));
      var p, own :| Takes(ctx, pool, Parse(Bytes(i.log) + ev.bytes), p, own);
      pool', i' := p, Inbox(own, i.junk, i.log + [ev]);
    } else {
      pool', i' := pool, i.(log := i.log + [ev]);
    }
  }

  /** The next step of a fixed schedule: send everything, then receive everything. */
  lemma NextMove(ctx: Context, fs: seq<seq<byte>>, s: Sys) returns (m: Move, s': Sys)
    requires Headed(fs) && Inv(ctx, fs, s) && Sound(s) && s.got != fs
    ensures SysStep(ctx, fs, s, m, s') && Sound(s')
    ensures s'.index > s.index
         || (s'.index == s.index && s.snd.phase.Waiting? && !s'.snd.phase.Waiting?)
         || (s'.index == s.index && s'.snd == s.snd && |s'.got| > |s.got|)
         || (s'.index == s.index && s'.snd == s.snd && s'.got == s.got && |s'.chan| < |s.chan|)
  {
    if s.index < |fs| {
      m, s' := NextSend(ctx, fs, s);
    } else {
      var k := |s.got|;
      assert fs[..|fs|] == fs;
      ReceiverAsks(ctx, fs, s);
      if |Bytes(s.inbox.log)| < |fs[k]| {
        m, s' := NextRecv(ctx, fs, s);
      } else {
        var r := Received(s.inbox);
        ReceiverIsOnStream(fs, s);
        CompletedFrame(InboxEnv(s.inbox), fs, k, s.inbox.log);
        m := RecvNext(s.inbox.junk);
        s' := s.(got := s.got + [Window(r.buf.value)], inbox := NewInbox(s.inbox.junk));
      }
    }
  }

  lemma NextSend(ctx: Context, fs: seq<seq<byte>>, s: Sys) returns (m: Move, s': Sys)
    requires Headed(fs) && SenderInv(fs, s) && Sound(s) && s.index < |fs|
    ensures SysStep(ctx, fs, s, m, s') && Sound(s')
    ensures s'.index > s.index || (s'.index == s.index && s.snd.phase.Waiting? && !s'.snd.phase.Waiting?)
  {
    var f := fs[s.index];
    if s.snd.phase.Waiting? {
      m := SendIo(Took(|f| - s.snd.sent));
      s' := s.(snd := SendStep(s.snd, m.out), wire := s.wire + Sends(s.snd, m.out),
               chan := s.chan + Sends(s.snd, m.out));
    } else {
      m := SendNext;
      s' := s.(index := s.index + 1, snd := SenderFor(fs, s.index + 1));
    }
  }

  lemma NextRecv(ctx: Context, fs: seq<seq<byte>>, s: Sys) returns (m: Move, s': Sys)
    requires Stream(fs, s) && Sound(s) && s.index == |fs| && |s.got| < |fs|
    requires |Bytes(s.inbox.log)| < |fs[|s.got|]| && Want(Received(s.inbox)) > 0
    ensures SysStep(ctx, fs, s, m, s') && Sound(s')
    ensures s'.index == s.index && s'.snd == s.snd && s'.got == s.got && |s'.chan| < |s.chan|
  {
    ChannelHasMore(fs, s);
    var want := Want(Received(s.inbox));
    var n := if want < |s.chan| then want else |s.chan|;
    m := RecvIo(Data(s.chan[..n]));
    var pool', i' := InboxCanStep(ctx, s.pool, s.inbox, m.ev);
    s' := s.(chan := s.chan[n..], pool := pool', inbox := i');
    EndAfterData(s.inbox.log, m.ev);
  }

  lemma EndAfterData(log: seq<Io>, ev: Io)
    requires ev.Data?
    ensures FirstEnd(log + [ev]) == FirstEnd(log)
  {
    assert (log + [ev])[..|log|] == log;
  }

  /** When everything was sent and a frame is incomplete, bytes are under way. */
  lemma ChannelHasMore(fs: seq<seq<byte>>, s: Sys)
    requires Stream(fs, s) && s.index == |fs| && |s.got| < |fs| && |Bytes(s.inbox.log)| < |fs[|s.got|]|
    ensures |s.chan| > 0
  {
    var k := |s.got|;
    ConcatSplit(fs, k);
    assert fs[k..][0] == fs[k];
    assert |Concat(fs[k..])| >= |fs[k]|;
  }

  /** From every state that satisfies the invariant and in which neither end has failed, the system can
      go on until every frame is decoded. */
  lemma {:induction false} EveryFrameCanArrive(ctx: Context, fs: seq<seq<byte>>, s: Sys)
    requires AllSuit(ctx, fs) && Inv(ctx, fs, s) && Sound(s)
    ensures exists n :: CanDeliver(ctx, fs, s, n)
    decreases |fs| - s.index, if s.snd.phase.Waiting? then 1 else 0, |fs| - |s.got|, |s.chan|
  {
    if s.got == fs {
      assert CanDeliver(ctx, fs, s, 0);
    } else {
      var m, s' := NextMove(ctx, fs, s);
      StepKeeps(ctx, fs, s, m, s');
      GotBound(ctx, fs, s, s');
      EveryFrameCanArrive(ctx, fs, s');
      var n :| CanDeliver(ctx, fs, s', n);
      DeliversAfter(ctx, fs, s, m, s', n);
    }
  }

  lemma GotBound(ctx: Context, fs: seq<seq<byte>>, s: Sys, s': Sys)
    requires Inv(ctx, fs, s) && Inv(ctx, fs, s')
    ensures s.index <= |fs| && s'.index <= |fs| && |s.got| <= |fs| && |s'.got| <= |fs|
  {
  }

  lemma DeliversAfter(ctx: Context, fs: seq<seq<byte>>, s: Sys, m: Move, s': Sys, n: nat)
    requires SysStep(ctx, fs, s, m, s') && CanDeliver(ctx, fs, s', n)
    ensures CanDeliver(ctx, fs, s, n + 1)
  {
    assert n + 1 - 1 == n;
  }

  lemma RunsCanBeCompleted(ctx: Context, fs: seq<seq<byte>>, states: seq<Sys>, moves: seq<Move>)
    requires ctx.lay == PoolSizing && forall i :: 0 <= i < |fs| ==> Safe(ctx, fs[i])
    requires IsRun(ctx, fs, states, moves) && Sound(states[|moves|])
    ensures exists n :: CanDeliver(ctx, fs, states[|moves|], n)
  {
    SafeFramesSuit(ctx, fs);
    RunInv(ctx, fs, states, moves);
    EveryFrameCanArrive(ctx, fs, states[|moves|]);
  }
}
