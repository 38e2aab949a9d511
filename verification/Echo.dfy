/** The request echo of `pp-request-serv.cpp` and `pp-request-client.cpp` over whole runs: the server
    receives a request and sends its window back, the client sends its buffer and reads as many bytes
    back into it, round after round. */
module Echo {
  import opened Common
  import opened BufferPool
  import opened Recycling
  import opened Wire
  import opened Receive
  import opened Placement
  import opened Transport

  /** The client in round `round` is either sending its buffer or reading the reply, which replaces
      the buffer once it is complete. */
  datatype Client = Client(round: nat, sending: bool, buf: seq<byte>, snd: Sender, log: seq<Io>,
                           replies: seq<seq<byte>>)

  /** The server is either receiving a request or sending back the last one it received, out of the
      buffer `replying`; `pool` is the pool it shares with the server's other connections. */
  datatype Server = Server(receiving: bool, pool: PoolState, inbox: Inbox, replying: Option<Buffer>,
                           snd: Sender, handled: seq<seq<byte>>)

  /** `up` and `down` are all bytes ever sent in each direction, `upChan` and `downChan` those still
      under way. */
  datatype Net = Net(c: Client, s: Server, up: seq<byte>, upChan: seq<byte>, down: seq<byte>, downChan: seq<byte>)

  /** The sender of the next round, if there is one. */
  function ClientSender(buf: seq<byte>, round: nat, count: nat): Sender {
    if round < count then SendInit(buf) else Sender([], 0, Resumed(0))
  }

  ghost predicate Init(ctx: Context, f: seq<byte>, count: nat, n: Net) {
    && n.c == Client(0, true, f, ClientSender(f, 0, count), [], [])
    && n.s == Server(true, Empty(ctx.limit), NewInbox(n.s.inbox.junk), None, Sender([], 0, Resumed(0)), [])
    && n.up == n.upChan == n.down == n.downChan == []
  }

  function ClientLazy(c: Client): Lazy {
    LazyFold(LazyInit(|c.buf|), c.log)
  }

  datatype Move =
    | ClientSend(out: OutIo)
    | ClientSent
    | ClientRecv(ev: Io)
    | ClientRound
    | ServerRecv(ev: Io)
    | ServerTurn
    | ServerSend(out: OutIo)
    | ServerNext(junk: nat -> byte)
    | Others(op: Op)

  ghost predicate ClientStep(count: nat, n: Net, m: Move, n': Net) {
    var c := n.c;
    match m
    case ClientSend(ev) =>
      && c.sending && c.snd.sent <= |c.snd.buf| && SendLegal(c.snd, ev)
      && n' == n.(c := c.(snd := SendStep(c.snd, ev)), up := n.up + Sends(c.snd, ev),
                  upChan := n.upChan + Sends(c.snd, ev))
    case ClientSent =>
      // `len != send_len` ends the loop
      && c.sending && c.round < count && c.snd.phase == Resumed(|c.buf|)
      && n' == n.(c := c.(sending := false, log := []))
    case ClientRecv(ev) =>
      && !c.sending && c.round < count
      && (ev.Data? ==> 1 <= |ev.bytes| <= LazyWant(ClientLazy(c)) && ev.bytes <= n.downChan)
      && n' == n.(c := c.(log := c.log + [ev]), downChan := if ev.Data? then n.downChan[|ev.bytes|..] else n.downChan)
    case ClientRound =>
      && !c.sending && c.round < count && ClientLazy(c).phase == Resumed(|c.buf|)
      && var got := ClientLazy(c).got;
         n' == n.(c := Client(c.round + 1, true, got, ClientSender(got, c.round + 1, count), [], c.replies + [got]))
    case _ => false
  }

  ghost predicate ServerStep(ctx: Context, n: Net, m: Move, n': Net) {
    var s := n.s;
    match m
    case ServerRecv(ev) =>
      && s.receiving && (ev.Data? ==> ev.bytes <= n.upChan)
      && InboxStep(ctx, s.pool, s.inbox, ev, n'.s.pool, n'.s.inbox)
      && n' == n.(s := s.(pool := n'.s.pool, inbox := n'.s.inbox),
                  upChan := if ev.Data? then n.upChan[|ev.bytes|..] else n.upChan)
    case ServerTurn =>
      // `len <= 0` and `len != data_len` end the loop; the buffer stays in use until the reply is sent
      var r := Received(s.inbox);
      && s.receiving && r.phase.Resumed? && r.phase.result > 0
      && r.buf.Some? && r.phase.result == r.buf.value.len && WindowIn(r.buf.value)
      && var w := Window(r.buf.value);
         n' == n.(s := s.(receiving := false, inbox := NewInbox(s.inbox.junk), replying := s.inbox.own,
                          snd := SendInit(w), handled := s.handled + [w]))
    case ServerSend(ev) =>
      && !s.receiving && s.snd.sent <= |s.snd.buf| && SendLegal(s.snd, ev)
      && n' == n.(s := s.(snd := SendStep(s.snd, ev)), down := n.down + Sends(s.snd, ev),
                  downChan := n.downChan + Sends(s.snd, ev))
    case ServerNext(junk) =>
      && !s.receiving && s.snd.phase == Resumed(|s.snd.buf|)
      && n' == n.(s := s.(receiving := true, inbox := NewInbox(junk), replying := None))
    case Others(op) =>
      && OthersStep(ctx, s.pool, if s.receiving then s.inbox.own else s.replying, op, n'.s.pool)
      && n' == n.(s := s.(pool := n'.s.pool))
    case _ => false
  }

  ghost predicate Step(ctx: Context, count: nat, n: Net, m: Move, n': Net) {
    ClientStep(count, n, m, n') || ServerStep(ctx, n, m, n')
  }

  // ------------------------------------------------------------------ the invariant

  /** `fs` are the frames of all rounds. */
  ghost predicate ClientInv(fs: seq<seq<byte>>, c: Client, up: seq<byte>) {
    && c.round <= |fs| && SendOk(c.snd) && c.replies == fs[..c.round]
    && (c.sending ==> c.log == [])
    && (c.round < |fs| ==> c.buf == fs[c.round])
    && (c.round == |fs| ==> c.sending && c.snd.buf == [] && up == Concat(fs))
    && (c.round < |fs| && c.sending ==>
          c.snd.buf == fs[c.round] && up == Concat(fs[..c.round]) + fs[c.round][..c.snd.sent])
    && (c.round < |fs| && !c.sending ==>
          up == Concat(fs[..c.round]) + fs[c.round] && LazyLegal(LazyInit(|fs[c.round]|), c.log))
  }

  ghost predicate ServerInv(fs: seq<seq<byte>>, s: Server, down: seq<byte>) {
    var k := |s.handled|;
    && k <= |fs| && s.handled == fs[..k] && SendOk(s.snd)
    && (s.receiving ==> down == Concat(s.handled))
    && (!s.receiving ==>
          && s.inbox.log == [] && k > 0 && s.snd.buf == fs[k - 1]
          && down == Concat(fs[..k - 1]) + fs[k - 1][..s.snd.sent])
  }

  /** Nothing is lost, reordered or invented on a channel: what was sent is what was completely
      received, what the current reader holds, and what is under way. */
  predicate Conserved(sent: seq<byte>, done: seq<seq<byte>>, log: seq<Io>, chan: seq<byte>) {
    sent == Concat(done) + Bytes(log) + chan
  }

  ghost predicate NetInv(fs: seq<seq<byte>>, n: Net) {
    && ClientInv(fs, n.c, n.up)
    && ServerInv(fs, n.s, n.down)
    && Conserved(n.up, n.s.handled, n.s.inbox.log, n.upChan)
    && Conserved(n.down, n.c.replies, n.c.log, n.downChan)
  }

  ghost predicate Inv(ctx: Context, fs: seq<seq<byte>>, n: Net) {
    NetInv(fs, n) && InboxInv(ctx, fs, |n.s.handled|, n.s.pool, n.s.inbox)
  }

  lemma ConcatTake(fs: seq<seq<byte>>, k: nat)
    requires k < |fs|
    ensures Concat(fs[..k + 1]) == Concat(fs[..k]) + fs[k]
  {
    assert fs[..k + 1] == fs[..k] + [fs[k]];
    ConcatAppend(fs[..k], fs[k]);
  }

  lemma UpIsPrefix(fs: seq<seq<byte>>, n: Net)
    requires ClientInv(fs, n.c, n.up)
    ensures n.up <= Concat(fs)
  {
    if n.c.round < |fs| {
      ConcatSplit(fs, n.c.round);
      assert fs[n.c.round..][0] == fs[n.c.round];
      assert fs[n.c.round] <= Concat(fs[n.c.round..]);
    }
  }

  lemma ServerIsOnStream(fs: seq<seq<byte>>, n: Net)
    requires NetInv(fs, n)
    ensures Bytes(n.s.inbox.log) <= Concat(fs[|n.s.handled|..])
  {
    UpIsPrefix(fs, n);
    StreamTail(fs, |n.s.handled|, n.up, Bytes(n.s.inbox.log), n.upChan);
  }

  /** The server never sends a byte it has not received. */
  lemma DownIsPrefixOfHandled(fs: seq<seq<byte>>, n: Net)
    requires ServerInv(fs, n.s, n.down)
    ensures n.down <= Concat(n.s.handled)
  {
    var k := |n.s.handled|;
    if !n.s.receiving {
      ConcatTake(fs, k - 1);
    }
  }

  /** A full reply in round `round` is the frame that was sent in that round. */
  lemma ReplyIsRequest(fs: seq<seq<byte>>, n: Net)
    requires NetInv(fs, n) && n.c.round < |fs| && !n.c.sending
    ensures Bytes(n.c.log) <= fs[n.c.round]
  {
    var k := n.c.round;
    DownIsPrefixOfHandled(fs, n);
    assert n.down <= n.up;
    assert n.down == Concat(fs[..k]) + (Bytes(n.c.log) + n.downChan);
    DropCommon(Concat(fs[..k]), Bytes(n.c.log) + n.downChan, fs[k]);
  }

  // ------------------------------------------------------------------ steps keep it

  lemma AppendLazyLog(size: nat, log: seq<Io>, ev: Io)
    ensures LazyLegal(LazyInit(size), log + [ev]) <==>
              LazyLegal(LazyInit(size), log)
              && (ev.Data? ==> 1 <= |ev.bytes| <= LazyWant(LazyFold(LazyInit(size), log)))
  {
    assert (log + [ev])[..|log|] == log;
  }

  lemma ConservedSend(sent: seq<byte>, done: seq<seq<byte>>, log: seq<Io>, chan: seq<byte>, more: seq<byte>)
    requires Conserved(sent, done, log, chan)
    ensures Conserved(sent + more, done, log, chan + more)
  {
    Regroup(Concat(done) + Bytes(log), chan, more);
  }

  lemma ConservedTake(sent: seq<byte>, done: seq<seq<byte>>, log: seq<Io>, chan: seq<byte>, ev: Io, chan': seq<byte>)
    requires Conserved(sent, done, log, chan)
    requires chan == (if ev.Data? then ev.bytes else []) + chan'
    ensures Conserved(sent, done, log + [ev], chan')
  {
    var taken := if ev.Data? then ev.bytes else [];
    assert Bytes(log + [ev]) == Bytes(log) + taken by {
      assert (log + [ev])[..|log|] == log;
    }
    Regroup(Concat(done), Bytes(log), taken);
    Regroup(Concat(done) + Bytes(log), taken, chan');
  }

  /** A reader that has taken a whole frame counts it as done and starts afresh. */
  lemma ConservedDone(sent: seq<byte>, done: seq<seq<byte>>, log: seq<Io>, chan: seq<byte>, f: seq<byte>)
    requires Conserved(sent, done, log, chan) && Bytes(log) == f
    ensures Conserved(sent, done + [f], [], chan)
  {
    ConcatAppend(done, f);
    assert Concat(done + [f]) + Bytes([]) == Concat(done) + f;
  }

  lemma ClientSendInv(fs: seq<seq<byte>>, c: Client, up: seq<byte>, ev: OutIo)
    requires ClientInv(fs, c, up) && c.sending && SendLegal(c.snd, ev)
    ensures ClientInv(fs, c.(snd := SendStep(c.snd, ev)), up + Sends(c.snd, ev))
  {
    SendKeeps(c.snd, ev);
    if c.round < |fs| {
      Regroup(Concat(fs[..c.round]), fs[c.round][..c.snd.sent], Sends(c.snd, ev));
    }
  }

  lemma ServerSendInv(fs: seq<seq<byte>>, s: Server, down: seq<byte>, ev: OutIo)
    requires ServerInv(fs, s, down) && !s.receiving && SendLegal(s.snd, ev)
    ensures ServerInv(fs, s.(snd := SendStep(s.snd, ev)), down + Sends(s.snd, ev))
  {
    var k := |s.handled|;
    SendKeeps(s.snd, ev);
    Regroup(Concat(fs[..k - 1]), fs[k - 1][..s.snd.sent], Sends(s.snd, ev));
  }

  lemma ClientSendKeeps(ctx: Context, fs: seq<seq<byte>>, n: Net, m: Move, n': Net)
    requires Inv(ctx, fs, n) && ClientStep(|fs|, n, m, n') && m.ClientSend?
    ensures Inv(ctx, fs, n')
  {
    ClientSendInv(fs, n.c, n.up, m.out);
    ConservedSend(n.up, n.s.handled, n.s.inbox.log, n.upChan, Sends(n.c.snd, m.out));
  }

  lemma ClientTurnsKeep(ctx: Context, fs: seq<seq<byte>>, n: Net, m: Move, n': Net)
    requires forall i :: 0 <= i < |fs| ==> |fs[i]| >= 6 && fs[i] == fs[0]
    requires Inv(ctx, fs, n) && ClientStep(|fs|, n, m, n') && (m.ClientSent? || m.ClientRound?)
    ensures Inv(ctx, fs, n')
  {
    var k := n.c.round;
    if m.ClientRound? {
      LazyFillsSpan(|fs[k]|, n.c.log);
      FirstEndValues(n.c.log);
      ReplyIsRequest(fs, n);
      assert Bytes(n.c.log) == fs[k];
      ConcatTake(fs, k);
      assert n'.c.replies == n.c.replies + [fs[k]] == fs[..k + 1];
      assert k + 1 == |fs| ==> fs[..k + 1] == fs;
      ConservedDone(n.down, n.c.replies, n.c.log, n.downChan, fs[k]);
    } else {
      assert fs[k][..n.c.snd.sent] == fs[k];
    }
  }

  lemma ClientRecvKeeps(ctx: Context, fs: seq<seq<byte>>, n: Net, m: Move, n': Net)
    requires Inv(ctx, fs, n) && ClientStep(|fs|, n, m, n') && m.ClientRecv?
    ensures Inv(ctx, fs, n')
  {
    AppendLazyLog(|fs[n.c.round]|, n.c.log, m.ev);
    ConservedTake(n.down, n.c.replies, n.c.log, n.downChan, m.ev, n'.downChan);
  }

  lemma ServerRecvNet(fs: seq<seq<byte>>, n: Net, ev: Io, n': Net)
    requires NetInv(fs, n) && n.s.receiving
    requires n' == n.(s := n.s.(pool := n'.s.pool, inbox := n'.s.inbox), upChan := n'.upChan)
    requires n'.s.inbox.log == n.s.inbox.log + [ev] && n.upChan == (if ev.Data? then ev.bytes else []) + n'.upChan
    ensures NetInv(fs, n') && Bytes(n'.s.inbox.log) <= Concat(fs[|n.s.handled|..])
  {
    ConservedTake(n.up, n.s.handled, n.s.inbox.log, n.upChan, ev, n'.upChan);
    UpIsPrefix(fs, n);
    StreamTail(fs, |n.s.handled|, n.up, Bytes(n'.s.inbox.log), n'.upChan);
  }

  lemma ServerRecvKeeps(ctx: Context, fs: seq<seq<byte>>, n: Net, m: Move, n': Net)
    requires AllSuit(ctx, fs) && Inv(ctx, fs, n) && ServerStep(ctx, n, m, n') && m.ServerRecv?
    ensures Inv(ctx, fs, n')
  {
    assert n.upChan == (if m.ev.Data? then m.ev.bytes else []) + n'.upChan;
    InboxStepKeeps(ctx, n.s.pool, n.s.inbox, m.ev, n'.s.pool, n'.s.inbox);
    ServerRecvNet(fs, n, m.ev, n');
    InboxKeeps(ctx, fs, |n.s.handled|, n.s.pool, n.s.inbox, m.ev, n'.s.pool, n'.s.inbox);
  }

  lemma ServerTurnNet(fs: seq<seq<byte>>, n: Net, n': Net)
    requires NetInv(fs, n) && n.s.receiving && |n.s.handled| < |fs| && Bytes(n.s.inbox.log) == fs[|n.s.handled|]
    requires var f := fs[|n.s.handled|];
             n' == n.(s := n.s.(receiving := false, inbox := n'.s.inbox, replying := n.s.inbox.own,
                                snd := SendInit(f), handled := n.s.handled + [f]))
    requires n'.s.inbox.log == []
    ensures NetInv(fs, n')
  {
    var k := |n.s.handled|;
    assert n'.s.handled == fs[..k + 1];
    ConservedDone(n.up, n.s.handled, n.s.inbox.log, n.upChan, fs[k]);
    assert Concat(fs[..k]) + fs[k][..0] == Concat(fs[..k]);
  }

  lemma ServerTurnKeeps(ctx: Context, fs: seq<seq<byte>>, n: Net, m: Move, n': Net)
    requires Headed(fs) && Inv(ctx, fs, n) && ServerStep(ctx, n, m, n') && m.ServerTurn?
    ensures Inv(ctx, fs, n')
  {
    ServerIsOnStream(fs, n);
    CompletedFrame(InboxEnv(n.s.inbox), fs, |n.s.handled|, n.s.inbox.log);
    ServerTurnNet(fs, n, n');
  }

  lemma ServerSendKeeps(ctx: Context, fs: seq<seq<byte>>, n: Net, m: Move, n': Net)
    requires Inv(ctx, fs, n) && ServerStep(ctx, n, m, n') && m.ServerSend?
    ensures Inv(ctx, fs, n')
  {
    ServerSendInv(fs, n.s, n.down, m.out);
    ConservedSend(n.down, n.c.replies, n.c.log, n.downChan, Sends(n.s.snd, m.out));
  }

  lemma ServerNextKeeps(ctx: Context, fs: seq<seq<byte>>, n: Net, m: Move, n': Net)
    requires forall i :: 0 <= i < |fs| ==> |fs[i]| >= 6
    requires Inv(ctx, fs, n) && ServerStep(ctx, n, m, n') && m.ServerNext?
    ensures Inv(ctx, fs, n')
  {
    var k := |n.s.handled|;
    ConcatTake(fs, k - 1);
    assert n.s.snd.sent == |fs[k - 1]|;
    assert fs[k - 1][..n.s.snd.sent] == fs[k - 1];
  }

  lemma OthersKeepInv(ctx: Context, fs: seq<seq<byte>>, n: Net, m: Move, n': Net)
    requires Inv(ctx, fs, n) && ServerStep(ctx, n, m, n') && m.Others?
    ensures Inv(ctx, fs, n')
  {
    OthersKeep(ctx, n.s.pool, if n.s.receiving then n.s.inbox.own else n.s.replying, m.op, n'.s.pool);
  }

  lemma StepKeeps(ctx: Context, fs: seq<seq<byte>>, n: Net, m: Move, n': Net)
    requires AllSuit(ctx, fs) && (forall i :: 0 <= i < |fs| ==> fs[i] == fs[0])
    requires Inv(ctx, fs, n) && Step(ctx, |fs|, n, m, n')
    ensures Inv(ctx, fs, n')
  {
    match m {
      case ClientSend(_) => ClientSendKeeps(ctx, fs, n, m, n');
      case ClientSent => ClientTurnsKeep(ctx, fs, n, m, n');
      case ClientRecv(_) => ClientRecvKeeps(ctx, fs, n, m, n');
      case ClientRound => ClientTurnsKeep(ctx, fs, n, m, n');
      case ServerRecv(_) => ServerRecvKeeps(ctx, fs, n, m, n');
      case ServerTurn => ServerTurnKeeps(ctx, fs, n, m, n');
      case ServerSend(_) => ServerSendKeeps(ctx, fs, n, m, n');
      case ServerNext(_) => ServerNextKeeps(ctx, fs, n, m, n');
      case Others(_) => OthersKeepInv(ctx, fs, n, m, n');
    }
  }

  // ------------------------------------------------------------------ whole runs

  ghost predicate IsRun(ctx: Context, f: seq<byte>, count: nat, states: seq<Net>, moves: seq<Move>) {
    && |states| == |moves| + 1
    && Init(ctx, f, count, states[0])
    && forall i :: 0 <= i < |moves| ==> Step(ctx, count, states[i], moves[i], states[i + 1])
  }

  function Copies(f: seq<byte>, count: nat): seq<seq<byte>> {
    seq(count, i => f)
  }

  lemma InitInv(ctx: Context, f: seq<byte>, count: nat, n: Net)
    requires Init(ctx, f, count, n)
    ensures Inv(ctx, Copies(f, count), n)
  {
    StartOk(ctx);
    assert Copies(f, count)[..0] == [];
  }

  lemma RunPrefix(ctx: Context, f: seq<byte>, count: nat, states: seq<Net>, moves: seq<Move>, n: nat)
    requires IsRun(ctx, f, count, states, moves) && n < |moves|
    ensures IsRun(ctx, f, count, states[..n + 1], moves[..n]) && Step(ctx, count, states[n], moves[n], states[n + 1])
  {
  }

  lemma {:induction false} RunInv(ctx: Context, f: seq<byte>, count: nat, states: seq<Net>, moves: seq<Move>)
    requires IsRun(ctx, f, count, states, moves) && AllSuit(ctx, Copies(f, count))
    ensures Inv(ctx, Copies(f, count), states[|moves|])
    decreases |moves|
  {
    var fs := Copies(f, count);
    if moves == [] {
      InitInv(ctx, f, count, states[0]);
    } else {
      var n := |moves| - 1;
      RunPrefix(ctx, f, count, states, moves, n);
      RunInv(ctx, f, count, states[..n + 1], moves[..n]);
      StepKeeps(ctx, fs, states[n], moves[n], states[n + 1]);
    }
  }

  /** A server all of whose clients send the frame `f`: its connections ask the pool for one thing. */
  ghost function EchoContext(p: Policy, limit: nat, f: seq<byte>): Context
    requires |f| >= 6
  {
    Context(PoolSizing, p, limit, iset{RequestFor(Parse(f))})
  }

  /** Blocks made for one and the same request are never too short for it. */
  lemma OwnBlocksSuit(p: Policy, limit: nat, f: seq<byte>, count: nat)
    requires IsFrame(f)
    ensures AllSuit(EchoContext(p, limit, f), Copies(f, count))
  {
    var ctx, fs := EchoContext(p, limit, f), Copies(f, count);
    OneRequestIsSafe(ctx, f);
    forall i | 0 <= i < |fs|
      ensures Safe(ctx, fs[i])
    {
      assert fs[i] == f;
    }
    SafeFramesSuit(ctx, fs);
  }

  lemma OneRequestIsSafe(ctx: Context, f: seq<byte>)
    requires ctx.lay == PoolSizing && IsFrame(f) && ctx.menu == iset{RequestFor(Parse(f))}
    ensures Safe(ctx, f)
  {
    forall r1, r2
      ensures !Hazard(ctx.lay, ctx.policy, ctx.limit, ctx.menu, r1, r2)
    {
    }
    NoHazardIsSafe(ctx, f);
  }

  /** Main result: however often the client goes round, however the two ends are scheduled and whatever
      the server's other connections do to its buffer pool, what the server has sent is a prefix of what
      it has received, every completed round returned exactly the frame the client started with, and a
      round under way has read a prefix of it. */
  lemma EchoReturnsWhatWasSent(p: Policy, limit: nat, f: seq<byte>, count: nat, states: seq<Net>, moves: seq<Move>)
    requires IsFrame(f) && IsRun(EchoContext(p, limit, f), f, count, states, moves)
    ensures var n := states[|moves|];
            && n.up <= Concat(Copies(f, count)) && n.down <= Concat(n.s.handled) + Bytes(n.s.inbox.log)
            && n.c.round <= count && n.c.replies == Copies(f, n.c.round)
            && (!n.c.sending ==> n.c.round < count && Bytes(n.c.log) <= f)
  {
    var ctx, fs := EchoContext(p, limit, f), Copies(f, count);
    OwnBlocksSuit(p, limit, f, count);
    RunInv(ctx, f, count, states, moves);
    var n := states[|moves|];
    assert fs[..n.c.round] == Copies(f, n.c.round);
    UpIsPrefix(fs, n);
    DownIsPrefixOfHandled(fs, n);
    if !n.c.sending {
      ReplyIsRequest(fs, n);
    }
  }

  // ------------------------------------------------------------------ the client's own frame

  /** The buffer of the benchmark client: length, two zero bytes, then filler. */
  function ClientFrame(sendLen: nat): (f: seq<byte>)
    requires 6 <= sendLen < 0x8000_0000
    ensures |f| == sendLen
  {
    LengthBytes(sendLen - 4) + [0, 0] + seq(sendLen - 6, i requires i >= 0 => 'X' as int)
  }

  lemma ClientFrameIsFrame(sendLen: nat)
    requires 6 <= sendLen < 0x8000_0000
    ensures IsFrame(ClientFrame(sendLen))
  {
    var f := ClientFrame(sendLen);
    var filler := seq(sendLen - 6, i requires i >= 0 => 'X' as int);
    assert f == LengthBytes(sendLen - 4) + ([0, 0] + filler);
    LengthRoundTrip(sendLen - 4, [0, 0] + filler);
    assert Parse(f) == Header(sendLen - 4, 0, 0);
  }

  /** The benchmark, for any length and any number of rounds: every completed round got its own bytes
      back. */
  lemma BenchmarkEchoes(p: Policy, limit: nat, sendLen: nat, count: nat, states: seq<Net>, moves: seq<Move>)
    requires 6 <= sendLen < 0x8000_0000
    requires IsRun(EchoContext(p, limit, ClientFrame(sendLen)), ClientFrame(sendLen), count, states, moves)
    ensures states[|moves|].c.replies == Copies(ClientFrame(sendLen), states[|moves|].c.round)
  {
    ClientFrameIsFrame(sendLen);
    EchoReturnsWhatWasSent(p, limit, ClientFrame(sendLen), count, states, moves);
  }

  // ------------------------------------------------------------------ nothing gets stuck

  predicate SenderSound(snd: Sender) {
    snd.phase.Waiting? || snd.phase == Resumed(|snd.buf|)
  }

  /** Neither end has failed. */
  predicate Sound(n: Net) {
    && (n.c.sending ==> SenderSound(n.c.snd)) && FirstEnd(n.c.log).None?
    && (!n.s.receiving ==> SenderSound(n.s.snd)) && FirstEnd(n.s.inbox.log).None?
  }

  /** In at most `k` further steps the client can have gone through all its rounds. */
  ghost predicate CanFinish(ctx: Context, count: nat, n: Net, k: nat)
    decreases k
  {
    || n.c.round == count
    || (k > 0 && exists m, n' :: Step(ctx, count, n, m, n') && CanFinish(ctx, count, n', k - 1))
  }

  /** `n'` is closer to the end than `n`. */
  ghost predicate Closer(n: Net, n': Net) {
    || n'.c.round > n.c.round
    || (n'.c.round == n.c.round && n.c.sending && !n'.c.sending)
    || (n'.c.round == n.c.round && n'.c.sending == n.c.sending && n.c.snd.phase.Waiting? && !n'.c.snd.phase.Waiting?)
    || (n'.c == n.c && |n'.s.handled| > |n.s.handled|)
    || (n'.c == n.c && n'.s.handled == n.s.handled && !n.s.receiving && n'.s.receiving)
    || (n'.c == n.c && n'.s.handled == n.s.handled && n'.s.receiving == n.s.receiving == false
        && n.s.snd.phase.Waiting? && !n'.s.snd.phase.Waiting?)
    || (n'.c == n.c && n'.s.handled == n.s.handled && n'.s.receiving == n.s.receiving == true
        && |n'.upChan| < |n.upChan|)
    || (n'.c == n.c.(log := n'.c.log) && n'.s == n.s && n'.upChan == n.upChan && |n'.downChan| < |n.downChan|)
  }

  lemma {:induction false} ConcatGrows(fs: seq<seq<byte>>, i: nat, j: nat)
    requires i <= j <= |fs|
    ensures |Concat(fs[..i])| <= |Concat(fs[..j])|
  {
    if i < j {
      ConcatGrows(fs, i, j - 1);
      ConcatTake(fs, j - 1);
    }
  }

  /** While the client waits for bytes and none are under way to it, the receiving server has a request to
      finish, and the bytes it lacks are under way. */
  lemma ServerHasWork(fs: seq<seq<byte>>, n: Net)
    requires NetInv(fs, n) && n.c.round < |fs| && !n.c.sending && n.s.receiving
    requires n.downChan == [] && |Bytes(n.c.log)| < |fs[n.c.round]|
    ensures var k := |n.s.handled|; k < |fs| && (|Bytes(n.s.inbox.log)| < |fs[k]| ==> n.upChan != [])
  {
    var k, r := |n.s.handled|, n.c.round;
    ConcatTake(fs, r);
    if k > r {
      ConcatGrows(fs, r + 1, k);
      assert false;
    }
    ConcatTake(fs, k);
    ConcatGrows(fs, k + 1, r + 1);
  }

  lemma NextOfClient(ctx: Context, fs: seq<seq<byte>>, n: Net) returns (m: Move, n': Net)
    requires Headed(fs) && NetInv(fs, n) && Sound(n) && n.c.round < |fs|
    requires n.c.sending || n.downChan != [] || |Bytes(n.c.log)| >= |fs[n.c.round]|
    ensures ClientStep(|fs|, n, m, n') && Sound(n') && Closer(n, n')
  {
    var c, f := n.c, fs[n.c.round];
    if c.sending {
      if c.snd.phase.Waiting? {
        m := ClientSend(Took(|f| - c.snd.sent));
        n' := n.(c := c.(snd := SendStep(c.snd, m.out)), up := n.up + Sends(c.snd, m.out),
                 upChan := n.upChan + Sends(c.snd, m.out));
      } else {
        m, n' := ClientSent, n.(c := c.(sending := false, log := []));
      }
    } else {
      LazyFillsSpan(|f|, c.log);
      if |Bytes(c.log)| == |f| {
        var got := ClientLazy(c).got;
        m := ClientRound;
        n' := n.(c := Client(c.round + 1, true, got, ClientSender(got, c.round + 1, |fs|), [], c.replies + [got]));
      } else {
        var want := LazyWant(ClientLazy(c));
        var b := n.downChan[..if want < |n.downChan| then want else |n.downChan|];
        m, n' := ClientRecv(Data(b)), n.(c := c.(log := c.log + [Data(b)]), downChan := n.downChan[|b|..]);
        EndAfterData(c.log, Data(b));
      }
    }
  }

  lemma NextOfReply(ctx: Context, fs: seq<seq<byte>>, n: Net) returns (m: Move, n': Net)
    requires Headed(fs) && NetInv(fs, n) && Sound(n) && !n.s.receiving
    ensures ServerStep(ctx, n, m, n') && Sound(n') && Closer(n, n')
  {
    var s := n.s;
    if s.snd.phase.Waiting? {
      m := ServerSend(Took(|s.snd.buf| - s.snd.sent));
      n' := n.(s := s.(snd := SendStep(s.snd, m.out)), down := n.down + Sends(s.snd, m.out),
               downChan := n.downChan + Sends(s.snd, m.out));
    } else {
      m := ServerNext(s.inbox.junk);
      n' := n.(s := s.(receiving := true, inbox := NewInbox(s.inbox.junk), replying := None));
    }
  }

  lemma NextOfRequest(ctx: Context, fs: seq<seq<byte>>, n: Net) returns (m: Move, n': Net)
    requires Headed(fs) && Inv(ctx, fs, n) && Sound(n) && n.s.receiving && |n.s.handled| < |fs|
    requires |Bytes(n.s.inbox.log)| < |fs[|n.s.handled|]| ==> n.upChan != []
    ensures ServerStep(ctx, n, m, n') && Sound(n') && Closer(n, n')
  {
    var s, k := n.s, |n.s.handled|;
    ServerIsOnStream(fs, n);
    InboxAsks(ctx, fs, k, s.pool, s.inbox);
    if |Bytes(s.inbox.log)| < |fs[k]| {
      var want := Want(Received(s.inbox));
      var b := n.upChan[..if want < |n.upChan| then want else |n.upChan|];
      m := ServerRecv(Data(b));
      var pool', inbox' := InboxCanStep(ctx, s.pool, s.inbox, Data(b));
      n' := n.(s := s.(pool := pool', inbox := inbox'), upChan := n.upChan[|b|..]);
      EndAfterData(s.inbox.log, Data(b));
    } else {
      CompletedFrame(InboxEnv(s.inbox), fs, k, s.inbox.log);
      m := ServerTurn;
      n' := n.(s := s.(receiving := false, inbox := NewInbox(s.inbox.junk), replying := s.inbox.own,
                       snd := SendInit(fs[k]), handled := s.handled + [fs[k]]));
    }
  }

  lemma NextMove(ctx: Context, fs: seq<seq<byte>>, n: Net) returns (m: Move, n': Net)
    requires Headed(fs) && Inv(ctx, fs, n) && Sound(n) && n.c.round < |fs|
    ensures Step(ctx, |fs|, n, m, n') && Sound(n') && Closer(n, n')
  {
    if n.c.sending || n.downChan != [] || |Bytes(n.c.log)| >= |fs[n.c.round]| {
      m, n' := NextOfClient(ctx, fs, n);
    } else if !n.s.receiving {
      m, n' := NextOfReply(ctx, fs, n);
    } else {
      ServerHasWork(fs, n);
      m, n' := NextOfRequest(ctx, fs, n);
    }
  }

  function One(b: bool): nat {
    if b then 1 else 0
  }

  lemma RoundsBound(ctx: Context, fs: seq<seq<byte>>, n: Net)
    requires Inv(ctx, fs, n)
    ensures n.c.round <= |fs| && |n.s.handled| <= |fs|
  {
  }

  lemma FinishesAfter(ctx: Context, count: nat, n: Net, m: Move, n': Net, k: nat)
    requires Step(ctx, count, n, m, n') && CanFinish(ctx, count, n', k)
    ensures CanFinish(ctx, count, n, k + 1)
  {
    assert k + 1 - 1 == k;
  }

  lemma {:induction false} EveryRoundCanFinish(ctx: Context, fs: seq<seq<byte>>, n: Net)
    requires AllSuit(ctx, fs) && (forall i :: 0 <= i < |fs| ==> fs[i] == fs[0]) && Inv(ctx, fs, n) && Sound(n)
    ensures exists k: nat :: CanFinish(ctx, |fs|, n, k)
    decreases |fs| - n.c.round, One(n.c.sending), One(n.c.snd.phase.Waiting?), |fs| - |n.s.handled|,
              One(!n.s.receiving), One(!n.s.receiving && n.s.snd.phase.Waiting?),
              if n.s.receiving then |n.upChan| else 0, |n.downChan|
  {
    RoundsBound(ctx, fs, n);
    if n.c.round == |fs| {
      assert CanFinish(ctx, |fs|, n, 0);
    } else {
      var m, n' := NextMove(ctx, fs, n);
      StepKeeps(ctx, fs, n, m, n');
      RoundsBound(ctx, fs, n');
      EveryRoundCanFinish(ctx, fs, n');
      var k: nat :| CanFinish(ctx, |fs|, n', k);
      FinishesAfter(ctx, |fs|, n, m, n', k);
    }
  }

  /** Main result, progress: whatever schedule a run has followed, and whatever the server's other connections
      did to its pool, as long as neither end has failed the client can still go through all its rounds. */
  lemma EchoCanFinish(p: Policy, limit: nat, f: seq<byte>, count: nat, states: seq<Net>, moves: seq<Move>)
    requires IsFrame(f) && IsRun(EchoContext(p, limit, f), f, count, states, moves) && Sound(states[|moves|])
    ensures exists k: nat :: CanFinish(EchoContext(p, limit, f), count, states[|moves|], k)
  {
    var ctx, fs := EchoContext(p, limit, f), Copies(f, count);
    OwnBlocksSuit(p, limit, f, count);
    RunInv(ctx, f, count, states, moves);
    EveryRoundCanFinish(ctx, fs, states[|moves|]);
  }
}
