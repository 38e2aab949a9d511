/** The block that a shared pool hands to a receiver, and what follows for the receiver.  All
    connections of one `io_context` draw on one pool; a block may have been recycled, and it may be
    shorter than the request it answers. */
module Placement {
  import opened Common
  import opened Bits
  import opened BlockLayout
  import opened BufferPool
  import opened Recycling
  import opened Wire
  import opened Receive
  import opened Overrun

  /** The pool of an `io_context` and what its clients may ask of it. */
  datatype Context = Context(lay: Sizing, policy: Policy, limit: nat, menu: iset<Request>)

  /** `body_off() - align_off`, as stored by `set_data_offset`. */
  function BufferBegin(off: nat, headerLen: nat): nat {
    if off == 0 then 0 else U16(U32(headerLen - off))
  }

  function PlaceIn(own: Option<Buffer>, h: Header): Option<Place> {
    match own
    case None => None
    case Some(b) => Some(Place(b.block.len, BufferBegin(h.off, b.headerLen)))
  }

  /** The surroundings of a receiver that was handed the buffer `own`. */
  function EnvOf(own: Option<Buffer>, junk: nat -> byte): Env {
    Env(h => PlaceIn(own, h), junk)
  }

  // ------------------------------------------------------------------ blocks that are too short

  /** A block made for `q` is found under the key of the request for `h` and is too short for what the
      receiver writes. */
  predicate TooShort(lay: Sizing, q: Request, h: Header) {
    && lay(q).Some? && lay(RequestFor(h)).Some?
    && lay(q).value.key == lay(RequestFor(h)).value.key
    && lay(q).value.total < BufferBegin(h.off, U16(lay(RequestFor(h)).value.header)) + Written(h)
  }

  /** Even a block allocated for `h` does not do. */
  predicate Hopeless(lay: Sizing, h: Header) {
    lay(RequestFor(h)).None? || TooShort(lay, RequestFor(h), h)
  }

  /** A block of some other client of the context, if it reaches the cache, does not do. */
  ghost predicate Poisoned(ctx: Context, h: Header) {
    exists q :: q in ctx.menu && TooShort(ctx.lay, q, h) && CanCache(ctx.lay, ctx.policy, ctx.limit, ctx.menu, q)
  }

  ghost predicate Risky(ctx: Context, h: Header) {
    Hopeless(ctx.lay, h) || Poisoned(ctx, h)
  }

  // ------------------------------------------------------------------ what the pool can answer

  ghost predicate AnswerRun(ctx: Context, ops: seq<Op>, s: PoolState, r: Request, b: Buffer) {
    Uses(ops, ctx.menu) && RunTo(ctx.lay, ctx.policy, ctx.limit, ops + [Malloc(r, b)], s)
  }

  /** Some run of the context's clients ends with this answer to `r`. */
  ghost predicate CanAnswer(ctx: Context, r: Request, own: Option<Buffer>) {
    match own
    case None => ctx.lay(r).None?
    case Some(b) => ctx.lay(r).Some? && exists ops, s :: AnswerRun(ctx, ops, s, r, b)
  }

  /** A run of the context's clients that ends in `pool`. */
  ghost predicate PoolRun(ctx: Context, states: seq<PoolState>, ops: seq<Op>, pool: PoolState) {
    IsRun(ctx.lay, ctx.policy, ctx.limit, states, ops) && Uses(ops, ctx.menu) && states[|ops|] == pool
  }

  /** An answer is the last step of such a run. */
  lemma AnswerSplit(ctx: Context, r: Request, b: Buffer)
    requires CanAnswer(ctx, r, Some(b))
    ensures exists states, ops, pool, pool' ::
              PoolRun(ctx, states, ops, pool) && MallocStep(pool, ctx.lay(r).value, r.bit, pool', b)
  {
    var ops, s :| AnswerRun(ctx, ops, s, r, b);
    var n := |ops|;
    var all := ops + [Malloc(r, b)];
    var states :| IsRun(ctx.lay, ctx.policy, ctx.limit, states, all) && states[|all|] == s;
    assert all[..n] == ops && all[n] == Malloc(r, b);
    assert BufferPool.Step(ctx.lay, ctx.policy, states[n], all[n], states[n + 1]);
    assert PoolRun(ctx, states[..n + 1], ops, states[n]);
  }

  lemma AnswerSource(ctx: Context, r: Request, b: Buffer)
    requires KeysMatch(ctx.lay) && CanAnswer(ctx, r, Some(b))
    ensures exists q :: AnsweredBy(ctx.lay, ctx.policy, ctx.limit, ctx.menu, r, b, q)
  {
    AnswerSplit(ctx, r, b);
    var states, ops, pool, pool' :|
      PoolRun(ctx, states, ops, pool) && MallocStep(pool, ctx.lay(r).value, r.bit, pool', b);
    RunInv(ctx.lay, ctx.policy, ctx.limit, states, ops);
    RunTraced(ctx.lay, ctx.policy, ctx.limit, ctx.menu, states, ops);
    MallocSource(ctx.lay, ctx.policy, ctx.limit, ctx.menu, pool, r, pool', b);
  }

  /** Without risk, every answer has room. */
  lemma AnsweredHasRoom(ctx: Context, h: Header, b: Buffer, q: Request, junk: nat -> byte)
    requires AnsweredBy(ctx.lay, ctx.policy, ctx.limit, ctx.menu, RequestFor(h), b, q) && !Risky(ctx, h)
    ensures HasRoom(EnvOf(Some(b), junk), h)
  {
    assert !TooShort(ctx.lay, q, h);
  }

  /** A fresh allocation is always possible. */
  lemma FreshAnswer(ctx: Context, r: Request)
    requires ctx.lay(r).Some?
    ensures var l := ctx.lay(r).value; CanAnswer(ctx, r, Some(Taken(Made(l, r.bit, 0), l)))
  {
    var l := ctx.lay(r).value;
    var d := Made(l, r.bit, 0);
    TakesOne(ctx.lay, ctx.policy, ctx.limit, r);
    assert [] + [Malloc(r, Taken(d, l))] == [Malloc(r, Taken(d, l))];
    assert AnswerRun(ctx, [], PoolState(ctx.limit, 0, [], map[0 := d], [], 1), r, Taken(d, l));
  }

  /** So is a recycled block of any request whose block can reach the cache, if the keys agree. */
  lemma RecycledAnswer(ctx: Context, q: Request, r: Request)
    requires KeysMatch(ctx.lay) && q in ctx.menu && Clash(ctx.lay, q, r)
    requires CanCache(ctx.lay, ctx.policy, ctx.limit, ctx.menu, q)
    ensures exists d :: CanAnswer(ctx, r, Some(Taken(d, ctx.lay(r).value))) && d.len == ctx.lay(q).value.total
  {
    ClashSameBit(ctx.lay, q, r);
    var l1, l2 := ctx.lay(q).value, ctx.lay(r).value;
    if ctx.policy.AsIntended? {
      var d := Made(l1, q.bit, 0);
      IntendedMishap(ctx.lay, ctx.limit, q, r);
      var s :| RunTo(ctx.lay, AsIntended, ctx.limit, ShortMishap(q, l1, r, l2, d), s);
      assert AnswerRun(ctx, [Malloc(q, Taken(d, l1))] + [Drop(0)], s, r, Taken(d, l2));
      assert CanAnswer(ctx, r, Some(Taken(d, l2)));
    } else {
      var z :| z in ctx.menu && Reaches(ctx.lay, z, ctx.limit);
      var l0 := ctx.lay(z).value;
      var d0, d1 := Made(l0, z.bit, 0), Made(l1, q.bit, 1);
      WrittenMishap(ctx.lay, ctx.limit, z, q, r);
      var s :| RunTo(ctx.lay, AsWritten, ctx.limit, LongMishap(z, l0, q, l1, r, l2, d0, d1), s);
      assert AnswerRun(ctx, TakeTwo(z, l0, q, l1, d0, d1) + [Drop(0)] + [Drop(1)], s, r, Taken(d1, l2));
      assert CanAnswer(ctx, r, Some(Taken(d1, l2)));
    }
  }

  /** With a risk, some answer has no room. */
  lemma RiskyAnswer(ctx: Context, h: Header)
    requires KeysMatch(ctx.lay) && Risky(ctx, h)
    ensures exists own :: CanAnswer(ctx, RequestFor(h), own) && forall junk :: !HasRoom(EnvOf(own, junk), h)
  {
    var r := RequestFor(h);
    if ctx.lay(r).None? {
      assert CanAnswer(ctx, r, None);
    } else if TooShort(ctx.lay, r, h) {
      FreshAnswer(ctx, r);
      var l := ctx.lay(r).value;
      var own := Some(Taken(Made(l, r.bit, 0), l));
      assert forall junk :: !HasRoom(EnvOf(own, junk), h);
    } else {
      var q :| q in ctx.menu && TooShort(ctx.lay, q, h) && CanCache(ctx.lay, ctx.policy, ctx.limit, ctx.menu, q);
      RecycledAnswer(ctx, q, r);
      var d :| CanAnswer(ctx, r, Some(Taken(d, ctx.lay(r).value))) && d.len == ctx.lay(q).value.total;
      var own := Some(Taken(d, ctx.lay(r).value));
      assert forall junk :: !HasRoom(EnvOf(own, junk), h);
    }
  }

  /** Some history of the pool and some schedule of the kernel make the receiver of `hdr` leave its
      buffer. */
  ghost predicate SomeHistoryFaults(ctx: Context, hdr: seq<byte>, junk: nat -> byte)
    requires |hdr| == 6
  {
    exists own :: CanAnswer(ctx, RequestFor(Parse(hdr)), own) && SomeScheduleFaults(EnvOf(own, junk), hdr)
  }

  /** Exactly when a header is dangerous in a context, for any way to compute lengths and keys. */
  lemma HistoryFaultsIff(ctx: Context, hdr: seq<byte>, junk: nat -> byte)
    requires KeysMatch(ctx.lay) && |hdr| == 6
    ensures SomeHistoryFaults(ctx, hdr, junk) <==> Risky(ctx, Parse(hdr))
  {
    var h := Parse(hdr);
    if Risky(ctx, h) {
      RiskyAnswer(ctx, h);
      var own :| CanAnswer(ctx, RequestFor(h), own) && forall junk :: !HasRoom(EnvOf(own, junk), h);
      FaultsIff(EnvOf(own, junk), hdr);
    } else {
      forall own | CanAnswer(ctx, RequestFor(h), own)
        ensures !SomeScheduleFaults(EnvOf(own, junk), hdr)
      {
        AnswerSource(ctx, RequestFor(h), own.value);
        var q :| AnsweredBy(ctx.lay, ctx.policy, ctx.limit, ctx.menu, RequestFor(h), own.value, q);
        AnsweredHasRoom(ctx, h, own.value, q, junk);
        FaultsIff(EnvOf(own, junk), hdr);
      }
    }
  }

  // ------------------------------------------------------------------ the pool's own lengths and keys

  ghost predicate AskedFor(hdrs: iset<seq<byte>>, r: Request) {
    exists hdr :: hdr in hdrs && |hdr| >= 6 && r == RequestFor(Parse(hdr))
  }

  /** A context whose connections receive the headers `hdrs`. */
  ghost function PoolContext(p: Policy, limit: nat, hdrs: iset<seq<byte>>): Context {
    Context(PoolSizing, p, limit, iset r | AskedFor(hdrs, r))
  }

  /** A block for `r1` is found under the key of the request for `h` and is too short for its frame. */
  predicate ShortBlockFor(r1: Request, h: Header) {
    && IsRequest(r1) && IsRequest(RequestFor(h)) && LayoutOf(r1).key == LayoutOf(RequestFor(h)).key
    && LayoutOf(r1).total < BeginFor(h.off, RequestFor(h)) + Written(h)
  }

  lemma TooShortIff(r1: Request, h: Header)
    ensures TooShort(PoolSizing, r1, h) <==> ShortBlockFor(r1, h)
  {
    BeginAgrees(h.off, RequestFor(h));
  }

  lemma BeginAgrees(off: nat, r: Request)
    ensures IsRequest(r) ==> BufferBegin(off, U16(LayoutOf(r).header)) == BeginFor(off, r)
  {
  }

  /** With the pool's lengths, a fresh block does not do exactly for the headers of `Overruns`. */
  lemma HopelessIff(h: Header)
    requires OnWire(h)
    ensures Hopeless(PoolSizing, h) <==> Overruns(h)
  {
    FitsIff(h);
    BeginAgrees(h.off, RequestFor(h));
  }

  /** A block for `h1` can reach the cache, and is too short for the frame of `h2` that it may answer. */
  ghost predicate SharesShortBlock(ctx: Context, h1: Header, h2: Header) {
    && CanCache(ctx.lay, ctx.policy, ctx.limit, ctx.menu, RequestFor(h1))
    && ShortBlockFor(RequestFor(h1), h2)
  }

  lemma PoisonedIff(p: Policy, limit: nat, hdrs: iset<seq<byte>>, h: Header)
    ensures var ctx := PoolContext(p, limit, hdrs);
            Poisoned(ctx, h) <==> exists hdr :: hdr in hdrs && |hdr| >= 6 && SharesShortBlock(ctx, Parse(hdr), h)
  {
    var ctx := PoolContext(p, limit, hdrs);
    if Poisoned(ctx, h) {
      var q :| q in ctx.menu && TooShort(ctx.lay, q, h) && CanCache(ctx.lay, ctx.policy, ctx.limit, ctx.menu, q);
      TooShortIff(q, h);
      assert AskedFor(hdrs, q);
      var hdr :| hdr in hdrs && |hdr| >= 6 && q == RequestFor(Parse(hdr));
      assert SharesShortBlock(ctx, Parse(hdr), h);
    }
    if hdr :| hdr in hdrs && |hdr| >= 6 && SharesShortBlock(ctx, Parse(hdr), h) {
      TooShortIff(RequestFor(Parse(hdr)), h);
      assert AskedFor(hdrs, RequestFor(Parse(hdr)));
    }
  }

  /** Main result: over all histories of a pool whose clients receive the headers `hdrs`, and all
      schedules, some receiver writes outside its buffer if and only if one of the headers overruns
      even a fresh block, or a block for one of them can be handed to another for which it is too
      short. */
  lemma PoolFaultsIff(p: Policy, limit: nat, hdrs: iset<seq<byte>>, junk: nat -> byte)
    requires forall hdr :: hdr in hdrs ==> |hdr| == 6
    ensures var ctx := PoolContext(p, limit, hdrs);
            (exists hdr :: hdr in hdrs && SomeHistoryFaults(ctx, hdr, junk)) <==>
              || (exists hdr :: hdr in hdrs && Overruns(Parse(hdr)))
              || (exists hdr1, hdr2 :: hdr1 in hdrs && hdr2 in hdrs && SharesShortBlock(ctx, Parse(hdr1), Parse(hdr2)))
  {
    var ctx := PoolContext(p, limit, hdrs);
    PoolKeysMatch();
    forall hdr | hdr in hdrs
      ensures SomeHistoryFaults(ctx, hdr, junk) <==>
                || Overruns(Parse(hdr))
                || exists hdr1 :: hdr1 in hdrs && SharesShortBlock(ctx, Parse(hdr1), Parse(hdr))
    {
      HistoryFaultsIff(ctx, hdr, junk);
      HopelessIff(Parse(hdr));
      PoisonedIff(p, limit, hdrs, Parse(hdr));
    }
  }

  /** Every block the real pool can hand out for a well-formed frame has room for it, if no recycled one
      can be too short. */
  lemma AnswerIsRoomy(ctx: Context, s: seq<byte>, own: Option<Buffer>, junk: nat -> byte)
    requires ctx.lay == PoolSizing && |s| >= 6 && WellFormed(Parse(s)) && !Poisoned(ctx, Parse(s))
    requires CanAnswer(ctx, RequestFor(Parse(s)), own)
    ensures Roomy(EnvOf(own, junk), Parse(s))
    ensures own.Some? && PoolSizing(RequestFor(Parse(s))).Some?
    ensures own.value.headerLen == U16(PoolSizing(RequestFor(Parse(s))).value.header)
  {
    var h := Parse(s);
    PoolKeysMatch();
    HopelessIff(h);
    OrdinaryOverruns(h);
    AnswerSource(ctx, RequestFor(h), own.value);
    var q :| AnsweredBy(ctx.lay, ctx.policy, ctx.limit, ctx.menu, RequestFor(h), own.value, q);
    AnsweredHasRoom(ctx, h, own.value, q, junk);
    WrittenValue(h);
  }

  /** Every answer the real pool can give for a header has room for an ordinary frame if and only if the
      frame is well-formed and no recycled block can be too short for it. */
  lemma RoomyIff(ctx: Context, s: seq<byte>, junk: nat -> byte)
    requires ctx.lay == PoolSizing && |s| >= 6
    requires 2 <= Parse(s).length && Parse(s).length + 4 < 0x8000_0000
    ensures (forall own :: CanAnswer(ctx, RequestFor(Parse(s)), own) ==> Roomy(EnvOf(own, junk), Parse(s)))
       <==> WellFormed(Parse(s)) && !Poisoned(ctx, Parse(s))
  {
    var h := Parse(s);
    if WellFormed(h) && !Poisoned(ctx, h) {
      forall own | CanAnswer(ctx, RequestFor(h), own)
        ensures Roomy(EnvOf(own, junk), h)
      {
        AnswerIsRoomy(ctx, s, own, junk);
      }
    } else {
      PoolKeysMatch();
      HopelessIff(h);
      OrdinaryOverruns(h);
      RiskyAnswer(ctx, h);
      var own :| CanAnswer(ctx, RequestFor(h), own) && forall junk :: !HasRoom(EnvOf(own, junk), h);
      WrittenValue(h);
      assert !Roomy(EnvOf(own, junk), h);
    }
  }

  /** For frames of an ordinary length: an exponent of 32 or more, one of 31 with a body, or a recycled
      block that is too short. */
  lemma OrdinaryFaultsIff(ctx: Context, hdr: seq<byte>, junk: nat -> byte)
    requires ctx.lay == PoolSizing && |hdr| == 6
    requires 2 <= Parse(hdr).length && Parse(hdr).length + 4 < 0x8000_0000
    ensures var h := Parse(hdr);
            (SomeHistoryFaults(ctx, hdr, junk) <==>
               || (h.off > 0 && (h.bit >= 32 || (h.bit == 31 && h.off < h.length + 4)))
               || Poisoned(ctx, h))
  {
    PoolKeysMatch();
    HistoryFaultsIff(ctx, hdr, junk);
    HopelessIff(Parse(hdr));
    OrdinaryOverruns(Parse(hdr));
  }

  /** Without a hazard, every answer has the length that was asked for. */
  lemma AnswerLength(ctx: Context, r: Request, b: Buffer)
    requires KeysMatch(ctx.lay) && NoHazard(ctx.lay, ctx.policy, ctx.limit, ctx.menu)
    requires r in ctx.menu && CanAnswer(ctx, r, Some(b))
    ensures b.block.len == ctx.lay(r).value.total
  {
    AnswerSource(ctx, r, b);
    var q :| AnsweredBy(ctx.lay, ctx.policy, ctx.limit, ctx.menu, r, b, q);
    assert !Hazard(ctx.lay, ctx.policy, ctx.limit, ctx.menu, q, r);
  }

  /** With the real limit of 32 MiB: a frame of 1 GiB + 1 KiB fits the block that is allocated for it,
      and is handed a block of 1 KiB if the peers also send frames of that length. */
  lemma RecycledBlockFaults(small: seq<byte>, large: seq<byte>, junk: nat -> byte)
    requires small == [0, 0, 3, 0xFC, 0, 0] && large == [0x40, 0, 3, 0xFC, 0, 0]
    ensures WellFormed(Parse(large)) && !Overruns(Parse(large))
    ensures SomeHistoryFaults(PoolContext(AsWritten, 0x200_0000, iset{small, large}), large, junk)
  {
    var h1, h2 := Parse(small), Parse(large);
    assert h1 == Header(1020, 0, 0) && h2 == Header(0x4000_03FC, 0, 0);
    assert RequestFor(h1) == Request(1024, 6, 0) && RequestFor(h2) == Request(0x4000_0400, 6, 0);
    assert AskedFor(iset{small, large}, RequestFor(h1)) && AskedFor(iset{small, large}, RequestFor(h2));
    ShortForLarge(h1, h2, RequestFor(h1), RequestFor(h2), iset{small, large});
    PoolKeysMatch();
    HistoryFaultsIff(PoolContext(AsWritten, 0x200_0000, iset{small, large}), large, junk);
  }

  lemma ShortForLarge(h1: Header, h2: Header, r1: Request, r2: Request, hdrs: iset<seq<byte>>)
    requires h1 == Header(1020, 0, 0) && h2 == Header(0x4000_03FC, 0, 0) && r1 == RequestFor(h1) && r2 == RequestFor(h2)
    requires r1 == Request(1024, 6, 0) && r2 == Request(0x4000_0400, 6, 0)
    requires AskedFor(hdrs, r1) && AskedFor(hdrs, r2)
    ensures Poisoned(PoolContext(AsWritten, 0x200_0000, hdrs), h2)
  {
    var ctx := PoolContext(AsWritten, 0x200_0000, hdrs);
    KeyLosesHighBits(r1, r2);
    WrittenValue(h2);
    ShortWith(ctx, r1, h2, LayoutOf(r1), LayoutOf(r2));
  }

  lemma ShortWith(ctx: Context, q: Request, h: Header, l1: Layout, l2: Layout)
    requires q in ctx.menu && RequestFor(h) in ctx.menu && ctx.policy.AsWritten? && h.off == 0
    requires ctx.lay(q) == Some(l1) && ctx.lay(RequestFor(h)) == Some(l2) && l1.key == l2.key
    requires l1.total < Written(h) && l2.total >= ctx.limit
    ensures Poisoned(ctx, h)
  {
    assert Reaches(ctx.lay, RequestFor(h), ctx.limit);
    assert TooShort(ctx.lay, q, h);
  }

  // ------------------------------------------------------------------ a receiver at the pool

  /** A receiver in progress: the buffer it was handed, which has none before its header is complete,
      the contents of that buffer before use, and what has happened so far. */
  datatype Inbox = Inbox(own: Option<Buffer>, junk: nat -> byte, log: seq<Io>)

  function NewInbox(junk: nat -> byte): Inbox {
    Inbox(None, junk, [])
  }

  function InboxEnv(i: Inbox): Env {
    EnvOf(i.own, i.junk)
  }

  function Received(i: Inbox): Req {
    Fold(InboxEnv(i), ReqInit, i.log)
  }

  /** `malloc` for the header `h`, if it is defined. */
  ghost predicate Takes(ctx: Context, pool: PoolState, h: Header, pool': PoolState, own: Option<Buffer>) {
    match ctx.lay(RequestFor(h))
    case None => own.None? && pool' == pool
    case Some(l) => own.Some? && MallocStep(pool, l, RequestFor(h).bit, pool', own.value)
  }

  /** The event is the one that completes the header. */
  predicate Opens(log: seq<Io>, ev: Io) {
    ev.Data? && |Bytes(log)| < 6 <= |Bytes(log)| + |ev.bytes|
  }

  /** One event; the one that completes the header takes a buffer from the pool. */
  ghost predicate InboxStep(ctx: Context, pool: PoolState, i: Inbox, ev: Io, pool': PoolState, i': Inbox) {
    && (ev.Data? ==> 1 <= |ev.bytes| <= Want(Received(i)))
    && i' == Inbox(i'.own, i.junk, i.log + [ev])
    && if Opens(i.log, ev) then Takes(ctx, pool, Parse(Bytes(i.log) + ev.bytes), pool', i'.own)
       else pool' == pool && i'.own == i.own
  }

  /** What the other clients of the context do: ask for buffers, and drop any but the one in use. */
  ghost predicate OthersStep(ctx: Context, pool: PoolState, own: Option<Buffer>, op: Op, pool': PoolState) {
    && BufferPool.Step(ctx.lay, ctx.policy, pool, op, pool')
    && match op
       case Malloc(r, _) => r in ctx.menu
       case Drop(id) => own.None? || own.value.block.id != id
  }

  ghost predicate PoolOk(ctx: Context, pool: PoolState) {
    && Inv(pool) && pool.limit == ctx.limit
    && Traced(ctx.lay, ctx.policy, ctx.limit, ctx.menu, pool)
  }

  ghost predicate InboxOk(i: Inbox) {
    Legal(InboxEnv(i), ReqInit, i.log) && (|Bytes(i.log)| < 6 ==> i.own.None?)
  }

  lemma StartOk(ctx: Context)
    ensures PoolOk(ctx, Empty(ctx.limit))
  {
  }

  lemma OthersKeep(ctx: Context, pool: PoolState, own: Option<Buffer>, op: Op, pool': PoolState)
    requires PoolOk(ctx, pool) && OthersStep(ctx, pool, own, op, pool')
    ensures PoolOk(ctx, pool')
  {
    match op {
      case Malloc(r, b) =>
        MallocKeepsInv(pool, ctx.lay(r).value, r.bit, pool', b);
        MallocTraced(ctx.lay, ctx.policy, ctx.limit, ctx.menu, pool, r, pool', b);
      case Drop(id) =>
        ReleaseKeepsInv(ctx.policy, pool, id);
        ReleaseTraced(ctx.lay, ctx.policy, ctx.limit, ctx.menu, pool, id);
    }
  }

  lemma TakesKeeps(ctx: Context, pool: PoolState, h: Header, pool': PoolState, own: Option<Buffer>)
    requires PoolOk(ctx, pool) && Takes(ctx, pool, h, pool', own) && RequestFor(h) in ctx.menu
    ensures PoolOk(ctx, pool')
  {
    if own.Some? {
      var r := RequestFor(h);
      MallocKeepsInv(pool, ctx.lay(r).value, r.bit, pool', own.value);
      MallocTraced(ctx.lay, ctx.policy, ctx.limit, ctx.menu, pool, r, pool', own.value);
    }
  }

  /** Without risk, the buffer taken for a frame has room for it, whatever the pool has been through. */
  lemma TakesRoom(ctx: Context, pool: PoolState, h: Header, pool': PoolState, own: Option<Buffer>, junk: nat -> byte)
    requires KeysMatch(ctx.lay) && PoolOk(ctx, pool) && Takes(ctx, pool, h, pool', own) && !Risky(ctx, h)
    ensures HasRoom(EnvOf(own, junk), h)
  {
    MallocSource(ctx.lay, ctx.policy, ctx.limit, ctx.menu, pool, RequestFor(h), pool', own.value);
    var q :| AnsweredBy(ctx.lay, ctx.policy, ctx.limit, ctx.menu, RequestFor(h), own.value, q);
    AnsweredHasRoom(ctx, h, own.value, q, junk);
  }

  /** The pool can always answer. */
  lemma TakesPossible(ctx: Context, pool: PoolState, h: Header)
    ensures exists pool', own :: Takes(ctx, pool, h, pool', own)
  {
    var r := RequestFor(h);
    match ctx.lay(r) {
      case None => assert Takes(ctx, pool, h, pool, None);
      case Some(l) =>
        if Cached(pool, l.key) {
          var i: nat :| i < |pool.cache| && pool.cache[i].key == l.key;
          var d := pool.cache[i].block;
          var pool' := pool.(cacheBytes := pool.cacheBytes - d.len, cache := RemoveAt(pool.cache, i),
                         live := pool.live[d.id := d]);
          assert HitAt(pool, l, pool', Taken(d, l), i);
          assert Takes(ctx, pool, h, pool', Some(Taken(d, l)));
        } else {
          var d := Made(l, r.bit, pool.next);
          var pool' := pool.(live := pool.live[pool.next := d], next := pool.next + 1);
          assert Miss(pool, l, r.bit, pool', Taken(d, l));
          assert Takes(ctx, pool, h, pool', Some(Taken(d, l)));
        }
    }
  }

  /** Until the header is complete, a receiver does not depend on its buffer. */
  lemma {:induction false} FoldBeforeHeader(env: Env, env': Env, log: seq<Io>)
    requires Legal(env, ReqInit, log) && |Bytes(log)| < 6
    ensures Legal(env', ReqInit, log) && Fold(env', ReqInit, log) == Fold(env, ReqInit, log)
  {
    if log != [] {
      var n := |log| - 1;
      FoldBeforeHeader(env, env', log[..n]);
      NoScheduleFaults(env, log[..n]);
    }
  }

  lemma InboxStepKeeps(ctx: Context, pool: PoolState, i: Inbox, ev: Io, pool': PoolState, i': Inbox)
    requires InboxOk(i) && InboxStep(ctx, pool, i, ev, pool', i')
    ensures InboxOk(i') && Received(i') == Receive.Step(InboxEnv(i'), Received(i), ev)
    ensures Bytes(i'.log) == Bytes(i.log) + (if ev.Data? then ev.bytes else [])
  {
    if |Bytes(i.log)| < 6 {
      FoldBeforeHeader(InboxEnv(i), InboxEnv(i'), i.log);
    }
    FoldAppend(InboxEnv(i'), ReqInit, i.log, ev);
  }
}
