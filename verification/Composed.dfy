/** `recv_request2`, the receiver composed of two `recv_lazy` awaits: its agreement with the fused
    `recv_request`, and which frames make it write outside its buffer. */
module Composed {
  import opened Common
  import opened Bits
  import opened BufferPool
  import opened Recycling
  import opened Wire
  import opened Receive
  import opened Overrun
  import opened Placement

  datatype Comp =
    | InHeader(lazy: Lazy)
    | InBody(lazy: Lazy, buf: Buf)
    | Done(result: int, left: Option<Buf>)
    | Broken

  const CompInit := InHeader(LazyInit(6))

  /** An alignment exponent of zero is replaced by 6, in the header bytes themselves. */
  function Fix(s: seq<byte>): (r: seq<byte>)
    ensures |r| == |s|
  {
    if |s| >= 6 && s[5] == 0 then s[5 := 6] else s
  }

  function OpenBody(env: Env, header: seq<byte>): Comp
    requires |header| == 6
  {
    var fixed := Fix(header);
    var h := Parse(fixed);
    match env.place(h)
    case None => Broken
    case Some(p) =>
      if p.begin + 6 > p.capacity then Broken
      else
        InBody(LazyInit(I32(U32(h.length - 2))),
               Buf(p.begin, U32(h.length + 4), Put(seq(p.capacity, i requires i >= 0 => env.junk(i)), p.begin, fixed)))
  }

  /** Resuming after the first await. */
  function AfterHeader(env: Env, lazy: Lazy): Comp {
    match lazy.phase
    case Waiting => InHeader(lazy)
    case Resumed(rc) => if rc != 6 || |lazy.got| != 6 then Done(rc, None) else OpenBody(env, lazy.got)
    case Fault => Broken
  }

  /** Resuming after the second await. */
  function AfterBody(lazy: Lazy, buf: Buf): Comp {
    match lazy.phase
    case Waiting => InBody(lazy, buf)
    case Resumed(rc) => if rc <= 0 then Done(rc, Some(buf)) else Done(I32(buf.len), Some(buf))
    case Fault => Broken
  }

  /** The span of the second await starts at frame byte 6. */
  function Write(lazy: Lazy, buf: Buf, ev: Io): Option<Buf> {
    if !ev.Data? then Some(buf)
    else if buf.begin + 6 + |lazy.got| + |ev.bytes| > |buf.mem| then None
    else Some(buf.(mem := Put(buf.mem, buf.begin + 6 + |lazy.got|, ev.bytes)))
  }

  function CompStep(env: Env, st: Comp, ev: Io): Comp {
    match st
    case InHeader(lazy) => AfterHeader(env, LazyStep(lazy, ev))
    case InBody(lazy, buf) =>
      (match Write(lazy, buf, ev)
       case None => Broken
       case Some(buf') => AfterBody(LazyStep(lazy, ev), buf'))
    case _ => st
  }

  function CompFold(env: Env, st: Comp, log: seq<Io>): Comp {
    if log == [] then st else CompStep(env, CompFold(env, st, log[..|log| - 1]), log[|log| - 1])
  }

  function CompWant(st: Comp): int {
    match st
    case InHeader(lazy) => LazyWant(lazy)
    case InBody(lazy, _) => LazyWant(lazy)
    case _ => 0
  }

  predicate CompLegal(env: Env, st: Comp, log: seq<Io>) {
    log != [] ==>
      && CompLegal(env, st, log[..|log| - 1])
      && (log[|log| - 1].Data? ==> 1 <= |log[|log| - 1].bytes| <= CompWant(CompFold(env, st, log[..|log| - 1])))
  }

  // ------------------------------------------------------------------ cutting does not matter

  /** A payload follows, and the frame fits where the fixed header places it. */
  predicate CompRoomy(env: Env, s: seq<byte>) {
    |s| >= 6 ==> Roomy(env, Parse(Fix(s))) && Parse(s).length > 2
  }

  function CompWhole(env: Env, s: seq<byte>): Comp
    requires CompRoomy(env, s)
    requires |s| >= 6 ==> |s| <= Parse(s).length + 4
  {
    if |s| < 6 then InHeader(Lazy(6, s, Waiting))
    else
      var h := Parse(Fix(s));
      var p := env.place(h).value;
      var buf := Buf(p.begin, h.length + 4, Put(seq(p.capacity, i requires i >= 0 => env.junk(i)), p.begin, Fix(s)));
      if |s| == h.length + 4 then Done(|s|, Some(buf)) else InBody(Lazy(h.length - 2, s[6..], Waiting), buf)
  }

  function CompCanonical(env: Env, s: seq<byte>, end: Option<int>): Comp
    requires CompRoomy(env, s)
    requires |s| >= 6 ==> |s| <= Parse(s).length + 4
  {
    var w := CompWhole(env, s);
    if end.None? then w
    else
      match w
      case InHeader(_) => Done(end.value, None)
      case InBody(_, buf) => Done(end.value, Some(buf))
      case _ => w
  }

  lemma FixPrefix(s: seq<byte>, b: seq<byte>)
    requires |s| >= 6
    ensures Fix(s + b) == Fix(s) + b && Fix(s + b)[..6] == Fix(s[..6])
    ensures Parse(Fix(s + b)) == Parse(Fix(s)) == Parse(Fix(s[..6])) && Parse(Fix(s)).length == Parse(s).length
  {
    assert Fix(s + b) == Fix(s) + b;
    assert Fix(s + b)[..6] == Fix(s[..6]);
  }

  lemma CompHeader(env: Env, s: seq<byte>, b: seq<byte>)
    requires |s| < 6 && 1 <= |b| <= 6 - |s| && CompRoomy(env, s + b)
    ensures CompStep(env, CompWhole(env, s), Data(b)) == CompWhole(env, s + b)
  {
    if |s + b| == 6 {
      FixPrefix(s + b, []);
      assert (s + b)[..6] == s + b && (s + b)[6..] == [];
    }
  }

  lemma CompBody(env: Env, s: seq<byte>, b: seq<byte>)
    requires |s| >= 6 && CompRoomy(env, s) && |s| < Parse(s).length + 4
    requires 1 <= |b| <= Parse(s).length + 4 - |s|
    ensures Parse(s + b) == Parse(s) && CompRoomy(env, s + b)
    ensures CompStep(env, CompWhole(env, s), Data(b)) == CompWhole(env, s + b)
  {
    ParsePrefix(s, b);
    FixPrefix(s, b);
    var p := env.place(Parse(Fix(s))).value;
    var blank := seq(p.capacity, i requires i >= 0 => env.junk(i));
    var w := CompWhole(env, s);
    WriteNext(blank, p.begin, w.buf.len, Fix(s), b, w.lazy);
    assert (s + b)[6..] == s[6..] + b;
  }

  /** The second await writes right behind what the window holds already. */
  lemma WriteNext(blank: seq<byte>, begin: nat, len: nat, s: seq<byte>, b: seq<byte>, lazy: Lazy)
    requires |s| == 6 + |lazy.got| && begin + |s| + |b| <= |blank|
    ensures Write(lazy, Buf(begin, len, Put(blank, begin, s)), Data(b))
         == Some(Buf(begin, len, Put(blank, begin, s + b)))
  {
    PutTwice(blank, begin, s, b);
  }

  lemma CompData(env: Env, s: seq<byte>, b: seq<byte>)
    requires CompRoomy(env, s) && CompRoomy(env, s + b) && (|s| >= 6 ==> |s| <= Parse(s).length + 4)
    requires 1 <= |b| <= CompWant(CompWhole(env, s))
    ensures |s + b| >= 6 ==> |s + b| <= Parse(s + b).length + 4
    ensures CompStep(env, CompWhole(env, s), Data(b)) == CompWhole(env, s + b)
  {
    if |s| < 6 {
      CompHeader(env, s, b);
    } else {
      FixPrefix(s, b);
      CompBody(env, s, b);
    }
  }

  /** Everything but data leaves the bytes alone, and the first terminal event ends the reception. */
  lemma CompOther(env: Env, s: seq<byte>, end: Option<int>, ev: Io)
    requires CompRoomy(env, s) && (|s| >= 6 ==> |s| <= Parse(s).length + 4) && !ev.Data?
    requires end.Some? ==> end.value <= 0
    ensures CompStep(env, CompCanonical(env, s, end), ev)
         == CompCanonical(env, s, if end.Some? then end else EndResult(ev))
  {
    if |s| >= 6 {
      FixPrefix(s, []);
    }
  }

  lemma {:induction false} CompCutting(env: Env, log: seq<Io>)
    requires CompLegal(env, CompInit, log) && CompRoomy(env, Bytes(log))
    ensures |Bytes(log)| >= 6 ==> |Bytes(log)| <= Parse(Bytes(log)).length + 4
    ensures CompFold(env, CompInit, log) == CompCanonical(env, Bytes(log), FirstEnd(log))
  {
    FirstEndValues(log);
    if log != [] {
      var n := |log| - 1;
      var before, s := log[..n], Bytes(log[..n]);
      assert CompRoomy(env, s) by {
        if |s| >= 6 && log[n].Data? {
          ParsePrefix(s, log[n].bytes);
          FixPrefix(s, log[n].bytes);
        }
      }
      CompCutting(env, before);
      FirstEndValues(before);
      if log[n].Data? {
        assert FirstEnd(before).None?;
        CompData(env, s, log[n].bytes);
      } else {
        assert Bytes(log) == s;
        CompOther(env, s, FirstEnd(before), log[n]);
      }
    }
  }

  // ------------------------------------------------------------------ the two receivers agree

  /** Result of a receiver that has been resumed. */
  function FusedResult(st: Req): Option<int> {
    match st.phase case Resumed(rc) => Some(rc) case _ => None
  }

  function ComposedResult(st: Comp): Option<int> {
    match st case Done(rc, _) => Some(rc) case _ => None
  }

  function ComposedBuf(st: Comp): Option<Buf> {
    match st
    case InBody(_, buf) => Some(buf)
    case Done(_, buf) => buf
    case _ => None
  }

  /** Both receivers ask for the same number of bytes next, so they admit the same logs. */
  lemma {:induction false} SameLogs(fused: Env, composed: Env, log: seq<Io>)
    requires Legal(fused, ReqInit, log) && RoomyStart(fused, Bytes(log)) && CompRoomy(composed, Bytes(log))
    ensures CompLegal(composed, CompInit, log)
  {
    if log != [] {
      var n := |log| - 1;
      var before, s := log[..n], Bytes(log[..n]);
      assert RoomyStart(fused, s) && CompRoomy(composed, s) by {
        if |s| >= 6 && log[n].Data? {
          ParsePrefix(s, log[n].bytes);
          FixPrefix(s, log[n].bytes);
        }
        assert !log[n].Data? ==> Bytes(log) == s;
      }
      SameLogs(fused, composed, before);
      FoldIsCanonical(fused, before);
      CompCutting(composed, before);
      if |s| >= 6 {
        FixPrefix(s, []);
      }
    }
  }

  lemma CompWindow(env: Env, s: seq<byte>)
    requires |s| >= 6 && CompRoomy(env, s) && |s| <= Parse(s).length + 4
    ensures var b := ComposedBuf(CompWhole(env, s));
            && b.Some? && WindowIn(b.value) && Window(b.value)[..|s|] == Fix(s)
            && b.value.len == Parse(s).length + 4
  {
    FixPrefix(s, []);
    var p := env.place(Parse(Fix(s))).value;
    PutWindow(seq(p.capacity, i requires i >= 0 => env.junk(i)), p.begin, Fix(s), Parse(s).length + 4);
  }

  /** The bytes of both buffers, whatever ended the reception. */
  predicate SameBytes(f: Req, c: Comp, s: seq<byte>) {
    if |s| < 6 then f.buf.None? && ComposedBuf(c).None?
    else
      && f.buf.Some? && ComposedBuf(c).Some?
      && var fb, cb := f.buf.value, ComposedBuf(c).value;
         && fb.len == cb.len && WindowIn(fb) && WindowIn(cb) && |s| <= fb.len
         && Window(fb)[..|s|] == s && Window(cb)[..|s|] == Fix(s)
  }

  lemma AgreeAnywhere(fused: Env, composed: Env, log: seq<Io>)
    requires Legal(fused, ReqInit, log) && RoomyStart(fused, Bytes(log)) && CompRoomy(composed, Bytes(log))
    ensures CompLegal(composed, CompInit, log)
    ensures FusedResult(Fold(fused, ReqInit, log)) == ComposedResult(CompFold(composed, CompInit, log))
    ensures SameBytes(Fold(fused, ReqInit, log), CompFold(composed, CompInit, log), Bytes(log))
    ensures |Bytes(log)| >= 6 ==>
              && Lies(Fold(fused, ReqInit, log).buf, fused.place(Parse(Bytes(log))))
              && Lies(ComposedBuf(CompFold(composed, CompInit, log)), composed.place(Parse(Fix(Bytes(log)))))
  {
    var s := Bytes(log);
    SameLogs(fused, composed, log);
    FoldIsCanonical(fused, log);
    CompCutting(composed, log);
    FirstEndValues(log);
    CanonicalResults(fused, composed, s, FirstEnd(log));
    if |s| >= 6 {
      CanonicalBuffers(fused, composed, s, FirstEnd(log));
    }
  }

  lemma CanonicalResults(fused: Env, composed: Env, s: seq<byte>, end: Option<int>)
    requires RoomyStart(fused, s) && CompRoomy(composed, s) && (|s| >= 6 ==> |s| <= Parse(s).length + 4)
    ensures FusedResult(Canonical(fused, s, end)) == ComposedResult(CompCanonical(composed, s, end))
    ensures |s| < 6 ==> SameBytes(Canonical(fused, s, end), CompCanonical(composed, s, end), s)
  {
    if |s| >= 6 {
      FixPrefix(s, []);
    }
  }

  lemma CanonicalBuffers(fused: Env, composed: Env, s: seq<byte>, end: Option<int>)
    requires |s| >= 6 && RoomyStart(fused, s) && CompRoomy(composed, s) && |s| <= Parse(s).length + 4
    ensures var f, c := Canonical(fused, s, end), CompCanonical(composed, s, end);
            && SameBytes(f, c, s)
            && Lies(f.buf, fused.place(Parse(s))) && Lies(ComposedBuf(c), composed.place(Parse(Fix(s))))
  {
    WholeWindow(fused, s);
    CompWindow(composed, s);
    FixPrefix(s, []);
    assert Canonical(fused, s, end).buf == Whole(fused, s).buf;
    assert ComposedBuf(CompCanonical(composed, s, end)) == ComposedBuf(CompWhole(composed, s));
  }

  /** The buffer lies where it was placed. */
  predicate Lies(b: Option<Buf>, p: Option<Place>) {
    b.Some? && p.Some? && b.value.begin == p.value.begin && |b.value.mem| == p.value.capacity
  }

  /** The real pool of `ctx` can hand out `own` for a well-formed frame that starts with `s`, and nothing
      it can hand out is too short. */
  ghost predicate Handed(ctx: Context, s: seq<byte>, own: Option<Buffer>)
    requires |s| >= 6
  {
    && ctx.lay == PoolSizing && WellFormed(Parse(s)) && !Poisoned(ctx, Parse(s))
    && CanAnswer(ctx, RequestFor(Parse(s)), own)
  }

  /** Main result: on every schedule of a stream that starts with a well-formed frame with a payload, and
      whichever blocks the pool hands to the two receivers, the fused and the composed receiver accept
      the same schedule, deliver the same result at the same moment, including a close, an error or a
      timeout at any byte, and hold the same bytes, up to frame byte 5 when that is zero.  With a non-zero
      exponent their windows start at the same offset, and without a hazard their buffers have the same
      capacity. */
  lemma FusedAgreesWithComposed(ctx: Context, own: Option<Buffer>, own': Option<Buffer>,
                                junk: nat -> byte, junk': nat -> byte, log: seq<Io>)
    requires Legal(EnvOf(own, junk), ReqInit, log)
    requires var s := Bytes(log); |s| >= 6 ==> Handed(ctx, s, own) && Handed(ctx, Fix(s), own') && Parse(s).length > 2
    ensures CompLegal(EnvOf(own', junk'), CompInit, log)
    ensures var f, c := Fold(EnvOf(own, junk), ReqInit, log), CompFold(EnvOf(own', junk'), CompInit, log);
            && FusedResult(f) == ComposedResult(c)
            && SameBytes(f, c, Bytes(log))
            && (|Bytes(log)| >= 6 && Bytes(log)[5] != 0 ==> SameLayout(ctx, Parse(Bytes(log)), f, c))
  {
    var s := Bytes(log);
    if |s| >= 6 {
      AnswerIsRoomy(ctx, s, own, junk);
      AnswerIsRoomy(ctx, Fix(s), own', junk');
    }
    AgreeAnywhere(EnvOf(own, junk), EnvOf(own', junk'), log);
    if |s| >= 6 && s[5] != 0 {
      SameRequest(ctx, s, own, own');
    }
  }

  ghost predicate SameLayout(ctx: Context, h: Header, f: Req, c: Comp) {
    && f.buf.Some? && ComposedBuf(c).Some?
    && f.buf.value.begin == ComposedBuf(c).value.begin
    && (NoHazard(ctx.lay, ctx.policy, ctx.limit, ctx.menu) && RequestFor(h) in ctx.menu ==>
          |f.buf.value.mem| == |ComposedBuf(c).value.mem|)
  }

  lemma SameRequest(ctx: Context, s: seq<byte>, own: Option<Buffer>, own': Option<Buffer>)
    requires |s| >= 6 && s[5] != 0 && Handed(ctx, s, own) && Handed(ctx, Fix(s), own')
    ensures own.Some? && own'.Some? && own.value.headerLen == own'.value.headerLen
    ensures NoHazard(ctx.lay, ctx.policy, ctx.limit, ctx.menu) && RequestFor(Parse(s)) in ctx.menu ==>
              own.value.block.len == own'.value.block.len
  {
    AnswerIsRoomy(ctx, s, own, i => 0);
    AnswerIsRoomy(ctx, Fix(s), own', i => 0);
    PoolKeysMatch();
    if NoHazard(ctx.lay, ctx.policy, ctx.limit, ctx.menu) && RequestFor(Parse(s)) in ctx.menu {
      AnswerLength(ctx, RequestFor(Parse(s)), own.value);
      AnswerLength(ctx, RequestFor(Parse(s)), own'.value);
    }
  }

  /** The exponent that a frame asks for, 6 if it says zero. */
  function Exponent(s: seq<byte>): nat
    requires |s| >= 6
  {
    if s[5] == 0 then 6 else s[5] as nat
  }

  lemma ComposedBegin(ctx: Context, s: seq<byte>, own: Option<Buffer>, junk: nat -> byte)
    requires |s| >= 6 && s[4] > 0 && Handed(ctx, Fix(s), own)
    ensures var h := Parse(Fix(s)); h.off == s[4] as nat && h.bit == Exponent(s) && OnWire(h)
    ensures var p := EnvOf(own, junk).place(Parse(Fix(s))); p.Some? && p.value.begin == DataBegin(Parse(Fix(s)))
  {
    AnswerIsRoomy(ctx, Fix(s), own, junk);
    BeginAgrees(Parse(Fix(s)).off, RequestFor(Parse(Fix(s))));
  }

  lemma ComposedHolds(env: Env, log: seq<Io>)
    requires CompLegal(env, CompInit, log) && CompRoomy(env, Bytes(log)) && |Bytes(log)| >= 6
    ensures var s, buf := Bytes(log), ComposedBuf(CompFold(env, CompInit, log));
            && Lies(buf, env.place(Parse(Fix(s)))) && WindowIn(buf.value) && |s| <= buf.value.len
            && Window(buf.value)[5] as nat == Exponent(s)
            && forall i :: 0 <= i < |s| && i != 5 ==> Window(buf.value)[i] == s[i]
  {
    var s := Bytes(log);
    FixPrefix(s, []);
    CompCutting(env, log);
    CompWindow(env, s);
    assert ComposedBuf(CompCanonical(env, s, FirstEnd(log))) == ComposedBuf(CompWhole(env, s));
    var w := Window(ComposedBuf(CompWhole(env, s)).value);
    assert forall i :: 0 <= i < |s| ==> w[i] == w[..|s|][i];
  }

  /** Where the composed receiver puts a frame with an alignment offset, on every schedule and in whichever
      block of the pool: frame byte `align_off` falls on a multiple of two to the exponent the frame asks for,
      a zero asking for 64 bytes, exactly up to an exponent of 16.  The window holds that exponent and
      otherwise the received bytes. */
  lemma ComposedAlignsIff(ctx: Context, own: Option<Buffer>, junk: nat -> byte, log: seq<Io>, base: nat)
    requires CompLegal(EnvOf(own, junk), CompInit, log)
    requires var s := Bytes(log);
             |s| >= 6 && s[4] > 0 && Parse(s).length > 2 && Handed(ctx, Fix(s), own) && base % Pow2(Exponent(s)) == 0
    ensures var s, buf := Bytes(log), ComposedBuf(CompFold(EnvOf(own, junk), CompInit, log));
            && buf.Some? && WindowIn(buf.value) && |s| <= buf.value.len
            && ((base + buf.value.begin + s[4] as nat) % Pow2(Exponent(s)) == 0 <==> Exponent(s) <= 16)
            && Window(buf.value)[5] as nat == Exponent(s)
            && forall i :: 0 <= i < |s| && i != 5 ==> Window(buf.value)[i] == s[i]
  {
    var s, env := Bytes(log), EnvOf(own, junk);
    AnswerIsRoomy(ctx, Fix(s), own, junk);
    FixPrefix(s, []);
    ComposedHolds(env, log);
    ComposedBegin(ctx, s, own, junk);
    AlignmentPointIff(Parse(Fix(s)), base);
  }

  /** A frame without payload: the composed receiver waits once more and then reports 0. */
  lemma {:induction false} CompEmptyPayload(env: Env, log: seq<Io>)
    requires CompLegal(env, CompInit, log) && FirstEnd(log).None?
    requires |Bytes(log)| >= 6 ==> Roomy(env, Parse(Fix(Bytes(log)))) && Parse(Bytes(log)).length == 2
    ensures var st := CompFold(env, CompInit, log);
            if |Bytes(log)| < 6 then st == InHeader(Lazy(6, Bytes(log), Waiting))
            else |Bytes(log)| == 6 && ((st.InBody? && st.lazy == LazyInit(0)) || (st.Done? && st.result == 0))
  {
    if log != [] {
      var n := |log| - 1;
      var before, s := log[..n], Bytes(log[..n]);
      assert !log[n].Data? ==> Bytes(log) == s;
      if |s| >= 6 && log[n].Data? {
        ParsePrefix(s, log[n].bytes);
        FixPrefix(s, log[n].bytes);
      }
      CompEmptyPayload(env, before);
      if |s| < 6 && log[n].Data? && |Bytes(log)| == 6 {
        FixPrefix(Bytes(log), []);
        assert Bytes(log)[..6] == Bytes(log);
      }
    }
  }

  /** When the fused receiver has completed a frame, in any buffers that have room, one more wake-up
      makes the composed one report the same length exactly if the frame has a payload. */
  lemma CompletesAlikeIff(fused: Env, composed: Env, log: seq<Io>)
    requires Legal(fused, ReqInit, log) && CompLegal(composed, CompInit, log)
    requires |Bytes(log)| >= 6 && Roomy(fused, Parse(Bytes(log))) && Roomy(composed, Parse(Fix(Bytes(log))))
    requires |Bytes(log)| == Parse(Bytes(log)).length + 4 && FirstEnd(log).None?
    ensures FusedResult(Fold(fused, ReqInit, log)) == Some(|Bytes(log)|)
    ensures ComposedResult(CompFold(composed, CompInit, log + [Ready])) == Some(|Bytes(log)|)
       <==> Parse(Bytes(log)).length > 2
  {
    var s := Bytes(log);
    FixPrefix(s, []);
    FoldIsCanonical(fused, log);
    assert (log + [Ready])[..|log|] == log;
    if Parse(s).length > 2 {
      CompCutting(composed, log);
    } else {
      CompEmptyPayload(composed, log);
    }
  }

  // ------------------------------------------------------------------ which frames overrun

  /** `(int)` of the size of the second span. */
  function SpanSize(h: Header): int {
    I32(U32(h.length - 2))
  }

  /** How far into its window the composed receiver writes. */
  function CompWritten(h: Header): nat {
    if SpanSize(h) > 0 then 6 + SpanSize(h) else 6
  }

  predicate CompHasRoom(env: Env, h: Header) {
    && env.place(h).Some?
    && env.place(h).value.begin + CompWritten(h) <= env.place(h).value.capacity
  }

  /** Some schedule of a stream that starts with `hdr` makes the composed receiver leave its buffer. */
  ghost predicate SomeScheduleBreaks(env: Env, hdr: seq<byte>) {
    exists log :: CompLegal(env, CompInit, log) && Announces(log, hdr) && CompFold(env, CompInit, log).Broken?
  }

  /** A composed receiver with room holds exactly the bytes `s`, never more than it may write. */
  predicate CompInside(env: Env, s: seq<byte>, st: Comp) {
    match st
    case InHeader(lazy) => |s| < 6 && lazy == Lazy(6, s, Waiting)
    case InBody(lazy, buf) =>
      && |s| >= 6 && CompHasRoom(env, Parse(Fix(s)))
      && lazy == Lazy(SpanSize(Parse(Fix(s))), s[6..], Waiting)
      && buf.begin == env.place(Parse(Fix(s))).value.begin && |buf.mem| == env.place(Parse(Fix(s))).value.capacity
    case Done(_, _) => true
    case Broken => false
  }

  lemma CompDeliverInside(env: Env, s: seq<byte>, st: Comp, b: seq<byte>)
    requires CompInside(env, s, st) && 1 <= |b| <= CompWant(st)
    requires |s + b| >= 6 ==> CompHasRoom(env, Parse(Fix(s + b)))
    ensures CompInside(env, s + b, CompStep(env, st, Data(b)))
  {
    if |s| < 6 {
      if |s + b| == 6 {
        FixPrefix(s + b, []);
        assert (s + b)[..6] == s + b && (s + b)[6..] == [];
      }
    } else {
      FixPrefix(s, b);
      assert (s + b)[6..] == s[6..] + b;
    }
  }

  lemma {:induction false} NoScheduleBreaks(env: Env, log: seq<Io>)
    requires CompLegal(env, CompInit, log)
    requires |Bytes(log)| >= 6 ==> CompHasRoom(env, Parse(Fix(Bytes(log))))
    ensures CompInside(env, Bytes(log), CompFold(env, CompInit, log))
  {
    if log != [] {
      var n := |log| - 1;
      var s := Bytes(log[..n]);
      if log[n].Data? {
        if |s| >= 6 {
          FixPrefix(s, log[n].bytes);
        }
        NoScheduleBreaks(env, log[..n]);
        CompDeliverInside(env, s, CompFold(env, CompInit, log[..n]), log[n].bytes);
      } else {
        assert Bytes(log) == s;
        NoScheduleBreaks(env, log[..n]);
      }
    }
  }

  lemma CompOneRead(env: Env, hdr: seq<byte>)
    requires |hdr| == 6
    ensures var log := [Data(hdr)];
            CompLegal(env, CompInit, log) && Announces(log, hdr) && CompFold(env, CompInit, log) == OpenBody(env, hdr)
  {
    var log := [Data(hdr)];
    assert log[..0] == [] && log[0] == Data(hdr);
    assert Bytes(log[..0]) == [] && Bytes(log) == [] + hdr;
    assert CompFold(env, CompInit, log[..0]) == CompInit;
    assert [] + hdr == hdr;
  }

  lemma CompTwoReads(env: Env, hdr: seq<byte>, rest: seq<byte>)
    requires |hdr| == 6 && |rest| > 0
    requires CompWant(CompFold(env, CompInit, [Data(hdr)])) == |rest|
    ensures var log := [Data(hdr), Data(rest)];
            && CompLegal(env, CompInit, log) && Announces(log, hdr)
            && CompFold(env, CompInit, log) == CompStep(env, CompFold(env, CompInit, [Data(hdr)]), Data(rest))
  {
    CompOneRead(env, hdr);
    var log := [Data(hdr), Data(rest)];
    assert log[..1] == [Data(hdr)] && log[1] == Data(rest);
    assert Bytes(log) == Bytes(log[..1]) + rest;
  }

  lemma WithoutRoomBreaks(env: Env, hdr: seq<byte>)
    requires |hdr| == 6 && !CompHasRoom(env, Parse(Fix(hdr)))
    ensures SomeScheduleBreaks(env, hdr)
  {
    CompOneRead(env, hdr);
    if !OpenBody(env, hdr).Broken? {
      var rest := seq(SpanSize(Parse(Fix(hdr))), i => 0 as byte);
      CompTwoReads(env, hdr, rest);
      assert CompFold(env, CompInit, [Data(hdr), Data(rest)]).Broken?;
    }
  }

  /** For any placement of frames: some schedule makes the composed receiver leave its buffer exactly when
      the header bytes or the second span do not fit it. */
  lemma BreaksIff(env: Env, hdr: seq<byte>)
    requires |hdr| == 6
    ensures SomeScheduleBreaks(env, hdr) <==> !CompHasRoom(env, Parse(Fix(hdr)))
  {
    if CompHasRoom(env, Parse(Fix(hdr))) {
      forall log | CompLegal(env, CompInit, log) && Announces(log, hdr)
        ensures !CompFold(env, CompInit, log).Broken?
      {
        assert Bytes(log) == hdr + Bytes(log)[6..];
        FixPrefix(hdr, Bytes(log)[6..]);
        NoScheduleBreaks(env, log);
      }
    } else {
      WithoutRoomBreaks(env, hdr);
    }
  }

  /** In a block that was allocated for it, for frames of an ordinary length: exactly the frames that are
      not well-formed, with an exponent of zero read as 6. */
  lemma OrdinaryBreaksIff(hdr: seq<byte>, junk: nat -> byte)
    requires |hdr| == 6 && 2 <= Parse(hdr).length && Parse(hdr).length + 4 < 0x8000_0000
    ensures SomeScheduleBreaks(FreshEnv(junk), hdr) <==> !WellFormed(Parse(Fix(hdr)))
  {
    var h := Parse(Fix(hdr));
    FixPrefix(hdr, []);
    BreaksIff(FreshEnv(junk), hdr);
    WindowInsideIff(h);
    assert CompWritten(h) == h.length + 4;
  }

  /** Beyond that range the two receivers differ: for the six lengths from 2^31 - 4 on, the fused one counts
      a negative frame length and stops after the header, and the composed one reads on. */
  lemma WritesDifferIff(h: Header)
    requires h.length < TWO32
    ensures CompWritten(h) != Written(h) <==> 0x8000_0000 - 4 <= h.length < 0x8000_0000 + 2
  {
    WrittenValue(h);
  }
}
