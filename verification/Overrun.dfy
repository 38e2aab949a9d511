/** Which frames make `recv_request` write outside the buffer it allocated: for any placement of the
    frame, and for the block that a fresh allocation gives, where the answer depends on the six header
    bytes alone.  What recycling adds to it is the subject of `Placement`. */
module Overrun {
  import opened Common
  import opened Wire
  import opened Receive

  /** The buffer placed for `h` takes everything the receiver will write. */
  predicate HasRoom(env: Env, h: Header) {
    && env.place(h).Some?
    && env.place(h).value.begin + Written(h) <= env.place(h).value.capacity
  }

  predicate Announces(log: seq<Io>, hdr: seq<byte>) {
    |hdr| == 6 && hdr <= Bytes(log)
  }

  /** The kernel can schedule the bytes of some stream that starts with `hdr` so that a write falls
      outside the buffer, or its allocation is undefined. */
  ghost predicate SomeScheduleFaults(env: Env, hdr: seq<byte>) {
    exists log :: Legal(env, ReqInit, log) && Announces(log, hdr) && Fold(env, ReqInit, log).phase.Fault?
  }

  /** The state of a receiver with room: it holds exactly the bytes `s`, never more than it may write. */
  predicate Inside(env: Env, s: seq<byte>, st: Req) {
    && !st.phase.Fault? && st.recved == |s|
    && st.header == (if |s| < 6 then s else s[..6])
    && (|s| >= 6 ==>
          && HasRoom(env, Parse(s))
          && st.cmdLen == CommandLength(Parse(s)) && |s| <= Written(Parse(s))
          && st.buf.Some? && st.buf.value.begin == env.place(Parse(s)).value.begin
          && |st.buf.value.mem| == env.place(Parse(s)).value.capacity)
  }

  lemma DeliverInside(env: Env, s: seq<byte>, st: Req, b: seq<byte>)
    requires Inside(env, s, st) && st.phase.Waiting? && 1 <= |b| <= Want(st)
    requires |s + b| >= 6 ==> HasRoom(env, Parse(s + b))
    ensures Inside(env, s + b, Deliver(env, st, b))
  {
    if |s| < 6 {
      assert |s + b| == 6 ==> (s + b)[..6] == s + b;
    } else {
      ParsePrefix(s, b);
    }
  }

  /** With room for the frame, no schedule faults. */
  lemma {:induction false} NoScheduleFaults(env: Env, log: seq<Io>)
    requires Legal(env, ReqInit, log)
    requires |Bytes(log)| >= 6 ==> HasRoom(env, Parse(Bytes(log)))
    ensures Inside(env, Bytes(log), Fold(env, ReqInit, log))
  {
    if log != [] {
      var n := |log| - 1;
      var s := Bytes(log[..n]);
      if log[n].Data? {
        if |s| >= 6 {
          ParsePrefix(s, log[n].bytes);
        }
        NoScheduleFaults(env, log[..n]);
        DeliverInside(env, s, Fold(env, ReqInit, log[..n]), log[n].bytes);
      } else {
        assert Bytes(log) == s;
        NoScheduleFaults(env, log[..n]);
      }
    }
  }

  lemma OneRead(env: Env, hdr: seq<byte>)
    requires |hdr| == 6
    ensures var log := [Data(hdr)];
            && Legal(env, ReqInit, log) && Announces(log, hdr)
            && Fold(env, ReqInit, log) == Open(env, Req(6, 0, hdr, None, Waiting))
  {
    var log := [Data(hdr)];
    assert log[..0] == [] && log[0] == Data(hdr);
    assert Bytes(log[..0]) == [] && Bytes(log) == [] + hdr;
    assert Fold(env, ReqInit, log[..0]) == ReqInit;
    assert [] + hdr == hdr;
  }

  lemma TwoReads(env: Env, hdr: seq<byte>, rest: seq<byte>)
    requires |hdr| == 6 && |rest| > 0
    requires Want(Fold(env, ReqInit, [Data(hdr)])) == |rest|
    ensures var log := [Data(hdr), Data(rest)];
            && Legal(env, ReqInit, log) && Announces(log, hdr)
            && Fold(env, ReqInit, log) == Step(env, Fold(env, ReqInit, [Data(hdr)]), Data(rest))
  {
    OneRead(env, hdr);
    var log := [Data(hdr), Data(rest)];
    assert log[..1] == [Data(hdr)] && log[1] == Data(rest);
    assert Bytes(log) == Bytes(log[..1]) + rest;
  }

  /** Without room, a stream read in one or two pieces faults. */
  lemma WithoutRoomFaults(env: Env, hdr: seq<byte>)
    requires |hdr| == 6 && !HasRoom(env, Parse(hdr))
    ensures SomeScheduleFaults(env, hdr)
  {
    OneRead(env, hdr);
    var st := Fold(env, ReqInit, [Data(hdr)]);
    if !st.phase.Fault? {
      var rest := seq(CommandLength(Parse(hdr)) - 6, i => 0 as byte);
      TwoReads(env, hdr, rest);
      assert Fold(env, ReqInit, [Data(hdr), Data(rest)]).phase.Fault?;
    }
  }

  /** For any placement of frames: some schedule faults exactly when there is no room. */
  lemma FaultsIff(env: Env, hdr: seq<byte>)
    requires |hdr| == 6
    ensures SomeScheduleFaults(env, hdr) <==> !HasRoom(env, Parse(hdr))
  {
    if HasRoom(env, Parse(hdr)) {
      forall log | Legal(env, ReqInit, log) && Announces(log, hdr)
        ensures !Fold(env, ReqInit, log).phase.Fault?
      {
        assert Bytes(log) == hdr + Bytes(log)[6..];
        ParsePrefix(hdr, Bytes(log)[6..]);
        NoScheduleFaults(env, log);
      }
    } else {
      WithoutRoomFaults(env, hdr);
    }
  }

  /** In a block that was allocated for it, for every header a peer can send. */
  lemma FreshFaultsIff(hdr: seq<byte>, junk: nat -> byte)
    requires |hdr| == 6
    ensures SomeScheduleFaults(FreshEnv(junk), hdr) <==> Overruns(Parse(hdr))
  {
    FaultsIff(FreshEnv(junk), hdr);
    FitsIff(Parse(hdr));
  }

  /** The same for frames of an ordinary length: an exponent of 32 or more, or one of 31 with a body. */
  lemma OrdinaryFreshFaultsIff(hdr: seq<byte>, junk: nat -> byte)
    requires |hdr| == 6 && 2 <= Parse(hdr).length && Parse(hdr).length + 4 < 0x8000_0000
    ensures var h := Parse(hdr);
            (SomeScheduleFaults(FreshEnv(junk), hdr) <==>
               h.off > 0 && (h.bit >= 32 || (h.bit == 31 && h.off < h.length + 4)))
  {
    FreshFaultsIff(hdr, junk);
    OrdinaryOverruns(Parse(hdr));
  }

  /** Exponent 31 is below the width of the shift and still overruns: header and body take 2^31 bytes
      each, the length of the block wraps around to zero, and the very first copy misses it. */
  lemma ExponentBelow32Faults(hdr: seq<byte>, junk: nat -> byte)
    requires hdr == [0, 0, 0, 2, 1, 31]
    ensures SomeScheduleFaults(FreshEnv(junk), hdr)
  {
    assert Parse(hdr) == Header(2, 1, 31);
    OrdinaryFreshFaultsIff(hdr, junk);
  }
}
