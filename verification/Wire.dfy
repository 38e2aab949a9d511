/** Frames on the wire and the buffers that hold them: a 4-byte big-endian length, an alignment
    offset, an alignment exponent, then the payload.  `recv_request` places the frame in a pool
    buffer so that frame byte `off` falls on an aligned address. */
module Wire {
  import opened Bits
  import opened BlockLayout

  type byte = x: int | 0 <= x < 256

  /** `ntohl` of the first four bytes. */
  function WireLength(h: seq<byte>): nat
    requires |h| >= 4
  {
    h[0] as int * 0x100_0000 + h[1] as int * 0x1_0000 + h[2] as int * 0x100 + h[3] as int
  }

  /** `htonl`, as a sender writes the length. */
  function LengthBytes(n: nat): seq<byte>
    requires n < TWO32
  {
    [n / 0x100_0000, n / 0x1_0000 % 256, n / 0x100 % 256, n % 256]
  }

  lemma LengthRoundTrip(n: nat, rest: seq<byte>)
    requires n < TWO32
    ensures WireLength(LengthBytes(n) + rest) == n
  {
    var a, b, c := n / 0x100, n / 0x1_0000, n / 0x100_0000;
    assert n == 256 * a + n % 256 && a == 256 * b + a % 256 && b == 256 * c + b % 256;
    var h := LengthBytes(n) + rest;
    assert h[0] == c && h[1] == b % 256 && h[2] == a % 256 && h[3] == n % 256;
  }

  datatype Header = Header(length: nat, off: nat, bit: nat)

  function Parse(h: seq<byte>): Header
    requires |h| >= 6
  {
    Header(WireLength(h), h[4], h[5])
  }

  /** The request that the receiver makes of the pool. */
  function RequestFor(h: Header): Request {
    if h.off == 0 then Request(U32(h.length + 4), 6, 0) else Request(U32(h.length + 4 - h.off), h.bit, h.off)
  }

  /** `body_off() - align_off` stored by `set_data_offset`: the body offset is read back from 16 bits,
      the difference is taken in 32 bits and stored in 16. */
  function WindowStart(header: nat, off: nat): nat {
    U16(U32(U16(header) - off))
  }

  /** `_data_begin` of a buffer made by request `r` for a frame with alignment offset `off`. */
  function BeginFor(off: nat, r: Request): nat
    requires IsRequest(r)
  {
    if off == 0 then 0 else WindowStart(LayoutOf(r).header, off)
  }

  /** `_data_begin` of the buffer made for `h`. */
  function DataBegin(h: Header): nat
    requires IsRequest(RequestFor(h))
  {
    BeginFor(h.off, RequestFor(h))
  }

  function Capacity(h: Header): nat
    requires IsRequest(RequestFor(h))
  {
    LayoutOf(RequestFor(h)).total
  }

  /** `_cmd_len` once the header is in: `int` arithmetic on the length from the wire. */
  function CommandLength(h: Header): int {
    I32(I32(h.length) + 4)
  }

  /** How far into the data window the receiver writes: the 6 bytes of the header always, and the
      rest of the frame as `_cmd_len` counts it. */
  function Written(h: Header): nat {
    if CommandLength(h) > 6 then CommandLength(h) else 6
  }

  predicate FitsBuffer(h: Header) {
    FitsRequest(h, RequestFor(h))
  }

  /** What the receiver writes lies inside the buffer made by request `r`. */
  predicate FitsRequest(h: Header, r: Request) {
    IsRequest(r) && BeginFor(h.off, r) + Written(h) <= LayoutOf(r).total
  }

  /** A frame that both ends agree on: long enough for its own header, short enough for `int`
      counters, and neither an undefined shift nor a header and a body of 2^31 bytes each. */
  predicate WellFormed(h: Header) {
    && 2 <= h.length && h.length + 4 < 0x8000_0000
    && !(h.off > 0 && (h.bit >= 32 || (h.bit == 31 && h.off < h.length + 4)))
  }

  /** The header of a small frame offset: a whole number of alignment units, and exactly one unit from
      2^8 on. */
  lemma HeaderUnits(h: Header)
    requires IsRequest(RequestFor(h)) && 0 < h.off < 256
    ensures var header := LayoutOf(RequestFor(h)).header;
            && header % Pow2(h.bit) == 0 && h.off <= header < h.off + Pow2(h.bit)
            && (h.bit >= 8 ==> header == Pow2(h.bit))
  {
    Pow2Values();
    Pow2Mono(h.bit, 31);
    assert Pow2(32) == 2 * Pow2(31);
    RoundMaskIsLeastMultiple(h.off, h.bit);
    if h.bit >= 8 {
      Pow2Mono(8, h.bit);
      OneUnit(RoundMask(h.off, h.bit), Pow2(h.bit));
    }
  }

  lemma SmallPowers(bit: nat)
    ensures bit <= 15 ==> Pow2(bit) <= 0x8000
    ensures bit < 10 ==> Pow2(bit) <= 512
  {
    Pow2Values();
    assert Pow2(16) == 2 * Pow2(15) && Pow2(10) == 2 * Pow2(9);
    if bit <= 15 {
      Pow2Mono(bit, 15);
    }
    if bit < 10 {
      Pow2Mono(bit, 9);
    }
  }

  lemma OneUnit(x: nat, m: nat)
    requires m > 0 && x % m == 0 && 0 < x < 2 * m
    ensures x == m
  {
    var q := x / m;
    assert x == q * m;
    MulAtLeast(q, m);
    MulAtLeast(q - 1, m);
    assert (q - 1) * m == q * m - m;
  }

  lemma SixteenBitOffset(header: nat, off: nat)
    requires 0 < off < 256
    ensures header < TWO16 && off <= header ==> WindowStart(header, off) + off == header
    ensures U16(header) == 0 ==> WindowStart(header, off) + off == TWO16
  {
    assert U32(0 - off) == TWO32 - off;
  }

  /** Where the window starts, in both regimes of the 16-bit fields. */
  lemma DataBeginValue(h: Header)
    requires IsRequest(RequestFor(h)) && 0 < h.off < 256
    ensures DataBegin(h) + h.off == if h.bit <= 15 then LayoutOf(RequestFor(h)).header else TWO16
  {
    HeaderSize(h);
    OffsetCases(LayoutOf(RequestFor(h)).header, h.off, h.bit);
  }

  lemma HeaderSize(h: Header)
    requires IsRequest(RequestFor(h)) && 0 < h.off < 256
    ensures var header := LayoutOf(RequestFor(h)).header;
            && h.off <= header
            && (h.bit <= 15 ==> header < TWO16)
            && (h.bit >= 16 ==> header == Pow2(h.bit))
  {
    HeaderUnits(h);
    SmallPowers(h.bit);
  }

  lemma OffsetCases(header: nat, off: nat, bit: nat)
    requires 0 < off < 256 && off <= header
    requires bit <= 15 ==> header < TWO16
    requires bit >= 16 ==> header == Pow2(bit)
    ensures WindowStart(header, off) + off == if bit <= 15 then header else TWO16
  {
    if bit >= 16 {
      PowerOf16(bit);
    }
    SixteenBitOffset(header, off);
  }

  lemma PowerOf16(bit: nat)
    requires bit >= 16
    ensures U16(Pow2(bit)) == 0
  {
    Pow2Values();
    Pow2Add(bit - 16, 16);
    ExactMultiple(Pow2(bit), TWO16, Pow2(bit - 16));
  }

  // ------------------------------------------------------------------ which frames fit

  /** The header and the body reach 2^32 together. */
  predicate TotalWraps(body: nat, bit: nat) {
    bit >= 10 && TWO32 - 2 * Unit(bit) < body <= TWO32 - Unit(bit)
  }

  /** The length of the whole block, for a body of any length behind a small header. */
  lemma TotalWithHeader(h: Header)
    requires IsRequest(RequestFor(h)) && 0 < h.off < 256
    ensures var r := RequestFor(h); var l := LayoutOf(r); var m := Unit(h.bit);
            if TotalWraps(r.bodyLen, h.bit) then l.total == 0
            else
              && l.total == l.header + l.body
              && (r.bodyLen > TWO32 - m ==> l.body == 0)
              && (r.bodyLen <= TWO32 - m ==> r.bodyLen <= l.body)
              && (l.body == 0 || l.body >= 1024)
              && (r.bodyLen == 0 ==> l.body == 0)
  {
    var l := LayoutOf(RequestFor(h));
    HeaderBound(h);
    UnitFacts(h.bit);
    BodyValue(RequestFor(h).bodyLen, h.bit);
    TotalCases(RequestFor(h).bodyLen, l.header, l.body, h.bit);
  }

  /** The same on the numbers alone. */
  lemma TotalCases(x: nat, header: nat, body: nat, bit: nat)
    requires bit < 32 && (if bit >= 10 then header == Unit(bit) else header < Unit(bit))
    requires body % Unit(bit) == 0 && body + Unit(bit) <= TWO32
    requires x > TWO32 - Unit(bit) ==> body == 0
    requires x <= TWO32 - Unit(bit) ==> x <= body < x + Unit(bit)
    ensures if TotalWraps(x, bit) then U32(header + body) == 0 else U32(header + body) == header + body
    ensures body == 0 || body >= 1024
    ensures x == 0 ==> body == 0
  {
    var m := Unit(bit);
    UnitFacts(bit);
    SmallMultiple(body, m);
    if TotalWraps(x, bit) {
      BelowWrap(m);
      MultipleGap(body, TWO32 - m, m);
      assert header + body == TWO32;
    }
  }

  lemma HeaderBound(h: Header)
    requires IsRequest(RequestFor(h)) && 0 < h.off < 256
    ensures var header := LayoutOf(RequestFor(h)).header;
            if h.bit >= 10 then header == Unit(h.bit) else header < Unit(h.bit)
  {
    HeaderUnits(h);
    UnitFacts(h.bit);
    SmallPowers(h.bit);
    TenUnits(h.bit);
  }

  lemma TenUnits(bit: nat)
    ensures bit >= 10 ==> Unit(bit) == Pow2(bit)
  {
  }

  lemma SmallMultiple(x: nat, m: nat)
    requires m > 0 && x % m == 0
    ensures x == 0 || x >= m
  {
    if 0 < x < m {
      DivUnique(x, m, 0, x);
    }
  }

  /** A condition on the six bytes of a header alone: an undefined shift; a block whose length wraps
      around to zero; or a block without a body whose header is shorter than what is copied in. */
  predicate Overruns(h: Header) {
    if h.off == 0 then TWO32 - 1023 <= h.length + 4 <= TWO32
    else
      || h.bit >= 32
      || var body := U32(h.length + 4 - h.off);
         || TotalWraps(body, h.bit)
         || ((body == 0 || body > TWO32 - Unit(h.bit)) && h.bit <= 16 && h.off < 6)
  }

  predicate OnWire(h: Header) {
    h.length < TWO32 && h.off < 256 && h.bit < 256
  }

  /** Exactly which of all headers the wire can carry make the receiver write outside its buffer. */
  lemma FitsIff(h: Header)
    requires OnWire(h)
    ensures FitsBuffer(h) <==> !Overruns(h)
  {
    if h.off == 0 {
      PlainFitsIff(h);
    } else if h.bit < 32 {
      if TotalWraps(RequestFor(h).bodyLen, h.bit) {
        TotalWithHeader(h);
      } else {
        HeaderFitsIff(h);
      }
    }
  }

  lemma WrittenValue(h: Header)
    requires h.length < TWO32
    ensures Written(h) == if 2 <= h.length && h.length + 4 < 0x8000_0000 then h.length + 4 else 6
  {
  }

  lemma BodyLenValue(h: Header)
    requires OnWire(h)
    ensures U32(h.length + 4 - h.off)
         == if h.length + 4 < h.off then h.length + 4 - h.off + TWO32
            else if h.length + 4 - h.off < TWO32 then h.length + 4 - h.off
            else h.length + 4 - h.off - TWO32
  {
    var x := h.length + 4 - h.off;
    if x < 0 {
      DivUnique(x, TWO32, -1, x + TWO32);
    } else if x >= TWO32 {
      DivUnique(x, TWO32, 1, x - TWO32);
    }
  }

  lemma PlainFitsIff(h: Header)
    requires OnWire(h) && h.off == 0
    ensures FitsBuffer(h) <==> !Overruns(h)
  {
    PlainRequestFits(h, RequestFor(h));
  }

  lemma PlainRequestFits(h: Header, r: Request)
    requires OnWire(h) && h.off == 0
    requires IsRequest(r) && r.headerLen == 0 && r.bit <= 10 && r.bodyLen == U32(h.length + 4)
    ensures FitsRequest(h, r) <==> !Overruns(h)
  {
    PlainTotal(r);
    PlainNumbersFitIff(h, r.bodyLen, LayoutOf(r).total);
  }

  /** The length of a block without header, for a body of `x` bytes. */
  predicate PlainLength(x: nat, total: nat) {
    && (total == 0 || total >= 1024)
    && (x > TWO32 - 1024 ==> total == 0) && (x <= TWO32 - 1024 ==> x <= total) && (x == 0 ==> total == 0)
  }

  lemma PlainTotal(r: Request)
    requires IsRequest(r) && r.headerLen == 0 && r.bit <= 10
    ensures PlainLength(r.bodyLen, LayoutOf(r).total)
  {
    TotalWithoutHeader(r);
    UnitFacts(r.bit);
    SmallMultiple(LayoutOf(r).total, Unit(r.bit));
  }

  lemma PlainNumbersFitIff(h: Header, x: nat, total: nat)
    requires OnWire(h) && h.off == 0 && x == U32(h.length + 4) && PlainLength(x, total)
    ensures Written(h) <= total <==> !Overruns(h)
  {
    WrittenValue(h);
    BodyLenValue(h);
  }

  lemma HeaderFitsIff(h: Header)
    requires OnWire(h) && h.off > 0 && h.bit < 32
    requires !TotalWraps(U32(h.length + 4 - h.off), h.bit)
    ensures FitsBuffer(h) <==> !Overruns(h)
  {
    var l := LayoutOf(RequestFor(h));
    IsPlaced(h);
    NumbersFitIff(h, DataBegin(h), l.header, l.body, l.total);
  }

  /** What is known of the start of the window and of the lengths of a block that did not wrap. */
  predicate Placed(h: Header, begin: nat, header: nat, body: nat, total: nat) {
    && begin + h.off == (if h.bit <= 15 then header else TWO16) && h.off <= header
    && (h.bit >= 16 ==> header == Pow2(h.bit))
    && total == header + body
    && var x := U32(h.length + 4 - h.off);
       && (x > TWO32 - Unit(h.bit) ==> body == 0) && (x <= TWO32 - Unit(h.bit) ==> x <= body)
       && (body == 0 || body >= 1024) && (x == 0 ==> body == 0)
  }

  lemma IsPlaced(h: Header)
    requires OnWire(h) && h.off > 0 && h.bit < 32
    requires !TotalWraps(U32(h.length + 4 - h.off), h.bit)
    ensures var l := LayoutOf(RequestFor(h)); Placed(h, DataBegin(h), l.header, l.body, l.total)
  {
    var r := RequestFor(h);
    assert r.bodyLen == U32(h.length + 4 - h.off) && IsRequest(r);
    assert DataBegin(h) + h.off == if h.bit <= 15 then LayoutOf(r).header else TWO16 by { DataBeginValue(h); }
    HeaderSize(h);
    TotalWithHeader(h);
  }

  lemma NumbersFitIff(h: Header, begin: nat, header: nat, body: nat, total: nat)
    requires OnWire(h) && h.off > 0 && h.bit < 32
    requires !TotalWraps(U32(h.length + 4 - h.off), h.bit) && Placed(h, begin, header, body, total)
    ensures begin + Written(h) <= total <==> !Overruns(h)
  {
    WrittenValue(h);
    BodyLenValue(h);
    UnitFacts(h.bit);
    Sixteen(h.bit);
  }

  lemma Sixteen(bit: nat)
    ensures bit == 16 ==> Pow2(bit) == TWO16
    ensures bit >= 17 ==> Pow2(bit) >= 2 * TWO16
  {
    Pow2Values();
    if bit >= 17 {
      Pow2Mono(17, bit);
      assert Pow2(17) == 2 * Pow2(16);
    }
  }

  /** A frame of an ordinary length fits its buffer exactly when it is well-formed. */
  lemma WindowInsideIff(h: Header)
    requires OnWire(h) && 2 <= h.length && h.length + 4 < 0x8000_0000
    ensures Written(h) == h.length + 4
    ensures FitsBuffer(h) <==> WellFormed(h)
  {
    FitsIff(h);
    WrittenValue(h);
    OrdinaryOverruns(h);
  }

  /** Of the frames of an ordinary length, only those with an undefined shift, and those with a header
      and a body of 2^31 bytes each, overrun their buffer. */
  lemma OrdinaryOverruns(h: Header)
    requires OnWire(h) && 2 <= h.length && h.length + 4 < 0x8000_0000
    ensures Overruns(h) <==> h.off > 0 && (h.bit >= 32 || (h.bit == 31 && h.off < h.length + 4))
  {
    if h.off > 0 && h.bit < 32 {
      BodyLenValue(h);
      HalfOrLess(h.bit);
    }
  }

  lemma HalfOrLess(bit: nat)
    requires bit < 32
    ensures if bit == 31 then Unit(bit) == 0x8000_0000 else 1024 <= Unit(bit) <= 0x4000_0000
  {
    Pow2Values();
    assert Pow2(32) == 2 * Pow2(31) && Pow2(31) == 2 * Pow2(30);
    Pow2Mono(10, 30);
    if bit < 31 {
      Pow2Mono(bit, 30);
      UnitFacts(bit);
    }
  }

  /** Adding 2^16 to a multiple of 2^bit gives a multiple of it exactly when bit is at most 16. */
  lemma Shifted16(base: nat, bit: nat)
    requires base % Pow2(bit) == 0 && bit >= 16
    ensures (base + TWO16) % Pow2(bit) == 0 <==> bit == 16
  {
    Pow2Values();
    var a := Pow2(bit);
    if bit == 16 {
      ExactMultiple(TWO16, TWO16, 1);
      SumMultiple(base, TWO16, a);
    } else {
      Pow2Mono(17, bit);
      assert Pow2(17) == 2 * Pow2(16);
      DivUnique(base + TWO16, a, base / a, TWO16);
    }
  }

  /** Frame byte `off` falls on a multiple of 2^align_bit, for an aligned base address, exactly when
      align_bit is at most 16: beyond that the 16-bit offset fields lose the header length. */
  lemma AlignmentPointIff(h: Header, base: nat)
    requires WellFormed(h) && OnWire(h) && h.off > 0 && base % Pow2(h.bit) == 0
    ensures (base + DataBegin(h) + h.off) % Pow2(h.bit) == 0 <==> h.bit <= 16
  {
    DataBeginValue(h);
    HeaderUnits(h);
    PointIff(base, h.bit, LayoutOf(RequestFor(h)).header, base + DataBegin(h) + h.off);
  }

  lemma PointIff(base: nat, bit: nat, header: nat, point: nat)
    requires base % Pow2(bit) == 0 && header % Pow2(bit) == 0
    requires point == base + if bit <= 15 then header else TWO16
    ensures point % Pow2(bit) == 0 <==> bit <= 16
  {
    if bit <= 15 {
      SumOfMultiples(base, header, point, Pow2(bit));
    } else {
      Shifted16(base, bit);
    }
  }

  /** The frame of six bytes with offset 1 and exponent 17 is received whole, and misaligned. */
  lemma AlignmentFailsAt(h: Header, base: nat)
    requires h == Header(2, 1, 17) && base % Pow2(17) == 0
    ensures WellFormed(h) && FitsBuffer(h) && (base + DataBegin(h) + h.off) % Pow2(h.bit) != 0
  {
    WindowInsideIff(h);
    AlignmentPointIff(h, base);
  }
}
