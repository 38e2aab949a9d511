/** Block lengths of the recycling buffer allocator of `byte_buffer.cpp`: mask arithmetic, the layout
    of a block with its 32-bit wrap-around, and the packed cache key. */
module BlockLayout {
  import opened Bits

  // ------------------------------------------------------------------ mask arithmetic

  /** What `(x + align - 1) & ~(align - 1)` computes on `uint32_t`, for `align == 1 << bit`: the sum
      wraps around, and its remainder is cleared.  `MaskExpression` relates it to the expression. */
  function RoundMask(x: nat, bit: nat): nat
    requires bit < 32
  {
    Floor(U32(x + Pow2(bit) - 1), Pow2(bit))
  }

  /** The greatest multiple of `m` that is at most `t`. */
  function Floor(t: nat, m: nat): (r: nat)
    requires m > 0
    ensures r % m == 0 && r <= t < r + m
  {
    ModAtMost(t, m);
    FloorMultiple(t, m);
    t - t % m
  }

  /** The expression of the source. */
  lemma MaskExpression(x: nat, bit: nat)
    requires bit < 32
    ensures Pow2(bit) < TWO32 && And(U32(x + Pow2(bit) - 1), Not32(Pow2(bit) - 1)) == RoundMask(x, bit)
  {
    Pow2Below(bit);
    AndNotMask(U32(x + Pow2(bit) - 1), bit);
  }

  lemma ModAtMost(t: nat, m: nat)
    requires m > 0
    ensures t % m <= t
  {
    if t < m {
      DivUnique(t, m, 0, t);
    }
  }

  lemma Pow2Below(bit: nat)
    requires bit < 32
    ensures Pow2(bit) < TWO32
  {
    Pow2Values();
    Pow2Mono(bit, 31);
    assert Pow2(32) == 2 * Pow2(31);
  }

  ghost predicate IsLeastMultiple(r: nat, x: nat, m: nat)
    requires m > 0
  {
    r % m == 0 && x <= r && forall y: nat :: y % m == 0 && x <= y ==> r <= y
  }

  lemma RoundMaskValue(x: nat, bit: nat)
    requires bit < 32 && x + Pow2(bit) - 1 < TWO32
    ensures var t := x + Pow2(bit) - 1; RoundMask(x, bit) == t - t % Pow2(bit)
  {
  }

  /** Without wrap-around, masking rounds up to the least multiple of the alignment. */
  lemma RoundMaskIsLeastMultiple(x: nat, bit: nat)
    requires bit < 32 && x + Pow2(bit) - 1 < TWO32
    ensures IsLeastMultiple(RoundMask(x, bit), x, Pow2(bit))
    ensures RoundMask(x, bit) < x + Pow2(bit)
  {
    var a, r := Pow2(bit), RoundMask(x, bit);
    RoundMaskValue(x, bit);
    FloorMultiple(x + a - 1, a);
    forall y: nat | y % a == 0 && x <= y
      ensures r <= y
    {
      MultipleGap(y, r, a);
    }
  }

  /** When the sum before the masking wraps around, masking rounds to zero. */
  lemma RoundMaskWraps(x: nat, bit: nat)
    requires bit < 32 && x < TWO32 <= x + Pow2(bit) - 1
    ensures RoundMask(x, bit) == 0
  {
    Pow2Below(bit);
    var t := x + Pow2(bit) - 1 - TWO32;
    DivUnique(x + Pow2(bit) - 1, TWO32, 1, t);
    DivUnique(t, Pow2(bit), 0, t);
  }

  lemma RoundMaskZero(x: nat, bit: nat)
    requires bit < 32 && x == 0
    ensures RoundMask(x, bit) == 0
  {
    Pow2Below(bit);
    RoundMaskValue(x, bit);
    DivUnique(Pow2(bit) - 1, Pow2(bit), 0, Pow2(bit) - 1);
  }

  /** Two multiples of `m` less than `m` apart in one direction are ordered the other way. */
  lemma MultipleGap(y: nat, r: nat, m: nat)
    requires m > 0 && y % m == 0 && r % m == 0 && r < y + m
    ensures r <= y
  {
    var d := r / m - y / m;
    assert d * m == (r / m) * m - (y / m) * m;
    MulAtLeast(d, m);
  }

  // ------------------------------------------------------------------ layout of a block

  datatype Request = Request(bodyLen: nat, bit: nat, headerLen: nat)

  /** `align_bit` below the width of the shifted `int`, lengths that are `uint32_t` values. */
  predicate IsRequest(r: Request) {
    r.bodyLen < TWO32 && r.bit < 32 && r.headerLen < TWO32
  }

  datatype Layout = Layout(header: nat, body: nat, total: nat, key: nat)

  function LayoutOf(r: Request): Layout
    requires IsRequest(r)
  {
    var header := RoundMask(r.headerLen, r.bit);
    var body := RoundMask(RoundMask(r.bodyLen, r.bit), 10);
    var total := U32(header + body);
    Layout(header, body, total, Key(total, r.bit))
  }

  /** No step of the length computation exceeds 32 bits. */
  predicate Fits(r: Request)
    requires IsRequest(r)
  {
    && r.headerLen + Pow2(r.bit) - 1 < TWO32
    && r.bodyLen + Pow2(r.bit) - 1 < TWO32
    && RoundMask(r.bodyLen, r.bit) + 1023 < TWO32
    && RoundMask(r.headerLen, r.bit) + RoundMask(RoundMask(r.bodyLen, r.bit), 10) < TWO32
  }

  /** The least length not below `x` that is a multiple of both `m` and 1024. */
  ghost predicate IsLeastCommon(r: nat, x: nat, m: nat)
    requires m > 0
  {
    r % m == 0 && r % 1024 == 0 && x <= r && forall y: nat :: y % m == 0 && y % 1024 == 0 && x <= y ==> r <= y
  }

  /** Rounding to the alignment and then to 1024 gives the least common multiple that is enough. */
  lemma BodyIsLeast(x: nat, bit: nat)
    requires bit < 32 && x + Pow2(bit) - 1 < TWO32 && RoundMask(x, bit) + 1023 < TWO32
    ensures IsLeastCommon(RoundMask(RoundMask(x, bit), 10), x, Pow2(bit))
  {
    Pow2Values();
    RoundMaskIsLeastMultiple(x, bit);
    var once := RoundMask(x, bit);
    RoundMaskIsLeastMultiple(once, 10);
    if bit <= 10 {
      PowerMultiple(RoundMask(once, 10), bit, 10);
    } else {
      PowerMultiple(once, 10, bit);
      assert RoundMask(once, 10) == once;
    }
  }

  /** The header is the least multiple of the alignment that holds the requested header; the body is
      the least length that holds the requested body and is a multiple of both the alignment and
      1024; the total is a multiple of the alignment. */
  lemma LayoutIsLeast(r: Request)
    requires IsRequest(r) && Fits(r)
    ensures var l := LayoutOf(r); var a := Pow2(r.bit);
            && IsLeastMultiple(l.header, r.headerLen, a)
            && l.header < r.headerLen + a
            && IsLeastCommon(l.body, r.bodyLen, a)
            && l.total == l.header + l.body && l.total % a == 0
  {
    RoundMaskIsLeastMultiple(r.headerLen, r.bit);
    BodyIsLeast(r.bodyLen, r.bit);
    var l := LayoutOf(r);
    SumOfMultiples(l.header, l.body, l.total, Pow2(r.bit));
  }

  lemma SumOfMultiples(x: nat, y: nat, sum: nat, m: nat)
    requires m > 0 && x % m == 0 && y % m == 0 && sum == x + y
    ensures sum % m == 0
  {
    SumMultiple(x, y, m);
  }

  // ------------------------------------------------------------------ bodies of any length

  /** The unit bodies are rounded to: the alignment, and never less than 1024. */
  function Unit(bit: nat): (m: nat)
    ensures m >= 1
  {
    Pow2(if bit <= 10 then 10 else bit)
  }

  /** The unit is a multiple of the alignment and of 1024, and 2^32 is a multiple of the unit. */
  lemma UnitFacts(bit: nat)
    requires bit < 32
    ensures Pow2(bit) <= Unit(bit) && 1024 <= Unit(bit) && 2 * Unit(bit) <= TWO32
    ensures Unit(bit) == if bit <= 10 then 1024 else Pow2(bit)
    ensures TWO32 % Unit(bit) == 0
  {
    Pow2Values();
    Pow2Mono(bit, if bit <= 10 then 10 else bit);
    Pow2Mono(10, if bit <= 10 then 10 else bit);
    Pow2Mono(if bit <= 10 then 10 else bit, 31);
    assert Pow2(32) == 2 * Pow2(31);
    ExactMultiple(TWO32, TWO32, 1);
    PowerMultiple(TWO32, if bit <= 10 then 10 else bit, 32);
  }

  lemma UnitMultiple(x: nat, bit: nat)
    requires x % Unit(bit) == 0
    ensures x % Pow2(bit) == 0 && x % 1024 == 0
  {
    Pow2Values();
    var top := if bit <= 10 then 10 else bit;
    PowerMultiple(x, bit, top);
    PowerMultiple(x, 10, top);
  }

  /** A common multiple of the alignment and 1024 is a multiple of the unit. */
  lemma CommonIsUnitMultiple(x: nat, bit: nat)
    requires x % Pow2(bit) == 0 && x % 1024 == 0
    ensures x % Unit(bit) == 0
  {
    Pow2Values();
  }

  lemma BelowWrap(m: nat)
    requires 0 < m <= TWO32 && TWO32 % m == 0
    ensures (TWO32 - m) % m == 0
  {
    var q := TWO32 / m;
    assert TWO32 == q * m;
    assert TWO32 - m == (q - 1) * m;
    ExactMultiple(TWO32 - m, m, q - 1);
  }

  /** What the two roundings make of a body of any length: the least multiple of the unit that holds
      it, or zero once that multiple would reach 2^32. */
  lemma BodyValue(x: nat, bit: nat)
    requires bit < 32 && x < TWO32
    ensures var b := RoundMask(RoundMask(x, bit), 10);
            && b % Unit(bit) == 0 && b + Unit(bit) <= TWO32
            && (x > TWO32 - Unit(bit) ==> b == 0)
            && (x <= TWO32 - Unit(bit) ==> x <= b < x + Unit(bit))
  {
    UnitFacts(bit);
    BelowWrap(Unit(bit));
    UnitMultiple(TWO32 - Unit(bit), bit);
    if x > TWO32 - Unit(bit) {
      BodyWraps(x, bit);
      ExactMultiple(0, Unit(bit), 0);
    } else {
      BodyFits(x, bit);
    }
  }

  lemma BodyWraps(x: nat, bit: nat)
    requires bit < 32 && TWO32 - Unit(bit) < x < TWO32
    ensures RoundMask(RoundMask(x, bit), 10) == 0
  {
    UnitFacts(bit);
    Pow2Values();
    if x + Pow2(bit) - 1 >= TWO32 {
      RoundMaskWraps(x, bit);
      RoundMaskZero(RoundMask(x, bit), 10);
    } else {
      RoundMaskIsLeastMultiple(x, bit);
      RoundMaskWraps(RoundMask(x, bit), 10);
    }
  }

  lemma BodyFits(x: nat, bit: nat)
    requires bit < 32 && x <= TWO32 - Unit(bit)
    requires (TWO32 - Unit(bit)) % Pow2(bit) == 0 && (TWO32 - Unit(bit)) % 1024 == 0
    ensures var b := RoundMask(RoundMask(x, bit), 10);
            b % Unit(bit) == 0 && b + Unit(bit) <= TWO32 && x <= b < x + Unit(bit)
  {
    UnitFacts(bit);
    Pow2Values();
    RoundMaskIsLeastMultiple(x, bit);
    var once := RoundMask(x, bit);
    RoundMaskIsLeastMultiple(once, 10);
    BodyIsLeast(x, bit);
    CommonIsUnitMultiple(RoundMask(once, 10), bit);
    RoundedOnce(x, bit);
  }

  lemma RoundedOnce(x: nat, bit: nat)
    requires bit < 32 && x + Pow2(bit) - 1 < TWO32 && RoundMask(x, bit) + 1023 < TWO32
    ensures RoundMask(RoundMask(x, bit), 10) < x + Unit(bit)
  {
    UnitFacts(bit);
    Pow2Values();
    RoundMaskIsLeastMultiple(x, bit);
    var once := RoundMask(x, bit);
    RoundMaskIsLeastMultiple(once, 10);
    var twice := RoundMask(once, 10);
    if bit <= 10 {
      NextUnit(x, bit);
    } else {
      PowerMultiple(once, 10, bit);
      assert twice <= once;
    }
  }

  lemma NextUnit(x: nat, bit: nat)
    requires bit <= 10
    ensures exists up: nat :: up % Pow2(bit) == 0 && up % 1024 == 0 && x <= up < x + 1024
  {
    Pow2Values();
    var up := x + 1023 - (x + 1023) % 1024;
    FloorMultiple(x + 1023, 1024);
    PowerMultiple(up, bit, 10);
  }

  lemma RoundMaskIsMultiple(x: nat, bit: nat)
    requires bit < 32
    ensures RoundMask(x, bit) % Pow2(bit) == 0 && RoundMask(x, bit) < TWO32
  {
  }

  /** The total is a multiple of the alignment, even where the computation wraps around. */
  lemma TotalIsAligned(r: Request)
    requires IsRequest(r)
    ensures LayoutOf(r).total % Pow2(r.bit) == 0
  {
    var l, a := LayoutOf(r), Pow2(r.bit);
    RoundMaskIsMultiple(r.headerLen, r.bit);
    BodyValue(r.bodyLen, r.bit);
    UnitMultiple(l.body, r.bit);
    UnitFacts(r.bit);
    UnitMultiple(TWO32, r.bit);
    SumOfMultiples(l.header, l.body, l.header + l.body, a);
    WrappedMultiple(l.header + l.body, l.total, a);
  }

  lemma WrappedMultiple(x: nat, y: nat, m: nat)
    requires m > 0 && x % m == 0 && TWO32 % m == 0 && x < 2 * TWO32 && y == U32(x)
    ensures y % m == 0
  {
    if x >= TWO32 {
      DivUnique(x, TWO32, 1, x - TWO32);
      assert x - TWO32 == (x / m) * m - (TWO32 / m) * m == (x / m - TWO32 / m) * m;
      ExactMultiple(x - TWO32, m, x / m - TWO32 / m);
    }
  }

  /** The block for a body without header, whatever its length. */
  lemma TotalWithoutHeader(r: Request)
    requires IsRequest(r) && r.headerLen == 0
    ensures var l := LayoutOf(r);
            && l.header == 0 && l.total % Unit(r.bit) == 0 && l.total + Unit(r.bit) <= TWO32
            && (r.bodyLen > TWO32 - Unit(r.bit) ==> l.total == 0)
            && (r.bodyLen <= TWO32 - Unit(r.bit) ==> r.bodyLen <= l.total < r.bodyLen + Unit(r.bit))
  {
    var l := LayoutOf(r);
    assert l.header == 0 by { RoundMaskZero(r.headerLen, r.bit); }
    BodyValue(r.bodyLen, r.bit);
    assert l.total == l.body;
  }

  /** `io_context::aio_read` of `count` bytes, cut to 32 bits on the way to the pool: the buffer starts
      no header and is a multiple of the 4096 bytes that direct I/O needs, and it holds the whole read
      exactly when `count` is at most 2^32 - 4096. */
  lemma AioReadBufferIff(count: nat, r: Request)
    requires r.bodyLen == U32(count) && r.bit == 12 && r.headerLen == 0
    ensures IsRequest(r) && LayoutOf(r).header == 0 && LayoutOf(r).total % 4096 == 0
    ensures count <= LayoutOf(r).total <==> count <= TWO32 - 4096
  {
    TotalWithoutHeader(r);
    UnitTwelve(r.bit);
    AioNumbers(count, r.bodyLen, LayoutOf(r).total);
  }

  lemma AioNumbers(count: nat, x: nat, total: nat)
    requires x == U32(count) && total + 4096 <= TWO32
    requires (x > TWO32 - 4096 ==> total == 0) && (x <= TWO32 - 4096 ==> x <= total)
    ensures count <= total <==> count <= TWO32 - 4096
  {
  }

  lemma UnitTwelve(bit: nat)
    requires bit == 12
    ensures Unit(bit) == 4096
  {
    Pow2Values();
    Pow2Add(bit - 10, 10);
  }

  /** A multiple of a larger power of two is a multiple of a smaller one. */
  lemma PowerMultiple(x: nat, small: nat, large: nat)
    requires small <= large && x % Pow2(large) == 0
    ensures x % Pow2(small) == 0
  {
    Pow2Add(small, large - small);
    var q, a, b := x / Pow2(large), Pow2(small), Pow2(large - small);
    assert x == q * Pow2(large);
    MulAssoc(q, a, b);
    ExactMultiple(x, a, q * b);
  }

  lemma SumMultiple(x: nat, y: nat, m: nat)
    requires m > 0 && x % m == 0 && y % m == 0
    ensures (x + y) % m == 0
  {
    assert x + y == (x / m + y / m) * m + 0;
    DivUnique(x + y, m, x / m + y / m, 0);
  }

  // ------------------------------------------------------------------ the packed key

  /** What `byte_buffer_data::key` and the lookup of `malloc` compute: the number of alignment units,
      cut to 24 bits, next to the alignment.  `KeyExpression` relates it to the expressions. */
  function Key(len: nat, bit: nat): nat {
    Shr(len, bit) % 0x100_0000 * 256 + bit
  }

  lemma CutUnits(units: nat)
    ensures Shl32(units, 8) == units % 0x100_0000 * 256
  {
    Pow2Values();
    var q, low := units / 0x100_0000, units % 0x100_0000;
    assert units * 256 == q * TWO32 + low * 256;
    DivUnique(units * 256, TWO32, q, low * 256);
  }

  lemma OrByte(x: nat, y: nat, k: nat)
    requires y < 256 && k == 8
    ensures Or(x * 256, y) == x * 256 + y
  {
    assert Pow2(k) == 256 by { Pow2Values(); }
    OrDisjoint(x, y, k);
  }

  /** The two expressions of the source, of a block and of a lookup. */
  lemma KeyExpression(len: nat, bit: nat)
    requires bit < 256
    ensures Or(Shl32(Shr(len, bit), 8), bit) == Key(len, bit)
    ensures Or(Shl32(Shr(len, bit), 8), And(bit, 0xFF)) == Key(len, bit)
  {
    CutUnits(Shr(len, bit));
    OrByte(Shr(len, bit) % 0x100_0000, bit, 8);
    LowBits(bit, 8);
  }

  lemma LowBits(bit: nat, k: nat)
    requires bit < 256 && k == 8
    ensures And(bit, 0xFF) == bit
  {
    Pow2Values();
    AndAllOnes(bit, k);
  }

  /** Both parts can be read back from a key. */
  lemma KeyFields(len: nat, bit: nat)
    requires bit < 256
    ensures Key(len, bit) % 256 == bit && Key(len, bit) / 256 == Shr(len, bit) % 0x100_0000
  {
    LowByte(Shr(len, bit) % 0x100_0000, bit);
  }

  lemma LowByte(low: nat, b: nat)
    requires b < 256
    ensures (low * 256 + b) % 256 == b && (low * 256 + b) / 256 == low
  {
  }

  /** Exactly when two aligned blocks share a key: same alignment, and lengths that agree modulo
      2^(24 + align_bit). */
  lemma KeysAgreeIff(len1: nat, bit1: nat, len2: nat, bit2: nat)
    requires bit1 < 256 && bit2 < 256
    requires len1 % Pow2(bit1) == 0 && len2 % Pow2(bit2) == 0
    ensures Key(len1, bit1) == Key(len2, bit2)
       <==> bit1 == bit2 && len1 % Pow2(24 + bit1) == len2 % Pow2(24 + bit1)
  {
    KeyFields(len1, bit1);
    KeyFields(len2, bit2);
    UnitsMod(len1, bit1);
    if bit1 == bit2 {
      UnitsMod(len2, bit2);
      var u1, u2 := Shr(len1, bit1) % 0x100_0000, Shr(len2, bit1) % 0x100_0000;
      if u1 * Pow2(bit1) == u2 * Pow2(bit1) {
        MulCancel(u1, u2, Pow2(bit1));
      }
    }
  }

  /** The units that survive the cut are the length modulo 2^(24 + bit), in units. */
  lemma UnitsMod(len: nat, bit: nat)
    requires len % Pow2(bit) == 0
    ensures len % Pow2(24 + bit) == Shr(len, bit) % 0x100_0000 * Pow2(bit)
  {
    Pow2Values();
    Pow2Add(24, bit);
    var a, u := Pow2(bit), len / Pow2(bit);
    assert len == u * a;
    ScaledMod(u, 0x100_0000, a);
  }

  /** Scaling by `a` scales the remainder. */
  lemma ScaledMod(u: nat, m: nat, a: nat)
    requires m > 0 && a > 0
    ensures m * a > 0 && (u * a) % (m * a) == (u % m) * a
  {
    var q, low := u / m, u % m;
    QuotientIsNat(u, m);
    assert u == q * m + low;
    assert u * a == (q * m) * a + low * a;
    MulAssoc(q, m, a);
    MulAtLeast(m - low, a);
    assert (m - low) * a == m * a - low * a;
    DivUnique(u * a, m * a, q, low * a);
  }

  /** Below 2^(24 + align_bit), keys determine blocks. */
  lemma KeysDetermine(len1: nat, bit1: nat, len2: nat, bit2: nat)
    requires bit1 < 32 && bit2 < 32
    requires len1 % Pow2(bit1) == 0 && len2 % Pow2(bit2) == 0
    requires len1 < Pow2(24 + bit1) && len2 < Pow2(24 + bit2)
    requires Key(len1, bit1) == Key(len2, bit2)
    ensures bit1 == bit2 && len1 == len2
  {
    KeysAgreeIff(len1, bit1, len2, bit2);
    DivUnique(len1, Pow2(24 + bit1), 0, len1);
    DivUnique(len2, Pow2(24 + bit1), 0, len2);
  }

  /** A body that needs no rounding, without header, is its own total. */
  lemma ExactTotal(r: Request)
    requires IsRequest(r) && Fits(r) && r.headerLen == 0
    requires r.bodyLen % Pow2(r.bit) == 0 && r.bodyLen % 1024 == 0
    ensures LayoutOf(r).total == r.bodyLen
  {
    LayoutIsLeast(r);
    ExactMultiple(0, Pow2(r.bit), 0);
  }

  /** With the default alignment, blocks of 1 KiB and of 1 GiB + 1 KiB share a key. */
  lemma KeyLosesHighBits(small: Request, large: Request)
    requires small == Request(1024, 6, 0) && large == Request(0x4000_0400, 6, 0)
    ensures LayoutOf(small).total == 1024 && LayoutOf(large).total == 0x4000_0400
    ensures LayoutOf(small).key == LayoutOf(large).key
  {
    DefaultTotal(small, 1024);
    DefaultTotal(large, 0x4000_0400);
    SharedKey(1024, 0x4000_0400, small.bit);
  }

  lemma DefaultTotal(r: Request, n: nat)
    requires r.bodyLen == n && r.bit == 6 && r.headerLen == 0 && n % 1024 == 0 && n + 2048 < TWO32
    ensures LayoutOf(r).total == n
  {
    Pow2Values();
    FitsWithoutHeader(r);
    PowerMultiple(n, r.bit, 10);
    ExactTotal(r);
  }

  lemma SharedKey(len1: nat, len2: nat, bit: nat)
    requires bit == 6 && len1 % 1024 == 0 && len2 == len1 + 0x4000_0000 && len1 < 0x4000_0000
    ensures Key(len1, bit) == Key(len2, bit)
  {
    Pow2Values();
    Pow2Add(24, bit);
    PowerMultiple(len1, bit, 10);
    PowerMultiple(len2, bit, 10);
    DivUnique(len1, Pow2(24 + bit), 0, len1);
    DivUnique(len2, Pow2(24 + bit), 1, len1);
    KeysAgreeIff(len1, bit, len2, bit);
  }

  lemma FitsWithoutHeader(r: Request)
    requires r.headerLen == 0 && r.bit <= 10 && r.bodyLen + 2048 < TWO32
    ensures IsRequest(r) && Fits(r)
  {
    Pow2Values();
    Pow2Mono(r.bit, 10);
    RoundMaskIsLeastMultiple(0, r.bit);
    ExactMultiple(0, Pow2(r.bit), 0);
    RoundMaskIsLeastMultiple(r.bodyLen, r.bit);
    RoundMaskIsLeastMultiple(RoundMask(r.bodyLen, r.bit), 10);
  }
}
