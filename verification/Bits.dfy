/** Unsigned machine arithmetic written out on natural numbers: wrap-around, bitwise `&`, `|`, `~`
    and the shifts, with the facts that relate them to division and remainder. */
module Bits {

  const TWO16: nat := 0x1_0000
  const TWO32: nat := 0x1_0000_0000

  function U16(x: int): (r: nat)
    ensures r < TWO16
    ensures 0 <= x < TWO16 ==> r == x
  {
    x % TWO16
  }

  function U32(x: int): (r: nat)
    ensures r < TWO32
    ensures 0 <= x < TWO32 ==> r == x
  {
    x % TWO32
  }

  /** Conversion of an unsigned 32-bit value, or of any wider value, to `int32_t`. */
  function I32(x: int): (r: int)
    ensures -0x8000_0000 <= r < 0x8000_0000
    ensures -0x8000_0000 <= x < 0x8000_0000 ==> r == x
  {
    if U32(x) < 0x8000_0000 then U32(x) else U32(x) - TWO32
  }

  function Pow2(k: nat): (r: nat)
    ensures r >= 1
  {
    if k == 0 then 1 else 2 * Pow2(k - 1)
  }

  function And(x: nat, y: nat): nat
    decreases x
  {
    if x == 0 || y == 0 then 0 else (if x % 2 == 1 && y % 2 == 1 then 1 else 0) + 2 * And(x / 2, y / 2)
  }

  function Or(x: nat, y: nat): nat
    decreases x
  {
    if x == 0 then y else (if x % 2 == 1 || y % 2 == 1 then 1 else 0) + 2 * Or(x / 2, y / 2)
  }

  function Not32(x: nat): nat
    requires x < TWO32
  {
    TWO32 - 1 - x
  }

  function Shl32(x: nat, k: nat): nat {
    U32(x * Pow2(k))
  }

  function Shr(x: nat, k: nat): nat {
    QuotientIsNat(x, Pow2(k));
    x / Pow2(k)
  }

  // ------------------------------------------------------------------ powers of two

  lemma {:induction false} Pow2Add(a: nat, b: nat)
    ensures Pow2(a + b) == Pow2(a) * Pow2(b)
  {
    if a > 0 {
      Pow2Add(a - 1, b);
      MulAssoc(2, Pow2(a - 1), Pow2(b));
    }
  }

  lemma Pow2Values()
    ensures Pow2(6) == 64 && Pow2(8) == 256 && Pow2(10) == 1024 && Pow2(16) == TWO16
    ensures Pow2(24) == 0x100_0000 && Pow2(32) == TWO32
  {
    assert Pow2(5) == 32;
    assert Pow2(10) == 1024;
    Pow2Add(6, 10);
    Pow2Add(8, 16);
    Pow2Add(16, 16);
  }

  lemma {:induction false} Pow2Mono(a: nat, b: nat)
    requires a <= b
    ensures Pow2(a) <= Pow2(b)
  {
    Pow2Add(a, b - a);
    assert Pow2(a) * Pow2(b - a) >= Pow2(a) * 1;
  }

  // ------------------------------------------------------------------ division facts

  lemma MulAtLeast(d: int, m: nat)
    ensures d >= 1 ==> d * m >= m
    ensures d <= -1 ==> d * m + m <= 0
  {
    if d >= 1 {
      assert d * m == (d - 1) * m + m;
    } else if d <= -1 {
      assert d * m == (d + 1) * m - m;
    }
  }

  lemma QuotientIsNat(x: nat, m: nat)
    requires m > 0
    ensures x / m >= 0
  {
    MulAtLeast(x / m, m);
  }

  /** Quotient and remainder are the only pair with these properties. */
  lemma DivUnique(x: int, m: nat, q: int, r: int)
    requires m > 0 && 0 <= r < m && x == q * m + r
    ensures x / m == q && x % m == r
  {
    var q', r' := x / m, x % m;
    var d := q - q';
    assert d * m == q * m - q' * m;
    MulAtLeast(d, m);
  }

  lemma ExactMultiple(x: int, m: nat, q: int)
    requires m > 0 && x == q * m
    ensures x % m == 0 && x / m == q
  {
    DivUnique(x, m, q, 0);
  }

  lemma FloorMultiple(x: int, m: nat)
    requires m > 0
    ensures (x - x % m) % m == 0
  {
    assert x - x % m == (x / m) * m;
    ExactMultiple(x - x % m, m, x / m);
  }

  lemma MulAssoc(a: int, b: int, c: int)
    ensures a * (b * c) == a * b * c == (a * c) * b
  {
  }

  lemma MulCancel(a: int, b: int, m: nat)
    requires m > 0 && a * m == b * m
    ensures a == b
  {
    assert (a - b) * m == a * m - b * m;
    MulAtLeast(a - b, m);
  }

  /** A block of `k` low bits: the lowest one and the rest. */
  lemma ModDouble(x: nat, m: nat)
    requires m > 0
    ensures x % (2 * m) == 2 * ((x / 2) % m) + x % 2
  {
    var h := x / 2;
    assert x == 2 * h + x % 2 && h == m * (h / m) + h % m;
    assert (h / m) * (2 * m) == 2 * (m * (h / m));
    DivUnique(x, 2 * m, h / m, 2 * (h % m) + x % 2);
  }

  // ------------------------------------------------------------------ masks

  lemma {:induction false} AndAllOnes(x: nat, n: nat)
    requires x < Pow2(n)
    ensures And(x, Pow2(n) - 1) == x
  {
    if n > 0 {
      assert (Pow2(n) - 1) / 2 == Pow2(n - 1) - 1 && (Pow2(n) - 1) % 2 == 1;
      AndAllOnes(x / 2, n - 1);
    }
  }

  lemma AndEven(x: nat, y: nat)
    ensures And(x, 2 * y) == 2 * And(x / 2, y)
  {
    if x > 0 && y > 0 {
      assert (2 * y) / 2 == y && (2 * y) % 2 == 0;
    }
  }

  /** Clearing the low `k` bits subtracts the remainder modulo `2^k`. */
  lemma {:induction false} AndHighMask(x: nat, k: nat, n: nat, mask: nat)
    requires k <= n && x < Pow2(n) && mask + Pow2(k) == Pow2(n)
    ensures And(x, mask) == x - x % Pow2(k)
    decreases k
  {
    if k == 0 {
      AndAllOnes(x, n);
    } else {
      var half := Pow2(n - 1) - Pow2(k - 1);
      AndHighMask(x / 2, k - 1, n - 1, half);
      ModDouble(x, Pow2(k - 1));
      AndEven(x, half);
    }
  }

  lemma AndNotMask(x: nat, k: nat)
    requires x < TWO32 && k <= 32
    ensures Pow2(k) <= TWO32 && And(x, Not32(Pow2(k) - 1)) == x - x % Pow2(k)
  {
    Pow2Values();
    Pow2Mono(k, 32);
    AndHighMask(x, k, 32, Not32(Pow2(k) - 1));
  }

  /** `|` of values that share no bit is addition. */
  lemma {:induction false} OrDisjoint(x: nat, y: nat, k: nat)
    requires y < Pow2(k)
    ensures Or(x * Pow2(k), y) == x * Pow2(k) + y
  {
    if x == 0 {
    } else if k == 0 {
      OrZero(x);
    } else {
      var h := x * Pow2(k - 1);
      assert x * Pow2(k) == 2 * h by { assert x * (2 * Pow2(k - 1)) == 2 * (x * Pow2(k - 1)); }
      OrDisjoint(x, y / 2, k - 1);
      MulAtLeast(x, Pow2(k));
    }
  }

  lemma {:induction false} OrZero(x: nat)
    ensures Or(x, 0) == x
  {
    if x > 0 {
      OrZero(x / 2);
    }
  }
}
