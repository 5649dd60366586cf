/** Fixed-width unsigned arithmetic on mathematical integers: powers of two,
    the 64-bit shifts, and the bitwise operators, defined bit by bit. */
module Bits {

  const TWO_31 := 0x8000_0000
  const TWO_32 := 0x1_0000_0000
  const TWO_64 := 0x1_0000_0000_0000_0000
  const TWO_128 := 0x1_0000_0000_0000_0000_0000_0000_0000_0000

  type uint8 = x: int | 0 <= x < 0x100
  type uint16 = x: int | 0 <= x < 0x1_0000
  type uint64 = x: int | 0 <= x < TWO_64

  function Pow2(k: nat): (p: nat)
    ensures 0 < p
  {
    if k == 0 then 1 else 2 * Pow2(k - 1)
  }

  /** Conversion of an integer to a 32-bit two's-complement `int`. */
  function ToInt32(v: int): (r: int)
    ensures -TWO_31 <= r < TWO_31
    ensures -TWO_31 <= v < TWO_31 ==> r == v
  {
    var m := v % TWO_32;
    if m < TWO_31 then m else m - TWO_32
  }

  // Bitwise operators.

  function And(a: nat, b: nat): (r: nat)
    ensures r <= a && r <= b
  {
    if a == 0 || b == 0 then 0 else 2 * And(a / 2, b / 2) + AndBit(a % 2, b % 2)
  }

  function AndBit(x: nat, y: nat): (r: nat)
    ensures r <= x && r <= y
  {
    if x == 0 || y == 0 then 0 else 1
  }

  function Or(a: nat, b: nat): (r: nat)
    decreases a + b
  {
    if a == 0 && b == 0 then 0 else 2 * Or(a / 2, b / 2) + OrBit(a % 2, b % 2)
  }

  function OrBit(x: nat, y: nat): nat {
    if x + y == 0 then 0 else 1
  }

  function Not64(a: uint64): uint64 {
    TWO_64 - 1 - a
  }

  /** The count a 64-bit shift acts on. Below 64 it is the count given; from 64
      on it is reduced modulo 64, as the shift instructions of x86-64 and
      AArch64 do, where the C++ standard leaves the result undefined. */
  function ShiftCount(count: nat): (k: nat)
    ensures k < 64
  {
    if count < 64 then count else count % 64
  }

  function Shr64(a: uint64, count: nat): (r: uint64)
    ensures r <= a
  {
    DivBounds(a, Pow2(ShiftCount(count)));
    a / Pow2(ShiftCount(count))
  }

  function Shl64(a: uint64, count: nat): uint64 {
    (a * Pow2(ShiftCount(count))) % TWO_64
  }

  // Division.

  lemma DivBounds(a: nat, d: nat)
    requires 0 < d
    ensures 0 <= a / d <= a
  {
    if a / d > a {
      assert a == d * (a / d) + a % d;
      MulMono(1, d, a / d);
    }
  }

  lemma MulMono(a: int, b: int, c: nat)
    requires a <= b
    ensures a * c <= b * c
  {}

  lemma MulAssoc(a: nat, b: nat, c: nat)
    ensures a * (b * c) == b * (a * c)
  {}

  /** Quotient and remainder are determined by the division equation. */
  lemma DivUnique(a: int, d: int, q: int, r: int)
    requires 0 <= r < d
    requires a == q * d + r
    ensures a / d == q && a % d == r
  {
    var q', r' := a / d, a % d;
    assert a == d * q' + r' && 0 <= r' < d;
    assert (q - q') * d == r' - r;
    if q > q' {
      MulMono(1, q - q', d);
    } else if q < q' {
      MulMono(1, q' - q, d);
    }
  }

  lemma DivDiv(a: nat, b: nat, c: nat)
    requires 0 < b && 0 < c
    ensures 0 < b * c
    ensures a / (b * c) == (a / b) / c
    ensures a % (b * c) == ((a / b) % c) * b + a % b
  {
    var q, r := a / b, a % b;
    var q2, r2 := q / c, q % c;
    assert a == b * q + r && q == c * q2 + r2;
    calc {
      a;
      b * (c * q2 + r2) + r;
      { assert b * (c * q2) == q2 * (b * c); }
      q2 * (b * c) + (r2 * b + r);
    }
    MulMono(r2, c - 1, b);
    assert r2 * b + r < b * c;
    assert 0 <= r2 * b;
    DivUnique(a, b * c, q2, r2 * b + r);
  }

  /** Scaling by a common factor. */
  lemma ModScale(a: nat, p: nat, q: nat)
    requires 0 < p && 0 < q
    ensures 0 < p * q
    ensures (a * q) % (p * q) == (a % p) * q
    ensures (a * q) / (p * q) == a / p
  {
    var m := a % p;
    assert a == p * (a / p) + m;
    assert a * q == (a / p) * (p * q) + m * q;
    MulMono(m, p - 1, q);
    assert 0 <= m * q < p * q;
    DivUnique(a * q, p * q, a / p, m * q);
  }

  // Powers of two.

  lemma {:induction false} Pow2Add(a: nat, b: nat)
    ensures Pow2(a + b) == Pow2(a) * Pow2(b)
  {
    if a == 0 {
    } else {
      Pow2Add(a - 1, b);
      assert Pow2(a + b) == 2 * (Pow2(a - 1) * Pow2(b));
    }
  }

  lemma {:induction false} Pow2Mono(a: nat, b: nat)
    requires a <= b
    ensures Pow2(a) <= Pow2(b)
  {
    if a == b {
    } else {
      Pow2Mono(a, b - 1);
    }
  }

  lemma Pow2Small()
    ensures Pow2(3) == 8 && Pow2(4) == 0x10 && Pow2(5) == 0x20 && Pow2(6) == 0x40
    ensures Pow2(7) == 0x80 && Pow2(8) == 0x100
  {
    assert Pow2(3) == 8 by { assert Pow2(1) == 2; }
    assert Pow2(6) == 0x40 by { assert Pow2(4) == 16; }
  }

  lemma Pow2Limb()
    ensures Pow2(64) == TWO_64
  {
    Pow2Small();
    Pow2Add(8, 8);
    Pow2Add(16, 16);
    Pow2Add(32, 32);
  }

  lemma Pow2Name()
    ensures Pow2(128) == TWO_128
  {
    Pow2Limb();
    Pow2Add(64, 64);
  }

  lemma SmallMod(v: nat, m: nat)
    requires v < m
    ensures v % m == v
  {}

  // Bitwise operators as arithmetic.

  predicate HalvesTo(x: nat, half: nat, last: nat) {
    x == 2 * half + last && last < 2
  }

  /** `f` computes each bit of its result by `bit` from the bits there. */
  ghost predicate Bitwise(f: (nat, nat) -> nat, bit: (nat, nat) -> nat) {
    forall x, h, r, y, g, q :: HalvesTo(x, h, r) && HalvesTo(y, g, q) ==> f(x, y) == 2 * f(h, g) + bit(r, q)
  }

  lemma AndIsBitwise()
    ensures Bitwise(And, AndBit)
  {
    forall x, h, r, y, g, q | HalvesTo(x, h, r) && HalvesTo(y, g, q)
      ensures And(x, y) == 2 * And(h, g) + AndBit(r, q)
    {
      assert x / 2 == h && y / 2 == g;
    }
  }

  lemma OrIsBitwise()
    ensures Bitwise(Or, OrBit)
  {
    forall x, h, r, y, g, q | HalvesTo(x, h, r) && HalvesTo(y, g, q)
      ensures Or(x, y) == 2 * Or(h, g) + OrBit(r, q)
    {
      assert x / 2 == h && y / 2 == g;
    }
  }

  /** `h` followed by `k` zero bits. */
  ghost function Shifted(h: nat, k: nat): nat {
    if k == 0 then h else 2 * Shifted(h, k - 1)
  }

  lemma {:induction false} ShiftedIsProduct(h: nat, k: nat)
    ensures Shifted(h, k) == h * Pow2(k)
  {
    if k == 0 {
    } else {
      ShiftedIsProduct(h, k - 1);
      DoubledProduct(h, k);
    }
  }

  lemma DoubledProduct(h: nat, k: nat)
    requires 0 < k
    ensures h * Pow2(k) == 2 * (h * Pow2(k - 1))
  {}

  lemma {:induction false} SplitShifted(
    f: (nat, nat) -> nat, bit: (nat, nat) -> nat, a1: nat, a0: nat, b1: nat, b0: nat, k: nat)
    requires Bitwise(f, bit) && a0 < Pow2(k) && b0 < Pow2(k)
    ensures f(Shifted(a1, k) + a0, Shifted(b1, k) + b0) == Shifted(f(a1, b1), k) + f(a0, b0)
    decreases k
  {
    if k == 0 {
      ZeroBits(f, bit);
      assert a0 == 0 && b0 == 0 && Shifted(a1, k) == a1 && Shifted(b1, k) == b1;
      assert Shifted(a1, k) + a0 == a1 && Shifted(b1, k) + b0 == b1;
    } else {
      SplitShifted(f, bit, a1, a0 / 2, b1, b0 / 2, k - 1);
      SplitStep(f, bit, Shifted(a1, k), Shifted(a1, k - 1), a0, Shifted(b1, k), Shifted(b1, k - 1), b0,
        Shifted(f(a1, b1), k), Shifted(f(a1, b1), k - 1));
    }
  }

  lemma ZeroBits(f: (nat, nat) -> nat, bit: (nat, nat) -> nat)
    requires Bitwise(f, bit)
    ensures f(0, 0) == 0
  {
    BitStep(f, bit, 0, 0, 0, 0, 0, 0);
  }

  lemma SplitAt(f: (nat, nat) -> nat, bit: (nat, nat) -> nat,
      a: nat, a1: nat, a0: nat, b: nat, b1: nat, b0: nat, k: nat)
    requires Bitwise(f, bit) && a0 < Pow2(k) && b0 < Pow2(k)
    requires a == Shifted(a1, k) + a0 && b == Shifted(b1, k) + b0
    ensures f(a, b) == Shifted(f(a1, b1), k) + f(a0, b0)
  {
    SplitShifted(f, bit, a1, a0, b1, b0, k);
  }

  lemma SplitStep(f: (nat, nat) -> nat, bit: (nat, nat) -> nat,
      x: nat, u: nat, a0: nat, y: nat, v: nat, b0: nat, z: nat, w: nat)
    requires Bitwise(f, bit) && x == 2 * u && y == 2 * v && z == 2 * w
    requires f(u + a0 / 2, v + b0 / 2) == w + f(a0 / 2, b0 / 2)
    ensures f(x + a0, y + b0) == z + f(a0, b0)
  {
    BitStep(f, bit, x + a0, u + a0 / 2, a0 % 2, y + b0, v + b0 / 2, b0 % 2);
    BitStep(f, bit, a0, a0 / 2, a0 % 2, b0, b0 / 2, b0 % 2);
  }

  lemma BitStep(
    f: (nat, nat) -> nat, bit: (nat, nat) -> nat, x: nat, h: nat, r: nat, y: nat, g: nat, q: nat)
    requires Bitwise(f, bit) && HalvesTo(x, h, r) && HalvesTo(y, g, q)
    ensures f(x, y) == 2 * f(h, g) + bit(r, q)
  {}

  /** A bitwise operator works independently on the bits above and below any
      position. */
  lemma BitwiseSplit(f: (nat, nat) -> nat, bit: (nat, nat) -> nat,
      a: nat, a1: nat, a0: nat, b: nat, b1: nat, b0: nat, k: nat)
    requires Bitwise(f, bit) && a0 < Pow2(k) && b0 < Pow2(k)
    requires a == a1 * Pow2(k) + a0 && b == b1 * Pow2(k) + b0
    ensures f(a, b) == f(a1, b1) * Pow2(k) + f(a0, b0)
  {
    ShiftedIsProduct(a1, k);
    ShiftedIsProduct(b1, k);
    SplitAt(f, bit, a, a1, a0, b, b1, b0, k);
    ShiftedIsProduct(f(a1, b1), k);
  }

  lemma {:induction false} OrZero(a: nat)
    ensures Or(a, 0) == a && Or(0, a) == a
  {
    if a == 0 {
    } else {
      OrZero(a / 2);
    }
  }

  /** Or of numbers that share no bit position is their sum. */
  lemma OrDisjoint(high: nat, h: nat, low: nat, k: nat)
    requires low < Pow2(k) && high == h * Pow2(k)
    ensures Or(high, low) == high + low == Or(low, high)
  {
    OrIsBitwise();
    OrZero(h);
    OrZero(low);
    JoinParts(Or, OrBit, high, h, low, k);
  }

  lemma JoinParts(f: (nat, nat) -> nat, bit: (nat, nat) -> nat, high: nat, h: nat, low: nat, k: nat)
    requires Bitwise(f, bit) && low < Pow2(k) && high == h * Pow2(k)
    requires f(h, 0) == f(0, h) == h && f(low, 0) == f(0, low) == low
    ensures f(high, low) == high + low == f(low, high)
  {
    BitwiseSplit(f, bit, high, h, 0, low, 0, low, k);
    BitwiseSplit(f, bit, low, 0, low, high, h, 0, k);
  }

  /** `f` keeps the bits of its first argument where the second has ones. */
  ghost predicate Masks(f: (nat, nat) -> nat, bit: (nat, nat) -> nat) {
    Bitwise(f, bit) && forall r :: r < 2 ==> bit(r, 1) == r && bit(r, 0) == 0
  }

  lemma AndMasks()
    ensures Masks(And, AndBit)
  {
    AndIsBitwise();
  }

  lemma {:induction false} Ones(f: (nat, nat) -> nat, bit: (nat, nat) -> nat, a: nat, w: nat)
    requires Masks(f, bit) && a < Pow2(w)
    ensures f(a, Pow2(w) - 1) == a
    decreases w
  {
    if w == 0 {
      BitStep(f, bit, 0, 0, 0, 0, 0, 0);
    } else {
      Ones(f, bit, a / 2, w - 1);
      BitStep(f, bit, a, a / 2, a % 2, Pow2(w) - 1, Pow2(w - 1) - 1, 1);
    }
  }

  lemma {:induction false} Zeros(f: (nat, nat) -> nat, bit: (nat, nat) -> nat, a: nat)
    requires Masks(f, bit)
    ensures f(a, 0) == 0
    decreases a
  {
    if a == 0 {
    } else {
      Zeros(f, bit, a / 2);
    }
    BitStep(f, bit, a, a / 2, a % 2, 0, 0, 0);
  }

  lemma HighPart(f: (nat, nat) -> nat, bit: (nat, nat) -> nat, a: nat, k: nat, w: nat, mask: nat)
    requires Masks(f, bit) && k <= w && a < Pow2(w) && mask == Pow2(w) - Pow2(k)
    ensures f(a, mask) == a - a % Pow2(k)
  {
    var a1, a0, m1 := HighQuotients(a, k, w);
    Ones(f, bit, a1, w - k);
    Zeros(f, bit, a0);
    SplitShifted(f, bit, a1, a0, m1, 0, k);
  }

  lemma HighQuotients(a: nat, k: nat, w: nat) returns (a1: nat, a0: nat, m1: nat)
    requires k <= w && a < Pow2(w)
    ensures a0 == a % Pow2(k) && a0 < Pow2(k) && a == Shifted(a1, k) + a0
    ensures m1 == Pow2(w - k) - 1 && a1 <= m1
    ensures Shifted(m1, k) == Pow2(w) - Pow2(k)
  {
    Pow2Add(w - k, k);
    a1, a0, m1 := Quotients(a, Pow2(k), Pow2(w - k), Pow2(w));
    ShiftedIsProduct(a1, k);
    ShiftedIsProduct(m1, k);
  }

  lemma Quotients(a: nat, p: nat, q: nat, r: nat) returns (a1: nat, a0: nat, m1: nat)
    requires 0 < p && 0 < q && r == q * p && a < r
    ensures a0 == a % p && a0 < p && a == a1 * p + a0
    ensures m1 == q - 1 && a1 <= m1 && m1 * p == r - p
  {
    Parts(a, p);
    QuotientBelow(a, p, q);
    LessOne(q, p);
    a1, a0, m1 := a / p, a % p, q - 1;
  }

  lemma LowPart(f: (nat, nat) -> nat, bit: (nat, nat) -> nat, a: nat, k: nat)
    requires Masks(f, bit)
    ensures f(a, Pow2(k) - 1) == a % Pow2(k)
  {
    var p := Pow2(k);
    Parts(a, p);
    Ones(f, bit, a % p, k);
    Zeros(f, bit, a / p);
    BitwiseSplit(f, bit, a, a / p, a % p, p - 1, 0, p - 1, k);
  }

  /** And with a mask of the bits from `k` up to `w` clears the low `k` bits. */
  lemma AndHighMask(a: nat, k: nat, w: nat, mask: nat)
    requires k <= w && a < Pow2(w) && mask == Pow2(w) - Pow2(k)
    ensures And(a, mask) == a - a % Pow2(k)
  {
    AndMasks();
    HighPart(And, AndBit, a, k, w, mask);
  }

  lemma Parts(a: nat, p: nat)
    requires 0 < p
    ensures 0 <= a / p && a / p * p + a % p == a
  {
    DivBounds(a, p);
  }

  lemma LessOne(q: nat, p: nat)
    ensures (q - 1) * p == q * p - p
  {}

  lemma QuotientBelow(v: nat, p: nat, q: nat)
    requires 0 < p && v < q * p
    ensures 0 <= v / p < q
  {
    DivBounds(v, p);
    if v / p >= q {
      MulMono(q, v / p, p);
    }
  }

  /** And with a mask of the low `k` bits is the remainder modulo 2^k. */
  lemma AndLowMask(a: nat, k: nat)
    ensures And(a, Pow2(k) - 1) == a % Pow2(k)
  {
    AndMasks();
    LowPart(And, AndBit, a, k);
  }

  lemma LowByteMask(v: nat)
    ensures And(v, 0xff) == v % 256
  {
    Pow2Small();
    AndLowMask(v, 8);
  }

  lemma {:induction false} AndIdempotent(a: nat, b: nat)
    ensures And(And(a, b), b) == And(a, b)
  {
    if a == 0 || b == 0 {
    } else {
      AndIdempotent(a / 2, b / 2);
      AndIsBitwise();
      BitStep(And, AndBit, And(a, b), And(a / 2, b / 2), AndBit(a % 2, b % 2), b, b / 2, b % 2);
    }
  }

  // The operators on mutable values, by what they do to them.

  /** `value & mask`, for a mask of the `k` low bits. */
  method KeepLow(value: nat, ghost k: nat, mask: nat) returns (r: nat)
    requires mask == Pow2(k) - 1
    ensures r == value % Pow2(k)
  {
    AndLowMask(value, k);
    r := And(value, mask);
  }

  /** `value & mask`, for a mask of the bits from `k` up to `w`. */
  method KeepHigh(value: nat, ghost k: nat, ghost w: nat, mask: nat) returns (r: nat)
    requires k <= w && value < Pow2(w) && mask == Pow2(w) - Pow2(k)
    ensures r == value - value % Pow2(k)
  {
    AndHighMask(value, k, w, mask);
    r := And(value, mask);
  }

  /** `high | low`, for a `high` whose `k` low bits are clear. */
  method JoinBits(high: nat, low: nat, ghost h: nat, ghost k: nat) returns (r: nat)
    requires low < Pow2(k) && high == h * Pow2(k)
    ensures r == high + low
  {
    OrDisjoint(high, h, low, k);
    r := Or(high, low);
  }

  /** `value | bit`, for a bit that is clear. */
  method SetBit(value: nat, bit: nat, ghost h: nat, ghost k: nat) returns (r: nat)
    requires bit == Pow2(k) && Shifted(2 * h, k) <= value < Shifted(2 * h, k) + bit
    ensures r == value + bit
  {
    OrIsBitwise();
    OrZero(value - Shifted(2 * h, k));
    OrUnit(h);
    ClearBit(Or, OrBit, value, value - Shifted(2 * h, k), h, k);
    r := Or(value, bit);
  }

  lemma OrUnit(h: nat)
    ensures Or(2 * h, 1) == 2 * h + 1
  {
    OrZero(h);
    OrIsBitwise();
    BitStep(Or, OrBit, 2 * h, h, 0, 1, 0, 1);
  }

  lemma ClearBit(f: (nat, nat) -> nat, bit: (nat, nat) -> nat, value: nat, low: nat, h: nat, k: nat)
    requires Bitwise(f, bit) && low < Pow2(k) && value == Shifted(2 * h, k) + low
    requires f(low, 0) == low && f(2 * h, 1) == 2 * h + 1
    ensures f(value, Pow2(k)) == value + Pow2(k)
  {
    ShiftedNext(2 * h, k);
    SplitAt(f, bit, value, 2 * h, low, Pow2(k), 1, 0, k);
  }

  lemma {:induction false} ShiftedNext(h: nat, k: nat)
    ensures Shifted(1, k) == Pow2(k) && Shifted(h + 1, k) == Shifted(h, k) + Pow2(k)
  {
    if k == 0 {
    } else {
      ShiftedNext(h, k - 1);
    }
  }
}
