/** Integers as bytes: most significant byte first, as on the wire, least
    significant byte first, as in the memory of the hosts the library runs on, and
    the swap between the two (src/message_buffer.cpp, swap_bytes). */
module ByteOrder {
  import opened Bits

  type Bytes = seq<uint8>

  function BigEndian(v: nat, n: nat): (s: Bytes)
    ensures |s| == n
  {
    if n == 0 then [] else BigEndian(v / 256, n - 1) + [v % 256]
  }

  function FromBigEndian(s: Bytes): nat {
    if |s| == 0 then 0 else 256 * FromBigEndian(s[..|s| - 1]) + s[|s| - 1]
  }

  lemma {:induction false} FromBigEndianBound(s: Bytes)
    ensures FromBigEndian(s) < Pow2(8 * |s|)
  {
    if |s| == 0 {
    } else {
      FromBigEndianBound(s[..|s| - 1]);
      Pow2Byte(|s|);
    }
  }

  lemma Pow2Byte(n: nat)
    requires 0 < n
    ensures Pow2(8 * n) == 256 * Pow2(8 * (n - 1))
  {
    Pow2Small();
    Pow2Add(8, 8 * (n - 1));
  }

  lemma {:induction false} BigEndianRoundTrip(v: nat, n: nat)
    ensures FromBigEndian(BigEndian(v, n)) == v % Pow2(8 * n)
  {
    if n == 0 {
    } else {
      BigEndianRoundTrip(v / 256, n - 1);
      assert BigEndian(v, n)[..n - 1] == BigEndian(v / 256, n - 1);
      Pow2Byte(n);
      DivDiv(v, 256, Pow2(8 * (n - 1)));
    }
  }

  lemma {:induction false} FromBigEndianRoundTrip(s: Bytes)
    ensures BigEndian(FromBigEndian(s), |s|) == s
  {
    if |s| == 0 {
    } else {
      var t := s[..|s| - 1];
      FromBigEndianRoundTrip(t);
      DivUnique(FromBigEndian(s), 256, FromBigEndian(t), s[|s| - 1]);
      assert s == t + [s[|s| - 1]];
    }
  }

  lemma {:induction false} FromBigEndianCons(h: uint8, t: Bytes)
    ensures FromBigEndian([h] + t) == h * Pow2(8 * |t|) + FromBigEndian(t)
  {
    var s := [h] + t;
    if |t| == 0 {
      assert s[..0] == [];
    } else {
      var t' := t[..|t| - 1];
      assert s[..|s| - 1] == [h] + t';
      FromBigEndianCons(h, t');
      Pow2Byte(|t|);
      MulAssoc(h, 256, Pow2(8 * |t'|));
    }
  }

  /** Each byte of the big-endian form, by shift and mask. */
  lemma {:induction false} BigEndianByte(v: uint64, n: nat, j: nat)
    requires j < n <= 8
    ensures BigEndian(v, n)[j] == And(Shr64(v, 8 * (n - 1 - j)), 0xFF)
  {
    BigEndianDigit(v, n, j);
    LowByteMask(Shr64(v, 8 * (n - 1 - j)));
  }

  lemma {:induction false} BigEndianDigit(v: nat, n: nat, j: nat)
    requires j < n
    ensures BigEndian(v, n)[j] == (v / Pow2(8 * (n - 1 - j))) % 256
  {
    if j == n - 1 {
    } else {
      BigEndianDigit(v / 256, n - 1, j);
      Pow2Byte(n - 1 - j);
      DivDiv(v, 256, Pow2(8 * (n - 2 - j)));
    }
  }

  // The sums of shifted bytes the reader computes.

  function Join2(b1: nat, b0: nat): nat {
    b1 * 0x100 + b0
  }

  function Join4(b3: nat, b2: nat, b1: nat, b0: nat): nat {
    b3 * 0x100_0000 + b2 * 0x1_0000 + b1 * 0x100 + b0
  }

  function Join8(b7: nat, b6: nat, b5: nat, b4: nat, b3: nat, b2: nat, b1: nat, b0: nat): nat {
    b7 * 0x100_0000_0000_0000 + b6 * 0x1_0000_0000_0000 + b5 * 0x100_0000_0000
    + b4 * 0x1_0000_0000 + b3 * 0x100_0000 + b2 * 0x1_0000 + b1 * 0x100 + b0
  }

  lemma FromBigEndianSnoc(s: Bytes, b: uint8)
    ensures FromBigEndian(s + [b]) == 256 * FromBigEndian(s) + b
  {
    assert (s + [b])[..|s|] == s;
  }

  lemma Sum1(b0: uint8)
    ensures FromBigEndian([b0]) == b0
  {
    FromBigEndianSnoc([], b0);
    assert [] + [b0] == [b0];
  }

  lemma Sum2(b1: uint8, b0: uint8)
    ensures FromBigEndian([b1, b0]) == Join2(b1, b0)
  {
    FromBigEndianSnoc([], b1);
    assert [] + [b1] == [b1];
    FromBigEndianSnoc([b1], b0);
    assert [b1] + [b0] == [b1, b0];
  }

  lemma Sum4(b3: uint8, b2: uint8, b1: uint8, b0: uint8)
    ensures FromBigEndian([b3, b2, b1, b0]) == Join4(b3, b2, b1, b0)
  {
    Sum2(b3, b2);
    FromBigEndianSnoc([b3, b2], b1);
    assert [b3, b2] + [b1] == [b3, b2, b1];
    FromBigEndianSnoc([b3, b2, b1], b0);
    assert [b3, b2, b1] + [b0] == [b3, b2, b1, b0];
  }

  lemma Sum8(b7: uint8, b6: uint8, b5: uint8, b4: uint8, b3: uint8, b2: uint8, b1: uint8, b0: uint8)
    ensures FromBigEndian([b7, b6, b5, b4, b3, b2, b1, b0])
      == Join8(b7, b6, b5, b4, b3, b2, b1, b0)
  {
    var s4 := [b7, b6, b5, b4];
    Sum4(b7, b6, b5, b4);
    FromBigEndianSnoc(s4, b3);
    FromBigEndianSnoc(s4 + [b3], b2);
    FromBigEndianSnoc(s4 + [b3] + [b2], b1);
    FromBigEndianSnoc(s4 + [b3] + [b2] + [b1], b0);
    assert s4 + [b3] + [b2] + [b1] + [b0] == [b7, b6, b5, b4, b3, b2, b1, b0];
  }

  /** The value a little-endian host copies out of memory. */
  function FromLittleEndian(s: Bytes): nat {
    if |s| == 0 then 0 else s[0] + 256 * FromLittleEndian(s[1..])
  }

  lemma {:induction false} LittleIsReversedBig(s: Bytes, t: Bytes)
    requires |s| == |t|
    requires forall i :: 0 <= i < |s| ==> s[i] == t[|t| - 1 - i]
    ensures FromLittleEndian(s) == FromBigEndian(t)
  {
    if |s| == 0 {
    } else {
      LittleIsReversedBig(s[1..], t[..|t| - 1]);
    }
  }

  /** The `n` low bytes of `v` as such a host lays them out. */
  function LittleEndian(v: nat, n: nat): (s: Bytes)
    ensures |s| == n
  {
    if n == 0 then [] else [v % 256] + LittleEndian(v / 256, n - 1)
  }

  lemma {:induction false} LittleEndianRoundTrip(s: Bytes)
    ensures LittleEndian(FromLittleEndian(s), |s|) == s
  {
    if |s| == 0 {
    } else {
      LittleEndianRoundTrip(s[1..]);
      DivUnique(FromLittleEndian(s), 256, FromLittleEndian(s[1..]), s[0]);
    }
  }

  // Swapping the bytes of a 64-bit integer.

  function SwapBytes(value: uint64): nat {
    Or(Or(Or(Or(Or(Or(Or(
      And(Shr64(value, 56), 0x0000_0000_0000_00ff),
      And(Shr64(value, 40), 0x0000_0000_0000_ff00)),
      And(Shr64(value, 24), 0x0000_0000_00ff_0000)),
      And(Shr64(value, 8), 0x0000_0000_ff00_0000)),
      And(Shl64(value, 8), 0x0000_00ff_0000_0000)),
      And(Shl64(value, 24), 0x0000_ff00_0000_0000)),
      And(Shl64(value, 40), 0x00ff_0000_0000_0000)),
      And(Shl64(value, 56), 0xff00_0000_0000_0000))
  }

  /** Byte `k` of a number, from the low end. */
  function ByteOf(v: nat, k: nat): uint8 {
    v / Pow2(8 * k) % 256
  }

  lemma BytePowers()
    ensures Pow2(0) == 1 && Pow2(8) == 0x100 && Pow2(16) == 0x1_0000 && Pow2(24) == 0x100_0000
    ensures Pow2(32) == 0x1_0000_0000 && Pow2(40) == 0x100_0000_0000
    ensures Pow2(48) == 0x1_0000_0000_0000 && Pow2(56) == 0x100_0000_0000_0000
  {
    Pow2Small();
    Pow2Add(8, 8);
    Pow2Add(8, 16);
    Pow2Add(8, 24);
    Pow2Add(8, 32);
    Pow2Add(8, 40);
    Pow2Add(8, 48);
  }

  /** A mask of one byte keeps that byte in its place. */
  lemma MaskedByte(f: (nat, nat) -> nat, bit: (nat, nat) -> nat, x: nat, k: nat, mask: nat)
    requires Masks(f, bit) && mask == 0xff * Pow2(8 * k)
    ensures f(x, mask) == ByteOf(x, k) * Pow2(8 * k)
  {
    var p := Pow2(8 * k);
    Parts(x, p);
    LowPart(f, bit, x / p, 8);
    Pow2Small();
    Zeros(f, bit, x % p);
    BitwiseSplit(f, bit, x, x / p, x % p, mask, 0xff, 0, 8 * k);
  }

  /** Shifting down by bytes and masking takes byte `k + n` to position `k`. */
  lemma DownByte(v: uint64, k: nat, n: nat)
    requires k + n < 8
    ensures ByteOf(Shr64(v, 8 * n), k) == ByteOf(v, k + n)
  {
    Pow2Add(8 * n, 8 * k);
    DivDiv(v, Pow2(8 * n), Pow2(8 * k));
  }

  /** Shifting up by bytes and masking takes byte `k` to position `k + n`. */
  lemma UpByte(v: uint64, k: nat, n: nat)
    requires k + n < 8
    ensures ByteOf(Shl64(v, 8 * n), k + n) == ByteOf(v, k)
  {
    var q, p := Pow2(8 * n), Pow2(64 - 8 * n);
    Pow2Limb();
    Pow2Add(64 - 8 * n, 8 * n);
    ModScale(v, p, q);
    UpShifted(v % p, k, n);
    LowByteOfRemainder(v, k, 64 - 8 * n);
  }

  lemma UpShifted(r: nat, k: nat, n: nat)
    ensures ByteOf(r * Pow2(8 * n), k + n) == ByteOf(r, k)
  {
    Pow2Add(8 * n, 8 * k);
    DivDiv(r * Pow2(8 * n), Pow2(8 * n), Pow2(8 * k));
    DivUnique(r * Pow2(8 * n), Pow2(8 * n), r, 0);
  }

  /** A byte below position `m` is that of the remainder. */
  lemma LowByteOfRemainder(v: nat, k: nat, m: nat)
    requires 8 * k + 8 <= m
    ensures ByteOf(v % Pow2(m), k) == ByteOf(v, k)
  {
    var r := m - 8 * k - 8;
    Pow2Small();
    Pow2Add(8, r);
    Pow2Add(8 * k, 8 + r);
    DigitOfRemainder(v, Pow2(8 * k), Pow2(r), Pow2(m));
  }

  lemma DigitOfRemainder(v: nat, p: nat, r: nat, d: nat)
    requires 0 < p && 0 < r && d == p * (256 * r)
    ensures 0 < d && v % d / p % 256 == v / p % 256
  {
    QuotientOfRemainder(v, p, 256 * r, d);
    LastDigit(v / p, r);
  }

  lemma QuotientOfRemainder(v: nat, p: nat, c: nat, d: nat)
    requires 0 < p && 0 < c && d == p * c
    ensures 0 < d && v % d / p == v / p % c
  {
    DivDiv(v, p, c);
    RemainderQuotient(v / p % c, v % p, p);
  }

  lemma LastDigit(u: nat, r: nat)
    requires 0 < r
    ensures u % (256 * r) % 256 == u % 256
  {
    DivDiv(u, 256, r);
    RemainderQuotient(u / 256 % r, u % 256, 256);
    DivUnique(u / 256 % r * 256 + u % 256, 256, u / 256 % r, u % 256);
  }

  lemma RemainderQuotient(h: nat, l: nat, p: nat)
    requires l < p
    ensures (h * p + l) / p == h
  {
    DivUnique(h * p + l, p, h, l);
  }

  /** Joining eight bytes, each in its place. */
  lemma JoinBytes(f: (nat, nat) -> nat, bit: (nat, nat) -> nat,
      b0: uint8, b1: uint8, b2: uint8, b3: uint8, b4: uint8, b5: uint8, b6: uint8, b7: uint8)
    requires Bitwise(f, bit) && forall x :: f(x, 0) == x == f(0, x)
    ensures f(f(f(f(f(f(f(b0, b1 * 0x100), b2 * 0x1_0000), b3 * 0x100_0000), b4 * 0x1_0000_0000),
              b5 * 0x100_0000_0000), b6 * 0x1_0000_0000_0000), b7 * 0x100_0000_0000_0000)
         == Join8(b7, b6, b5, b4, b3, b2, b1, b0)
  {
    JoinLowBytes(f, bit, b0, b1, b2, b3);
    JoinHighBytes(f, bit, Join4(b3, b2, b1, b0), b4, b5, b6, b7);
  }

  lemma JoinLowBytes(f: (nat, nat) -> nat, bit: (nat, nat) -> nat, b0: uint8, b1: uint8, b2: uint8, b3: uint8)
    requires Bitwise(f, bit) && forall x :: f(x, 0) == x == f(0, x)
    ensures f(f(f(b0, b1 * 0x100), b2 * 0x1_0000), b3 * 0x100_0000) == Join4(b3, b2, b1, b0)
  {
    JoinFirstBytes(f, bit, b0, b1);
    BytePowers();
    JoinTwoBytes(f, bit, b1 * 0x100 + b0, b2, 0x1_0000, b3, 0x100_0000, 16);
  }

  lemma JoinFirstBytes(f: (nat, nat) -> nat, bit: (nat, nat) -> nat, b0: uint8, b1: uint8)
    requires Bitwise(f, bit) && forall x :: f(x, 0) == x == f(0, x)
    ensures f(b0, b1 * 0x100) == b1 * 0x100 + b0
  {
    Pow2Small();
    JoinParts(f, bit, b1 * 0x100, b1, b0, 8);
  }

  lemma JoinHighBytes(f: (nat, nat) -> nat, bit: (nat, nat) -> nat, low: nat, b4: uint8, b5: uint8, b6: uint8,
      b7: uint8)
    requires low < 0x1_0000_0000
    requires Bitwise(f, bit) && forall x :: f(x, 0) == x == f(0, x)
    ensures f(f(f(f(low, b4 * 0x1_0000_0000), b5 * 0x100_0000_0000), b6 * 0x1_0000_0000_0000),
      b7 * 0x100_0000_0000_0000)
         == b7 * 0x100_0000_0000_0000 + b6 * 0x1_0000_0000_0000 + b5 * 0x100_0000_0000 + b4 * 0x1_0000_0000 + low
  {
    BytePowers();
    JoinTwoBytes(f, bit, low, b4, 0x1_0000_0000, b5, 0x100_0000_0000, 32);
    var s5 := b5 * 0x100_0000_0000 + b4 * 0x1_0000_0000 + low;
    JoinTwoBytes(f, bit, s5, b6, 0x1_0000_0000_0000, b7, 0x100_0000_0000_0000, 48);
  }

  lemma JoinTwoBytes(f: (nat, nat) -> nat, bit: (nat, nat) -> nat, low: nat, a: uint8, p: nat, b: uint8, q: nat, k: nat)
    requires Bitwise(f, bit) && forall x :: f(x, 0) == x == f(0, x)
    requires p == Pow2(k) && q == Pow2(k + 8) && q == 0x100 * p && low < p
    ensures f(f(low, a * p), b * q) == b * q + a * p + low
  {
    MulMono(a, 0xff, p);
    JoinParts(f, bit, a * p, a, low, k);
    JoinParts(f, bit, b * q, b, a * p + low, k + 8);
  }

  lemma OrNothing()
    ensures forall x :: Or(x, 0) == x == Or(0, x)
  {
    forall x
      ensures Or(x, 0) == x == Or(0, x)
    {
      OrZero(x);
    }
  }

  /** A term of the swap that shifts down: byte `k + n` at position `k`. */
  lemma DownTerm(v: uint64, k: nat, n: nat, mask: nat)
    requires k + n < 8 && mask == 0xff * Pow2(8 * k)
    ensures And(Shr64(v, 8 * n), mask) == ByteOf(v, k + n) * Pow2(8 * k)
  {
    AndMasks();
    MaskedByte(And, AndBit, Shr64(v, 8 * n), k, mask);
    DownByte(v, k, n);
  }

  /** A term of the swap that shifts up: byte `k` at position `k + n`. */
  lemma UpTerm(v: uint64, k: nat, n: nat, mask: nat)
    requires k + n < 8 && mask == 0xff * Pow2(8 * (k + n))
    ensures And(Shl64(v, 8 * n), mask) == ByteOf(v, k) * Pow2(8 * (k + n))
  {
    AndMasks();
    MaskedByte(And, AndBit, Shl64(v, 8 * n), k + n, mask);
    UpByte(v, k, n);
  }

  /** The swap turns the order of the bytes around. */
  lemma SwapBytesReverses(v: uint64)
    ensures SwapBytes(v) == FromLittleEndian(BigEndian(v, 8)) < TWO_64
  {
    BytePowers();
    DownTerm(v, 0, 7, 0xff);
    DownTerm(v, 1, 5, 0xff00);
    DownTerm(v, 2, 3, 0xff_0000);
    DownTerm(v, 3, 1, 0xff00_0000);
    UpTerm(v, 3, 1, 0xff_0000_0000);
    UpTerm(v, 2, 3, 0xff00_0000_0000);
    UpTerm(v, 1, 5, 0xff_0000_0000_0000);
    UpTerm(v, 0, 7, 0xff00_0000_0000_0000);
    OrIsBitwise();
    OrNothing();
    JoinBytes(Or, OrBit, ByteOf(v, 7), ByteOf(v, 6), ByteOf(v, 5), ByteOf(v, 4),
      ByteOf(v, 3), ByteOf(v, 2), ByteOf(v, 1), ByteOf(v, 0));
    BytesOf(v);
  }

  lemma BytesOf(v: uint64)
    ensures FromLittleEndian(BigEndian(v, 8)) == Join8(ByteOf(v, 0), ByteOf(v, 1), ByteOf(v, 2), ByteOf(v, 3),
      ByteOf(v, 4), ByteOf(v, 5), ByteOf(v, 6), ByteOf(v, 7))
  {
    var t: Bytes := [ByteOf(v, 0), ByteOf(v, 1), ByteOf(v, 2), ByteOf(v, 3),
      ByteOf(v, 4), ByteOf(v, 5), ByteOf(v, 6), ByteOf(v, 7)];
    forall i | 0 <= i < 8
      ensures BigEndian(v, 8)[i] == t[7 - i]
    {
      BigEndianDigit(v, 8, i);
    }
    LittleIsReversedBig(BigEndian(v, 8), t);
    Sum8(t[0], t[1], t[2], t[3], t[4], t[5], t[6], t[7]);
  }

  /** Swapping and copying to memory writes the most significant byte first. */
  lemma SwappedCopy(v: uint64)
    ensures LittleEndian(SwapBytes(v), 8) == BigEndian(v, 8)
  {
    SwapBytesReverses(v);
    LittleEndianRoundTrip(BigEndian(v, 8));
  }

  /** Copying from memory and swapping reads the most significant byte first. */
  lemma CopiedSwap(s: Bytes)
    requires |s| == 8
    ensures FromLittleEndian(s) < TWO_64
    ensures SwapBytes(FromLittleEndian(s)) == FromBigEndian(s) < TWO_64
  {
    var t: Bytes := seq(8, i requires 0 <= i < 8 => s[7 - i]);
    ReversedBytes(s, t);
    LimbBound(s);
    LimbBound(t);
    SwapBytesReverses(FromLittleEndian(s));
  }

  lemma ReversedBytes(s: Bytes, t: Bytes)
    requires |s| == |t| && forall i :: 0 <= i < |s| ==> s[i] == t[|t| - 1 - i]
    ensures FromLittleEndian(s) == FromBigEndian(t) && FromLittleEndian(t) == FromBigEndian(s)
    ensures BigEndian(FromLittleEndian(s), |s|) == t
  {
    LittleIsReversedBig(s, t);
    forall i | 0 <= i < |t|
      ensures t[i] == s[|s| - 1 - i]
    {
      assert s[|s| - 1 - i] == t[i];
    }
    LittleIsReversedBig(t, s);
    FromBigEndianRoundTrip(t);
  }

  lemma LimbBound(s: Bytes)
    requires |s| == 8
    ensures FromBigEndian(s) < TWO_64
  {
    FromBigEndianBound(s);
    Pow2Limb();
  }
}
