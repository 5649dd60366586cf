/** Hexadecimal text: the two character conversions and the two loops of
    include/quicr/quicr_name.h, against the positional value of a digit string. */
module Hex {
  import opened Bits

  function HexCharToUint(x: char): (r: nat)
    ensures r < 16
  {
    if '0' <= x <= '9' then x as int - '0' as int
    else if 'A' <= x <= 'F' then x as int - 'A' as int + 10
    else if 'a' <= x <= 'f' then x as int - 'a' as int + 10
    else 0
  }

  function UintToHexChar(b: nat): char
    requires b < 16
  {
    if b > 9 then (b + 'A' as int - 10) as char else (b + '0' as int) as char
  }

  function StripPrefix(x: string): string {
    if "0x" <= x then x[2..] else x
  }

  /** The number a digit string denotes, most significant digit first. */
  function Horner(x: string): nat {
    if |x| == 0 then 0 else 16 * Horner(x[..|x| - 1]) + HexCharToUint(x[|x| - 1])
  }

  /** The `n` low hexadecimal digits of `v`. */
  function Digits(v: nat, n: nat): (s: string)
    ensures |s| == n
  {
    if n == 0 then "" else Digits(v / 16, n - 1) + [UintToHexChar(v % 16)]
  }

  predicate IsDigit(c: char) {
    '0' <= c <= '9' || 'A' <= c <= 'F'
  }

  predicate AllDigits(s: string) {
    forall i :: 0 <= i < |s| ==> IsDigit(s[i])
  }

  /** What parsing into a 64-bit unsigned integer yields: the digits wrap
      modulo 2^64. */
  function HexToUintSpec(x: string): uint64 {
    Horner(StripPrefix(x)) % TWO_64
  }

  lemma WrapStep(h: nat, d: nat)
    ensures (h % TWO_64 * 16 % TWO_64 + d) % TWO_64 == (16 * h + d) % TWO_64
  {
    var r := h % TWO_64;
    var r2 := r * 16 % TWO_64;
    DivUnique(16 * h + d, TWO_64,
      16 * (h / TWO_64) + (r * 16) / TWO_64 + (r2 + d) / TWO_64, (r2 + d) % TWO_64);
  }

  method HexToUint(text: string) returns (y: uint64)
    ensures y == HexToUintSpec(text)
  {
    var x := text;
    if "0x" <= x {
      x := x[2..];
    }
    y := 0;
    for i := 0 to |x|
      invariant y == Horner(x[..i]) % TWO_64
    {
      assert x[..i + 1][..i] == x[..i];
      WrapStep(Horner(x[..i]), HexCharToUint(x[i]));
      y := y * 16 % TWO_64;
      y := (y + HexCharToUint(x[i])) % TWO_64;
    }
    assert x[..|x|] == x;
  }

  method UintToHex(v: uint64) returns (hex: string)
    ensures hex == Digits(v, 16)
  {
    var x := new char[16];
    var y: uint64 := v;
    var i := 15;
    ghost var m: nat := 0;
    Pow2Small();
    while i >= 0
      invariant -1 <= i <= 15 && m == 15 - i
      invariant y == v / Pow2(4 * m)
      invariant x[i + 1..] == Digits(v, m)
    {
      ghost var tail := x[i + 1..];
      var b := KeepLow(y, 4, 0x0F);
      HexStep(v, m, y);
      x[i] := UintToHexChar(b);
      assert x[i..] == [UintToHexChar(b)] + tail;
      y := y - b;
      y := y / 16;
      i := i - 1;
      m := m + 1;
    }
    hex := x[..];
  }

  /** One digit more is printed, and what is left loses it. */
  lemma HexStep(v: nat, m: nat, y: nat)
    requires y == v / Pow2(4 * m)
    ensures Digits(v, m + 1) == [UintToHexChar(y % 16)] + Digits(v, m)
    ensures 0 <= (y - y % 16) / 16 <= y && (y - y % 16) / 16 == v / Pow2(4 * (m + 1))
  {
    DigitsSplit(v, 1, m);
    DropDigitsIsQuotient(v, m);
    assert Digits(y, 1) == [UintToHexChar(y % 16)] by { assert Digits(y / 16, 0) == ""; }
    Pow2Hex(m + 1);
    DivDiv(v, Pow2(4 * m), 16);
  }

  // Properties.

  /** The value of each digit, in either case, and the digit that is printed for it. */
  lemma DigitValues(k: nat)
    requires k < 16
    ensures HexCharToUint("0123456789ABCDEF"[k]) == k == HexCharToUint("0123456789abcdef"[k])
    ensures UintToHexChar(k) == "0123456789ABCDEF"[k]
  {}

  /** Any other character counts as zero. */
  lemma OtherCharacters(c: char)
    requires c !in "0123456789ABCDEFabcdef"
    ensures HexCharToUint(c) == 0
  {
    if HexCharToUint(c) != 0 {
      CharOfDigit(c);
    }
  }

  lemma CharOfDigit(c: char)
    requires HexCharToUint(c) != 0
    ensures c in "0123456789ABCDEFabcdef"
  {
    var k := HexCharToUint(c);
    var upper, lower, all := "0123456789ABCDEF", "0123456789abcdef", "0123456789ABCDEFabcdef";
    assert c == upper[k] || c == lower[k];
    assert all[k] == upper[k] && (k >= 10 ==> all[k + 6] == lower[k]);
  }

  lemma DigitsAreDigits(v: nat, n: nat)
    ensures AllDigits(Digits(v, n))
  {}

  lemma Pow2Hex(b: nat)
    requires 0 < b
    ensures Pow2(4 * b) == 16 * Pow2(4 * (b - 1))
  {
    Pow2Small();
    Pow2Add(4, 4 * (b - 1));
  }

  /** `v` without its `n` low digits. */
  ghost function DropDigits(v: nat, n: nat): nat {
    if n == 0 then v else DropDigits(v / 16, n - 1)
  }

  lemma {:induction false} DropDigitsIsQuotient(v: nat, n: nat)
    ensures DropDigits(v, n) == v / Pow2(4 * n)
  {
    if n == 0 {
    } else {
      DropDigitsIsQuotient(v / 16, n - 1);
      Pow2Hex(n);
      DivDiv(v, 16, Pow2(4 * (n - 1)));
    }
  }

  lemma {:induction false} DigitsSplit(v: nat, a: nat, b: nat)
    ensures Digits(v, a + b) == Digits(DropDigits(v, b), a) + Digits(v, b)
    decreases b
  {
    if b == 0 {
      assert Digits(v, 0) == "";
    } else {
      DigitsSplit(v / 16, a, b - 1);
    }
  }

  /** `h` followed by `n` zero digits. */
  ghost function Padded(h: nat, n: nat): nat {
    if n == 0 then h else 16 * Padded(h, n - 1)
  }

  lemma {:induction false} PaddedIsProduct(h: nat, n: nat)
    ensures Padded(h, n) == h * Pow2(4 * n)
  {
    if n == 0 {
    } else {
      PaddedIsProduct(h, n - 1);
      Pow2Hex(n);
      MulAssoc(h, 16, Pow2(4 * (n - 1)));
    }
  }

  lemma {:induction false} HornerBound(s: string)
    ensures Horner(s) < Pow2(4 * |s|)
  {
    if |s| == 0 {
    } else {
      HornerBound(s[..|s| - 1]);
      Pow2Hex(|s|);
    }
  }

  lemma {:induction false} HornerConcat(a: string, b: string)
    ensures Horner(a + b) == Padded(Horner(a), |b|) + Horner(b)
  {
    if |b| == 0 {
      assert a + b == a;
    } else {
      var b' := b[..|b| - 1];
      assert (a + b)[..|a + b| - 1] == a + b';
      HornerConcat(a, b');
    }
  }

  /** Printing then parsing keeps the low digits. */
  lemma {:induction false} HornerOfDigits(v: nat, n: nat)
    ensures Horner(Digits(v, n)) == v % Pow2(4 * n)
  {
    if n == 0 {
    } else {
      var s := Digits(v, n);
      HornerOfDigits(v / 16, n - 1);
      assert s[..n - 1] == Digits(v / 16, n - 1);
      Pow2Hex(n);
      DivDiv(v, 16, Pow2(4 * (n - 1)));
    }
  }

  /** Parsing then printing gives a string of upper-case digits back. */
  lemma {:induction false} DigitsOfHorner(s: string)
    requires AllDigits(s)
    ensures Digits(Horner(s), |s|) == s
  {
    if |s| == 0 {
    } else {
      var t := s[..|s| - 1];
      DigitsOfHorner(t);
      DivUnique(Horner(s), 16, Horner(t), HexCharToUint(s[|s| - 1]));
      assert s == t + [s[|s| - 1]];
    }
  }

  /** Only the low digits of the number matter. */
  lemma DigitsOfRemainder(v: nat, n: nat)
    ensures Digits(v % Pow2(4 * n), n) == Digits(v, n)
  {
    DigitsAreDigits(v, n);
    DigitsOfHorner(Digits(v, n));
    HornerOfDigits(v, n);
  }

  /** Parsing skips a prefix inside the text without harm: it reads as zeros. */
  lemma PrefixIsZero(s: string)
    ensures Horner(StripPrefix(s)) == Horner(s)
  {
    if "0x" <= s {
      assert s == "0x" + s[2..];
      HornerConcat("0x", s[2..]);
      assert "0x"[..1] == "0" && "0"[..0] == "";
      assert Horner("0") == 0;
      PaddedIsProduct(0, |s| - 2);
    }
  }
}
