/** 128-bit names as two 64-bit limbs (src/quicr_name.cpp,
    include/quicr/quicr_name.h), related to arithmetic modulo 2^128. */
module Names {
  import opened Bits
  import opened Hex
  import opened Wrappers

  datatype Name = Name(hi: uint64, low: uint64) {
    /** The number the two limbs stand for. */
    function Num(): (v: nat)
      ensures v < TWO_128
    {
      hi * TWO_64 + low
    }
  }

  function OfNum(v: nat): (n: Name)
    requires v < TWO_128
    ensures n.Num() == v
  {
    Name(v / TWO_64, v % TWO_64)
  }

  /** A name is determined by its number. */
  lemma NumIsInjective()
    ensures forall a: Name, b: Name :: a.Num() == b.Num() ==> a == b
  {}

  // The value operators.

  function ShiftRight(n: Name, value: uint16): Name {
    if value == 0 then n
    else if value < 64 then
      var low := Shr64(n.low, value);
      OrDisjointLimb(n.hi, n.low, value);
      Name(Shr64(n.hi, value), Or(low, Shl64(n.hi, 64 - value)))
    else
      Name(0, Shr64(n.hi, value - 64))
  }

  function ShiftLeft(n: Name, value: uint16): Name {
    if value == 0 then n
    else if value < 64 then
      var hi := Shl64(n.hi, value);
      OrDisjointLimb(n.hi, n.low, 64 - value);
      Name(Or(hi, Shr64(n.low, 64 - value)), Shl64(n.low, value))
    else
      Name(Shl64(n.low, value - 64), 0)
  }

  function Plus(n: Name, value: uint64): Name {
    var sum := (n.low + value) % TWO_64;
    Name(if sum < n.low then (n.hi + 1) % TWO_64 else n.hi, sum)
  }

  function Minus(n: Name, value: uint64): Name {
    var difference := (n.low - value) % TWO_64;
    Name(if difference > n.low then (n.hi - 1) % TWO_64 else n.hi, difference)
  }

  function BitAnd(a: Name, b: Name): Name {
    Name(And(a.hi, b.hi), And(a.low, b.low))
  }

  function BitNot(a: Name): Name {
    Name(Not64(a.hi), Not64(a.low))
  }

  predicate Less(a: Name, b: Name) {
    if a.hi < b.hi then true
    else if b.hi < a.hi then false
    else a.low < b.low
  }

  /** `operator[]` for an index below 16; the source throws for others. */
  function ByteAt(n: Name, index: nat): (b: uint8)
    requires index < 16
  {
    if index < 8 then And(Shr64(n.low, index * 8), 0xff)
    else And(Shr64(n.hi, (index - 8) * 8), 0xff)
  }

  function ToHexSpec(n: Name): string {
    "0x" + Digits(n.hi, 16) + Digits(n.low, 16)
  }

  /** The hex constructor; None stands for the exception thrown for more than
      32 characters. */
  function OfHexSpec(text: string): Option<Name> {
    OfHexDigits(StripPrefix(text))
  }

  function OfHexDigits(x: string): Option<Name> {
    if |x| > 32 then None
    else if |x| > 16 then
      Some(Name(HexToUintSpec(x[..|x| - 16]), HexToUintSpec(x[|x| - 16..])))
    else
      Some(Name(0, HexToUintSpec(x)))
  }

  method ToHex(n: Name) returns (hex: string)
    ensures hex == ToHexSpec(n)
  {
    hex := "0x";
    var part := UintToHex(n.hi);
    hex := hex + part;
    part := UintToHex(n.low);
    hex := hex + part;
  }

  method OfHex(text: string) returns (r: Option<Name>)
    ensures r == OfHexSpec(text)
  {
    var x := text;
    if "0x" <= x {
      x := x[2..];
    }
    if |x| > 32 {
      return None;
    }
    if |x| > 16 {
      var hi := HexToUint(x[..|x| - 16]);
      var low := HexToUint(x[|x| - 16..]);
      r := Some(Name(hi, low));
    } else {
      assert x[..|x|] == x;
      var low := HexToUint(x[..|x|]);
      r := Some(Name(0, low));
    }
  }

  /** A name variable and the compound assignments on it. */
  class NameCell {
    var hi: uint64
    var low: uint64

    constructor (n: Name)
      ensures Value() == n
    {
      hi, low := n.hi, n.low;
    }

    ghost function Value(): Name
      reads this
    {
      Name(hi, low)
    }

    method ShiftRightAssign(value: uint16)
      modifies this
      ensures Value() == ShiftRight(old(Value()), value)
    {
      if value == 0 {
        return;
      }
      if value < 64 {
        OrDisjointLimb(hi, low, value);
        low := Shr64(low, value);
        low := Or(low, Shl64(hi, 64 - value));
        hi := Shr64(hi, value);
      } else {
        low := Shr64(hi, value - 64);
        hi := 0;
      }
    }

    method ShiftLeftAssign(value: uint16)
      modifies this
      ensures Value() == ShiftLeft(old(Value()), value)
    {
      if value == 0 {
        return;
      }
      if value < 64 {
        OrDisjointLimb(hi, low, 64 - value);
        hi := Shl64(hi, value);
        hi := Or(hi, Shr64(low, 64 - value));
        low := Shl64(low, value);
      } else {
        hi := Shl64(low, value - 64);
        low := 0;
      }
    }

    method AddAssign(value: uint64)
      modifies this
      ensures Value().Num() == (old(Value()).Num() + value) % TWO_128
    {
      PlusIsAddition(Value(), value);
      if (low + value) % TWO_64 < low {
        hi := (hi + 1) % TWO_64;
      }
      low := (low + value) % TWO_64;
    }

    method SubtractAssign(value: uint64)
      modifies this
      ensures Value().Num() == (old(Value()).Num() - value) % TWO_128
    {
      MinusIsSubtraction(Value(), value);
      if (low - value) % TWO_64 > low {
        hi := (hi - 1) % TWO_64;
      }
      low := (low - value) % TWO_64;
    }

    /** Postfix increment returns the value before the change. */
    method PostIncrement() returns (n: Name)
      modifies this
      ensures n == old(Value())
      ensures Value().Num() == (n.Num() + 1) % TWO_128
    {
      n := Name(hi, low);
      AddAssign(1);
    }

    method PostDecrement() returns (n: Name)
      modifies this
      ensures n == old(Value())
      ensures Value().Num() == (n.Num() - 1) % TWO_128
    {
      n := Name(hi, low);
      SubtractAssign(1);
    }
  }

  // Properties.

  /** What a shift by `v` carries from one limb to the other, together with
      what it leaves: `p` is 2^v and `q` is 2^(64-v). */
  ghost function Joined(hi: nat, low: nat, p: nat, q: nat): nat
    requires 0 < p
  {
    (hi % p) * q + low / p
  }

  /** The two parts a shift joins have no bit in common. */
  lemma OrDisjointLimb(hi: uint64, low: uint64, v: nat)
    requires 0 < v < 64
    ensures Or(Shr64(low, v), Shl64(hi, 64 - v)) == Joined(hi, low, Pow2(v), Pow2(64 - v)) < TWO_64
    ensures Or(Shl64(hi, 64 - v), Shr64(low, v)) == Joined(hi, low, Pow2(v), Pow2(64 - v))
  {
    LimbSplit(v);
    JoinedLimb(hi, low, Pow2(v), Pow2(64 - v));
    OrDisjoint(Shl64(hi, 64 - v), hi % Pow2(v), Shr64(low, v), 64 - v);
  }

  lemma LimbSplit(v: nat)
    requires v <= 64
    ensures Pow2(v) * Pow2(64 - v) == TWO_64
  {
    Pow2Add(v, 64 - v);
    Pow2Limb();
  }

  lemma JoinedLimb(hi: nat, low: uint64, p: nat, q: nat)
    requires 0 < p && 0 < q && p * q == TWO_64
    ensures (hi * q) % TWO_64 == (hi % p) * q
    ensures low / p < q
    ensures Joined(hi, low, p, q) < TWO_64
  {
    ModScale(hi, p, q);
    QuotientBelow(low, p, q);
    MulMono(hi % p, p - 1, q);
  }

  lemma ShiftRightIsDivision(n: Name, value: uint16)
    requires value < 128
    ensures ShiftRight(n, value).Num() == n.Num() / Pow2(value)
  {
    if value == 0 {
    } else if value < 64 {
      OrDisjointLimb(n.hi, n.low, value);
      LimbSplit(value);
      JoinedQuotient(n, Pow2(value), Pow2(64 - value));
      assert ShiftRight(n, value).hi == n.hi / Pow2(value);
    } else {
      LimbExcess(value);
      HighQuotient(n, Pow2(value - 64), Pow2(value));
    }
  }

  lemma LimbExcess(v: nat)
    requires 64 <= v
    ensures Pow2(v) == TWO_64 * Pow2(v - 64)
  {
    Pow2Limb();
    Pow2Add(64, v - 64);
  }

  lemma HighQuotient(n: Name, p: nat, d: nat)
    requires 0 < p && d == TWO_64 * p
    ensures 0 < d && n.Num() / d == n.hi / p
  {
    DivDiv(n.Num(), TWO_64, p);
  }

  lemma JoinedQuotient(n: Name, p: nat, q: nat)
    requires 0 < p && 0 < q && p * q == TWO_64
    ensures n.Num() / p == (n.hi / p) * TWO_64 + Joined(n.hi, n.low, p, q)
  {
    var h, l := n.hi / p, n.low / p;
    calc {
      ((h * TWO_64 + (n.hi % p) * q) + l) * p + n.low % p;
      h * (TWO_64 * p) + (n.hi % p) * (q * p) + (l * p + n.low % p);
      (h * p + n.hi % p) * TWO_64 + n.low;
    }
    DivUnique(n.Num(), p, h * TWO_64 + (n.hi % p) * q + l, n.low % p);
  }

  lemma ShiftLeftIsMultiplication(n: Name, value: uint16)
    requires value < 128
    ensures ShiftLeft(n, value).Num() == (n.Num() * Pow2(value)) % TWO_128
  {
    if value == 0 {
      SmallMod(n.Num(), TWO_128);
    } else if value < 64 {
      OrDisjointLimb(n.hi, n.low, 64 - value);
      LimbSplit(value);
      JoinedProduct(n, Pow2(64 - value), Pow2(value));
      assert ShiftLeft(n, value).low == (n.low * Pow2(value)) % TWO_64;
    } else {
      LimbExcess(value);
      HighProduct(n, Pow2(value - 64), Pow2(value));
    }
  }

  lemma HighProduct(n: Name, p: nat, d: nat)
    requires d == TWO_64 * p
    ensures (n.Num() * d) % TWO_128 == ((n.low * p) % TWO_64) * TWO_64
  {
    var m := n.low * p;
    calc {
      n.Num() * d;
      (n.hi * TWO_64 + n.low) * (TWO_64 * p);
      (n.hi * p) * TWO_128 + m * TWO_64;
      (n.hi * p + m / TWO_64) * TWO_128 + (m % TWO_64) * TWO_64;
    }
    DivUnique(n.Num() * d, TWO_128, n.hi * p + m / TWO_64, (m % TWO_64) * TWO_64);
  }

  lemma NumTimes(n: Name, p: nat)
    ensures n.Num() * p == (n.hi * p) * TWO_64 + n.low * p
  {}

  lemma JoinedProduct(n: Name, q: nat, p: nat)
    requires 0 < p && 0 < q && p * q == TWO_64
    ensures (n.Num() * p) % TWO_128 == Joined(n.hi, n.low, q, p) * TWO_64 + (n.low * p) % TWO_64
  {
    NumTimes(n, p);
    CarryOver(n.hi * p, n.hi / q, n.hi % q * p, n.low * p, n.low / q, n.low % q * p) by {
      ScaledLimb(n.hi, q, p);
      ScaledLimb(n.low, q, p);
    }
    ScaledLow(n.low, q, p);
  }

  lemma ScaledLow(limb: uint64, q: nat, p: nat)
    requires 0 < p && 0 < q && p * q == TWO_64
    ensures (limb * p) % TWO_64 == (limb % q) * p
  {
    ScaledLimb(limb, q, p);
  }

  lemma CarryOver(a: nat, ah: nat, al: nat, b: nat, bh: nat, bl: nat)
    requires a == ah * TWO_64 + al && b == bh * TWO_64 + bl
    requires al + bh < TWO_64 && bl < TWO_64
    ensures (a * TWO_64 + b) % TWO_128 == (al + bh) * TWO_64 + bl
  {
    DivUnique(a * TWO_64 + b, TWO_128, ah, (al + bh) * TWO_64 + bl);
  }

  lemma ScaledLimb(limb: uint64, q: nat, p: nat)
    requires 0 < p && 0 < q && p * q == TWO_64
    ensures limb * p == (limb / q) * TWO_64 + (limb % q) * p
    ensures (limb * p) % TWO_64 == (limb % q) * p <= TWO_64 - p
    ensures limb / q < p
  {
    ModScale(limb, q, p);
    MulMono(limb % q, q - 1, p);
    QuotientBelow(limb, q, p);
    assert limb * p == (q * (limb / q) + limb % q) * p;
  }

  lemma PlusIsAddition(n: Name, value: uint64)
    ensures Plus(n, value).Num() == (n.Num() + value) % TWO_128
  {}

  lemma MinusIsSubtraction(n: Name, value: uint64)
    ensures Minus(n, value).Num() == (n.Num() - value) % TWO_128
  {}

  lemma LessIsNumeric(a: Name, b: Name)
    ensures Less(a, b) <==> a.Num() < b.Num()
  {}

  lemma BitNotIsComplement(n: Name)
    ensures BitNot(n).Num() == TWO_128 - 1 - n.Num()
  {}

  lemma BitAndIsLimbwise(a: Name, b: Name)
    ensures BitAnd(a, b).Num() == And(a.Num(), b.Num())
  {
    Pow2Limb();
    AndIsBitwise();
    BitwiseSplit(And, AndBit, a.Num(), a.hi, a.low, b.Num(), b.hi, b.low, 64);
  }

  lemma ByteAtIsBase256Digit(n: Name, index: nat)
    requires index < 16
    ensures ByteAt(n, index) == (n.Num() / Pow2(8 * index)) % 256
  {
    ByteAtOf(n, index);
    if index < 8 {
      LowLimbByte(n, 8 * index);
    } else {
      LimbExcess(8 * index);
      HighQuotient(n, Pow2(8 * index - 64), Pow2(8 * index));
    }
  }

  lemma ByteAtOf(n: Name, index: nat)
    requires index < 16
    ensures ByteAt(n, index) ==
      if index < 8 then n.low / Pow2(8 * index) % 256 else n.hi / Pow2(8 * index - 64) % 256
  {
    var shift := if index < 8 then index * 8 else (index - 8) * 8;
    LowByteMask(Shr64(if index < 8 then n.low else n.hi, shift));
  }

  lemma LowLimbByte(n: Name, at: nat)
    requires at <= 56
    ensures (n.Num() / Pow2(at)) % 256 == (n.low / Pow2(at)) % 256
  {
    Pow2Small();
    LimbSplit(at);
    Pow2Add(8, 56 - at);
    LowByte(n, Pow2(at), Pow2(56 - at));
  }

  lemma LowByte(n: Name, p: nat, r: nat)
    requires 0 < p && 0 < r && p * (256 * r) == TWO_64
    ensures (n.Num() / p) % 256 == (n.low / p) % 256
  {
    var h, l := n.hi / p, n.low / p;
    JoinedQuotient(n, p, 256 * r);
    var m := n.hi % p;
    assert m * (256 * r) == 256 * (m * r);
    DivUnique(n.Num() / p, 256, h * (TWO_64 / 256) + m * r + l / 256, l % 256);
  }

  lemma NoPrefix(s: string)
    requires AllDigits(s)
    ensures StripPrefix(s) == s
  {
    if |s| >= 2 {
      assert "0x"[1] != s[1];
    }
  }

  /** Parsing looks through the prefix, which no digit string has. */
  lemma OfHexPrefixed(s: string)
    requires AllDigits(s)
    ensures OfHexSpec("0x" + s) == OfHexDigits(s) == OfHexSpec(s)
  {
    NoPrefix(s);
    assert ("0x" + s)[2..] == s;
  }

  lemma OfHexTwoLimbs(a: string, b: string)
    requires AllDigits(a) && AllDigits(b) && 0 < |a| <= 16 && |b| == 16
    ensures OfHexDigits(a + b) == Some(Name(Horner(a) % TWO_64, Horner(b) % TWO_64))
    ensures OfHexSpec("0x" + a + b) == OfHexDigits(a + b)
  {
    var s := a + b;
    NoPrefix(a);
    NoPrefix(b);
    assert s[..|s| - 16] == a && s[|s| - 16..] == b;
    assert "0x" + a + b == "0x" + s;
    OfHexPrefixed(s);
  }

  lemma HornerFits(s: string)
    requires |s| <= 16
    ensures Horner(s) % TWO_64 == Horner(s)
  {
    HornerBound(s);
    Pow2Limb();
    Pow2Mono(4 * |s|, 64);
    SmallMod(Horner(s), TWO_64);
  }

  lemma HornerTwoLimbs(a: string, b: string)
    requires |b| == 16
    ensures Horner(a + b) == Horner(a) * TWO_64 + Horner(b)
  {
    HornerConcat(a, b);
    PaddedIsProduct(Horner(a), 16);
    Pow2Limb();
  }

  lemma LimbValue(s: string)
    requires |s| <= 16
    ensures HexToUintSpec(s) == Horner(s)
  {
    PrefixIsZero(s);
    HornerFits(s);
  }

  lemma OfHexDigitsIsHorner(x: string)
    requires |x| <= 32
    ensures OfHexDigits(x).Some? && OfHexDigits(x).value.Num() == Horner(x)
  {
    if |x| <= 16 {
      LimbValue(x);
    } else {
      var a, b := x[..|x| - 16], x[|x| - 16..];
      assert x == a + b;
      LimbValue(a);
      LimbValue(b);
      HornerTwoLimbs(a, b);
    }
  }

  /** Any text of at most 32 characters after the prefix gives the number it
      denotes, in either case and with zeros for characters that are no digits;
      longer text is refused. The prefix makes no difference. */
  lemma OfHexIsHorner(text: string)
    ensures OfHexSpec(text).Some? <==> |StripPrefix(text)| <= 32
    ensures OfHexSpec(text).Some? ==> OfHexSpec(text).value.Num() == Horner(text)
    ensures StripPrefix(text) == text ==> OfHexSpec("0x" + text) == OfHexSpec(text)
  {
    PrefixIsZero(text);
    assert ("0x" + text)[2..] == text;
    if |StripPrefix(text)| <= 32 {
      OfHexDigitsIsHorner(StripPrefix(text));
    }
  }

  /** A name survives being printed and parsed. */
  lemma HexRoundTrip(n: Name)
    ensures OfHexSpec(ToHexSpec(n)) == Some(n)
  {
    var a, b := Digits(n.hi, 16), Digits(n.low, 16);
    DigitsAreDigits(n.hi, 16);
    DigitsAreDigits(n.low, 16);
    OfHexTwoLimbs(a, b);
    SmallMod(n.hi, TWO_64);
    SmallMod(n.low, TWO_64);
    LimbDigits(n.hi);
    LimbDigits(n.low);
  }

  lemma LimbMod(v: uint64, k: nat)
    requires k == 64
    ensures v % Pow2(k) == v
  {
    Pow2Limb();
    SmallMod(v, TWO_64);
  }

  lemma LimbDigits(v: uint64)
    ensures Horner(Digits(v, 16)) == v
  {
    HornerOfDigits(v, 16);
    LimbMod(v, 64);
  }

  /** A full-length digit string survives being parsed and printed. */
  lemma HexTextRoundTrip(s: string)
    requires AllDigits(s) && |s| == 32
    ensures OfHexSpec(s).Some? && ToHexSpec(OfHexSpec(s).value) == "0x" + s
  {
    var a, b := s[..16], s[16..];
    assert s == a + b;
    ParsedLimbs(a, b);
    PrintedLimbs(a, b);
    Prefixed(a, b);
  }

  lemma Prefixed(a: string, b: string)
    ensures "0x" + a + b == "0x" + (a + b)
  {}

  /** The name of a full-length digit string, prefixed. */
  lemma PrefixedName(s: string)
    requires AllDigits(s) && |s| == 32
    ensures OfHexSpec("0x" + s).Some?
    ensures OfHexSpec("0x" + s).value.Num() == Horner(s) && ToHexSpec(OfHexSpec("0x" + s).value) == "0x" + s
  {
    NoPrefix(s);
    OfHexIsHorner(s);
    HexTextRoundTrip(s);
  }

  lemma ParsedLimbs(a: string, b: string)
    requires AllDigits(a) && AllDigits(b) && |a| == 16 && |b| == 16
    ensures OfHexSpec(a + b) == Some(Name(Horner(a) % TWO_64, Horner(b) % TWO_64))
  {
    OfHexPrefixed(a + b);
    OfHexTwoLimbs(a, b);
  }

  lemma PrintedLimbs(a: string, b: string)
    requires AllDigits(a) && AllDigits(b) && |a| == 16 && |b| == 16
    ensures ToHexSpec(Name(Horner(a) % TWO_64, Horner(b) % TWO_64)) == "0x" + a + b
  {
    LimbText(a);
    LimbText(b);
  }

  lemma LimbText(s: string)
    requires AllDigits(s) && |s| == 16
    ensures Digits(Horner(s) % TWO_64, 16) == s
  {
    HornerFits(s);
    DigitsOfHorner(s);
  }
}
