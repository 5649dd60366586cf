/** Packing values into a hexadecimal number by a list of bit widths, and taking
    them out again (include/quicr/hex_endec.h). A number of at most 64 bits is
    handled in one word, a wider one in a bit set of `size` bits. */
module HexEndec {
  import opened Bits
  import opened Hex
  import opened Wrappers

  datatype HexError = WrongLength | OutOfRange | Overflow

  function Total(widths: seq<uint8>): nat {
    if widths == [] then 0 else Total(widths[..|widths| - 1]) + widths[|widths| - 1]
  }

  /** The number whose digits, in mixed radix, are the values, the first one most
      significant; of each value the low bits count. */
  ghost function Pack(widths: seq<uint8>, values: seq<uint64>): nat
    requires |widths| == |values|
  {
    if widths == [] then 0
    else
      var last := |widths| - 1;
      Pack(widths[..last], values[..last]) * Pow2(widths[last]) + values[last] % Pow2(widths[last])
  }

  /** `v` without its `at` low bits. */
  function Above(v: nat, at: nat): (r: nat)
    ensures r <= v
  {
    DivBounds(v, Pow2(at));
    v / Pow2(at)
  }

  /** The `w` bits of `v` from position `at` up. */
  ghost function Field(v: nat, at: nat, w: nat): (r: nat)
    ensures r <= v && r < Pow2(w)
  {
    ModBounds(Above(v, at), Pow2(w));
    Above(v, at) % Pow2(w)
  }

  /** Field `i`, when the last field is in the low bits. */
  ghost function FieldAt(v: nat, widths: seq<uint8>, i: nat): nat
    requires i < |widths|
  {
    Field(v, Total(widths[i + 1..]), widths[i])
  }

  /** `w` bits of a number of `size` bits that follow its `t` top ones, with
      zeros below the number. */
  ghost function TopField(v: nat, size: nat, t: nat, w: nat): nat {
    if t + w <= size then Field(v, size - t - w, w)
    else if t < size && w <= size then v % Pow2(size - t) * Pow2(t + w - size)
    else 0
  }

  /** Field `i`, when the first field is in the top bits. */
  ghost function TopFieldAt(v: nat, size: nat, widths: seq<uint8>, i: nat): nat
    requires i < |widths|
  {
    TopField(v, size, Total(widths[..i]), widths[i])
  }

  // One word.

  predicate Narrow(widths: seq<uint8>) {
    forall i :: 0 <= i < |widths| ==> widths[i] < 64
  }

  ghost function EncodeWordSpec(widths: seq<uint8>, values: seq<uint64>): string
    requires |widths| == |values|
  {
    "0x" + Digits(Pack(widths, values), 16)
  }

  ghost function DecodeWordSpec(widths: seq<uint8>, hex: string): seq<uint64> {
    seq(|widths|, i requires 0 <= i < |widths| => FieldAt(HexToUintSpec(hex), widths, i))
  }

  /** The bits of `value` that count in a field of width `w`. */
  method LowBits(value: uint64, w: nat) returns (r: uint64)
    requires w < 64
    ensures r == value % Pow2(w)
  {
    MaskOfWidth(w);
    ModBounds(value, Pow2(w));
    r := KeepLow(value, w, Not64(Shl64(Not64(0), w)));
  }

  method EncodeWord(widths: seq<uint8>, values: seq<uint64>) returns (hex: string)
    requires |widths| == |values| && Narrow(widths)
    ensures hex == EncodeWordSpec(widths, values)
  {
    var bits: uint64 := 0;
    for i := 0 to |values|
      invariant bits == Pack(widths[..i], values[..i]) % TWO_64
    {
      var dist := widths[i];
      var low := LowBits(values[i], dist);
      PackStep(widths, values, i);
      Pow2Limb();
      ghost var h := PushField(Pack(widths[..i], values[..i]), dist, low, 64);
      assert ShiftCount(dist) == dist;
      bits := Shl64(bits, dist);
      bits := JoinBits(bits, low, h, dist);
    }
    assert widths[..|values|] == widths && values[..|values|] == values;
    var digits := UintToHex(bits);
    Pow2Limb();
    DigitsOfRemainder(Pack(widths, values), 16);
    hex := "0x" + digits;
  }

  method DecodeWord(widths: seq<uint8>, hex: string) returns (result: seq<uint64>)
    requires Narrow(widths)
    ensures result == DecodeWordSpec(widths, hex)
  {
    result := seq(|widths|, _ => 0);
    var bits := HexToUint(hex);
    ghost var v := bits;
    var i := |widths| - 1;
    while i >= 0
      invariant -1 <= i < |widths| == |result|
      invariant bits == v / Pow2(Total(widths[i + 1..]))
      invariant forall j :: i < j < |widths| ==> result[j] == FieldAt(v, widths, j)
    {
      var dist := widths[i];
      assert ShiftCount(dist) == dist;
      var low := LowBits(bits, dist);
      result := result[i := low];
      assert result[i] == FieldAt(v, widths, i);
      assert widths[i..] == [dist] + widths[i + 1..];
      TotalConcat([dist], widths[i + 1..]);
      TotalOne(dist);
      DivPow2(v, Total(widths[i + 1..]), dist);
      bits := Shr64(bits, dist);
      i := i - 1;
    }
  }

  // A bit set of `size` bits.

  /** The sizes of more than 64 bits the template admits. */
  ghost predicate WideSize(size: nat) {
    exists k: nat :: 7 <= k < 16 && size == Pow2(k)
  }

  /** The length in digits is kept in eight bits. */
  function HexLength(size: nat): uint8 {
    size / 4 % 0x100
  }

  function ShlWide(bits: nat, k: nat, size: nat): (r: nat)
    ensures r < Pow2(size)
  {
    bits * Pow2(k) % Pow2(size)
  }

  ghost function EncodeWideSpec(size: nat, widths: seq<uint8>, values: seq<uint64>): string
    requires |widths| == |values|
  {
    "0x" + Digits(Pack(widths, values), size / 4)
  }

  ghost predicate FieldsFit(v: nat, size: nat, widths: seq<uint8>) {
    forall i :: 0 <= i < |widths| ==> TopFieldAt(v, size, widths, i) < TWO_64
  }

  ghost function TopFields(v: nat, size: nat, widths: seq<uint8>): Result<seq<uint64>, HexError> {
    if FieldsFit(v, size, widths)
    then Success(seq(|widths|, i requires 0 <= i < |widths| => TopFieldAt(v, size, widths, i)))
    else Failure(Overflow)
  }

  ghost function DecodeWideSpec(size: nat, widths: seq<uint8>, hex: string): Result<seq<uint64>, HexError> {
    var x := StripPrefix(hex);
    if |x| != HexLength(size) then Failure(WrongLength)
    else if |x| != size / 4 then Failure(OutOfRange)
    else TopFields(Horner(x), size, widths)
  }

  /** The top 64 bits, through a mask. */
  method LeadingWord(bits: nat, size: nat) returns (r: uint64)
    requires 64 <= size && bits < Pow2(size)
    ensures r == Above(bits, size - 64)
  {
    Pow2Mono(size - 64, size);
    MaskedQuotient(bits, size - 64, size);
    var top := KeepHigh(bits, size - 64, size, Pow2(size) - Pow2(size - 64));
    r := Above(top, size - 64);
  }

  lemma WideSizes(size: nat)
    requires WideSize(size)
    ensures 64 < size && size % 64 == 0 && 4 * (size / 4) == size
    ensures HexLength(size) == if size <= 0x200 then size / 4 else 0
  {
    var k: nat :| 7 <= k < 16 && size == Pow2(k);
    Pow2Small();
    if k < 10 {
      assert k == 7 || k == 8 || k == 9;
    } else {
      var j := k - 10;
      assert Pow2(10) == 0x400;
      Pow2Add(10, j);
      TimesKilo(Pow2(j));
    }
  }

  lemma TimesKilo(p: nat)
    requires 0 < p
    ensures var size := 0x400 * p; size % 64 == 0 && 0x200 < size && size / 4 % 0x100 == 0
  {
    DivUnique(0x400 * p, 64, 16 * p, 0);
    DivUnique(0x400 * p, 4, 0x100 * p, 0);
    DivUnique(0x100 * p, 0x100, p, 0);
  }

  method EncodeWide(size: nat, widths: seq<uint8>, values: seq<uint64>) returns (hex: string)
    requires WideSize(size) && |widths| == |values|
    ensures hex == EncodeWideSpec(size, widths, values)
  {
    WideSizes(size);
    var bits := PackWide(size, widths, values);
    hex := PrintWide(size, bits);
    DigitsOfRemainder(Pack(widths, values), size / 4);
  }

  method PackWide(size: nat, widths: seq<uint8>, values: seq<uint64>) returns (bits: nat)
    requires 64 <= size && |widths| == |values|
    ensures bits == Pack(widths, values) % Pow2(size)
  {
    bits := 0;
    SmallMod(0, Pow2(size));
    for i := 0 to |values|
      invariant bits == Pack(widths[..i], values[..i]) % Pow2(size)
    {
      var dist := widths[i];
      var low := values[i];
      if dist < 64 {
        low := LowBits(values[i], dist);
      }
      WideRemainder(values[i], dist);
      PackStep(widths, values, i);
      FitsWide(low, size);
      ghost var h := PushField(Pack(widths[..i], values[..i]), dist, low, size);
      bits := ShlWide(bits, dist, size);
      bits := JoinBits(bits, low, h, dist);
    }
    assert widths[..|values|] == widths && values[..|values|] == values;
  }

  method PrintWide(size: nat, number: nat) returns (hex: string)
    requires size % 64 == 0 && 64 < size && number < Pow2(size)
    ensures hex == "0x" + Digits(number, size / 4)
  {
    var bits := number;
    hex := "0x";
    var words := size / 64;
    ShiftNone(number, size);
    for i := 0 to words
      invariant bits == ShlWide(number, 64 * i, size)
      invariant hex == "0x" + Digits(Above(number, size - 64 * i), 16 * i)
    {
      var word := LeadingWord(bits, size);
      var digits := UintToHex(word);
      PrintStep(number, size, 64 * i, 16 * i, 16, hex);
      ShiftTwice(number, 64 * i, 64, size);
      hex := hex + digits;
      bits := ShlWide(bits, 64, size);
    }
  }

  method DecodeWide(size: nat, widths: seq<uint8>, hex: string) returns (r: Result<seq<uint64>, HexError>)
    requires WideSize(size)
    ensures r == DecodeWideSpec(size, widths, hex)
  {
    var x := hex;
    if "0x" <= x {
      x := x[2..];
    }
    if |x| != HexLength(size) {
      return Failure(WrongLength);
    }
    WideSizes(size);
    var bits :- ParseSections(size, x);
    HornerBound(x);
    r := TakeFields(size, widths, bits);
  }

  function Substr(x: string, i: nat, n: nat): (s: string)
    requires i <= |x|
    ensures |s| == if i + n <= |x| then n else |x| - i
  {
    if i + n <= |x| then x[i..i + n] else x[i..]
  }

  lemma SubstrExtends(x: string, i: nat, n: nat)
    ensures i + n <= |x| ==> x[..i + n] == x[..i] + Substr(x, i, n)
  {}

  /** The sections of sixteen digits; taking one beyond the text throws. */
  method ParseSections(size: nat, x: string) returns (r: Result<nat, HexError>)
    requires size % 64 == 0 && 64 < size && (|x| == size / 4 || x == "")
    ensures r == if |x| == size / 4 then Success(Horner(x)) else Failure(OutOfRange)
  {
    var bits: nat := 0;
    var sections := size / 64;
    assert size == 64 * sections && size / 4 == 16 * sections;
    var i, j := 0, 0;
    while i < 16 * sections
      invariant i == 16 * j && j <= sections
      invariant x != "" ==> i <= |x| && bits == Horner(x[..i]) * Pow2(64 * (sections - j))
      invariant x == "" ==> i <= 16 && bits == 0
    {
      if i > |x| {
        return Failure(OutOfRange);
      }
      var section := Substr(x, i, 16);
      j := j + 1;
      SubstrExtends(x, i, 16);
      bits := AddWord(bits, section, size, 64 * (sections - j), x[..i]);
      i := i + 16;
    }
    assert x[..i] == x;
    r := Success(bits);
  }

  /** One section, or none of an empty text, under the sections before it. */
  method AddWord(bits: nat, section: string, size: nat, low: nat, ghost before: string) returns (r: nat)
    requires low + 64 <= size && (|section| == 16 || (section == "" && bits == 0))
    requires |section| == 16 ==> bits == Horner(before) * Pow2(low + 64)
    ensures r == if section == "" then 0 else Horner(before + section) * Pow2(low)
  {
    var word := HexToUint(section);
    if section == "" {
      SmallMod(0, Pow2(size));
      r := Or(bits, ShlWide(word, low, size));
    } else {
      AddSection(before, section, size, low);
      r := JoinBits(bits, ShlWide(word, low, size), Horner(before), low + 64);
    }
  }

  method TakeFields(size: nat, widths: seq<uint8>, number: nat) returns (r: Result<seq<uint64>, HexError>)
    requires number < Pow2(size)
    ensures r == TopFields(number, size, widths)
  {
    var bits := number;
    var result: seq<uint64> := [];
    ShiftNone(number, size);
    for i := 0 to |widths|
      invariant bits == ShlWide(number, Total(widths[..i]), size)
      invariant |result| == i
      invariant forall j :: 0 <= j < i ==> result[j] == TopFieldAt(number, size, widths, j)
    {
      var dist := widths[i];
      var top := if dist > size then 0 else bits / Pow2(size - dist);
      TopBits(number, size, Total(widths[..i]), dist);
      assert top == TopFieldAt(number, size, widths, i);
      if top >= TWO_64 {
        assert !FieldsFit(number, size, widths);
        return Failure(Overflow);
      }
      result := result + [top];
      TotalStep(widths, i);
      ShiftTwice(number, Total(widths[..i]), dist, size);
      bits := ShlWide(bits, dist, size);
    }
    assert FieldsFit(number, size, widths);
    assert result == TopFields(number, size, widths).value;
    r := Success(result);
  }

  // Widths.

  lemma {:induction false} TotalConcat(a: seq<uint8>, b: seq<uint8>)
    ensures Total(a + b) == Total(a) + Total(b)
  {
    if b == [] {
      assert a + b == a;
    } else {
      var b' := b[..|b| - 1];
      assert (a + b)[..|a + b| - 1] == a + b';
      TotalConcat(a, b');
    }
  }

  lemma TotalOne(w: uint8)
    ensures Total([w]) == w
  {
    assert [w][..0] == [];
  }

  lemma TotalStep(widths: seq<uint8>, i: nat)
    requires i < |widths|
    ensures Total(widths[..i + 1]) == Total(widths[..i]) + widths[i]
    ensures Total(widths[i..]) == widths[i] + Total(widths[i + 1..])
    ensures Total(widths) == Total(widths[..i]) + widths[i] + Total(widths[i + 1..])
  {
    assert widths[..i + 1][..i] == widths[..i];
    TotalFirst(widths[i..]);
    assert widths[i..][1..] == widths[i + 1..];
    assert widths == widths[..i] + widths[i..];
    TotalConcat(widths[..i], widths[i..]);
  }

  lemma TotalFirst(widths: seq<uint8>)
    requires widths != []
    ensures Total(widths) == widths[0] + Total(widths[1..])
  {
    assert widths == [widths[0]] + widths[1..];
    TotalOne(widths[0]);
    TotalConcat([widths[0]], widths[1..]);
  }

  lemma PackStep(widths: seq<uint8>, values: seq<uint64>, i: nat)
    requires |widths| == |values| && i < |widths|
    ensures Pack(widths[..i + 1], values[..i + 1])
         == Pack(widths[..i], values[..i]) * Pow2(widths[i]) + values[i] % Pow2(widths[i])
  {
    var ws, vs := widths[..i + 1], values[..i + 1];
    assert ws[..i] == widths[..i] && vs[..i] == values[..i];
  }

  // Bits.

  lemma MaskOfWidth(w: nat)
    requires w < 64
    ensures Not64(Shl64(Not64(0), w)) == Pow2(w) - 1
  {
    Pow2Limb();
    Pow2Mono(w, 64);
    Pow2Add(64 - w, w);
    ModScale(TWO_64 - 1, Pow2(64 - w), Pow2(w));
    OnesRemainder(Pow2(64 - w), Pow2(w));
  }

  lemma OnesRemainder(p: nat, q: nat)
    requires 0 < p && 0 < q
    ensures 0 < p * q && (p * q - 1) % p * q == p * q - q
  {
    DivUnique(p * q - 1, p, q - 1, p - 1);
  }

  lemma WideRemainder(value: uint64, w: nat)
    ensures w >= 64 ==> value == value % Pow2(w)
  {
    if w >= 64 {
      Pow2Limb();
      Pow2Mono(64, w);
      SmallMod(value, Pow2(w));
    }
  }

  lemma FitsWide(value: uint64, size: nat)
    requires 64 <= size
    ensures value < Pow2(size)
  {
    Pow2Limb();
    Pow2Mono(64, size);
  }

  lemma ModBounds(v: nat, m: nat)
    requires 0 < m
    ensures 0 <= v % m <= v && v % m < m && (v % m == v <==> v < m)
  {
    DivBounds(v, m);
  }

  lemma DivPow2(v: nat, a: nat, b: nat)
    ensures v / Pow2(a + b) == v / Pow2(a) / Pow2(b)
    ensures v % Pow2(a + b) == v / Pow2(a) % Pow2(b) * Pow2(a) + v % Pow2(a)
  {
    Pow2Add(a, b);
    DivDiv(v, Pow2(a), Pow2(b));
  }

  /** A remainder may be taken before multiplying. */
  lemma ModTimes(x: nat, k: nat, m: nat)
    requires 0 < m
    ensures x % m * k % m == x * k % m
  {
    var q, r := x / m, x % m;
    MulSum(q, m, r, k);
    DivUnique(x * k, m, q * k + r * k / m, r * k % m);
  }

  lemma MulSum(q: nat, m: nat, r: nat, k: nat)
    ensures (q * m + r) * k == q * k * m + r * k
  {}

  lemma ShlKeeps(x: nat, w: nat, size: nat)
    requires w <= size
    ensures ShlWide(x, w, size) == x % Pow2(size - w) * Pow2(w)
  {
    Pow2Add(size - w, w);
    ModScale(x, Pow2(size - w), Pow2(w));
  }

  lemma ShlAll(x: nat, w: nat, size: nat)
    requires size <= w
    ensures ShlWide(x, w, size) == 0
  {
    Pow2Add(w - size, size);
    MulThree(x, Pow2(w - size), Pow2(size));
    DivUnique(x * Pow2(w), Pow2(size), x * Pow2(w - size), 0);
  }

  lemma MulThree(a: nat, b: nat, c: nat)
    ensures a * (b * c) == a * b * c
  {}

  lemma ShiftNone(v: nat, size: nat)
    requires v < Pow2(size)
    ensures ShlWide(v, 0, size) == v && Total([]) == 0 && v / Pow2(size) == 0
  {
    SmallMod(v, Pow2(size));
    DivUnique(v, Pow2(size), 0, v);
  }

  lemma ShiftTwice(v: nat, a: nat, b: nat, size: nat)
    ensures ShlWide(ShlWide(v, a, size), b, size) == ShlWide(v, a + b, size)
  {
    ModTimes(v * Pow2(a), Pow2(b), Pow2(size));
    Pow2Add(a, b);
    MulThree(v, Pow2(a), Pow2(b));
  }

  /** Shifting by the width of a field leaves room to fill it in. */
  lemma PushField(p: nat, w: nat, low: nat, size: nat) returns (h: nat)
    requires low < Pow2(w) && low < Pow2(size)
    ensures ShlWide(p % Pow2(size), w, size) == h * Pow2(w)
    ensures ShlWide(p % Pow2(size), w, size) + low == (p * Pow2(w) + low) % Pow2(size)
  {
    ModTimes(p, Pow2(w), Pow2(size));
    if w <= size {
      ShlKeeps(p, w, size);
      h := p % Pow2(size - w);
      PushedRemainder(p, w, low, size);
    } else {
      ShlAll(p, w, size);
      h := 0;
      SumRemainder(p * Pow2(w), low, Pow2(size));
    }
  }

  lemma PushedRemainder(p: nat, w: nat, low: nat, size: nat)
    requires w <= size && low < Pow2(w)
    ensures (p * Pow2(w) + low) % Pow2(size) == p % Pow2(size - w) * Pow2(w) + low
  {
    DivPow2(p * Pow2(w) + low, w, size - w);
    DivUnique(p * Pow2(w) + low, Pow2(w), p, low);
  }

  lemma SumRemainder(a: nat, low: nat, m: nat)
    requires low < m && a % m == 0
    ensures (a + low) % m == low
  {
    DivUnique(a + low, m, a / m, low);
  }

  /** The top bits of a shifted number are one of its fields. */
  lemma TopBits(v: nat, size: nat, t: nat, w: nat)
    ensures w <= size ==> ShlWide(v, t, size) / Pow2(size - w) == TopField(v, size, t, w)
  {
    if w <= size {
      if size <= t {
        ShlAll(v, t, size);
        if t + w <= size {
          assert Pow2(w) == 1;
        }
      } else {
        var x := v % Pow2(size - t);
        ShlKeeps(v, t, size);
        if t + w <= size {
          var low := size - t - w;
          Pow2Add(low, t);
          ModScale(x, Pow2(low), Pow2(t));
          DivPow2(v, low, w);
          DivUnique(x, Pow2(low), Field(v, low, w), v % Pow2(low));
        } else {
          Pow2Add(t + w - size, size - w);
          MulThree(x, Pow2(t + w - size), Pow2(size - w));
          DivUnique(x * Pow2(t), Pow2(size - w), x * Pow2(t + w - size), 0);
        }
      }
    }
  }

  /** The top word of what is left is the next word of the number. */
  lemma PrintStep(number: nat, size: nat, t: nat, n: nat, k: nat, hex: string)
    requires t + 4 * k <= size && hex == "0x" + Digits(Above(number, size - t), n)
    ensures hex + Digits(Above(ShlWide(number, t, size), size - 4 * k), k)
         == "0x" + Digits(Above(number, size - t - 4 * k), n + k)
  {
    TopBits(number, size, t, 4 * k);
    EmitDigits(number, size - t, n, k);
  }

  lemma MaskedQuotient(bits: nat, k: nat, size: nat)
    requires size == k + 64 && bits < Pow2(size)
    ensures bits % Pow2(k) <= bits
    ensures Above(bits - bits % Pow2(k), k) == Above(bits, k) < TWO_64
  {
    ModBounds(bits, Pow2(k));
    Multiple(bits, Pow2(k));
    Pow2Add(64, k);
    Pow2Limb();
    QuotientBelow(bits, Pow2(k), TWO_64);
  }

  lemma Multiple(v: nat, p: nat)
    requires 0 < p
    ensures (v - v % p) / p == v / p
  {
    DivUnique(v - v % p, p, v / p, 0);
  }

  lemma ProductBelow(a: nat, p: nat, q: nat)
    requires a < p && 0 < q
    ensures a * q < p * q
  {}

  /** More digits of a number. */
  lemma EmitDigits(v: nat, low: nat, n: nat, k: nat)
    requires 4 * k <= low
    ensures Digits(Above(v, low - 4 * k), n + k)
         == Digits(Above(v, low), n) + Digits(Field(v, low - 4 * k, 4 * k), k)
  {
    var u := Above(v, low - 4 * k);
    DigitsSplit(u, n, k);
    DropDigitsIsQuotient(u, k);
    DivPow2(v, low - 4 * k, 4 * k);
    DigitsOfRemainder(u, k);
  }

  /** One more section of sixteen digits. */
  lemma AddSection(before: string, section: string, size: nat, low: nat)
    requires |section| == 16 && low + 64 <= size
    ensures var word := ShlWide(HexToUintSpec(section), low, size);
      && word < Pow2(low + 64)
      && Horner(before) * Pow2(low + 64) + word == Horner(before + section) * Pow2(low)
  {
    PrefixIsZero(section);
    HornerBound(section);
    Pow2Limb();
    SmallMod(Horner(section), TWO_64);
    HornerConcat(before, section);
    PaddedIsProduct(Horner(before), |section|);
    AddDigits(Horner(before), Horner(section), size, 4 * |section|, low);
  }

  lemma AddDigits(h: nat, word: nat, size: nat, w: nat, low: nat)
    requires word < Pow2(w) && low + w <= size
    ensures ShlWide(word, low, size) < Pow2(low + w)
    ensures h * Pow2(low + w) + ShlWide(word, low, size) == (h * Pow2(w) + word) * Pow2(low)
  {
    Pow2Add(w, low);
    Pow2Mono(low + w, size);
    ProductBelow(word, Pow2(w), Pow2(low));
    SmallMod(word * Pow2(low), Pow2(size));
    MulThree(h, Pow2(w), Pow2(low));
    MulSum(h, Pow2(w), word, Pow2(low));
  }
}
