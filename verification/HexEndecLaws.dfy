/** What HexEndec promises: what was encoded is decoded, and what was decoded
    encodes to the same text. */
module HexEndecLaws {
  import opened Bits
  import opened Hex
  import opened HexEndec
  import opened Names

  // Packing and fields.

  lemma {:induction false} PackBound(widths: seq<uint8>, values: seq<uint64>)
    requires |widths| == |values|
    ensures Pack(widths, values) < Pow2(Total(widths))
  {
    if widths == [] {
    } else {
      var last := |widths| - 1;
      PackBound(widths[..last], values[..last]);
      Pow2Add(Total(widths[..last]), widths[last]);
      Below(Pack(widths[..last], values[..last]), Pow2(Total(widths[..last])),
        values[last] % Pow2(widths[last]), Pow2(widths[last]));
    }
  }

  lemma Below(a: nat, p: nat, b: nat, q: nat)
    requires a < p && b < q
    ensures a * q + b < p * q
  {
    MulMono(a, p - 1, q);
  }

  /** The fields before the last are those of the number without its last field. */
  lemma FieldBefore(v: nat, widths: seq<uint8>, i: nat)
    requires i < |widths| - 1
    ensures var last := |widths| - 1;
      FieldAt(v, widths, i) == FieldAt(Above(v, widths[last]), widths[..last], i)
  {
    var last := |widths| - 1;
    var front := widths[..last];
    assert widths[i + 1..] == front[i + 1..] + [widths[last]];
    TotalConcat(front[i + 1..], [widths[last]]);
    TotalOne(widths[last]);
    DivPow2(v, widths[last], Total(front[i + 1..]));
  }

  lemma FieldLast(v: nat, widths: seq<uint8>)
    requires widths != []
    ensures FieldAt(v, widths, |widths| - 1) == v % Pow2(widths[|widths| - 1])
  {
    assert widths[|widths|..] == [];
    assert Pow2(0) == 1;
  }

  lemma {:induction false} PackField(widths: seq<uint8>, values: seq<uint64>, i: nat)
    requires |widths| == |values| && i < |widths|
    ensures FieldAt(Pack(widths, values), widths, i) == values[i] % Pow2(widths[i])
    decreases |widths|
  {
    var last := |widths| - 1;
    var p := Pow2(widths[last]);
    DivUnique(Pack(widths, values), p, Pack(widths[..last], values[..last]), values[last] % p);
    if i == last {
      FieldLast(Pack(widths, values), widths);
    } else {
      FieldBefore(Pack(widths, values), widths, i);
      PackField(widths[..last], values[..last], i);
    }
  }

  lemma {:induction false} PackOfFields(v: nat, widths: seq<uint8>, values: seq<uint64>)
    requires |widths| == |values|
    requires forall i :: 0 <= i < |widths| ==> values[i] == FieldAt(v, widths, i)
    ensures Pack(widths, values) == v % Pow2(Total(widths))
    decreases |widths|
  {
    if widths == [] {
      assert Pow2(0) == 1;
    } else {
      var last := |widths| - 1;
      var w := widths[last];
      forall i | 0 <= i < last
        ensures values[..last][i] == FieldAt(Above(v, w), widths[..last], i)
      {
        FieldBefore(v, widths, i);
      }
      PackOfFields(Above(v, w), widths[..last], values[..last]);
      FieldLast(v, widths);
      SmallMod(v % Pow2(w), Pow2(w));
      DivPow2(v, w, Total(widths[..last]));
    }
  }

  /** When the widths fill the number both ways of counting fields agree. */
  lemma TopIsField(v: nat, size: nat, widths: seq<uint8>, i: nat)
    requires Total(widths) == size && i < |widths|
    ensures TopFieldAt(v, size, widths, i) == FieldAt(v, widths, i)
  {
    TotalStep(widths, i);
  }

  lemma StripHex(s: string)
    ensures StripPrefix("0x" + s) == s
  {
    assert ("0x" + s)[2..] == s;
  }

  // One word.

  ghost predicate WordRoundTrip(widths: seq<uint8>, values: seq<uint64>)
    requires |widths| == |values|
  {
    var r := DecodeWordSpec(widths, EncodeWordSpec(widths, values));
    forall i :: 0 <= i < |widths| ==> r[i] == values[i] % Pow2(widths[i])
  }

  lemma EncodedWord(widths: seq<uint8>, values: seq<uint64>)
    requires |widths| == |values|
    ensures HexToUintSpec(EncodeWordSpec(widths, values)) == Pack(widths, values) % TWO_64
  {
    EncodedText(Pack(widths, values), 16);
    Pow2Limb();
    ModBounds(Pack(widths, values) % TWO_64, TWO_64);
  }

  lemma EncodedText(v: nat, n: nat)
    ensures Horner(StripPrefix("0x" + Digits(v, n))) == v % Pow2(4 * n)
  {
    StripHex(Digits(v, n));
    HornerOfDigits(v, n);
  }

  lemma WordFits(widths: seq<uint8>, values: seq<uint64>)
    requires |widths| == |values| && Total(widths) <= 64
    ensures WordRoundTrip(widths, values)
  {
    EncodedWord(widths, values);
    PackBound(widths, values);
    Pow2Mono(Total(widths), 64);
    Pow2Limb();
    SmallMod(Pack(widths, values), TWO_64);
    forall i | 0 <= i < |widths|
      ensures FieldAt(Pack(widths, values), widths, i) == values[i] % Pow2(widths[i])
    {
      PackField(widths, values, i);
    }
  }

  ghost function Values(widths: seq<uint8>): iset<seq<uint64>> {
    iset values: seq<uint64> | |values| == |widths|
  }

  /** In one word every list of values comes back, each cut to its width, exactly
      when the widths fit in the word. */
  lemma WordRoundTripIff(widths: seq<uint8>)
    requires Narrow(widths)
    ensures Total(widths) <= 64 <==> forall values :: values in Values(widths) ==> WordRoundTrip(widths, values)
  {
    if Total(widths) <= 64 {
      forall values | values in Values(widths)
        ensures WordRoundTrip(widths, values)
      {
        WordFits(widths, values);
      }
    } else {
      var values := TopBitLost(widths);
      assert values in Values(widths);
    }
  }

  /** The top bit of the first value is lost when the widths exceed the word. */
  lemma TopBitLost(widths: seq<uint8>) returns (values: seq<uint64>)
    requires Narrow(widths) && 64 < Total(widths)
    ensures |values| == |widths| && !WordRoundTrip(widths, values)
  {
    var j := FirstWide(widths);
    var w := widths[j];
    var x := TopBit(w);
    values := Single(|widths|, j, x);
    PackSingle(widths, j, x);
    TotalStep(widths, j);
    SmallMod(x, Pow2(w));
    LostBits(w - 1, Total(widths[j + 1..]), 64);
    Pow2Limb();
    EncodedWord(widths, values);
    assert FieldAt(0, widths, j) == 0;
    assert values[j] == x;
  }

  ghost function TopBit(w: nat): (x: uint64)
    requires 0 < w < 64
    ensures x == Pow2(w - 1) < Pow2(w)
  {
    Pow2Mono(w, 64);
    Pow2Limb();
    Pow2(w - 1)
  }

  lemma LostBits(a: nat, b: nat, k: nat)
    requires k <= a + b
    ensures Pow2(a) * Pow2(b) % Pow2(k) == 0
  {
    var c := a + b - k;
    Pow2Add(a, b);
    Pow2Add(c, k);
    assert Pow2(a) * Pow2(b) == Pow2(c) * Pow2(k);
    MultipleOf(Pow2(c), Pow2(k));
  }

  lemma MultipleOf(q: nat, m: nat)
    requires 0 < m
    ensures q * m % m == 0
  {
    DivUnique(q * m, m, q, 0);
  }

  /** Text of sixteen digits comes back exactly when its number fits the widths. */
  lemma WordHexRoundTripIff(widths: seq<uint8>, s: string)
    requires AllDigits(s) && |s| == 16
    ensures EncodeWordSpec(widths, DecodeWordSpec(widths, "0x" + s)) == "0x" + s
      <==> Horner(s) < Pow2(Total(widths))
  {
    DecodedWord(s);
    ReencodedIff(widths, DecodeWordSpec(widths, "0x" + s), s);
  }

  lemma ReencodedIff(widths: seq<uint8>, values: seq<uint64>, s: string)
    requires AllDigits(s) && |widths| == |values|
    requires forall i :: 0 <= i < |widths| ==> values[i] == FieldAt(Horner(s), widths, i)
    ensures "0x" + Digits(Pack(widths, values), |s|) == "0x" + s <==> Horner(s) < Pow2(Total(widths))
  {
    PackOfFields(Horner(s), widths, values);
    ReprintedIff(s, Pow2(Total(widths)));
  }

  lemma ReprintedIff(s: string, m: nat)
    requires AllDigits(s) && 0 < m
    ensures "0x" + Digits(Horner(s) % m, |s|) == "0x" + s <==> Horner(s) < m
  {
    ModBounds(Horner(s), m);
    SameDigits(Horner(s) % m, s);
    PrefixEqual(Digits(Horner(s) % m, |s|), s);
  }

  lemma DecodedWord(s: string)
    requires |s| == 16
    ensures HexToUintSpec("0x" + s) == Horner(s)
  {
    StripHex(s);
    HornerBound(s);
    Pow2Limb();
    SmallMod(Horner(s), TWO_64);
  }

  lemma PrefixEqual(a: string, b: string)
    ensures "0x" + a == "0x" + b <==> a == b
  {
    if "0x" + a == "0x" + b {
      assert a == ("0x" + a)[2..] == ("0x" + b)[2..] == b;
    }
  }

  /** A number prints as the text it is no greater than only if it is its number. */
  lemma SameDigits(v: nat, s: string)
    requires AllDigits(s) && v <= Horner(s)
    ensures Digits(v, |s|) == s <==> v == Horner(s)
  {
    DigitsOfHorner(s);
    HornerOfDigits(v, |s|);
    HornerBound(s);
    SmallMod(v, Pow2(4 * |s|));
  }

  // A bit set.

  ghost predicate WideRoundTrip(size: nat, widths: seq<uint8>, values: seq<uint64>)
    requires |widths| == |values|
  {
    var r := DecodeWideSpec(size, widths, EncodeWideSpec(size, widths, values));
    && r.Success? && |r.value| == |widths|
    && forall i :: 0 <= i < |widths| ==> r.value[i] == values[i] % Pow2(widths[i])
  }

  /** Decoding succeeds exactly for text of the length of the number, of at most
      512 bits, with no field above 64 bits in value. */
  lemma DecodesIff(size: nat, widths: seq<uint8>, hex: string)
    requires WideSize(size)
    ensures DecodeWideSpec(size, widths, hex).Success?
      <==> && size <= 0x200 && |StripPrefix(hex)| == size / 4
           && FieldsFit(Horner(StripPrefix(hex)), size, widths)
  {
    WideSizes(size);
  }

  lemma DecodeOfEncoded(size: nat, widths: seq<uint8>, values: seq<uint64>)
    requires WideSize(size) && size <= 0x200 && |widths| == |values|
    ensures DecodeWideSpec(size, widths, EncodeWideSpec(size, widths, values))
         == TopFields(Pack(widths, values) % Pow2(size), size, widths)
  {
    WideSizes(size);
    StripHex(Digits(Pack(widths, values), size / 4));
    HornerOfDigits(Pack(widths, values), size / 4);
  }

  lemma WideFits(size: nat, widths: seq<uint8>, values: seq<uint64>)
    requires WideSize(size) && size <= 0x200 && |widths| == |values| && Total(widths) == size
    ensures WideRoundTrip(size, widths, values)
  {
    var v := Pack(widths, values);
    DecodeOfEncoded(size, widths, values);
    PackBound(widths, values);
    SmallMod(v, Pow2(size));
    forall i | 0 <= i < |widths|
      ensures TopFieldAt(v, size, widths, i) == values[i] % Pow2(widths[i]) < TWO_64
    {
      TopIsField(v, size, widths, i);
      PackField(widths, values, i);
      DivBounds(values[i], Pow2(widths[i]));
      ModBounds(values[i], Pow2(widths[i]));
    }
  }

  /** In a bit set every list of values comes back, each cut to its width, exactly
      when the widths fill the set, or when they hold nothing at all. */
  lemma WideRoundTripIff(size: nat, widths: seq<uint8>)
    requires WideSize(size) && size <= 0x200
    ensures Total(widths) == size || Total(widths) == 0
      <==> forall values :: values in Values(widths) ==> WideRoundTrip(size, widths, values)
  {
    if Total(widths) == size || Total(widths) == 0 {
      forall values | values in Values(widths)
        ensures WideRoundTrip(size, widths, values)
      {
        if Total(widths) == size {
          WideFits(size, widths, values);
        } else {
          NothingHeld(size, widths, values);
        }
      }
    } else {
      var values := UnitMisplaced(size, widths);
      assert values in Values(widths);
    }
  }

  lemma NothingHeld(size: nat, widths: seq<uint8>, values: seq<uint64>)
    requires WideSize(size) && size <= 0x200 && |widths| == |values| && Total(widths) == 0
    ensures WideRoundTrip(size, widths, values)
  {
    DecodeOfEncoded(size, widths, values);
    var v := Pack(widths, values) % Pow2(size);
    assert Pow2(0) == 1;
    forall i | 0 <= i < |widths|
      ensures TopFieldAt(v, size, widths, i) == values[i] % Pow2(widths[i]) < TWO_64
    {
      TotalStep(widths, i);
    }
  }

  /** A unit in the last field is read back from the wrong place when the widths
      do not fill the set. */
  lemma UnitMisplaced(size: nat, widths: seq<uint8>) returns (values: seq<uint64>)
    requires WideSize(size) && size <= 0x200 && Total(widths) != 0 && Total(widths) != size
    ensures |values| == |widths| && !WideRoundTrip(size, widths, values)
  {
    var j := LastWide(widths);
    var w := widths[j];
    values := Single(|widths|, j, 1);
    PackSingle(widths, j, 1);
    TotalStep(widths, j);
    Pow2Mono(1, w);
    assert Pow2(1) == 2 && Pow2(0) == 1;
    SmallMod(1, Pow2(w));
    DecodeOfEncoded(size, widths, values);
    Pow2Mono(1, size);
    WideSizes(size);
    SmallMod(1, Pow2(size));
    UnitField(size, Total(widths[..j]), w);
    assert values[j] == 1;
    assert TopFieldAt(1, size, widths, j) != 1;
  }

  lemma UnitField(size: nat, t: nat, w: nat)
    requires 0 < w && t + w != size
    ensures TopField(1, size, t, w) != 1
  {
    if t + w < size {
      Pow2Mono(1, size - t - w);
      assert Pow2(1) == 2;
      DivUnique(1, Pow2(size - t - w), 0, 1);
      SmallMod(0, Pow2(w));
    } else if t < size && w <= size {
      assert Pow2(t + w - size) == 2 * Pow2(t + w - size - 1);
      EvenProduct(1 % Pow2(size - t), Pow2(t + w - size - 1));
    }
  }

  lemma EvenProduct(a: nat, b: nat)
    ensures a * (2 * b) != 1
  {
    assert a * (2 * b) == 2 * (a * b);
  }

  /** Text of full length decodes exactly when no field exceeds 64 bits in value,
      and then it encodes back to the same text. */
  lemma WideHexRoundTrip(size: nat, widths: seq<uint8>, s: string)
    requires WideSize(size) && size <= 0x200 && Total(widths) == size
    requires AllDigits(s) && |s| == size / 4
    ensures var r := DecodeWideSpec(size, widths, "0x" + s);
      && (r.Success? <==> forall i :: 0 <= i < |widths| ==> FieldAt(Horner(s), widths, i) < TWO_64)
      && (r.Success? ==> |r.value| == |widths| && EncodeWideSpec(size, widths, r.value) == "0x" + s)
  {
    var v := Horner(s);
    StripHex(s);
    WideSizes(size);
    DecodesIff(size, widths, "0x" + s);
    forall i | 0 <= i < |widths|
      ensures TopFieldAt(v, size, widths, i) == FieldAt(v, widths, i)
    {
      TopIsField(v, size, widths, i);
    }
    var r := DecodeWideSpec(size, widths, "0x" + s);
    if r.Success? {
      PackOfFields(v, widths, r.value);
      DigitsOfRemainder(v, size / 4);
      DigitsOfHorner(s);
    }
  }

  /** Widths of at most 64 never overflow. */
  lemma NarrowFieldsFit(v: nat, size: nat, widths: seq<uint8>)
    requires Total(widths) == size && forall i :: 0 <= i < |widths| ==> widths[i] <= 64
    ensures FieldsFit(v, size, widths)
  {
    forall i | 0 <= i < |widths|
      ensures TopFieldAt(v, size, widths, i) < TWO_64
    {
      TopIsField(v, size, widths, i);
      Pow2Mono(widths[i], 64);
      Pow2Limb();
    }
  }

  // Names.

  /** Encoded values of 128 bits make a name, and decoding the name gives them. */
  lemma NameRoundTrip(widths: seq<uint8>, values: seq<uint64>)
    requires |widths| == |values| && Total(widths) == 128
    ensures var n := OfHexSpec(EncodeWideSpec(128, widths, values));
      && n.Some? && n.value.Num() == Pack(widths, values)
      && var r := DecodeWideSpec(128, widths, ToHexSpec(n.value));
         && r.Success? && |r.value| == |widths|
         && forall i :: 0 <= i < |widths| ==> r.value[i] == values[i] % Pow2(widths[i])
  {
    var s := Digits(Pack(widths, values), 32);
    DigitsAreDigits(Pack(widths, values), 32);
    PrefixedName(s);
    HornerOfDigits(Pack(widths, values), 32);
    PackBound(widths, values);
    SmallMod(Pack(widths, values), Pow2(128));
    Pow2Small();
    Pow2Mono(7, 7);
    assert WideSize(128) by { assert Pow2(7) == 128; }
    WideFits(128, widths, values);
  }

  // Lists with a single value other than zero.

  ghost function Single(k: nat, j: nat, x: uint64): seq<uint64> {
    seq(k, i => if i == j then x else 0)
  }

  lemma {:induction false} PackSingle(widths: seq<uint8>, j: nat, x: uint64)
    ensures j < |widths| ==>
      Pack(widths, Single(|widths|, j, x)) == x % Pow2(widths[j]) * Pow2(Total(widths[j + 1..]))
    ensures j >= |widths| ==> Pack(widths, Single(|widths|, j, x)) == 0
    decreases |widths|
  {
    if widths == [] {
    } else {
      var last := |widths| - 1;
      var front := widths[..last];
      assert Single(|widths|, j, x)[..last] == Single(last, j, x);
      PackSingle(front, j, x);
      SmallMod(0, Pow2(widths[last]));
      if j == last {
        assert widths[j + 1..] == [] && Pow2(0) == 1;
      } else if j < last {
        assert widths[j + 1..] == front[j + 1..] + [widths[last]];
        TotalConcat(front[j + 1..], [widths[last]]);
        TotalOne(widths[last]);
        Pow2Add(Total(front[j + 1..]), widths[last]);
        MulThree(x % Pow2(widths[j]), Pow2(Total(front[j + 1..])), Pow2(widths[last]));
      }
    }
  }

  lemma {:induction false} FirstWide(widths: seq<uint8>) returns (j: nat)
    requires 0 < Total(widths)
    ensures j < |widths| && 0 < widths[j] && Total(widths[..j]) == 0
    decreases |widths|
  {
    var last := |widths| - 1;
    if Total(widths[..last]) == 0 {
      j := last;
    } else {
      j := FirstWide(widths[..last]);
      assert widths[..last][..j] == widths[..j];
    }
  }

  lemma {:induction false} LastWide(widths: seq<uint8>) returns (j: nat)
    requires 0 < Total(widths)
    ensures j < |widths| && 0 < widths[j] && Total(widths[j + 1..]) == 0
    decreases |widths|
  {
    var last := |widths| - 1;
    if widths[last] > 0 {
      j := last;
    } else {
      j := LastWide(widths[..last]);
      assert widths[j + 1..] == widths[..last][j + 1..] + [widths[last]];
      TotalConcat(widths[..last][j + 1..], [widths[last]]);
      TotalOne(widths[last]);
    }
  }
}
