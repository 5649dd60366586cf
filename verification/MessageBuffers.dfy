/** The consuming byte buffer of src/message_buffer.cpp with its integer,
    variable-length integer and vector codecs. Each codec is given as a pair of
    functions on byte strings; the buffer's methods are proved to do the same
    in place. */
module MessageBuffers {
  import opened Bits
  import opened ByteOrder
  import opened Wrappers

  const TWO_60 := 0x1000_0000_0000_0000
  const TWO_61 := 0x2000_0000_0000_0000

  /** Values the variable-length integer type admits; it throws on others. */
  type UintVar = x: int | 0 <= x < TWO_61

  /** The exceptions thrown by the readers. */
  datatype ReadError =
    | EmptyBuffer
    | ShortBuffer
    | OutOfRange
    | WrongMessageType
    | WrongLength

  /** What a reader does to the bytes it is given: the value and what is left,
      or the exception and what is left. */
  datatype Read<+T> = Got(value: T, rest: Bytes) | Threw(error: ReadError, left: Bytes) {
    predicate IsFailure() {
      Threw?
    }

    function PropagateFailure<U>(): Read<U>
      requires Threw?
    {
      Threw(error, left)
    }

    function Extract(): (T, Bytes)
      requires Got?
    {
      (value, rest)
    }
  }

  // Fixed-width integers, most significant byte first.

  function ReadUint8(s: Bytes): Read<uint8> {
    if s == [] then Threw(EmptyBuffer, s) else Got(s[0], s[1..])
  }

  function ReadUint64(s: Bytes): Read<uint64> {
    if s == [] then Threw(EmptyBuffer, s)
    else if |s| < 8 then Threw(ShortBuffer, s)
    else
      FromBigEndianBound(s[..8]);
      Pow2Limb();
      Got(FromBigEndian(s[..8]), s[8..])
  }

  lemma Uint64RoundTrip(v: uint64, suffix: Bytes)
    ensures ReadUint64(BigEndian(v, 8) + suffix) == Got(v, suffix)
  {
    BigEndianRoundTrip(v, 8);
    Pow2Limb();
    SmallMod(v, TWO_64);
    var s := BigEndian(v, 8) + suffix;
    assert s[..8] == BigEndian(v, 8) && s[8..] == suffix;
  }

  // Variable-length integers.

  /** The four lengths; the first byte tells which one is used. */
  type VarLength = n: int | n == 1 || n == 2 || n == 4 || n == 8 witness 1

  function Tag(n: VarLength): uint8 {
    if n == 1 then 0 else if n == 2 then 0x80 else if n == 4 then 0xC0 else 0xE0
  }

  /** How many values the first byte has room for beside its tag. */
  function Room(n: VarLength): uint8 {
    if n == 1 then 0x80 else if n == 2 then 0x40 else if n == 4 then 0x20 else 0x10
  }

  function LengthFor(v: UintVar): VarLength {
    if v < 0x80 then 1 else if v < 0x4000 then 2 else if v < 0x2000_0000 then 4 else 8
  }

  function LengthFrom(first: uint8): VarLength {
    if first < 0x80 then 1 else if first < 0xC0 then 2 else if first < 0xE0 then 4 else 8
  }

  function EncodeVar(v: UintVar): (s: Bytes)
    ensures |s| == LengthFor(v)
  {
    var n := LengthFor(v);
    [Tag(n) + (v / Pow2(8 * (n - 1))) % Room(n)] + BigEndian(v, n - 1)
  }

  /** Reading a run of single bytes: the bytes before the exception are gone. */
  function ReadBytes(s: Bytes, n: nat): Read<Bytes> {
    if |s| < n then Threw(EmptyBuffer, []) else Got(s[..n], s[n..])
  }

  /** The source looks at the front byte of an empty buffer, which C++ leaves
      undefined; whatever it sees, the read that follows throws. */
  function DecodeVar(s: Bytes): Read<UintVar> {
    if s == [] then Threw(EmptyBuffer, s)
    else
      var n := LengthFrom(s[0]);
      var (b, rest) :- ReadBytes(s, n);
      VarFits(b[0], b[1..], n);
      Got(FromBigEndian([b[0] % Room(n)] + b[1..]), rest)
  }

  lemma VarFits(first: uint8, others: Bytes, n: VarLength)
    requires |others| == n - 1
    ensures FromBigEndian([first % Room(n)] + others) < Capacity(n) <= TWO_60
  {
    FromBigEndianCons(first % Room(n), others);
    FromBigEndianBound(others);
    CapacityValue(n);
    MulMono(first % Room(n), Room(n) - 1, Pow2(8 * (n - 1)));
  }

  /** One more than the greatest value a length can carry. */
  function Capacity(n: VarLength): nat {
    if n == 1 then 0x80 else if n == 2 then 0x4000 else if n == 4 then 0x2000_0000 else TWO_60
  }

  lemma CapacityValue(n: VarLength)
    ensures Capacity(n) == Pow2(8 * (n - 1)) * Room(n)
  {
    Pow2Small();
    Pow2Add(8, 8);
    Pow2Add(8, 16);
    Pow2Add(24, 24);
    Pow2Add(48, 8);
  }

  /** Decoding an encoding followed by anything gives the low 60 bits of the
      value and exactly what followed, so the value itself below 2^60. */
  lemma VarRoundTrip(v: UintVar, suffix: Bytes)
    ensures DecodeVar(EncodeVar(v) + suffix) == Got(v % TWO_60, suffix)
  {
    var n: nat := LengthFor(v);
    var s := EncodeVar(v) + suffix;
    var h, t := (v / Pow2(8 * (n - 1))) % Room(n), BigEndian(v, n - 1);
    assert LengthFrom(s[0]) == n;
    assert s[..n] == [Tag(n) + h] + t && s[n..] == suffix;
    assert s[..n][1..] == t;
    TagRemainder(n, h);
    VarValue(v, n);
  }

  lemma TagRemainder(n: VarLength, h: nat)
    requires h < Room(n)
    ensures (Tag(n) + h) % Room(n) == h
  {
    DivUnique(Tag(n) + h, Room(n), Tag(n) / Room(n), h);
  }

  lemma VarValue(v: UintVar, n: VarLength)
    requires n == LengthFor(v)
    ensures FromBigEndian([(v / Pow2(8 * (n - 1))) % Room(n)] + BigEndian(v, n - 1)) == v % TWO_60
  {
    var p := Pow2(8 * (n - 1));
    FromBigEndianCons((v / p) % Room(n), BigEndian(v, n - 1));
    BigEndianRoundTrip(v, n - 1);
    DivDiv(v, p, Room(n));
    CapacityValue(n);
    if n != 8 {
      SmallMod(v, Capacity(n));
      SmallMod(v, TWO_60);
    }
  }

  /** No encoding is the beginning of another. */
  lemma VarPrefixFree(v: UintVar, w: UintVar)
    requires EncodeVar(v) <= EncodeVar(w)
    ensures EncodeVar(v) == EncodeVar(w) && v % TWO_60 == w % TWO_60
  {
    var suffix := EncodeVar(w)[|EncodeVar(v)|..];
    assert EncodeVar(w) == EncodeVar(v) + suffix;
    VarRoundTrip(v, suffix);
    assert EncodeVar(w) + [] == EncodeVar(w);
    VarRoundTrip(w, []);
  }

  /** The length used is the least that any accepted encoding of the value has:
      encoding a decoded value again never takes more bytes than were read. */
  lemma VarMinimal(s: Bytes)
    requires DecodeVar(s).Got?
    ensures |EncodeVar(DecodeVar(s).value)| <= |s| - |DecodeVar(s).rest|
    ensures DecodeVar(s).rest == s[|s| - |DecodeVar(s).rest|..]
    ensures DecodeVar(s).value < TWO_60
  {
    var n := LengthFrom(s[0]);
    VarFits(s[..n][0], s[..n][1..], n);
  }

  // Vectors: the length, then the bytes.

  function EncodeVector(b: Bytes): Bytes
    requires |b| < TWO_61
  {
    EncodeVar(|b|) + b
  }

  /** The length passes through a 16-bit parameter. */
  function DecodeVector(s: Bytes): Read<Bytes> {
    var (size, rest) :- DecodeVar(s);
    PopFront(rest, size % 0x1_0000)
  }

  function PopFront(s: Bytes, len: uint16): Read<Bytes> {
    if len == 0 then Got([], s)
    else if len > |s| then Threw(OutOfRange, s)
    else Got(s[..len], s[len..])
  }

  /** A vector is read back exactly when it is shorter than 65536 bytes. */
  lemma VectorRoundTrip(b: Bytes, suffix: Bytes)
    requires |b| < TWO_61
    ensures DecodeVector(EncodeVector(b) + suffix) == Got(b, suffix) <==> |b| < 0x1_0000
  {
    var rest := b + suffix;
    assert EncodeVector(b) + suffix == EncodeVar(|b|) + rest;
    VarRoundTrip(|b|, rest);
    if |b| < 0x1_0000 {
      SmallMod(|b|, TWO_60);
      SmallMod(|b|, 0x1_0000);
      assert rest[..|b|] == b && rest[|b|..] == suffix;
    }
  }

  // The buffer.

  class MessageBuffer {
    var data: Bytes

    constructor (bytes: Bytes)
      ensures data == bytes
    {
      data := bytes;
    }

    method Push(b: uint8)
      modifies this
      ensures data == old(data) + [b]
    {
      data := data + [b];
    }

    method PushAll(b: Bytes)
      modifies this
      ensures data == old(data) + b
    {
      data := data + b;
    }

    method Pop() returns (r: Result<uint8, ReadError>)
      modifies this
      ensures Outcome(r, data) == ReadUint8(old(data))
    {
      if data == [] {
        return Failure(EmptyBuffer);
      }
      r := Success(data[0]);
      data := data[1..];
    }

    method PopFrontOf(len: uint16) returns (r: Result<Bytes, ReadError>)
      modifies this
      ensures Outcome(r, data) == PopFront(old(data), len)
    {
      if len == 0 {
        return Success([]);
      }
      if len > |data| {
        return Failure(OutOfRange);
      }
      r := Success(data[..len]);
      data := data[len..];
    }

    method WriteUint64(v: uint64)
      modifies this
      ensures data == old(data) + BigEndian(v, 8)
    {
      SwappedCopy(v);
      var val := SwapBytes(v);
      PushAll(LittleEndian(val, 8));
    }

    method ReadUint64Value() returns (r: Result<uint64, ReadError>)
      modifies this
      ensures Outcome(r, data) == ReadUint64(old(data))
    {
      if data == [] {
        return Failure(EmptyBuffer);
      }
      if |data| < 8 {
        return Failure(ShortBuffer);
      }
      CopiedSwap(data[..8]);
      var val := FromLittleEndian(data[..8]);
      data := data[8..];
      r := Success(SwapBytes(val));
    }

    method WriteVar(v: UintVar)
      modifies this
      ensures data == old(data) + EncodeVar(v)
    {
      if v < 0x80 {
        PushFirst(v, 1);
        return;
      }
      if v < 0x4000 {
        PushFirst(v, 2);
        PushLow(v, 0, 1);
        return;
      }
      if v < 0x2000_0000 {
        PushFirst(v, 4);
        PushLow(v, 16, 1);
        PushLow(v, 8, 2);
        PushLow(v, 0, 3);
        return;
      }
      WriteVar8(v);
    }

    method WriteVar8(v: UintVar)
      requires 0x2000_0000 <= v
      modifies this
      ensures data == old(data) + EncodeVar(v)
    {
      PushFirst(v, 8);
      PushLow(v, 48, 1);
      PushLow(v, 40, 2);
      PushLow(v, 32, 3);
      PushLow(v, 24, 4);
      PushLow(v, 16, 5);
      PushLow(v, 8, 6);
      PushLow(v, 0, 7);
    }

    /** The first byte: the top bits of the value under the tag of the length. */
    method PushFirst(v: UintVar, n: VarLength)
      requires n == LengthFor(v)
      modifies this
      ensures data == old(data) + [EncodeVar(v)[0]]
    {
      var first: nat;
      if n == 1 {
        first := KeepLow(Shr64(v, 0), 7, 0x7F);
        first := JoinBits(0x00, first, 0, 7);
      } else if n == 2 {
        first := KeepLow(Shr64(v, 8), 6, 0x3F);
        first := SetBit(first, 0x80, 0, 7);
      } else if n == 4 {
        first := KeepLow(Shr64(v, 24), 5, 0x1F);
        first := SetBit(first, 0x80, 0, 7);
        first := SetBit(first, 0x40, 1, 6);
      } else {
        first := KeepLow(Shr64(v, 56), 4, 0x0F);
        first := SetBit(first, 0x80, 0, 7);
        first := SetBit(first, 0x40, 1, 6);
        first := SetBit(first, 0x20, 3, 5);
      }
      Push(first);
    }

    /** The byte of `v` at bit position `shift`, which comes at `index` in the
        encoding. */
    method PushLow(v: UintVar, shift: nat, ghost index: nat)
      requires 0 < index < LengthFor(v) && shift == 8 * (LengthFor(v) - 1 - index)
      modifies this
      ensures data == old(data) + [EncodeVar(v)[index]]
    {
      EncodeVarAt(v, index);
      Push(And(Shr64(v, shift), 0xFF));
    }

    /** Pop, seen as reading the byte at `index` of a run. */
    method Next(ghost whole: Bytes, ghost index: nat) returns (r: Result<uint8, ReadError>)
      requires index <= |whole| && data == whole[index..]
      modifies this
      ensures index < |whole| ==> r == Success(whole[index]) && data == whole[index + 1..]
      ensures index == |whole| ==> r == Failure(EmptyBuffer) && data == []
    {
      r := Pop();
    }

    method ReadVar() returns (r: Result<UintVar, ReadError>)
      modifies this
      ensures Outcome(r, data) == DecodeVar(old(data))
    {
      if data == [] {
        return Failure(EmptyBuffer);
      }
      var first := data[0];
      ghost var s := data;
      var n := FormOf(first);
      if n == 1 {
        var head := Next(s, 0);
        var top := KeepLow(head.value, 7, 0x7F);
        Sum1(top);
        DecodeVarOf(s, [top]);
        r := Success(top);
      } else if n == 2 {
        r := ReadVar2();
      } else if n == 4 {
        r := ReadVar4();
      } else {
        r := ReadVar8();
      }
    }

    method ReadVar2() returns (r: Result<UintVar, ReadError>)
      requires data != [] && LengthFrom(data[0]) == 2
      modifies this
      ensures Outcome(r, data) == DecodeVar(old(data))
    {
      ghost var s := data;
      var head := Next(s, 0);
      var top := KeepLow(head.value, 6, 0x3F);
      var b0 :- Next(s, 1);
      DecodeVarOf(s, [top, b0]);
      Sum2(top, b0);
      return Success(Join2(top, b0));
    }

    method ReadVar4() returns (r: Result<UintVar, ReadError>)
      requires data != [] && LengthFrom(data[0]) == 4
      modifies this
      ensures Outcome(r, data) == DecodeVar(old(data))
    {
      ghost var s := data;
      var head := Next(s, 0);
      var top := KeepLow(head.value, 5, 0x1F);
      var b2 :- Next(s, 1);
      var b1 :- Next(s, 2);
      var b0 :- Next(s, 3);
      DecodeVarOf(s, [top, b2, b1, b0]);
      Sum4(top, b2, b1, b0);
      return Success(Join4(top, b2, b1, b0));
    }

    method ReadVar8() returns (r: Result<UintVar, ReadError>)
      requires data != [] && LengthFrom(data[0]) == 8
      modifies this
      ensures Outcome(r, data) == DecodeVar(old(data))
    {
      ghost var s := data;
      var head := Next(s, 0);
      var top := KeepLow(head.value, 4, 0x0F);
      var b6 :- Next(s, 1);
      var b5 :- Next(s, 2);
      var b4 :- Next(s, 3);
      var b3 :- Next(s, 4);
      var b2 :- Next(s, 5);
      var b1 :- Next(s, 6);
      var b0 :- Next(s, 7);
      DecodeVarOf(s, [top, b6, b5, b4, b3, b2, b1, b0]);
      Sum8(top, b6, b5, b4, b3, b2, b1, b0);
      return Success(Join8(top, b6, b5, b4, b3, b2, b1, b0));
    }

    method WriteVector(b: Bytes)
      requires |b| < TWO_61
      modifies this
      ensures data == old(data) + EncodeVector(b)
    {
      WriteVar(|b|);
      PushAll(b);
    }

    method ReadVector() returns (r: Result<Bytes, ReadError>)
      modifies this
      ensures Outcome(r, data) == DecodeVector(old(data))
    {
      var size :- ReadVar();
      r := PopFrontOf(size % 0x1_0000);
    }
  }

  /** A reader's outcome together with what it left in the buffer. */
  function Outcome<T>(r: Result<T, ReadError>, data: Bytes): Read<T> {
    match r
    case Success(v) => Got(v, data)
    case Failure(e) => Threw(e, data)
  }

  // The bit-level form of the variable-length integers.

  lemma DecodeVarOf(s: Bytes, b: Bytes)
    requires s != [] && |b| == LengthFrom(s[0]) <= |s|
    requires b[0] == s[0] % Room(LengthFrom(s[0]))
    requires forall i :: 1 <= i < |b| ==> b[i] == s[i]
    ensures DecodeVar(s).Got? && DecodeVar(s).value == FromBigEndian(b) && DecodeVar(s).rest == s[|b|..]
  {
    assert [b[0]] + s[..|b|][1..] == b;
  }

  /** The bytes after the first, by shift and mask. */
  lemma EncodeVarAt(v: UintVar, i: nat)
    requires 0 < i < LengthFor(v)
    ensures EncodeVar(v)[i] == And(Shr64(v, 8 * (LengthFor(v) - 1 - i)), 0xFF)
  {
    BigEndianByte(v, LengthFor(v) - 1, i - 1);
  }

  /** The tests on the first byte: which of the four lengths it announces. */
  method FormOf(first: uint8) returns (n: VarLength)
    ensures n == LengthFrom(first)
  {
    Pow2Small();
    var high := KeepHigh(first, 7, 8, 0x80);
    if high == 0 {
      return 1;
    }
    high := KeepHigh(first, 6, 8, 0xC0);
    if high == 0x80 {
      return 2;
    }
    high := KeepHigh(first, 5, 8, 0xE0);
    n := if high == 0xC0 then 4 else 8;
  }
}
