/** The messages as bytes (src/encode.cpp): what stands where, and that a message
    cut short or of another type is refused. */
module WireFormat {
  import opened Bits
  import opened ByteOrder
  import opened MessageBuffers
  import opened Messages
  import opened Names
  import opened Namespaces

  // Layout.

  lemma {:induction false} FromBigEndianConcat(a: Bytes, b: Bytes)
    ensures FromBigEndian(a + b) == FromBigEndian(a) * Pow2(8 * |b|) + FromBigEndian(b)
    decreases |b|
  {
    if |b| == 0 {
      assert a + b == a;
    } else {
      var init, last := b[..|b| - 1], b[|b| - 1];
      FromBigEndianConcat(a, init);
      assert (a + b)[..|a + b| - 1] == a + init;
      Pow2Byte(|b|);
      MulAssoc(FromBigEndian(a), 256, Pow2(8 * |init|));
    }
  }

  /** The sixteen bytes of a name are its 128-bit number, most significant first. */
  lemma NameAsNumber(n: Name)
    ensures FromBigEndian(EncodeName(n)) == n.Num()
  {
    FromBigEndianConcat(BigEndian(n.hi, 8), BigEndian(n.low, 8));
    LimbRoundTrip(n.hi);
    LimbRoundTrip(n.low);
    Pow2Limb();
  }

  /** Seventeen bytes that hold a namespace. */
  predicate HoldsNamespace(s: Bytes, ns: Namespace) {
    |s| == 17 && FromBigEndian(s[..16]) == ns.name.Num() && s[16] == ns.sigBits
  }

  lemma NamespaceHeld(ns: Namespace)
    ensures HoldsNamespace(EncodeNamespace(ns), ns)
  {
    NameAsNumber(ns.name);
    assert EncodeNamespace(ns)[..16] == EncodeName(ns.name);
  }

  /** A variable-length integer, read as one number: below the tag of its length
      stands the value. */
  lemma VarAsNumber(v: UintVar)
    ensures FromBigEndian(EncodeVar(v)) ==
      if v < 0x80 then v
      else if v < 0x4000 then 0x8000 + v
      else if v < 0x2000_0000 then 0xC000_0000 + v
      else 0xE000_0000_0000_0000 + v % 0x1000_0000_0000_0000
  {
    TaggedValue(v, LengthFor(v));
    TagValue(LengthFor(v));
    if v < 0x2000_0000 {
      SmallMod(v, TWO_60);
    }
  }

  lemma TaggedValue(v: UintVar, n: VarLength)
    requires n == LengthFor(v)
    ensures FromBigEndian(EncodeVar(v)) == Tag(n) * Pow2(8 * (n - 1)) + v % TWO_60
  {
    var p := Pow2(8 * (n - 1));
    var head, others := (v / p) % Room(n), BigEndian(v, n - 1);
    FromBigEndianCons(Tag(n) + head, others);
    FromBigEndianCons(head, others);
    VarValue(v, n);
    Distribute(Tag(n), head, p);
  }

  lemma TagValue(n: VarLength)
    ensures Tag(n) * Pow2(8 * (n - 1)) ==
      if n == 1 then 0 else if n == 2 then 0x8000 else if n == 4 then 0xC000_0000 else 0xE000_0000_0000_0000
  {
    CapacityValue(n);
  }

  lemma Distribute(a: nat, b: nat, c: nat)
    ensures (a + b) * c == a * c + b * c
  {}

  lemma SubscribeLayout(m: Subscribe)
    ensures var s := EncodeSubscribe(m);
      && |s| == 27 && s[0] == 1 && FromBigEndian(s[1..9]) == m.transactionId
      && HoldsNamespace(s[9..26], m.ns) && s[26] == m.intent
  {
    var s := EncodeSubscribe(m);
    assert s[1..9] == BigEndian(m.transactionId, 8) && s[9..26] == EncodeNamespace(m.ns);
    LimbRoundTrip(m.transactionId);
    NamespaceHeld(m.ns);
  }

  lemma UnsubscribeLayout(m: Unsubscribe)
    ensures var s := EncodeUnsubscribe(m);
      |s| == 18 && s[0] == 4 && HoldsNamespace(s[1..], m.ns)
  {
    assert EncodeUnsubscribe(m)[1..] == EncodeNamespace(m.ns);
    NamespaceHeld(m.ns);
  }

  lemma SubscribeResponseLayout(m: SubscribeResponse)
    ensures var s := EncodeSubscribeResponse(m);
      && |s| == 27 && s[0] == 2 && s[1] == m.response
      && FromBigEndian(s[2..10]) == m.transactionId && HoldsNamespace(s[10..], m.ns)
  {
    var s := EncodeSubscribeResponse(m);
    assert s[2..10] == BigEndian(m.transactionId, 8) && s[10..] == EncodeNamespace(m.ns);
    LimbRoundTrip(m.transactionId);
    NamespaceHeld(m.ns);
  }

  lemma SubscribeEndLayout(m: SubscribeEnd)
    ensures var s := EncodeSubscribeEnd(m);
      |s| == 19 && s[0] == 3 && s[1] == m.reason && HoldsNamespace(s[2..], m.ns)
  {
    assert EncodeSubscribeEnd(m)[2..] == EncodeNamespace(m.ns);
    NamespaceHeld(m.ns);
  }

  lemma PublishIntentLayout(m: PublishIntent)
    requires |m.payload| < TWO_61
    ensures var s := EncodePublishIntent(m);
      && |s| > 26 && s[0] == m.messageType && FromBigEndian(s[1..9]) == m.transactionId
      && HoldsNamespace(s[9..26], m.ns)
      && s[26..] == EncodeVar(|m.payload|) + m.payload + EncodeVar(m.mediaId) + EncodeVar(m.datagramCapable)
  {
    var s := EncodePublishIntent(m);
    assert s[1..9] == BigEndian(m.transactionId, 8) && s[9..26] == EncodeNamespace(m.ns);
    LimbRoundTrip(m.transactionId);
    NamespaceHeld(m.ns);
  }

  lemma PublishIntentResponseLayout(m: PublishIntentResponse)
    ensures var s := EncodePublishIntentResponse(m);
      && |s| == 27 && s[0] == m.messageType && HoldsNamespace(s[1..18], m.ns) && s[18] == m.response
      && FromBigEndian(s[19..]) == m.transactionId
  {
    var s := EncodePublishIntentResponse(m);
    assert s[1..18] == EncodeNamespace(m.ns) && s[19..] == BigEndian(m.transactionId, 8);
    LimbRoundTrip(m.transactionId);
    NamespaceHeld(m.ns);
  }

  lemma PublishIntentEndLayout(m: PublishIntentEnd)
    requires |m.payload| < TWO_61
    ensures var s := EncodePublishIntentEnd(m);
      && |s| > 18 && s[0] == m.messageType && HoldsNamespace(s[1..18], m.ns)
      && s[18..] == EncodeVar(|m.payload|) + m.payload
  {
    assert EncodePublishIntentEnd(m)[1..18] == EncodeNamespace(m.ns);
    NamespaceHeld(m.ns);
  }

  lemma PublishLayout(m: PublishDatagram)
    requires |m.mediaData| < TWO_61
    ensures var s, h := EncodePublish(m), m.header;
      && |s| > 17 && s[0] == 5 && FromBigEndian(s[1..17]) == h.name.Num()
      && s[17..] == EncodeVar(h.mediaId) + EncodeVar(h.groupId) + EncodeVar(h.objectId)
          + EncodeVar(h.offsetAndFin) + [h.flags] + [m.mediaType] + EncodeVar(m.mediaDataLength)
          + EncodeVar(|m.mediaData|) + m.mediaData
  {
    var h := m.header;
    SplitAfterName(EncodeName(h.name), EncodeVar(h.mediaId), EncodeVar(h.groupId), EncodeVar(h.objectId),
      EncodeVar(h.offsetAndFin), [h.flags], [m.mediaType], EncodeVar(m.mediaDataLength), EncodeVar(|m.mediaData|),
      m.mediaData);
    NameAsNumber(h.name);
  }

  lemma SplitAfterName(n: Bytes, a: Bytes, b: Bytes, c: Bytes, d: Bytes, f: Bytes, t: Bytes, l: Bytes, k: Bytes,
      data: Bytes)
    requires |n| == 16
    ensures var s := [PUBLISH] + (n + a + b + c + d + f) + t + l + (k + data);
      |s| >= 17 && s[1..17] == n && s[17..] == a + b + c + d + f + t + l + k + data
  {
    var head := a + b + c + d + f;
    assert n + a + b + c + d + f == n + head;
    AfterName(n, head, t, l, k + data);
    assert head + t + l + (k + data) == head + t + l + k + data;
  }

  lemma AfterName(n: Bytes, head: Bytes, t: Bytes, l: Bytes, v: Bytes)
    requires |n| == 16
    ensures var s := [PUBLISH] + (n + head) + t + l + v;
      |s| >= 17 && s[1..17] == n && s[17..] == head + t + l + v
  {}

  // A reader looks no further than it reads: bytes after a message make no difference.

  lemma NameExtends(s: Bytes, t: Bytes)
    ensures ReadName(s).Got? ==> ReadName(s + t) == Got(ReadName(s).value, ReadName(s).rest + t)
  {
    if |s| >= 16 {
      assert (s + t)[..16] == s[..16] && (s + t)[16..] == s[16..] + t;
    }
  }

  lemma ByteExtends(s: Bytes, t: Bytes)
    ensures ReadUint8(s).Got? ==> ReadUint8(s + t) == Got(ReadUint8(s).value, ReadUint8(s).rest + t)
  {
    if s != [] {
      assert (s + t)[1..] == s[1..] + t;
    }
  }

  lemma Uint64Extends(s: Bytes, t: Bytes)
    ensures ReadUint64(s).Got? ==> ReadUint64(s + t) == Got(ReadUint64(s).value, ReadUint64(s).rest + t)
  {
    if |s| >= 8 {
      assert (s + t)[..8] == s[..8] && (s + t)[8..] == s[8..] + t;
    }
  }

  lemma NamespaceExtends(s: Bytes, t: Bytes)
    ensures ReadNamespace(s).Got? ==>
      ReadNamespace(s + t) == Got(ReadNamespace(s).value, ReadNamespace(s).rest + t)
  {
    NameExtends(s, t);
    if ReadName(s).Got? {
      ByteExtends(ReadName(s).rest, t);
    }
  }

  lemma VarExtends(s: Bytes, t: Bytes)
    ensures DecodeVar(s).Got? ==> DecodeVar(s + t) == Got(DecodeVar(s).value, DecodeVar(s).rest + t)
  {
    if s != [] && LengthFrom(s[0]) <= |s| {
      var n := LengthFrom(s[0]);
      assert (s + t)[..n] == s[..n] && (s + t)[n..] == s[n..] + t;
    }
  }

  lemma VectorExtends(s: Bytes, t: Bytes)
    ensures DecodeVector(s).Got? ==> DecodeVector(s + t) == Got(DecodeVector(s).value, DecodeVector(s).rest + t)
  {
    VarExtends(s, t);
    if DecodeVar(s).Got? {
      var rest, size := DecodeVar(s).rest, DecodeVar(s).value % 0x1_0000;
      if size <= |rest| {
        assert (rest + t)[..size] == rest[..size] && (rest + t)[size..] == rest[size..] + t;
      }
    }
  }

  lemma HeaderExtends(s: Bytes, t: Bytes)
    ensures DecodeHeader(s).Got? ==> DecodeHeader(s + t) == Got(DecodeHeader(s).value, DecodeHeader(s).rest + t)
  {
    if DecodeHeader(s).Got? {
      var s1 := ReadName(s).rest;
      var s2 := DecodeVar(s1).rest;
      var s3 := DecodeVar(s2).rest;
      var s4 := DecodeVar(s3).rest;
      var s5 := DecodeVar(s4).rest;
      NameExtends(s, t);
      VarExtends(s1, t);
      VarExtends(s2, t);
      VarExtends(s3, t);
      VarExtends(s4, t);
      ByteExtends(s5, t);
    }
  }

  lemma SubscribeExtends(s: Bytes, t: Bytes, into: Subscribe)
    ensures DecodeSubscribe(s, into).Got? ==>
      DecodeSubscribe(s + t, into) == Got(DecodeSubscribe(s, into).value, DecodeSubscribe(s, into).rest + t)
  {
    if DecodeSubscribe(s, into).Got? {
      var s1 := ReadUint8(s).rest;
      var s2 := ReadUint64(s1).rest;
      var s3 := ReadNamespace(s2).rest;
      ByteExtends(s, t);
      Uint64Extends(s1, t);
      NamespaceExtends(s2, t);
      ByteExtends(s3, t);
    }
  }

  lemma UnsubscribeExtends(s: Bytes, t: Bytes, into: Unsubscribe)
    ensures DecodeUnsubscribe(s, into).Got? ==>
      DecodeUnsubscribe(s + t, into) == Got(DecodeUnsubscribe(s, into).value, DecodeUnsubscribe(s, into).rest + t)
  {
    if DecodeUnsubscribe(s, into).Got? {
      ByteExtends(s, t);
      NamespaceExtends(ReadUint8(s).rest, t);
    }
  }

  lemma SubscribeResponseExtends(s: Bytes, t: Bytes)
    ensures DecodeSubscribeResponse(s).Got? ==>
      DecodeSubscribeResponse(s + t) == Got(DecodeSubscribeResponse(s).value, DecodeSubscribeResponse(s).rest + t)
  {
    if DecodeSubscribeResponse(s).Got? {
      var s1 := ReadUint8(s).rest;
      var s2 := ReadUint8(s1).rest;
      var s3 := ReadUint64(s2).rest;
      ByteExtends(s, t);
      ByteExtends(s1, t);
      Uint64Extends(s2, t);
      NamespaceExtends(s3, t);
    }
  }

  lemma SubscribeEndExtends(s: Bytes, t: Bytes)
    ensures DecodeSubscribeEnd(s).Got? ==>
      DecodeSubscribeEnd(s + t) == Got(DecodeSubscribeEnd(s).value, DecodeSubscribeEnd(s).rest + t)
  {
    if DecodeSubscribeEnd(s).Got? {
      var s1 := ReadUint8(s).rest;
      ByteExtends(s, t);
      ByteExtends(s1, t);
      NamespaceExtends(ReadUint8(s1).rest, t);
    }
  }

  lemma PublishIntentExtends(s: Bytes, t: Bytes)
    ensures DecodePublishIntent(s).Got? ==>
      DecodePublishIntent(s + t) == Got(DecodePublishIntent(s).value, DecodePublishIntent(s).rest + t)
  {
    if DecodePublishIntent(s).Got? {
      var s1 := ReadUint8(s).rest;
      var s2 := ReadUint64(s1).rest;
      var s3 := ReadNamespace(s2).rest;
      var s4 := DecodeVector(s3).rest;
      var s5 := DecodeVar(s4).rest;
      ByteExtends(s, t);
      Uint64Extends(s1, t);
      NamespaceExtends(s2, t);
      VectorExtends(s3, t);
      VarExtends(s4, t);
      VarExtends(s5, t);
    }
  }

  lemma PublishIntentResponseExtends(s: Bytes, t: Bytes)
    ensures var r := DecodePublishIntentResponse(s);
      r.Got? ==> DecodePublishIntentResponse(s + t) == Got(r.value, r.rest + t)
  {
    if DecodePublishIntentResponse(s).Got? {
      var s1 := ReadUint8(s).rest;
      var s2 := ReadNamespace(s1).rest;
      var s3 := ReadUint8(s2).rest;
      ByteExtends(s, t);
      NamespaceExtends(s1, t);
      ByteExtends(s2, t);
      Uint64Extends(s3, t);
    }
  }

  lemma PublishIntentEndExtends(s: Bytes, t: Bytes)
    ensures DecodePublishIntentEnd(s).Got? ==>
      DecodePublishIntentEnd(s + t) == Got(DecodePublishIntentEnd(s).value, DecodePublishIntentEnd(s).rest + t)
  {
    if DecodePublishIntentEnd(s).Got? {
      var s1 := ReadUint8(s).rest;
      ByteExtends(s, t);
      NamespaceExtends(s1, t);
      VectorExtends(ReadNamespace(s1).rest, t);
    }
  }

  lemma PublishExtends(s: Bytes, t: Bytes)
    ensures DecodePublish(s).Got? ==>
      DecodePublish(s + t) == Got(DecodePublish(s).value, DecodePublish(s).rest + t)
  {
    if DecodePublish(s).Got? {
      var s1 := ReadUint8(s).rest;
      var s2 := DecodeHeader(s1).rest;
      var s3 := ReadUint8(s2).rest;
      var s4 := DecodeVar(s3).rest;
      ByteExtends(s, t);
      HeaderExtends(s1, t);
      ByteExtends(s2, t);
      VarExtends(s3, t);
      VectorExtends(s4, t);
    }
  }

  // When a reader fails, and what it leaves.

  lemma Uint64Fails(s: Bytes)
    ensures ReadUint64(s).Threw? <==> |s| < 8
    ensures |s| < 8 ==> ReadUint64(s) == Threw(if s == [] then EmptyBuffer else ShortBuffer, s)
  {}

  /** How many bytes a variable-length integer takes, by its first byte. */
  function VarSize(first: uint8): nat {
    if first < 0x80 then 1 else if first < 0xC0 then 2 else if first < 0xE0 then 4 else 8
  }

  /** The bytes are taken one at a time, so all of them are gone. */
  lemma VarFails(s: Bytes)
    ensures DecodeVar(s).Threw? <==> s == [] || |s| < VarSize(s[0])
    ensures DecodeVar(s).Threw? ==> DecodeVar(s) == Threw(EmptyBuffer, [])
  {}

  lemma NameFails(s: Bytes)
    ensures ReadName(s).Threw? <==> |s| < 16
    ensures |s| < 16 ==> ReadName(s) == Threw(EmptyBuffer, [])
  {}

  /** A vector that promises more than there is leaves all but the length. */
  lemma VectorFails(s: Bytes)
    requires DecodeVar(s).Got?
    ensures var size, rest := DecodeVar(s).value % 0x1_0000, DecodeVar(s).rest;
      && (DecodeVector(s).Threw? <==> size > |rest|)
      && (size > |rest| ==> DecodeVector(s) == Threw(OutOfRange, rest))
  {}

  // Cut short anywhere, a message is refused.

  lemma Uncut(e: Bytes, k: nat)
    requires k < |e|
    ensures e == e[..k] + e[k..] && e[k..] != [] && e + [] == e
  {}

  lemma SubscribeCut(m: Subscribe, into: Subscribe, k: nat)
    requires k < |EncodeSubscribe(m)|
    ensures DecodeSubscribe(EncodeSubscribe(m)[..k], into).Threw?
  {
    var e := EncodeSubscribe(m);
    Uncut(e, k);
    SubscribeRoundTrip(m, into, []);
    SubscribeExtends(e[..k], e[k..], into);
  }

  lemma UnsubscribeCut(m: Unsubscribe, into: Unsubscribe, k: nat)
    requires k < |EncodeUnsubscribe(m)|
    ensures DecodeUnsubscribe(EncodeUnsubscribe(m)[..k], into).Threw?
  {
    var e := EncodeUnsubscribe(m);
    Uncut(e, k);
    UnsubscribeRoundTrip(m, into, []);
    UnsubscribeExtends(e[..k], e[k..], into);
  }

  lemma SubscribeResponseCut(m: SubscribeResponse, k: nat)
    requires k < |EncodeSubscribeResponse(m)|
    ensures DecodeSubscribeResponse(EncodeSubscribeResponse(m)[..k]).Threw?
  {
    var e := EncodeSubscribeResponse(m);
    Uncut(e, k);
    SubscribeResponseRoundTrip(m, []);
    SubscribeResponseExtends(e[..k], e[k..]);
  }

  lemma SubscribeEndCut(m: SubscribeEnd, k: nat)
    requires k < |EncodeSubscribeEnd(m)|
    ensures DecodeSubscribeEnd(EncodeSubscribeEnd(m)[..k]).Threw?
  {
    var e := EncodeSubscribeEnd(m);
    Uncut(e, k);
    SubscribeEndRoundTrip(m, []);
    SubscribeEndExtends(e[..k], e[k..]);
  }

  lemma PublishIntentCut(m: PublishIntent, k: nat)
    requires |m.payload| < 0x1_0000 && k < |EncodePublishIntent(m)|
    ensures DecodePublishIntent(EncodePublishIntent(m)[..k]).Threw?
  {
    var e := EncodePublishIntent(m);
    Uncut(e, k);
    PublishIntentRoundTrip(m, []);
    PublishIntentExtends(e[..k], e[k..]);
  }

  lemma PublishIntentResponseCut(m: PublishIntentResponse, k: nat)
    requires k < |EncodePublishIntentResponse(m)|
    ensures DecodePublishIntentResponse(EncodePublishIntentResponse(m)[..k]).Threw?
  {
    var e := EncodePublishIntentResponse(m);
    Uncut(e, k);
    PublishIntentResponseRoundTrip(m, []);
    PublishIntentResponseExtends(e[..k], e[k..]);
  }

  lemma PublishIntentEndCut(m: PublishIntentEnd, k: nat)
    requires |m.payload| < 0x1_0000 && k < |EncodePublishIntentEnd(m)|
    ensures DecodePublishIntentEnd(EncodePublishIntentEnd(m)[..k]).Threw?
  {
    var e := EncodePublishIntentEnd(m);
    Uncut(e, k);
    PublishIntentEndRoundTrip(m, []);
    PublishIntentEndExtends(e[..k], e[k..]);
  }

  lemma PublishCut(m: PublishDatagram, k: nat)
    requires |m.mediaData| < 0x1_0000 && k < |EncodePublish(m)|
    ensures DecodePublish(EncodePublish(m)[..k]).Threw?
  {
    var e := EncodePublish(m);
    Uncut(e, k);
    PublishRoundTrip(m, []);
    PublishExtends(e[..k], e[k..]);
  }

  /** The readers that look at the type refuse any other. */
  lemma WrongTypeRefused(s: Bytes, subscribe: Subscribe, unsubscribe: Unsubscribe)
    requires s != []
    ensures s[0] != 1 ==> DecodeSubscribe(s, subscribe) == Threw(WrongMessageType, s[1..])
    ensures s[0] != 4 ==> DecodeUnsubscribe(s, unsubscribe) == Threw(WrongMessageType, s[1..])
    ensures s[0] != 2 ==> DecodeSubscribeResponse(s) == Threw(WrongMessageType, s[1..])
    ensures s[0] != 3 ==> DecodeSubscribeEnd(s) == Threw(WrongMessageType, s[1..])
    ensures s[0] != 5 ==> DecodePublish(s) == Threw(WrongMessageType, s[1..])
  {}
}
