/** The message codecs of src/encode.cpp. For every message there is the form on
    the wire, the reader as a function on bytes, the two in-place operators
    proved against them, and the round trip. */
module Messages {
  import opened Bits
  import opened ByteOrder
  import opened MessageBuffers
  import opened Names
  import opened Namespaces
  import opened Wrappers

  // MessageType
  const SUBSCRIBE: uint8 := 1
  const SUBSCRIBE_RESPONSE: uint8 := 2
  const SUBSCRIBE_END: uint8 := 3
  const UNSUBSCRIBE: uint8 := 4
  const PUBLISH: uint8 := 5
  const PUBLISH_INTENT: uint8 := 6
  const PUBLISH_INTENT_RESPONSE: uint8 := 7
  const PUBLISH_INTENT_END: uint8 := 8

  // MediaType
  const REALTIME_MEDIA: uint8 := 3

  // Enumerations other than the message type travel as the byte they are cast to.

  datatype Subscribe = Subscribe(version: uint8, transactionId: uint64, ns: Namespace, intent: uint8)
  datatype Unsubscribe = Unsubscribe(version: uint8, ns: Namespace)
  datatype SubscribeResponse = SubscribeResponse(ns: Namespace, response: uint8, transactionId: uint64)
  datatype SubscribeEnd = SubscribeEnd(ns: Namespace, reason: uint8)
  datatype PublishIntent = PublishIntent(
    messageType: uint8, transactionId: uint64, ns: Namespace, payload: Bytes,
    mediaId: UintVar, datagramCapable: UintVar)
  datatype PublishIntentResponse = PublishIntentResponse(
    messageType: uint8, ns: Namespace, response: uint8, transactionId: uint64)
  datatype PublishIntentEnd = PublishIntentEnd(messageType: uint8, ns: Namespace, payload: Bytes)
  datatype Header = Header(
    mediaId: UintVar, name: Name, groupId: UintVar, objectId: UintVar,
    offsetAndFin: UintVar, flags: uint8)
  datatype PublishDatagram = PublishDatagram(
    header: Header, mediaType: uint8, mediaDataLength: UintVar, mediaData: Bytes)
  datatype PublishStream = PublishStream(mediaDataLength: UintVar, mediaData: Bytes)

  // Names and namespaces.

  function EncodeName(n: Name): (s: Bytes)
    ensures |s| == 16
  {
    BigEndian(n.hi, 8) + BigEndian(n.low, 8)
  }

  /** The sixteen bytes are read one at a time. */
  function ReadName(s: Bytes): Read<Name> {
    var (b, rest) :- ReadBytes(s, 16);
    Got(NameOfBytes(b), rest)
  }

  function NameOfBytes(b: Bytes): Name
    requires |b| == 16
  {
    LimbBound(b[..8]);
    LimbBound(b[8..]);
    Name(FromBigEndian(b[..8]), FromBigEndian(b[8..]))
  }

  function EncodeNamespace(ns: Namespace): (s: Bytes)
    ensures |s| == 17
  {
    EncodeName(ns.name) + [ns.sigBits]
  }

  function ReadNamespace(s: Bytes): Read<Namespace> {
    var (name, s1) :- ReadName(s);
    var (sigBits, s2) :- ReadUint8(s1);
    Got(MakeNamespace(name, sigBits), s2)
  }

  /** The namespace a reader makes of the bytes of `ns`. */
  function Remasked(ns: Namespace): Namespace {
    MakeNamespace(ns.name, ns.sigBits)
  }

  /** The value a reader makes of the bytes of `v`. */
  function Low60(v: UintVar): UintVar {
    v % TWO_60
  }

  lemma NameRoundTrip(n: Name, suffix: Bytes)
    ensures ReadName(EncodeName(n) + suffix) == Got(n, suffix)
  {
    var a, b := BigEndian(n.hi, 8), BigEndian(n.low, 8);
    var s := EncodeName(n) + suffix;
    assert s[..16] == a + b && s[16..] == suffix;
    assert (a + b)[..8] == a && (a + b)[8..] == b;
    LimbRoundTrip(n.hi);
    LimbRoundTrip(n.low);
  }

  lemma LimbRoundTrip(v: uint64)
    ensures FromBigEndian(BigEndian(v, 8)) == v
  {
    BigEndianRoundTrip(v, 8);
    Pow2Limb();
    SmallMod(v, TWO_64);
  }

  /** A namespace comes back masked, so unchanged exactly when it was masked. */
  lemma NamespaceRoundTrip(ns: Namespace, suffix: Bytes)
    ensures ReadNamespace(EncodeNamespace(ns) + suffix) == Got(Remasked(ns), suffix)
    ensures Remasked(ns) == ns <==> Masked(ns)
  {
    assert EncodeNamespace(ns) + suffix == EncodeName(ns.name) + ([ns.sigBits] + suffix);
    NameRoundTrip(ns.name, [ns.sigBits] + suffix);
  }

  lemma NameByte(n: Name, i: nat)
    requires i < 16
    ensures ByteAt(n, i) == EncodeName(n)[15 - i]
  {
    if i < 8 {
      BigEndianByte(n.low, 8, 7 - i);
    } else {
      BigEndianByte(n.hi, 8, 15 - i);
    }
  }

  method WriteName(msg: MessageBuffer, n: Name)
    modifies msg
    ensures msg.data == old(msg.data) + EncodeName(n)
  {
    var i := 15;
    while i >= 0
      invariant -1 <= i <= 15
      invariant msg.data == old(msg.data) + EncodeName(n)[..15 - i]
    {
      NameByte(n, i);
      msg.Push(ByteAt(n, i));
      i := i - 1;
    }
  }

  method ReadNameFrom(msg: MessageBuffer) returns (r: Result<Name, ReadError>)
    modifies msg
    ensures Outcome(r, msg.data) == ReadName(old(msg.data))
  {
    var bytes := new uint8[16];
    ghost var s := msg.data;
    var i := 15;
    while i >= 0
      invariant -1 <= i <= 15 && 15 - i <= |s|
      invariant msg.data == s[15 - i..]
      invariant forall k :: i < k <= 15 ==> bytes[k] == s[15 - k]
    {
      var b :- msg.Next(s, 15 - i);
      bytes[i] := b;
      i := i - 1;
    }
    LittleIsReversedBig(bytes[..8], s[..16][8..]);
    LittleIsReversedBig(bytes[8..], s[..16][..8]);
    LimbBound(s[..16][..8]);
    LimbBound(s[..16][8..]);
    return Success(Name(FromLittleEndian(bytes[8..]), FromLittleEndian(bytes[..8])));
  }

  method WriteNamespace(msg: MessageBuffer, ns: Namespace)
    modifies msg
    ensures msg.data == old(msg.data) + EncodeNamespace(ns)
  {
    WriteName(msg, ns.name);
    msg.Push(ns.sigBits);
  }

  method ReadNamespaceFrom(msg: MessageBuffer) returns (r: Result<Namespace, ReadError>)
    modifies msg
    ensures Outcome(r, msg.data) == ReadNamespace(old(msg.data))
  {
    var name :- ReadNameFrom(msg);
    var sigBits :- msg.Pop();
    return Success(MakeNamespace(name, sigBits));
  }

  // Subscribe. The version field is not on the wire: the reader leaves that of
  // the object it fills as it was.

  function EncodeSubscribe(m: Subscribe): Bytes {
    [SUBSCRIBE] + BigEndian(m.transactionId, 8) + EncodeNamespace(m.ns) + [m.intent]
  }

  function DecodeSubscribe(s: Bytes, into: Subscribe): Read<Subscribe> {
    var (t, s1) :- ReadUint8(s);
    if t != SUBSCRIBE then Threw(WrongMessageType, s1)
    else
      var (id, s2) :- ReadUint64(s1);
      var (ns, s3) :- ReadNamespace(s2);
      var (intent, s4) :- ReadUint8(s3);
      Got(Subscribe(into.version, id, ns, intent), s4)
  }

  lemma SubscribeRoundTrip(m: Subscribe, into: Subscribe, suffix: Bytes)
    ensures DecodeSubscribe(EncodeSubscribe(m) + suffix, into)
         == Got(m.(version := into.version, ns := Remasked(m.ns)), suffix)
  {
    var s3 := [m.intent] + suffix;
    var s2 := EncodeNamespace(m.ns) + s3;
    var s1 := BigEndian(m.transactionId, 8) + s2;
    assert EncodeSubscribe(m) + suffix == [SUBSCRIBE] + s1;
    Uint64RoundTrip(m.transactionId, s2);
    NamespaceRoundTrip(m.ns, s3);
  }

  method WriteSubscribe(msg: MessageBuffer, m: Subscribe)
    modifies msg
    ensures msg.data == old(msg.data) + EncodeSubscribe(m)
  {
    msg.Push(SUBSCRIBE);
    msg.WriteUint64(m.transactionId);
    WriteNamespace(msg, m.ns);
    msg.Push(m.intent);
  }

  method ReadSubscribe(msg: MessageBuffer, into: Subscribe) returns (r: Result<Subscribe, ReadError>)
    modifies msg
    ensures Outcome(r, msg.data) == DecodeSubscribe(old(msg.data), into)
  {
    var t :- msg.Pop();
    if t != SUBSCRIBE {
      return Failure(WrongMessageType);
    }
    var id :- msg.ReadUint64Value();
    var ns :- ReadNamespaceFrom(msg);
    var intent :- msg.Pop();
    return Success(Subscribe(into.version, id, ns, intent));
  }

  // Unsubscribe.

  function EncodeUnsubscribe(m: Unsubscribe): Bytes {
    [UNSUBSCRIBE] + EncodeNamespace(m.ns)
  }

  function DecodeUnsubscribe(s: Bytes, into: Unsubscribe): Read<Unsubscribe> {
    var (t, s1) :- ReadUint8(s);
    if t != UNSUBSCRIBE then Threw(WrongMessageType, s1)
    else
      var (ns, s2) :- ReadNamespace(s1);
      Got(Unsubscribe(into.version, ns), s2)
  }

  lemma UnsubscribeRoundTrip(m: Unsubscribe, into: Unsubscribe, suffix: Bytes)
    ensures DecodeUnsubscribe(EncodeUnsubscribe(m) + suffix, into)
         == Got(Unsubscribe(into.version, Remasked(m.ns)), suffix)
  {
    assert EncodeUnsubscribe(m) + suffix == [UNSUBSCRIBE] + (EncodeNamespace(m.ns) + suffix);
    NamespaceRoundTrip(m.ns, suffix);
  }

  method WriteUnsubscribe(msg: MessageBuffer, m: Unsubscribe)
    modifies msg
    ensures msg.data == old(msg.data) + EncodeUnsubscribe(m)
  {
    msg.Push(UNSUBSCRIBE);
    WriteNamespace(msg, m.ns);
  }

  method ReadUnsubscribe(msg: MessageBuffer, into: Unsubscribe) returns (r: Result<Unsubscribe, ReadError>)
    modifies msg
    ensures Outcome(r, msg.data) == DecodeUnsubscribe(old(msg.data), into)
  {
    var t :- msg.Pop();
    if t != UNSUBSCRIBE {
      return Failure(WrongMessageType);
    }
    var ns :- ReadNamespaceFrom(msg);
    return Success(Unsubscribe(into.version, ns));
  }

  // SubscribeResponse.

  function EncodeSubscribeResponse(m: SubscribeResponse): Bytes {
    [SUBSCRIBE_RESPONSE] + [m.response] + BigEndian(m.transactionId, 8) + EncodeNamespace(m.ns)
  }

  function DecodeSubscribeResponse(s: Bytes): Read<SubscribeResponse> {
    var (t, s1) :- ReadUint8(s);
    if t != SUBSCRIBE_RESPONSE then Threw(WrongMessageType, s1)
    else
      var (response, s2) :- ReadUint8(s1);
      var (id, s3) :- ReadUint64(s2);
      var (ns, s4) :- ReadNamespace(s3);
      Got(SubscribeResponse(ns, response, id), s4)
  }

  lemma SubscribeResponseRoundTrip(m: SubscribeResponse, suffix: Bytes)
    ensures DecodeSubscribeResponse(EncodeSubscribeResponse(m) + suffix)
         == Got(m.(ns := Remasked(m.ns)), suffix)
  {
    var s3 := EncodeNamespace(m.ns) + suffix;
    var s2 := BigEndian(m.transactionId, 8) + s3;
    assert EncodeSubscribeResponse(m) + suffix == [SUBSCRIBE_RESPONSE] + ([m.response] + s2);
    Uint64RoundTrip(m.transactionId, s3);
    NamespaceRoundTrip(m.ns, suffix);
  }

  method WriteSubscribeResponse(msg: MessageBuffer, m: SubscribeResponse)
    modifies msg
    ensures msg.data == old(msg.data) + EncodeSubscribeResponse(m)
  {
    msg.Push(SUBSCRIBE_RESPONSE);
    msg.Push(m.response);
    msg.WriteUint64(m.transactionId);
    WriteNamespace(msg, m.ns);
  }

  method ReadSubscribeResponse(msg: MessageBuffer) returns (r: Result<SubscribeResponse, ReadError>)
    modifies msg
    ensures Outcome(r, msg.data) == DecodeSubscribeResponse(old(msg.data))
  {
    var t :- msg.Pop();
    if t != SUBSCRIBE_RESPONSE {
      return Failure(WrongMessageType);
    }
    var response :- msg.Pop();
    var id :- msg.ReadUint64Value();
    var ns :- ReadNamespaceFrom(msg);
    return Success(SubscribeResponse(ns, response, id));
  }

  // SubscribeEnd.

  function EncodeSubscribeEnd(m: SubscribeEnd): Bytes {
    [SUBSCRIBE_END] + [m.reason] + EncodeNamespace(m.ns)
  }

  function DecodeSubscribeEnd(s: Bytes): Read<SubscribeEnd> {
    var (t, s1) :- ReadUint8(s);
    if t != SUBSCRIBE_END then Threw(WrongMessageType, s1)
    else
      var (reason, s2) :- ReadUint8(s1);
      var (ns, s3) :- ReadNamespace(s2);
      Got(SubscribeEnd(ns, reason), s3)
  }

  lemma SubscribeEndRoundTrip(m: SubscribeEnd, suffix: Bytes)
    ensures DecodeSubscribeEnd(EncodeSubscribeEnd(m) + suffix) == Got(m.(ns := Remasked(m.ns)), suffix)
  {
    var s2 := EncodeNamespace(m.ns) + suffix;
    assert EncodeSubscribeEnd(m) + suffix == [SUBSCRIBE_END] + ([m.reason] + s2);
    NamespaceRoundTrip(m.ns, suffix);
  }

  method WriteSubscribeEnd(msg: MessageBuffer, m: SubscribeEnd)
    modifies msg
    ensures msg.data == old(msg.data) + EncodeSubscribeEnd(m)
  {
    msg.Push(SUBSCRIBE_END);
    msg.Push(m.reason);
    WriteNamespace(msg, m.ns);
  }

  method ReadSubscribeEnd(msg: MessageBuffer) returns (r: Result<SubscribeEnd, ReadError>)
    modifies msg
    ensures Outcome(r, msg.data) == DecodeSubscribeEnd(old(msg.data))
  {
    var t :- msg.Pop();
    if t != SUBSCRIBE_END {
      return Failure(WrongMessageType);
    }
    var reason :- msg.Pop();
    var ns :- ReadNamespaceFrom(msg);
    return Success(SubscribeEnd(ns, reason));
  }

  /** Six parts, appended one by one and read one by one. */
  lemma SixParts<T>(o: seq<T>, a: seq<T>, b: seq<T>, c: seq<T>, d: seq<T>, e: seq<T>, f: seq<T>, suffix: seq<T>)
    ensures o + a + b + c + d + e + f == o + (a + b + c + d + e + f)
    ensures (a + b + c + d + e + f) + suffix == a + (b + (c + (d + (e + (f + suffix)))))
  {}

  // PublishIntent. Its reader accepts any message type.

  function EncodePublishIntent(m: PublishIntent): Bytes
    requires |m.payload| < TWO_61
  {
    [m.messageType] + BigEndian(m.transactionId, 8) + EncodeNamespace(m.ns)
    + EncodeVector(m.payload) + EncodeVar(m.mediaId) + EncodeVar(m.datagramCapable)
  }

  function DecodePublishIntent(s: Bytes): Read<PublishIntent> {
    var (t, s1) :- ReadUint8(s);
    var (id, s2) :- ReadUint64(s1);
    var (ns, s3) :- ReadNamespace(s2);
    var (payload, s4) :- DecodeVector(s3);
    var (mediaId, s5) :- DecodeVar(s4);
    var (capable, s6) :- DecodeVar(s5);
    Got(PublishIntent(t, id, ns, payload, mediaId, capable), s6)
  }

  lemma PublishIntentRoundTrip(m: PublishIntent, suffix: Bytes)
    requires |m.payload| < 0x1_0000
    ensures DecodePublishIntent(EncodePublishIntent(m) + suffix)
         == Got(m.(ns := Remasked(m.ns), mediaId := Low60(m.mediaId),
                   datagramCapable := Low60(m.datagramCapable)), suffix)
  {
    var s5 := EncodeVar(m.datagramCapable) + suffix;
    var s4 := EncodeVar(m.mediaId) + s5;
    var s3 := EncodeVector(m.payload) + s4;
    var s2 := EncodeNamespace(m.ns) + s3;
    var s1 := BigEndian(m.transactionId, 8) + s2;
    SixParts([], [m.messageType], BigEndian(m.transactionId, 8), EncodeNamespace(m.ns), EncodeVector(m.payload),
      EncodeVar(m.mediaId), EncodeVar(m.datagramCapable), suffix);
    Uint64RoundTrip(m.transactionId, s2);
    NamespaceRoundTrip(m.ns, s3);
    VectorRoundTrip(m.payload, s4);
    VarRoundTrip(m.mediaId, s5);
    VarRoundTrip(m.datagramCapable, suffix);
  }

  method WritePublishIntent(msg: MessageBuffer, m: PublishIntent)
    requires |m.payload| < TWO_61
    modifies msg
    ensures msg.data == old(msg.data) + EncodePublishIntent(m)
  {
    msg.Push(m.messageType);
    msg.WriteUint64(m.transactionId);
    WriteNamespace(msg, m.ns);
    msg.WriteVector(m.payload);
    msg.WriteVar(m.mediaId);
    msg.WriteVar(m.datagramCapable);
    SixParts(old(msg.data), [m.messageType], BigEndian(m.transactionId, 8), EncodeNamespace(m.ns),
      EncodeVector(m.payload), EncodeVar(m.mediaId), EncodeVar(m.datagramCapable), []);
  }

  method ReadPublishIntent(msg: MessageBuffer) returns (r: Result<PublishIntent, ReadError>)
    modifies msg
    ensures Outcome(r, msg.data) == DecodePublishIntent(old(msg.data))
  {
    var t :- msg.Pop();
    var id :- msg.ReadUint64Value();
    var ns :- ReadNamespaceFrom(msg);
    var payload :- msg.ReadVector();
    var mediaId :- msg.ReadVar();
    var capable :- msg.ReadVar();
    return Success(PublishIntent(t, id, ns, payload, mediaId, capable));
  }

  // PublishIntentResponse.

  function EncodePublishIntentResponse(m: PublishIntentResponse): Bytes {
    [m.messageType] + EncodeNamespace(m.ns) + [m.response] + BigEndian(m.transactionId, 8)
  }

  function DecodePublishIntentResponse(s: Bytes): Read<PublishIntentResponse> {
    var (t, s1) :- ReadUint8(s);
    var (ns, s2) :- ReadNamespace(s1);
    var (response, s3) :- ReadUint8(s2);
    var (id, s4) :- ReadUint64(s3);
    Got(PublishIntentResponse(t, ns, response, id), s4)
  }

  lemma PublishIntentResponseRoundTrip(m: PublishIntentResponse, suffix: Bytes)
    ensures DecodePublishIntentResponse(EncodePublishIntentResponse(m) + suffix)
         == Got(m.(ns := Remasked(m.ns)), suffix)
  {
    var s3 := BigEndian(m.transactionId, 8) + suffix;
    var s2 := [m.response] + s3;
    assert EncodePublishIntentResponse(m) + suffix == [m.messageType] + (EncodeNamespace(m.ns) + s2);
    NamespaceRoundTrip(m.ns, s2);
    Uint64RoundTrip(m.transactionId, suffix);
  }

  method WritePublishIntentResponse(msg: MessageBuffer, m: PublishIntentResponse)
    modifies msg
    ensures msg.data == old(msg.data) + EncodePublishIntentResponse(m)
  {
    msg.Push(m.messageType);
    WriteNamespace(msg, m.ns);
    msg.Push(m.response);
    msg.WriteUint64(m.transactionId);
  }

  method ReadPublishIntentResponse(msg: MessageBuffer)
    returns (r: Result<PublishIntentResponse, ReadError>)
    modifies msg
    ensures Outcome(r, msg.data) == DecodePublishIntentResponse(old(msg.data))
  {
    var t :- msg.Pop();
    var ns :- ReadNamespaceFrom(msg);
    var response :- msg.Pop();
    var id :- msg.ReadUint64Value();
    return Success(PublishIntentResponse(t, ns, response, id));
  }

  // PublishIntentEnd.

  function EncodePublishIntentEnd(m: PublishIntentEnd): Bytes
    requires |m.payload| < TWO_61
  {
    [m.messageType] + EncodeNamespace(m.ns) + EncodeVector(m.payload)
  }

  function DecodePublishIntentEnd(s: Bytes): Read<PublishIntentEnd> {
    var (t, s1) :- ReadUint8(s);
    var (ns, s2) :- ReadNamespace(s1);
    var (payload, s3) :- DecodeVector(s2);
    Got(PublishIntentEnd(t, ns, payload), s3)
  }

  lemma PublishIntentEndRoundTrip(m: PublishIntentEnd, suffix: Bytes)
    requires |m.payload| < 0x1_0000
    ensures DecodePublishIntentEnd(EncodePublishIntentEnd(m) + suffix)
         == Got(m.(ns := Remasked(m.ns)), suffix)
  {
    var s2 := EncodeVector(m.payload) + suffix;
    assert EncodePublishIntentEnd(m) + suffix == [m.messageType] + (EncodeNamespace(m.ns) + s2);
    NamespaceRoundTrip(m.ns, s2);
    VectorRoundTrip(m.payload, suffix);
  }

  method WritePublishIntentEnd(msg: MessageBuffer, m: PublishIntentEnd)
    requires |m.payload| < TWO_61
    modifies msg
    ensures msg.data == old(msg.data) + EncodePublishIntentEnd(m)
  {
    msg.Push(m.messageType);
    WriteNamespace(msg, m.ns);
    msg.WriteVector(m.payload);
  }

  method ReadPublishIntentEnd(msg: MessageBuffer) returns (r: Result<PublishIntentEnd, ReadError>)
    modifies msg
    ensures Outcome(r, msg.data) == DecodePublishIntentEnd(old(msg.data))
  {
    var t :- msg.Pop();
    var ns :- ReadNamespaceFrom(msg);
    var payload :- msg.ReadVector();
    return Success(PublishIntentEnd(t, ns, payload));
  }

  // Header.

  function EncodeHeader(h: Header): (s: Bytes)
    ensures |s| <= 16 + 4 * 8 + 1
  {
    EncodeName(h.name) + EncodeVar(h.mediaId) + EncodeVar(h.groupId) + EncodeVar(h.objectId)
    + EncodeVar(h.offsetAndFin) + [h.flags]
  }

  function DecodeHeader(s: Bytes): Read<Header> {
    var (name, s1) :- ReadName(s);
    var (mediaId, s2) :- DecodeVar(s1);
    var (groupId, s3) :- DecodeVar(s2);
    var (objectId, s4) :- DecodeVar(s3);
    var (offsetAndFin, s5) :- DecodeVar(s4);
    var (flags, s6) :- ReadUint8(s5);
    Got(Header(mediaId, name, groupId, objectId, offsetAndFin, flags), s6)
  }

  /** The header a reader makes of the bytes of `h`. */
  function ReadBack(h: Header): Header {
    Header(Low60(h.mediaId), h.name, Low60(h.groupId), Low60(h.objectId), Low60(h.offsetAndFin), h.flags)
  }

  lemma HeaderRoundTrip(h: Header, suffix: Bytes)
    ensures DecodeHeader(EncodeHeader(h) + suffix) == Got(ReadBack(h), suffix)
  {
    var s5 := [h.flags] + suffix;
    var s4 := EncodeVar(h.offsetAndFin) + s5;
    var s3 := EncodeVar(h.objectId) + s4;
    var s2 := EncodeVar(h.groupId) + s3;
    var s1 := EncodeVar(h.mediaId) + s2;
    SixParts([], EncodeName(h.name), EncodeVar(h.mediaId), EncodeVar(h.groupId), EncodeVar(h.objectId),
      EncodeVar(h.offsetAndFin), [h.flags], suffix);
    NameRoundTrip(h.name, s1);
    VarRoundTrip(h.mediaId, s2);
    VarRoundTrip(h.groupId, s3);
    VarRoundTrip(h.objectId, s4);
    VarRoundTrip(h.offsetAndFin, s5);
  }

  method WriteHeader(msg: MessageBuffer, h: Header)
    modifies msg
    ensures msg.data == old(msg.data) + EncodeHeader(h)
  {
    WriteName(msg, h.name);
    msg.WriteVar(h.mediaId);
    msg.WriteVar(h.groupId);
    msg.WriteVar(h.objectId);
    msg.WriteVar(h.offsetAndFin);
    msg.Push(h.flags);
    SixParts(old(msg.data), EncodeName(h.name), EncodeVar(h.mediaId), EncodeVar(h.groupId), EncodeVar(h.objectId),
      EncodeVar(h.offsetAndFin), [h.flags], []);
  }

  method ReadHeader(msg: MessageBuffer) returns (r: Result<Header, ReadError>)
    modifies msg
    ensures Outcome(r, msg.data) == DecodeHeader(old(msg.data))
  {
    var name :- ReadNameFrom(msg);
    var mediaId :- msg.ReadVar();
    var groupId :- msg.ReadVar();
    var objectId :- msg.ReadVar();
    var offsetAndFin :- msg.ReadVar();
    var flags :- msg.Pop();
    return Success(Header(mediaId, name, groupId, objectId, offsetAndFin, flags));
  }

  // PublishDatagram.

  function EncodePublish(m: PublishDatagram): (s: Bytes)
    requires |m.mediaData| < TWO_61
  {
    [PUBLISH] + EncodeHeader(m.header) + [m.mediaType] + EncodeVar(m.mediaDataLength)
    + EncodeVector(m.mediaData)
  }

  function DecodePublish(s: Bytes): Read<PublishDatagram> {
    var (t, s1) :- ReadUint8(s);
    if t != PUBLISH then Threw(WrongMessageType, s1)
    else
      var (header, s2) :- DecodeHeader(s1);
      var (mediaType, s3) :- ReadUint8(s2);
      var (length, s4) :- DecodeVar(s3);
      var (data, s5) :- DecodeVector(s4);
      if |data| != length then Threw(WrongLength, s5)
      else Got(PublishDatagram(header, mediaType, length, data), s5)
  }

  lemma PublishRoundTrip(m: PublishDatagram, suffix: Bytes)
    requires |m.mediaData| < 0x1_0000
    ensures DecodePublish(EncodePublish(m) + suffix)
         == if Low60(m.mediaDataLength) == |m.mediaData|
            then Got(m.(header := ReadBack(m.header), mediaDataLength := |m.mediaData|), suffix)
            else Threw(WrongLength, suffix)
  {
    var s4 := EncodeVector(m.mediaData) + suffix;
    var s3 := EncodeVar(m.mediaDataLength) + s4;
    var s2 := [m.mediaType] + s3;
    var s1 := EncodeHeader(m.header) + s2;
    assert EncodePublish(m) + suffix == [PUBLISH] + s1;
    HeaderRoundTrip(m.header, s2);
    VarRoundTrip(m.mediaDataLength, s4);
    VectorRoundTrip(m.mediaData, suffix);
  }

  method WritePublish(msg: MessageBuffer, m: PublishDatagram)
    requires |m.mediaData| < TWO_61
    modifies msg
    ensures msg.data == old(msg.data) + EncodePublish(m)
  {
    msg.Push(PUBLISH);
    WriteHeader(msg, m.header);
    msg.Push(m.mediaType);
    msg.WriteVar(m.mediaDataLength);
    msg.WriteVector(m.mediaData);
  }

  method ReadPublish(msg: MessageBuffer) returns (r: Result<PublishDatagram, ReadError>)
    modifies msg
    ensures Outcome(r, msg.data) == DecodePublish(old(msg.data))
  {
    var t :- msg.Pop();
    if t != PUBLISH {
      return Failure(WrongMessageType);
    }
    var header :- ReadHeader(msg);
    var mediaType :- msg.Pop();
    var length :- msg.ReadVar();
    var data :- msg.ReadVector();
    if |data| != length {
      return Failure(WrongLength);
    }
    return Success(PublishDatagram(header, mediaType, length, data));
  }

  // PublishStream.

  function EncodePublishStream(m: PublishStream): Bytes
    requires |m.mediaData| < TWO_61
  {
    EncodeVar(m.mediaDataLength) + EncodeVector(m.mediaData)
  }

  function DecodePublishStream(s: Bytes): Read<PublishStream> {
    var (length, s1) :- DecodeVar(s);
    var (data, s2) :- DecodeVector(s1);
    if |data| != length then Threw(WrongLength, s2)
    else Got(PublishStream(length, data), s2)
  }

  lemma PublishStreamRoundTrip(m: PublishStream, suffix: Bytes)
    requires |m.mediaData| < 0x1_0000
    ensures DecodePublishStream(EncodePublishStream(m) + suffix)
         == if Low60(m.mediaDataLength) == |m.mediaData|
            then Got(m.(mediaDataLength := |m.mediaData|), suffix)
            else Threw(WrongLength, suffix)
  {
    var s1 := EncodeVector(m.mediaData) + suffix;
    assert EncodePublishStream(m) + suffix == EncodeVar(m.mediaDataLength) + s1;
    VarRoundTrip(m.mediaDataLength, s1);
    VectorRoundTrip(m.mediaData, suffix);
  }

  method WritePublishStream(msg: MessageBuffer, m: PublishStream)
    requires |m.mediaData| < TWO_61
    modifies msg
    ensures msg.data == old(msg.data) + EncodePublishStream(m)
  {
    msg.WriteVar(m.mediaDataLength);
    msg.WriteVector(m.mediaData);
  }

  method ReadPublishStream(msg: MessageBuffer) returns (r: Result<PublishStream, ReadError>)
    modifies msg
    ensures Outcome(r, msg.data) == DecodePublishStream(old(msg.data))
  {
    var length :- msg.ReadVar();
    var data :- msg.ReadVector();
    if |data| != length {
      return Failure(WrongLength);
    }
    return Success(PublishStream(length, data));
  }
}
