/** Publishing a named object (src/quicr_client.cpp, publishNamedObject): small
    objects travel whole, larger ones in blocks tagged with offset and fin. */
module Fragmentation {
  import opened Bits
  import opened ByteOrder
  import opened MessageBuffers
  import opened Messages
  import opened Names
  import opened Wrappers

  const MAX_TRANSPORT_DATA_SIZE := 1200

  /** The offset travels shifted left by one in an `int`: from this offset on the
      shift overflows and the conversion to a variable-length integer throws. */
  const OFFSET_LIMIT := 0x4000_0000

  /** How many blocks of an object lie below that offset. */
  const BLOCK_LIMIT := (OFFSET_LIMIT + MAX_TRANSPORT_DATA_SIZE - 1) / MAX_TRANSPORT_DATA_SIZE

  function BlockCount(size: nat): nat {
    (size + MAX_TRANSPORT_DATA_SIZE - 1) / MAX_TRANSPORT_DATA_SIZE
  }

  function BlockStart(i: nat): nat {
    i * MAX_TRANSPORT_DATA_SIZE
  }

  function BlockEnd(data: Bytes, i: nat): nat {
    if BlockStart(i + 1) <= |data| then BlockStart(i + 1) else |data|
  }

  function Block(data: Bytes, i: nat): Bytes
    requires i < BlockCount(|data|)
  {
    data[BlockStart(i)..BlockEnd(data, i)]
  }

  /** The tag of block `i`: twice its offset, plus one on the last. */
  function BlockTag(data: Bytes, i: nat): nat
    requires i < BlockCount(|data|)
  {
    2 * BlockStart(i) + if i + 1 == BlockCount(|data|) then 1 else 0
  }

  function ObjectDatagram(name: Name, streamId: UintVar, tag: UintVar, data: Bytes): PublishDatagram
    requires |data| < TWO_61
  {
    PublishDatagram(Header(streamId, name, 0, 0, tag, 0), REALTIME_MEDIA, |data|, data)
  }

  /** The message of an object that travels whole. */
  function WholeMessage(name: Name, streamId: UintVar, data: Bytes): Bytes
    requires |data| <= MAX_TRANSPORT_DATA_SIZE
  {
    EncodePublish(ObjectDatagram(name, streamId, 1, data))
  }

  /** Block `i` of an object, as a datagram. */
  function Fragment(name: Name, streamId: UintVar, data: Bytes, i: nat): PublishDatagram
    requires i < BlockCount(|data|) && i < BLOCK_LIMIT
  {
    ObjectDatagram(name, streamId, BlockTag(data, i), Block(data, i))
  }

  function FragmentBytes(name: Name, streamId: UintVar, data: Bytes, i: nat): Bytes
    requires i < BlockCount(|data|) && i < BLOCK_LIMIT
  {
    EncodePublish(Fragment(name, streamId, data, i))
  }

  /** How many blocks can be sent before the offset grows too large. */
  function SendableCount(size: nat): nat {
    if BlockCount(size) <= BLOCK_LIMIT then BlockCount(size) else BLOCK_LIMIT
  }

  /** The messages of an object that is sent in blocks, in order. */
  ghost function FragmentMessages(name: Name, streamId: UintVar, data: Bytes): (s: seq<Bytes>)
    ensures |s| == SendableCount(|data|)
    ensures IsFragmentMessages(s, name, streamId, data)
  {
    seq(SendableCount(|data|), i requires 0 <= i < SendableCount(|data|) =>
      FragmentBytes(name, streamId, data, i))
  }

  ghost predicate IsFragmentMessages(s: seq<Bytes>, name: Name, streamId: UintVar, data: Bytes)
    requires |s| == SendableCount(|data|)
  {
    forall i {:trigger FragmentBytes(name, streamId, data, i)} ::
      0 <= i < |s| ==> s[i] == FragmentBytes(name, streamId, data, i)
  }

  /** How a call ends: everything was handed to the transport, the transport
      refused the last message handed to it, or an exception left the call. */
  datatype Publication = Done | Dropped | Aborted

  /** `accepts(k)` says whether the transport accepts the k-th message of this
      call; `sent` lists the messages handed to it. */
  method PublishNamedObject(name: Name, streamId: uint64, data: Bytes, accepts: nat -> bool)
    returns (sent: seq<Bytes>, outcome: Publication)
    requires |data| < MAX_TRANSPORT_DATA_SIZE * TWO_31
    ensures streamId >= TWO_61 ==> sent == [] && outcome.Aborted?
    ensures streamId < TWO_61 && |data| <= MAX_TRANSPORT_DATA_SIZE ==>
      sent == [WholeMessage(name, streamId, data)] && outcome.Done?
    ensures streamId < TWO_61 && |data| > MAX_TRANSPORT_DATA_SIZE ==>
      && sent <= FragmentMessages(name, streamId, data)
      && (forall i :: 0 <= i < |sent| - 1 ==> accepts(i))
      && (outcome.Done? ==> |sent| == BlockCount(|data|) && accepts(|sent| - 1))
      && (outcome.Dropped? ==> |sent| > 0 && !accepts(|sent| - 1))
      && (outcome.Aborted? ==> |sent| == BLOCK_LIMIT < BlockCount(|data|) && accepts(|sent| - 1))
  {
    sent := [];
    if streamId >= TWO_61 {
      return sent, Aborted;
    }
    if |data| <= MAX_TRANSPORT_DATA_SIZE {
      var msg := EncodeDatagram(ObjectDatagram(name, streamId, 1, data));
      return [msg], Done;
    }
    sent, outcome := PublishFragments(name, streamId, data, accepts, FragmentMessages(name, streamId, data));
  }

  /** The fragmenting loop; `messages` is what it should send. */
  method PublishFragments(name: Name, streamId: UintVar, data: Bytes, accepts: nat -> bool,
      ghost messages: seq<Bytes>)
    returns (sent: seq<Bytes>, outcome: Publication)
    requires MAX_TRANSPORT_DATA_SIZE < |data| < MAX_TRANSPORT_DATA_SIZE * TWO_31
    requires |messages| == SendableCount(|data|) && IsFragmentMessages(messages, name, streamId, data)
    ensures sent <= messages
    ensures forall i :: 0 <= i < |sent| - 1 ==> accepts(i)
    ensures outcome.Done? ==> |sent| == BlockCount(|data|) && accepts(|sent| - 1)
    ensures outcome.Dropped? ==> |sent| > 0 && !accepts(|sent| - 1)
    ensures outcome.Aborted? ==> |sent| == BLOCK_LIMIT < BlockCount(|data|) && accepts(|sent| - 1)
  {
    sent := [];
    var fragNum := ToInt32(|data| / MAX_TRANSPORT_DATA_SIZE);
    var fragRemainingBytes := |data| % MAX_TRANSPORT_DATA_SIZE;
    var offset := 0;
    while fragNum > 0
      invariant 0 <= fragNum == |data| / MAX_TRANSPORT_DATA_SIZE - |sent|
      invariant offset == BlockStart(|sent|)
      invariant sent <= messages
      invariant forall i :: 0 <= i < |sent| ==> accepts(i)
    {
      fragNum := fragNum - 1;
      var fin := fragNum == 0 && fragRemainingBytes == 0;
      var msg := FragmentMessage(name, streamId, data, offset, offset + MAX_TRANSPORT_DATA_SIZE, fin,
        |sent|, messages);
      if msg.None? {
        return sent, Aborted;
      }
      offset := offset + MAX_TRANSPORT_DATA_SIZE;
      sent := sent + [msg.value];
      if !accepts(|sent| - 1) {
        return sent, Dropped;
      }
    }
    if fragRemainingBytes != 0 {
      var msg := FragmentMessage(name, streamId, data, offset, |data|, true, |sent|, messages);
      if msg.None? {
        return sent, Aborted;
      }
      sent := sent + [msg.value];
      if !accepts(|sent| - 1) {
        return sent, Dropped;
      }
    }
    outcome := Done;
  }

  /** Tagging and encoding of block `i`; None stands for the exception thrown
      when the shifted offset leaves the range of `int`. */
  method FragmentMessage(name: Name, streamId: UintVar, data: Bytes, offset: nat, end: nat, fin: bool,
      ghost i: nat, ghost messages: seq<Bytes>)
    returns (msg: Option<Bytes>)
    requires |messages| == SendableCount(|data|) && IsFragmentMessages(messages, name, streamId, data)
    requires |data| < MAX_TRANSPORT_DATA_SIZE * TWO_31
    requires i < BlockCount(|data|) && i <= BLOCK_LIMIT
    requires offset == BlockStart(i) && end == BlockEnd(data, i)
    requires fin <==> i + 1 == BlockCount(|data|)
    ensures msg.None? <==> i == BLOCK_LIMIT
    ensures msg.Some? ==> msg.value == messages[i]
  {
    var tag := ToInt32(offset * 2);
    if fin {
      tag := tag + 1;
    }
    if tag < 0 {
      return None;
    }
    assert messages[i] == FragmentBytes(name, streamId, data, i);
    var bytes := EncodeDatagram(ObjectDatagram(name, streamId, tag, data[offset..end]));
    msg := Some(bytes);
  }

  method EncodeDatagram(m: PublishDatagram) returns (bytes: Bytes)
    requires |m.mediaData| < TWO_61
    ensures bytes == EncodePublish(m)
  {
    var msg := new MessageBuffer([]);
    WritePublish(msg, m);
    assert msg.data == EncodePublish(m);
    bytes := msg.data;
  }

  // Properties.

  lemma BlockBounds(data: Bytes, i: nat)
    requires i < BlockCount(|data|)
    ensures 1 <= |Block(data, i)| <= 1200
    ensures i + 1 < BlockCount(|data|) ==> |Block(data, i)| == 1200
    ensures i + 1 == BlockCount(|data|) <==> BlockEnd(data, i) == |data|
  {}

  /** The blocks from `i` on, joined. */
  ghost function JoinBlocks(data: Bytes, i: nat): Bytes
    requires i <= BlockCount(|data|)
    decreases BlockCount(|data|) - i
  {
    if i == BlockCount(|data|) then [] else Block(data, i) + JoinBlocks(data, i + 1)
  }

  /** The blocks partition the object: joined in order they give it back. */
  lemma {:induction false} BlocksPartition(data: Bytes, i: nat)
    requires i < BlockCount(|data|)
    ensures JoinBlocks(data, i) == data[BlockStart(i)..]
    decreases BlockCount(|data|) - i
  {
    BlockBounds(data, i);
    if i + 1 < BlockCount(|data|) {
      BlocksPartition(data, i + 1);
    } else {
      assert JoinBlocks(data, i + 1) == [];
    }
  }

  /** The tags rise with the block number, are odd on the last block only, and
      none is the tag of an unfragmented object. */
  lemma BlockTags(data: Bytes, i: nat, j: nat)
    requires MAX_TRANSPORT_DATA_SIZE < |data| && i < j < BlockCount(|data|)
    ensures BlockTag(data, i) < BlockTag(data, j)
    ensures BlockTag(data, i) / 2 == BlockStart(i) && BlockTag(data, i) % 2 == 0
    ensures BlockTag(data, j) / 2 == BlockStart(j) && BlockTag(data, j) != 1
    ensures BlockTag(data, j) % 2 == 1 <==> j + 1 == BlockCount(|data|)
  {}

  /** Every block of an object is sent exactly when its last offset stays below
      2^30, which every object of at most 2^30 bytes meets. */
  lemma SendableIff(size: nat)
    requires 0 < size
    ensures BlockCount(size) <= BLOCK_LIMIT <==> BlockStart(BlockCount(size) - 1) < 0x4000_0000
    ensures size <= 0x4000_0000 ==> BlockCount(size) <= BLOCK_LIMIT
  {}

  /** A datagram carries at most 55 bytes beside the data, inside the 66 the
      data size limit allows for. */
  lemma DatagramOverhead(m: PublishDatagram)
    requires |m.mediaData| <= MAX_TRANSPORT_DATA_SIZE && m.mediaDataLength == |m.mediaData|
    ensures |EncodePublish(m)| <= |m.mediaData| + 55
  {}

  /** A fragment survives the wire; only a stream id of 2^60 or more is altered. */
  lemma FragmentOnWire(name: Name, streamId: UintVar, data: Bytes, i: nat)
    requires MAX_TRANSPORT_DATA_SIZE < |data| && i < BlockCount(|data|) && i < BLOCK_LIMIT
    ensures DecodePublish(FragmentBytes(name, streamId, data, i))
         == Got(Fragment(name, Low60(streamId), data, i), [])
    ensures Fragment(name, Low60(streamId), data, i) == PublishDatagram(
      Header(Low60(streamId), name, 0, 0, BlockTag(data, i), 0), 3, |Block(data, i)|, Block(data, i))
  {
    BlockBounds(data, i);
    DatagramOnWire(name, streamId, BlockTag(data, i), Block(data, i));
  }

  /** So does an object that travels whole, of at most 1200 bytes. */
  lemma WholeOnWire(name: Name, streamId: UintVar, data: Bytes)
    requires |data| <= 1200
    ensures DecodePublish(WholeMessage(name, streamId, data))
         == Got(PublishDatagram(Header(Low60(streamId), name, 0, 0, 1, 0), 3, |data|, data), [])
  {
    DatagramOnWire(name, streamId, 1, data);
  }

  lemma DatagramOnWire(name: Name, streamId: UintVar, tag: UintVar, data: Bytes)
    requires |data| <= MAX_TRANSPORT_DATA_SIZE && tag < TWO_60
    ensures DecodePublish(EncodePublish(ObjectDatagram(name, streamId, tag, data)))
         == Got(ObjectDatagram(name, Low60(streamId), tag, data), [])
  {
    var m := ObjectDatagram(name, streamId, tag, data);
    assert EncodePublish(m) + [] == EncodePublish(m);
    PublishRoundTrip(m, []);
    SmallMod(|data|, TWO_60);
    SmallMod(tag, TWO_60);
  }
}
