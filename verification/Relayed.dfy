/** From publisher through relay to subscriber: what the relay sends on for the
    blocks of an object rebuilds the object at the subscriber. */
module Relayed {
  import opened Bits
  import opened ByteOrder
  import opened CacheRuns
  import opened Client
  import opened ClientRuns
  import opened ClientTraffic
  import Dispatch
  import opened EndToEnd
  import opened Fragmentation
  import opened MessageBuffers
  import opened Messages
  import opened Names
  import opened Reassembly
  import opened Relay
  import Server
  import opened Wrappers

  /** A datagram that is read as it was written. */
  predicate Canonical(m: PublishDatagram) {
    && m.header.mediaId < TWO_60 && m.header.groupId < TWO_60 && m.header.objectId < TWO_60
    && m.header.offsetAndFin < TWO_60 && m.mediaDataLength == |m.mediaData|
  }

  /** Reading a datagram and writing it again gives the same bytes for exactly the
      canonical ones, among those a reader accepts. */
  lemma ReadAsWrittenIff(m: PublishDatagram)
    requires |m.mediaData| < 0x1_0000
    ensures DecodePublish(EncodePublish(m)) == Got(m, []) <==> Canonical(m)
  {
    assert EncodePublish(m) + [] == EncodePublish(m);
    PublishRoundTrip(m, []);
    ReadBackIff(m.header);
    SmallMod(|m.mediaData|, TWO_60);
  }

  lemma ReadBackIff(h: Header)
    ensures ReadBack(h) == h <==>
      h.mediaId < TWO_60 && h.groupId < TWO_60 && h.objectId < TWO_60 && h.offsetAndFin < TWO_60
  {
    Low60Iff(h.mediaId);
    Low60Iff(h.groupId);
    Low60Iff(h.objectId);
    Low60Iff(h.offsetAndFin);
  }

  lemma Low60Iff(v: UintVar)
    ensures Low60(v) == v <==> v < TWO_60
  {}

  /** A message that a transport hands to the server is received as the datagram
      read off it. */
  lemma ReceivedAs(contextId: Server.ContextId, streamId: Server.StreamId, msg: Bytes, m: PublishDatagram)
    requires DecodePublish(msg) == Got(m, [])
    ensures msg != [] && Server.EventOf(contextId, streamId, msg) == Some(Server.Publishing(contextId, streamId, m))
  {}

  /** In every reachable state, what the relay sends for a canonical datagram it
      receives is the message it received. */
  lemma SentAsReceived(
    events: seq<Server.ServerEvent>, contextId: Server.ContextId, streamId: Server.StreamId, m: PublishDatagram,
    o: Server.Output)
    requires Canonical(m) && |m.mediaData| < 0x1_0000
    requires o in RelayEffect(RelayRun(RelayStart(), events), Server.Publishing(contextId, streamId, m)).outputs
    ensures DecodePublish(EncodePublish(m)) == Got(m, []) && Dispatch.Wire(o) == EncodePublish(m)
  {
    ForwardedExactly(events, contextId, streamId, m, o);
    ReadAsWrittenIff(m);
  }

  /** At position `p` of its run the relay receives block `b` of the object and sends
      `o` for it. */
  ghost predicate RelaysBlock(
    events: seq<Server.ServerEvent>, p: nat, name: Name, streamId: UintVar, data: Bytes, b: nat, o: Server.Output)
    requires b < BlockCount(|data|) <= BLOCK_LIMIT
  {
    && p < |events| && events[p].Publishing?
    && events[p].datagram == Fragment(name, Low60(streamId), data, b)
    && o in RelayEffect(RelayRun(RelayStart(), events[..p]), events[p]).outputs
  }

  /** A block's message is received by the server as that block. */
  lemma BlockReceived(
    contextId: Server.ContextId, stream: Server.StreamId, name: Name, streamId: UintVar, data: Bytes, b: nat)
    requires MAX_TRANSPORT_DATA_SIZE < |data| && b < BlockCount(|data|) <= BLOCK_LIMIT
    ensures var msg := FragmentBytes(name, streamId, data, b);
      msg != [] && Server.EventOf(contextId, stream, msg)
        == Some(Server.Publishing(contextId, stream, Fragment(name, Low60(streamId), data, b)))
  {
    FragmentOnWire(name, streamId, data, b);
    ReceivedAs(contextId, stream, FragmentBytes(name, streamId, data, b), Fragment(name, Low60(streamId), data, b));
  }

  /** What the relay sends for a block is the block's message. */
  lemma RelayedBlock(
    events: seq<Server.ServerEvent>, p: nat, name: Name, streamId: UintVar, data: Bytes, b: nat, o: Server.Output)
    requires b < BlockCount(|data|) <= BLOCK_LIMIT && RelaysBlock(events, p, name, streamId, data, b, o)
    ensures Dispatch.Wire(o) == FragmentBytes(name, Low60(streamId), data, b)
  {
    var e := events[p];
    BlockBounds(data, b);
    ForwardedExactly(events[..p], e.contextId, e.streamId, e.datagram, o);
  }

  /** The relay sends a block to a subscriber exactly when the name is announced, its
      first publisher is not context 0 on stream 0, and the subscriber's id is alive
      with a subscription that contains the name. */
  lemma RelaysBlockIff(
    events: seq<Server.ServerEvent>, p: nat, name: Name, streamId: UintVar, data: Bytes, b: nat,
    id: Server.SubscriberId)
    requires b < BlockCount(|data|) <= BLOCK_LIMIT && p < |events| && events[p].Publishing?
    requires events[p].datagram == Fragment(name, Low60(streamId), data, b)
    ensures var r := RelayRun(RelayStart(), events[..p]);
      (exists o :: RelaysBlock(events, p, name, streamId, data, b, o) && o.Forwarded? && o.id == id) <==>
        && Server.Announced(r.server.publishNamespaces, name)
        && PublisherOf(r.server, events[p].contextId, events[p].streamId, name) != Server.PublishContext(0, 0)
        && id in r.server.subscribeIdState && Wants(RelayFlat(RelayStart(), {}, events[..p]), id, name)
  {
    var r, e := RelayRun(RelayStart(), events[..p]), events[p];
    if id in r.server.subscribeIdState {
      var c := r.server.subscribeIdState[id];
      var o := Server.Forwarded(id, c.contextId, c.streamId, e.datagram);
      ForwardedExactly(events[..p], e.contextId, e.streamId, e.datagram, o);
      if o in RelayEffect(r, e).outputs {
        assert RelaysBlock(events, p, name, streamId, data, b, o);
      }
    }
    forall o | RelaysBlock(events, p, name, streamId, data, b, o) && o.Forwarded? && o.id == id
      ensures Server.Announced(r.server.publishNamespaces, name)
      ensures PublisherOf(r.server, e.contextId, e.streamId, name) != Server.PublishContext(0, 0)
      ensures id in r.server.subscribeIdState && Wants(RelayFlat(RelayStart(), {}, events[..p]), id, name)
    {
      ForwardedExactly(events[..p], e.contextId, e.streamId, e.datagram, o);
    }
  }

  ghost function Wires(sent: seq<Server.Output>): (msgs: seq<Bytes>)
    ensures |msgs| == |sent|
    ensures forall j :: 0 <= j < |sent| ==> msgs[j] == Dispatch.Wire(sent[j])
  {
    seq(|sent|, j requires 0 <= j < |sent| => Dispatch.Wire(sent[j]))
  }

  /** What the relay sends for blocks is a choice of the messages of the object. */
  lemma RelayedBlocks(
    events: seq<Server.ServerEvent>, at: seq<nat>, sent: seq<Server.Output>,
    name: Name, streamId: UintVar, data: Bytes, arrivals: seq<nat>)
    requires BlockCount(|data|) <= BLOCK_LIMIT && ArrivalsOf(data, arrivals)
    requires |at| == |sent| == |arrivals|
    requires forall j :: 0 <= j < |sent| ==>
      RelaysBlock(events, at[j], name, streamId, data, arrivals[j], sent[j])
    ensures Wires(sent) == Transmitted(FragmentMessages(name, Low60(streamId), data), arrivals)
  {
    var messages := FragmentMessages(name, Low60(streamId), data);
    var msgs := Wires(sent);
    forall j | 0 <= j < |sent|
      ensures msgs[j] == messages[arrivals[j]]
    {
      RelayedBlock(events, at[j], name, streamId, data, arrivals[j], sent[j]);
      assert messages[arrivals[j]] == FragmentBytes(name, Low60(streamId), data, arrivals[j]);
    }
    ChosenMessages(messages, arrivals, msgs);
  }

  lemma ChosenMessages(messages: seq<Bytes>, arrivals: seq<nat>, msgs: seq<Bytes>)
    requires forall j :: 0 <= j < |arrivals| ==> arrivals[j] < |messages|
    requires |msgs| == |arrivals| && forall j :: 0 <= j < |msgs| ==> msgs[j] == messages[arrivals[j]]
    ensures msgs == Transmitted(messages, arrivals)
  {
    TransmittedAt(messages, arrivals);
  }

  /** From publisher through relay to subscriber. The relay, in any run from its
      start, receives blocks of an object and sends them on; what it sends for them
      reaches a subscriber in any order, other messages between, and only the last to
      arrive completes the object. Each delegate that stays registered, whose
      namespace contains the name and that is alive then is handed the object once,
      intact. */
  lemma RelayedObjectReachesDelegates(
    events: seq<Server.ServerEvent>, at: seq<nat>, sent: seq<Server.Output>,
    s: ClientState, lim: Limits, turns: seq<Turn>, key: Name,
    name: Name, streamId: UintVar, data: Bytes, arrivals: seq<nat>)
    requires MAX_TRANSPORT_DATA_SIZE < |data| && BlockCount(|data|) <= BLOCK_LIMIT && ArrivalsOf(data, arrivals)
    requires |at| == |sent| == |arrivals|
    requires forall j :: 0 <= j < |sent| ==>
      RelaysBlock(events, at[j], name, streamId, data, arrivals[j], sent[j])
    requires HasDelegates(s) && Registered(s, lim, turns, key)
    requires forall i :: 0 <= i < |turns| ==> !IsWhole(turns[i], name)
    requires Inv(s.cache, lim) && Find(s.cache, name) == None
    requires Only(Fragments(turns), name) == Pieces(PieceRead, Wires(sent))
    requires FreshCount(s.cache, lim, Fragments(turns)) <= (lim.buffers - 1) * lim.names
    requires |arrivals| > 0 && Seen(arrivals) == AllBlocks(data)
    requires Seen(arrivals[..|arrivals| - 1]) != AllBlocks(data)
    ensures |Worlds(turns, name)| == |arrivals|
    ensures ObjectsFor(Reports(s, lim, turns), name, key)
         == Handed(key, s.subDelegates[key], Worlds(turns, name)[|arrivals| - 1], name, Some(data))
  {
    RelayedBlocks(events, at, sent, name, streamId, data, arrivals);
    ObjectReachesDelegates(s, lim, turns, key, name, Low60(streamId), data, arrivals);
  }
}
