/** What the server and the client make of the bytes that reach them: the message
    that was written, for its handler, and nothing else. */
module Dispatch {
  import opened Bits
  import opened ByteOrder
  import opened MessageBuffers
  import opened Messages
  import opened Names
  import opened Namespaces
  import opened WireFormat
  import opened Wrappers
  import Client
  import EndToEnd
  import Server
  import ServerRuns
  import ServerSteps

  // At the server.

  /** A Subscribe reaches its handler with the context and the stream it came on. */
  lemma SubscribeReceived(contextId: Server.ContextId, streamId: Server.StreamId, m: Subscribe, suffix: Bytes)
    ensures var msg := EncodeSubscribe(m) + suffix;
      msg != [] && Server.EventOf(contextId, streamId, msg)
        == Some(Server.Subscribing(contextId, streamId, Subscribe(0, m.transactionId, Remasked(m.ns), m.intent)))
  {
    SubscribeLayout(m);
    SubscribeRoundTrip(m, Server.NEW_SUBSCRIBE, suffix);
    assert (EncodeSubscribe(m) + suffix)[0] == EncodeSubscribe(m)[0];
  }

  lemma UnsubscribeReceived(contextId: Server.ContextId, streamId: Server.StreamId, m: Unsubscribe, suffix: Bytes)
    ensures var msg := EncodeUnsubscribe(m) + suffix;
      msg != [] && Server.EventOf(contextId, streamId, msg)
        == Some(Server.Unsubscribing(contextId, Unsubscribe(0, Remasked(m.ns))))
  {
    UnsubscribeLayout(m);
    UnsubscribeRoundTrip(m, Server.NEW_UNSUBSCRIBE, suffix);
    assert (EncodeUnsubscribe(m) + suffix)[0] == EncodeUnsubscribe(m)[0];
  }

  /** A datagram whose length field is not that of its data is dropped. */
  lemma PublishReceived(contextId: Server.ContextId, streamId: Server.StreamId, m: PublishDatagram, suffix: Bytes)
    requires |m.mediaData| < 0x1_0000
    ensures var msg := EncodePublish(m) + suffix;
      msg != [] && Server.EventOf(contextId, streamId, msg)
        == if Low60(m.mediaDataLength) != |m.mediaData| then None
           else Some(Server.Publishing(contextId, streamId,
             m.(header := ReadBack(m.header), mediaDataLength := |m.mediaData|)))
  {
    PublishLayout(m);
    PublishRoundTrip(m, suffix);
    assert (EncodePublish(m) + suffix)[0] == EncodePublish(m)[0];
  }

  lemma PublishIntentReceived(contextId: Server.ContextId, streamId: Server.StreamId, m: PublishIntent, suffix: Bytes)
    requires m.messageType == 6 && |m.payload| < 0x1_0000
    ensures var msg := EncodePublishIntent(m) + suffix;
      msg != [] && Server.EventOf(contextId, streamId, msg)
        == Some(Server.Intending(contextId, streamId, m.(ns := Remasked(m.ns), mediaId := Low60(m.mediaId),
             datagramCapable := Low60(m.datagramCapable))))
  {
    PublishIntentLayout(m);
    PublishIntentRoundTrip(m, suffix);
    assert (EncodePublishIntent(m) + suffix)[0] == EncodePublishIntent(m)[0];
  }

  lemma PublishIntentEndReceived(contextId: Server.ContextId, streamId: Server.StreamId, m: PublishIntentEnd,
      suffix: Bytes)
    requires m.messageType == 8 && |m.payload| < 0x1_0000
    ensures var msg := EncodePublishIntentEnd(m) + suffix;
      msg != [] && Server.EventOf(contextId, streamId, msg) == Some(Server.IntentEnding(m.(ns := Remasked(m.ns))))
  {
    PublishIntentEndLayout(m);
    PublishIntentEndRoundTrip(m, suffix);
    assert (EncodePublishIntentEnd(m) + suffix)[0] == EncodePublishIntentEnd(m)[0];
  }

  /** Messages of every other type are dropped; the first byte alone decides which
      handler a message can reach. */
  lemma ServerDispatch(contextId: Server.ContextId, streamId: Server.StreamId, msg: Bytes)
    requires msg != []
    ensures match Server.EventOf(contextId, streamId, msg)
      case None => true
      case Some(Subscribing(c, st, _)) => msg[0] == 1 && c == contextId && st == streamId
      case Some(Unsubscribing(c, _)) => msg[0] == 4 && c == contextId
      case Some(Publishing(c, st, _)) => msg[0] == 5 && c == contextId && st == streamId
      case Some(Intending(c, st, _)) => msg[0] == 6 && c == contextId && st == streamId
      case Some(IntentEnding(_)) => msg[0] == 8
      case Some(_) => false
  {}

  /** The message of a listed context's unsubscription ends its id. */
  lemma UnsubscribeEnds(s: Server.State, d: Server.Delegate, contextId: Server.ContextId,
      streamId: Server.StreamId, ns: Namespace, version: uint8, suffix: Bytes)
    requires Masked(ns) && ServerRuns.IdInv(s) && ServerRuns.Subscribed(s, ns.name, contextId)
    ensures var msg := EncodeUnsubscribe(Unsubscribe(version, ns)) + suffix;
      && msg != [] && Server.EventOf(contextId, streamId, msg).Some?
      && var t := Server.Step(s, d, Server.EventOf(contextId, streamId, msg).value).state;
         && !ServerRuns.Subscribed(t, ns.name, contextId)
         && ServerRuns.Gone(t, ServerRuns.EntryOf(s, ns.name, contextId).subscriberId)
  {
    UnsubscribeReceived(contextId, streamId, Unsubscribe(version, ns), suffix);
    ServerSteps.Unsubscription(s, d, contextId, Unsubscribe(0, ns));
  }

  // At the client.

  lemma SubscribeResponseReceived(m: SubscribeResponse, suffix: Bytes)
    ensures Client.Parse(EncodeSubscribeResponse(m) + suffix) == Client.Response(m.(ns := Remasked(m.ns)))
  {
    SubscribeResponseLayout(m);
    SubscribeResponseRoundTrip(m, suffix);
    assert (EncodeSubscribeResponse(m) + suffix)[0] == EncodeSubscribeResponse(m)[0];
  }

  lemma SubscribeEndReceived(m: SubscribeEnd, suffix: Bytes)
    ensures Client.Parse(EncodeSubscribeEnd(m) + suffix) == Client.End(m.(ns := Remasked(m.ns)))
  {
    SubscribeEndLayout(m);
    SubscribeEndRoundTrip(m, suffix);
    assert (EncodeSubscribeEnd(m) + suffix)[0] == EncodeSubscribeEnd(m)[0];
  }

  lemma PublicationReceived(m: PublishDatagram, suffix: Bytes)
    requires |m.mediaData| < 0x1_0000
    ensures Client.Parse(EncodePublish(m) + suffix)
         == if Low60(m.mediaDataLength) != |m.mediaData| then Client.Nothing
            else Client.Publication(m.(header := ReadBack(m.header), mediaDataLength := |m.mediaData|))
  {
    PublishLayout(m);
    PublishRoundTrip(m, suffix);
    assert (EncodePublish(m) + suffix)[0] == EncodePublish(m)[0];
  }

  lemma PublishIntentResponseReceived(m: PublishIntentResponse, suffix: Bytes)
    requires m.messageType == 7
    ensures Client.Parse(EncodePublishIntentResponse(m) + suffix) == Client.IntentResponse(m.(ns := Remasked(m.ns)))
  {
    PublishIntentResponseLayout(m);
    PublishIntentResponseRoundTrip(m, suffix);
    assert (EncodePublishIntentResponse(m) + suffix)[0] == EncodePublishIntentResponse(m)[0];
  }

  lemma ClientDispatch(msg: Bytes)
    ensures match Client.Parse(msg)
      case Nothing => true
      case Response(_) => msg != [] && msg[0] == 2
      case End(_) => msg != [] && msg[0] == 3
      case Publication(_) => msg != [] && msg[0] == 5
      case IntentResponse(_) => msg != [] && msg[0] == 7
  {}

  // Cut short, a message reaches no handler.

  lemma SubscribeCutDropped(contextId: Server.ContextId, streamId: Server.StreamId, m: Subscribe, k: nat)
    requires 0 < k < |EncodeSubscribe(m)|
    ensures Server.EventOf(contextId, streamId, EncodeSubscribe(m)[..k]) == None
  {
    SubscribeLayout(m);
    SubscribeCut(m, Server.NEW_SUBSCRIBE, k);
  }

  lemma UnsubscribeCutDropped(contextId: Server.ContextId, streamId: Server.StreamId, m: Unsubscribe, k: nat)
    requires 0 < k < |EncodeUnsubscribe(m)|
    ensures Server.EventOf(contextId, streamId, EncodeUnsubscribe(m)[..k]) == None
  {
    UnsubscribeLayout(m);
    UnsubscribeCut(m, Server.NEW_UNSUBSCRIBE, k);
  }

  lemma PublishCutDropped(contextId: Server.ContextId, streamId: Server.StreamId, m: PublishDatagram, k: nat)
    requires |m.mediaData| < 0x1_0000 && 0 < k < |EncodePublish(m)|
    ensures Server.EventOf(contextId, streamId, EncodePublish(m)[..k]) == None
    ensures Client.Parse(EncodePublish(m)[..k]) == Client.Nothing
  {
    PublishLayout(m);
    PublishCut(m, k);
  }

  lemma PublishIntentCutDropped(contextId: Server.ContextId, streamId: Server.StreamId, m: PublishIntent, k: nat)
    requires m.messageType == 6 && |m.payload| < 0x1_0000 && 0 < k < |EncodePublishIntent(m)|
    ensures Server.EventOf(contextId, streamId, EncodePublishIntent(m)[..k]) == None
  {
    PublishIntentLayout(m);
    PublishIntentCut(m, k);
  }

  lemma PublishIntentEndCutDropped(contextId: Server.ContextId, streamId: Server.StreamId, m: PublishIntentEnd, k: nat)
    requires m.messageType == 8 && |m.payload| < 0x1_0000 && 0 < k < |EncodePublishIntentEnd(m)|
    ensures Server.EventOf(contextId, streamId, EncodePublishIntentEnd(m)[..k]) == None
  {
    PublishIntentEndLayout(m);
    PublishIntentEndCut(m, k);
  }

  lemma SubscribeResponseCutDropped(m: SubscribeResponse, k: nat)
    requires k < |EncodeSubscribeResponse(m)|
    ensures Client.Parse(EncodeSubscribeResponse(m)[..k]) == Client.Nothing
  {
    SubscribeResponseLayout(m);
    SubscribeResponseCut(m, k);
  }

  lemma SubscribeEndCutDropped(m: SubscribeEnd, k: nat)
    requires k < |EncodeSubscribeEnd(m)|
    ensures Client.Parse(EncodeSubscribeEnd(m)[..k]) == Client.Nothing
  {
    SubscribeEndLayout(m);
    SubscribeEndCut(m, k);
  }

  lemma PublishIntentResponseCutDropped(m: PublishIntentResponse, k: nat)
    requires m.messageType == 7 && k < |EncodePublishIntentResponse(m)|
    ensures Client.Parse(EncodePublishIntentResponse(m)[..k]) == Client.Nothing
  {
    PublishIntentResponseLayout(m);
    PublishIntentResponseCut(m, k);
  }

  // What the server sends, as bytes.

  /** The message of an output. */
  function Wire(o: Server.Output): Bytes {
    match o
    case Responded(_, _, _, response) => EncodeSubscribeResponse(response)
    case Ended(_, _, _, end) => EncodeSubscribeEnd(end)
    case Forwarded(_, _, _, datagram) => if |datagram.mediaData| < TWO_61 then EncodePublish(datagram) else []
    case IntentAnswered(_, _, answer) => EncodePublishIntentResponse(answer)
  }
}
