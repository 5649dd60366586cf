/** Client and relay together, over the bytes between them: what becomes of a
    subscription, its end, an announcement and an object. */
module Sessions {
  import opened Bits
  import opened ByteOrder
  import opened Client
  import opened ClientRuns
  import opened ClientSteps
  import opened Dispatch
  import opened Fragmentation
  import opened MessageBuffers
  import opened Messages
  import opened NamespaceMaps
  import opened Names
  import opened Namespaces
  import opened Reassembly
  import opened Relay
  import opened RelaySteps
  import Server
  import ServerRuns
  import ServerSteps
  import opened Wrappers

  /** What the relay sends when it hears the messages of one call. */
  ghost function RelayHears(r: Relay, msgs: seq<Bytes>, c: Server.ContextId, st: Server.StreamId): seq<Server.Output> {
    RelayOutputs(r, Heard(msgs, c, st))
  }

  lemma OneHeard(r: Relay, e: Server.ServerEvent)
    ensures RelayOutputs(r, [e]) == RelayEffect(r, e).outputs
  {
    assert [e][1..] == [];
    assert RelayOutputs(RelayStep(r, e), []) == [];
  }

  /** The messages go to this context and stream. */
  ghost predicate AddressedTo(outputs: seq<Server.Output>, c: Server.ContextId, st: Server.StreamId) {
    forall o :: o in outputs ==> o.contextId == c && o.streamId == st
  }

  /** What the client reports when it receives a message. */
  ghost function Told(s: ClientState, lim: Limits, w: World, msg: Bytes): seq<Report> {
    ClientStep(s, lim, Turn(Received(Parse(msg)), w)).reports
  }

  /** A subscription to a namespace of which the relay has none from this context is
      answered with one message, to where it came from; it tells the delegate that is
      registered under the name that the subscription is accepted. */
  lemma SubscriptionAccepted(
    r: Relay, c: Server.ContextId, st: Server.StreamId,
    s: ClientState, lim: Limits, w: World, delegate: nat, ns: Namespace, intent: uint8, transactionId: uint64)
    requires Masked(ns) && NeverReady(s) && !ServerRuns.Subscribed(r.server, ns.name, c)
    ensures var call := CallStep(s, Subscribed(delegate, ns, intent, transactionId));
      var outputs := RelayHears(r, call.sent, c, st);
      && |outputs| == 1 && AddressedTo(outputs, c, st)
      && ns.name in call.state.subDelegates
      && var registered := call.state.subDelegates[ns.name].value;
         Told(call.state, lim, w, Wire(outputs[0]))
           == if registered in w.alive then [OnResponse(ns.name, registered, ns, 0)] else []
  {
    var call := CallStep(s, Subscribed(delegate, ns, intent, transactionId));
    var o := SubscriptionHeard(r, c, st, s, delegate, ns, intent, transactionId);
    ResponseReceived(call.state, lim, w, o, ns);
  }

  lemma SubscriptionHeard(
    r: Relay, c: Server.ContextId, st: Server.StreamId,
    s: ClientState, delegate: nat, ns: Namespace, intent: uint8, transactionId: uint64) returns (o: Server.Output)
    requires Masked(ns) && NeverReady(s) && !ServerRuns.Subscribed(r.server, ns.name, c)
    ensures RelayHears(r, CallStep(s, Subscribed(delegate, ns, intent, transactionId)).sent, c, st) == [o]
    ensures o.Responded? && o.contextId == c && o.streamId == st && o.response.ns == ns && o.response.response == 0
  {
    var m := Subscribe(0, transactionId, ns, intent);
    CallHeard(s, Subscribed(delegate, ns, intent, transactionId), c, st);
    OneHeard(r, Server.Subscribing(c, st, m));
    SubscriptionAnswered(r, c, st, m);
    o := Server.Responded(r.server.nextId, c, st, SubscribeResponse(ns, 0, r.server.nextId % TWO_64));
  }

  lemma ResponseReceived(s: ClientState, lim: Limits, w: World, o: Server.Output, ns: Namespace)
    requires Masked(ns) && o.Responded? && o.response.ns == ns && o.response.response == 0
    ensures Told(s, lim, w, Wire(o)) == if ns.name in s.subDelegates && s.subDelegates[ns.name].value in w.alive
      then [OnResponse(ns.name, s.subDelegates[ns.name].value, ns, 0)] else []
  {
    assert EncodeSubscribeResponse(o.response) + [] == Wire(o);
    ResponseTold(s, lim, w, o.response, []);
  }

  /** The first subscription under a name registers the delegate it names. */
  lemma FirstDelegateRegistered(s: ClientState, delegate: nat, ns: Namespace, intent: uint8, transactionId: uint64)
    requires ns.name !in s.subDelegates
    ensures CallStep(s, Subscribed(delegate, ns, intent, transactionId)).state.subDelegates[ns.name]
         == Entry(ns, delegate)
  {}

  /** An unsubscription by a context whose id is alive is answered with the end, to
      where the subscription came from; it tells the delegate, which is then gone. */
  lemma UnsubscriptionCompleted(
    events: seq<Server.ServerEvent>, c: Server.ContextId, st: Server.StreamId,
    s: ClientState, lim: Limits, w: World, ns: Namespace)
    requires Masked(ns) && NeverReady(s) && ns.name in s.subDelegates
    requires var server := RelayRun(RelayStart(), events).server;
      && ServerRuns.Subscribed(server, ns.name, c)
      && ServerRuns.EntryOf(server, ns.name, c).subscriberId in server.subscribeIdState
    ensures var r := RelayRun(RelayStart(), events);
      var call := CallStep(s, Unsubscribed(ns));
      var outputs := RelayHears(r, call.sent, c, st);
      && |outputs| == 1 && AddressedTo(outputs, c, ServerRuns.EntryOf(r.server, ns.name, c).streamId)
      && var after := ClientStep(call.state, lim, Turn(Received(Parse(Wire(outputs[0]))), w));
         && after.reports == (if s.subDelegates[ns.name].value in w.alive
              then [OnEnded(ns.name, s.subDelegates[ns.name].value, ns, 0)] else [])
         && after.state.subDelegates == s.subDelegates - {ns.name}
         && after.state.subscribeState == s.subscribeState - {ns.name}
  {
    var call := CallStep(s, Unsubscribed(ns));
    var o := UnsubscriptionHeard(events, c, st, s, ns);
    EndReceived(call.state, lim, w, o, ns);
    assert s.subscribeState - {ns.name} - {ns.name} == s.subscribeState - {ns.name};
  }

  lemma UnsubscriptionHeard(
    events: seq<Server.ServerEvent>, c: Server.ContextId, st: Server.StreamId, s: ClientState, ns: Namespace)
    returns (o: Server.Output)
    requires Masked(ns) && NeverReady(s)
    requires var server := RelayRun(RelayStart(), events).server;
      && ServerRuns.Subscribed(server, ns.name, c)
      && ServerRuns.EntryOf(server, ns.name, c).subscriberId in server.subscribeIdState
    ensures var r := RelayRun(RelayStart(), events);
      && RelayHears(r, CallStep(s, Unsubscribed(ns)).sent, c, st) == [o]
      && o.contextId == c && o.streamId == ServerRuns.EntryOf(r.server, ns.name, c).streamId
    ensures o.Ended? && o.end == SubscribeEnd(ns, 0)
  {
    var r := RelayRun(RelayStart(), events);
    CallHeard(s, Unsubscribed(ns), c, st);
    OneHeard(r, Server.Unsubscribing(c, Unsubscribe(0, ns)));
    UnsubscriptionEnds(events, c, Unsubscribe(0, ns));
    var entry := ServerRuns.EntryOf(r.server, ns.name, c);
    o := Server.Ended(entry.subscriberId, c, entry.streamId, SubscribeEnd(ns, 0));
  }

  lemma EndReceived(s: ClientState, lim: Limits, w: World, o: Server.Output, ns: Namespace)
    requires Masked(ns) && o.Ended? && o.end == SubscribeEnd(ns, 0)
    ensures var after := ClientStep(s, lim, Turn(Received(Parse(Wire(o))), w));
      && after.reports == (if ns.name in s.subDelegates && s.subDelegates[ns.name].value in w.alive
           then [OnEnded(ns.name, s.subDelegates[ns.name].value, ns, 0)] else [])
      && after.state.subDelegates == s.subDelegates - {ns.name}
      && after.state.subscribeState == s.subscribeState - {ns.name}
  {
    assert EncodeSubscribeEnd(o.end) + [] == Wire(o);
    EndTold(s, lim, w, o.end, []);
  }

  /** The announcement of a namespace whose name is free at the relay is answered,
      to where it came from, and tells the publisher delegate. */
  lemma AnnouncementAccepted(
    r: Relay, c: Server.ContextId, st: Server.StreamId,
    s: ClientState, lim: Limits, w: World, delegate: nat, ns: Namespace, payload: Payload, transactionId: uint64,
    streamId: UintVar)
    requires Masked(ns) && NeverReady(s) && |payload| < 0x1_0000 && ns.name !in r.server.publishNamespaces
    ensures var call := CallStep(s, Announced(delegate, ns, payload, transactionId, streamId));
      var outputs := RelayHears(r, call.sent, c, st);
      && |outputs| == 1 && AddressedTo(outputs, c, st)
      && ns.name in call.state.pubDelegates
      && var registered := call.state.pubDelegates[ns.name].value;
         Told(call.state, lim, w, Wire(outputs[0]))
           == if registered in w.alive then [OnIntentResponse(ns.name, registered, ns, 0)] else []
  {
    var call := CallStep(s, Announced(delegate, ns, payload, transactionId, streamId));
    var o := AnnouncementHeard(r, c, st, s, delegate, ns, payload, transactionId, streamId);
    AnswerReceived(call.state, lim, w, o, ns);
  }

  lemma AnnouncementHeard(
    r: Relay, c: Server.ContextId, st: Server.StreamId,
    s: ClientState, delegate: nat, ns: Namespace, payload: Payload, transactionId: uint64, streamId: UintVar)
    returns (o: Server.Output)
    requires Masked(ns) && NeverReady(s) && |payload| < 0x1_0000 && ns.name !in r.server.publishNamespaces
    ensures RelayHears(r, CallStep(s, Announced(delegate, ns, payload, transactionId, streamId)).sent, c, st) == [o]
    ensures o == Server.IntentAnswered(c, st, PublishIntentResponse(7, ns, 0, transactionId))
  {
    var m := PublishIntent(6, transactionId, ns, payload, Low60(streamId), 1);
    CallHeard(s, Announced(delegate, ns, payload, transactionId, streamId), c, st);
    OneHeard(r, Server.Intending(c, st, m));
    IntentIsAnswered(r, c, st, m);
    o := Server.IntentAnswered(c, st, PublishIntentResponse(7, ns, 0, transactionId));
  }

  lemma AnswerReceived(s: ClientState, lim: Limits, w: World, o: Server.Output, ns: Namespace)
    requires Masked(ns) && o.IntentAnswered? && o.answer == PublishIntentResponse(7, ns, 0, o.answer.transactionId)
    ensures Told(s, lim, w, Wire(o)) == if ns.name in s.pubDelegates && s.pubDelegates[ns.name].value in w.alive
      then [OnIntentResponse(ns.name, s.pubDelegates[ns.name].value, ns, 0)] else []
  {
    assert EncodePublishIntentResponse(o.answer) + [] == Wire(o);
    IntentAnswerTold(s, lim, w, o.answer, []);
  }

  /** After it the relay takes objects of that namespace, until its end. */
  lemma AnnouncedAfterIntent(r: Relay, c: Server.ContextId, st: Server.StreamId, m: PublishIntent, name: Name)
    requires m.ns.name !in r.server.publishNamespaces && Contains(m.ns, name)
    ensures Server.Announced(RelayStep(r, Server.Intending(c, st, m)).server.publishNamespaces, name)
  {
    var event := Server.Intending(c, st, m);
    ServerSteps.IntentEffect(r.server, RelayDelegate(r.index), c, st, m);
    var after := RelayStep(r, event).server;
    assert m.ns.name in ServerSteps.Registrations(after)
      && ServerSteps.Registrations(after)[m.ns.name].ns == m.ns;
    assert m.ns.name in after.publishNamespaces && after.publishNamespaces[m.ns.name].key == m.ns;
  }

  /** From subscription to delegate, for an object that travels whole: in any run of
      the relay a context subscribes, and while its id is alive a publisher's message
      of an announced object in that namespace arrives. The relay sends that context,
      on that stream, a message which tells the delegates of the client there as the
      publisher's own message would. */
  lemma WholeObjectRelayed(
    before: seq<Server.ServerEvent>, c: Server.ContextId, st: Server.StreamId, m: Subscribe,
    after: seq<Server.ServerEvent>,
    publisher: Server.ContextId, stream: Server.StreamId, name: Name, streamId: UintVar, data: Bytes,
    s: ClientState, lim: Limits, w: World) returns (o: Server.Output)
    requires |data| <= 1200 && m.ns.sigBits <= 128 && Contains(Remasked(m.ns), name)
    requires !ServerRuns.Subscribed(RelayRun(RelayStart(), before).server, m.ns.name, c)
    requires var r := RelayRun(RelayStart(), before + [Server.Subscribing(c, st, m)] + after);
      && RelayRun(RelayStart(), before).server.nextId in r.server.subscribeIdState
      && Server.Announced(r.server.publishNamespaces, name)
      && PublisherOf(r.server, publisher, stream, name) != Server.PublishContext(0, 0)
    ensures var r := RelayRun(RelayStart(), before + [Server.Subscribing(c, st, m)] + after);
      o in RelayHears(r, [WholeMessage(name, streamId, data)], publisher, stream)
    ensures o.contextId == c && o.streamId == st
    ensures var turns := [Turn(Received(Parse(Wire(o))), w)];
      && ClientRun(s, lim, turns) == s && AscendingKeys(Reports(s, lim, turns))
      && forall x :: x in Reports(s, lim, turns) <==> IsOffer(x, s.subDelegates, s.subDelegates.Keys, w, name, data)
  {
    var r := RelayRun(RelayStart(), before + [Server.Subscribing(c, st, m)] + after);
    var d := PublishDatagram(Header(Low60(streamId), name, 0, 0, 1, 0), 3, |data|, data);
    o := Server.Forwarded(RelayRun(RelayStart(), before).server.nextId, c, st, d);
    WholeHeard(publisher, stream, name, streamId, data);
    OneHeard(r, Server.Publishing(publisher, stream, d));
    SubscriberIsServed(before, c, st, m, after, publisher, stream, d);
    assert Wire(o) == WholeMessage(name, Low60(streamId), data);
    WholeObjectReachesDelegates(s, lim, w, name, Low60(streamId), data);
  }

  lemma WholeHeard(publisher: Server.ContextId, stream: Server.StreamId, name: Name, streamId: UintVar, data: Bytes)
    requires |data| <= 1200
    ensures Heard([WholeMessage(name, streamId, data)], publisher, stream)
         == [Server.Publishing(publisher, stream,
              PublishDatagram(Header(Low60(streamId), name, 0, 0, 1, 0), 3, |data|, data))]
  {
    var msg := WholeMessage(name, streamId, data);
    var d := PublishDatagram(Header(streamId, name, 0, 0, 1, 0), 3, |data|, data);
    WholeOnWire(name, streamId, data);
    PublishReceived(publisher, stream, d, []);
    assert EncodePublish(d) + [] == msg;
    var read := PublishDatagram(Header(Low60(streamId), name, 0, 0, 1, 0), 3, |data|, data);
    SmallMod(|data|, TWO_60);
    SmallMod(1, TWO_60);
    assert ReadBack(d.header) == read.header;
    HeardOne(msg, publisher, stream, Server.Publishing(publisher, stream, read));
  }
}
