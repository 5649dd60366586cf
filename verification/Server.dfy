/** The server (src/quicr_server.cpp): its state, the senders, the handlers, and
    the callbacks through which the application takes part. */
module Server {
  import opened Bits
  import opened ByteOrder
  import opened MessageBuffers
  import opened Messages
  import opened NamespaceMaps
  import opened Names
  import opened Namespaces
  import opened Wrappers

  type ContextId = nat
  type StreamId = nat
  type SubscriberId = nat

  datatype SubscribeContext = SubscribeContext(contextId: ContextId, streamId: StreamId, subscriberId: SubscriberId)
  datatype PublishContext = PublishContext(contextId: ContextId, streamId: StreamId)
  datatype IntentContext = IntentContext(contextId: ContextId, streamId: StreamId, transactionId: uint64, ready: bool)

  type Subscribers = map<ContextId, SubscribeContext>

  datatype State = State(
    subscribeState: NsMap<Subscribers>,
    subscribeIdState: map<SubscriberId, SubscribeContext>,
    publishState: map<Name, PublishContext>,
    publishNamespaces: NsMap<IntentContext>,
    nextId: SubscriberId)

  const INITIAL := State(map[], map[], map[], map[], 0)

  /** A message handed to the transport. Those for a subscriber carry its id here;
      on the wire there is the context, the stream and the encoded message. */
  datatype Output =
    | Responded(id: SubscriberId, contextId: ContextId, streamId: StreamId, response: SubscribeResponse)
    | Ended(id: SubscriberId, contextId: ContextId, streamId: StreamId, end: SubscribeEnd)
    | Forwarded(id: SubscriberId, contextId: ContextId, streamId: StreamId, datagram: PublishDatagram)
    | IntentAnswered(contextId: ContextId, streamId: StreamId, answer: PublishIntentResponse)

  predicate IsFor(o: Output, id: SubscriberId) {
    !o.IntentAnswered? && o.id == id
  }

  /** Calls of the server's API by the application. */
  datatype Call =
    | SubscribeResponseCall(id: SubscriberId, ns: Namespace, status: uint8)
    | SubscriptionEndedCall(id: SubscriberId, ns: Namespace, reason: uint8)
    | SendNamedObjectCall(id: SubscriberId, datagram: PublishDatagram)
    | PublishIntentResponseCall(ns: Namespace, status: uint8)

  /** Callbacks into the application. */
  datatype Callback =
    | OnSubscribe(ns: Namespace, id: SubscriberId, contextId: ContextId, streamId: StreamId, intent: uint8)
    | OnUnsubscribe(ns: Namespace, id: SubscriberId)
    | OnPublisherObject(contextId: ContextId, streamId: StreamId, datagram: PublishDatagram)
    | OnPublishIntent(ns: Namespace, payload: Bytes)
    | OnPublishIntentEnd(ns: Namespace, payload: Bytes)

  /** An application, seen from one step: the calls it makes in each callback. */
  type Delegate = Callback -> seq<Call>

  /** What reaches the server. */
  datatype ServerEvent =
    | Subscribing(contextId: ContextId, streamId: StreamId, subscribe: Subscribe)
    | Unsubscribing(contextId: ContextId, unsubscribe: Unsubscribe)
    | Publishing(contextId: ContextId, streamId: StreamId, datagram: PublishDatagram)
    | Intending(contextId: ContextId, streamId: StreamId, intent: PublishIntent)
    | IntentEnding(intentEnd: PublishIntentEnd)
    | Disconnecting(contextId: ContextId)
    | Calling(call: Call)

  datatype Effect = Effect(state: State, outputs: seq<Output>, callbacks: seq<Callback>)

  // The senders. Those for a subscriber do nothing once its id is gone.

  function Perform(s: State, call: Call): (State, seq<Output>) {
    match call
    case SubscribeResponseCall(id, ns, status) =>
      (s, if id !in s.subscribeIdState then [] else
        var c := s.subscribeIdState[id];
        [Responded(id, c.contextId, c.streamId, SubscribeResponse(ns, status, id % TWO_64))])
    case SubscriptionEndedCall(id, ns, reason) =>
      (s, if id !in s.subscribeIdState then [] else
        var c := s.subscribeIdState[id];
        [Ended(id, c.contextId, c.streamId, SubscribeEnd(ns, reason))])
    case SendNamedObjectCall(id, datagram) =>
      (s, if id !in s.subscribeIdState then [] else
        var c := s.subscribeIdState[id];
        [Forwarded(id, c.contextId, c.streamId, datagram)])
    case PublishIntentResponseCall(ns, status) =>
      if !Count(s.publishNamespaces, ns) then (s, [])
      else
        var c := Get(s.publishNamespaces, ns);
        (s.(publishNamespaces := Put(s.publishNamespaces, ns, c.(ready := true))),
         [IntentAnswered(c.contextId, c.streamId,
            PublishIntentResponse(PUBLISH_INTENT_RESPONSE, ns, status, c.transactionId))])
  }

  function PerformAll(s: State, calls: seq<Call>): (State, seq<Output>)
    decreases |calls|
  {
    if calls == [] then (s, [])
    else
      var (s1, out1) := Perform(s, calls[0]);
      var (s2, out2) := PerformAll(s1, calls[1..]);
      (s2, out1 + out2)
  }

  /** A callback and the calls the application makes in it. */
  function Notify(s: State, d: Delegate, callback: Callback): Effect {
    var (s1, outputs) := PerformAll(s, d(callback));
    Effect(s1, outputs, [callback])
  }

  // The handlers.

  /** Indexing `subscribe_state` creates an entry when there is none. */
  function TouchSubscribers(s: State, ns: Namespace): (r: State)
    ensures Count(r.subscribeState, ns)
  {
    if Count(s.subscribeState, ns) then s
    else s.(subscribeState := Put(s.subscribeState, ns, map[]))
  }

  /** A new id, recorded in both maps. */
  function Allocate(s: State, ns: Namespace, contextId: ContextId, streamId: StreamId): State
    requires Count(s.subscribeState, ns)
  {
    var c := SubscribeContext(contextId, streamId, s.nextId);
    s.(nextId := s.nextId + 1,
       subscribeState := Put(s.subscribeState, ns, Get(s.subscribeState, ns)[contextId := c]),
       subscribeIdState := s.subscribeIdState[s.nextId := c])
  }

  /** The state in which the application hears of a subscription. */
  function Admit(s: State, contextId: ContextId, streamId: StreamId, ns: Namespace): (r: State)
    ensures Count(r.subscribeState, ns) && contextId in Get(r.subscribeState, ns)
  {
    var t := TouchSubscribers(s, ns);
    if contextId in Get(t.subscribeState, ns) then t else Allocate(t, ns, contextId, streamId)
  }

  function HandleSubscribe(s: State, d: Delegate, contextId: ContextId, streamId: StreamId, m: Subscribe): Effect {
    var t := Admit(s, contextId, streamId, m.ns);
    var id := Get(t.subscribeState, m.ns)[contextId].subscriberId;
    Notify(t, d, OnSubscribe(m.ns, id, contextId, streamId, m.intent))
  }

  /** The entry of the context goes, and when others remain the whole namespace. */
  function DropSubscriber(s: State, ns: Namespace, contextId: ContextId): State
    requires Count(s.subscribeState, ns) && contextId in Get(s.subscribeState, ns)
  {
    var id := Get(s.subscribeState, ns)[contextId].subscriberId;
    var others := Get(s.subscribeState, ns) - {contextId};
    s.(subscribeIdState := s.subscribeIdState - {id},
       subscribeState := if |others| > 0 then Erase(s.subscribeState, ns)
                         else Put(s.subscribeState, ns, others))
  }

  function HandleUnsubscribe(s: State, d: Delegate, contextId: ContextId, m: Unsubscribe): Effect {
    var t := TouchSubscribers(s, m.ns);
    if contextId !in Get(t.subscribeState, m.ns) then Effect(t, [], [])
    else
      var id := Get(t.subscribeState, m.ns)[contextId].subscriberId;
      var e := Notify(t, d, OnUnsubscribe(m.ns, id));
      PerformAllKeeps(t, d(OnUnsubscribe(m.ns, id)));
      Effect(DropSubscriber(e.state, m.ns, contextId), e.outputs, e.callbacks)
  }

  /** Some registered publish namespace contains the name. */
  predicate Announced(namespaces: NsMap<IntentContext>, name: Name) {
    exists n :: n in namespaces && Contains(namespaces[n].key, name)
  }

  function HandlePublish(s: State, d: Delegate, contextId: ContextId, streamId: StreamId, m: PublishDatagram): Effect {
    if !Announced(s.publishNamespaces, m.header.name) then Effect(s, [], [])
    else
      var name := m.header.name;
      var t := if name in s.publishState then s
               else s.(publishState := s.publishState[name := PublishContext(contextId, streamId)]);
      var c := t.publishState[name];
      Notify(t, d, OnPublisherObject(c.contextId, c.streamId, m))
  }

  function HandlePublishIntent(s: State, d: Delegate, contextId: ContextId, streamId: StreamId,
      m: PublishIntent): Effect {
    var t := if Count(s.publishNamespaces, m.ns) then s
             else s.(publishNamespaces := Put(s.publishNamespaces, m.ns,
                       IntentContext(contextId, streamId, m.transactionId, false)));
    Notify(t, d, OnPublishIntent(m.ns, m.payload))
  }

  function HandlePublishIntentEnd(s: State, d: Delegate, m: PublishIntentEnd): Effect {
    if !Count(s.publishNamespaces, m.ns) then Effect(s, [], [])
    else
      var t := s.(publishNamespaces := Erase(s.publishNamespaces, m.ns),
                  publishState := map n | n in s.publishState && !Contains(m.ns, n) :: s.publishState[n]);
      Notify(t, d, OnPublishIntentEnd(m.ns, m.payload))
  }

  /** A context is gone: every subscription of it is reported and its id dropped,
      while its entries in `subscribe_state` stay. */
  function Disconnect(s: State, d: Delegate, contextId: ContextId, todo: set<Name>): Effect
    requires todo <= s.subscribeState.Keys
    decreases |todo|
  {
    if todo == {} then Effect(s, [], [])
    else
      var n := LeastName(todo);
      var entry := s.subscribeState[n];
      if contextId !in entry.value then Disconnect(s, d, contextId, todo - {n})
      else
        var id := entry.value[contextId].subscriberId;
        var e := Notify(s, d, OnUnsubscribe(entry.key, id));
        PerformAllKeeps(s, d(OnUnsubscribe(entry.key, id)));
        var t := e.state.(subscribeIdState := e.state.subscribeIdState - {id});
        var rest := Disconnect(t, d, contextId, todo - {n});
        Effect(rest.state, e.outputs + rest.outputs, e.callbacks + rest.callbacks)
  }

  function Step(s: State, d: Delegate, event: ServerEvent): Effect {
    match event
    case Subscribing(contextId, streamId, m) => HandleSubscribe(s, d, contextId, streamId, m)
    case Unsubscribing(contextId, m) => HandleUnsubscribe(s, d, contextId, m)
    case Publishing(contextId, streamId, m) => HandlePublish(s, d, contextId, streamId, m)
    case Intending(contextId, streamId, m) => HandlePublishIntent(s, d, contextId, streamId, m)
    case IntentEnding(m) => HandlePublishIntentEnd(s, d, m)
    case Disconnecting(contextId) => Disconnect(s, d, contextId, s.subscribeState.Keys)
    case Calling(call) =>
      var (t, outputs) := Perform(s, call);
      Effect(t, outputs, [])
  }

  /** The application's calls change nothing but the state of an intent. */
  lemma {:induction false} PerformAllKeeps(s: State, calls: seq<Call>)
    ensures var t := PerformAll(s, calls).0;
      && t.subscribeState == s.subscribeState && t.subscribeIdState == s.subscribeIdState
      && t.publishState == s.publishState && t.nextId == s.nextId
      && t.publishNamespaces.Keys == s.publishNamespaces.Keys
      && forall n :: n in t.publishNamespaces ==> t.publishNamespaces[n].key == s.publishNamespaces[n].key
    decreases |calls|
  {
    if calls == [] {
    } else {
      PerformAllKeeps(Perform(s, calls[0]).0, calls[1..]);
    }
  }

  // The server as an object that is updated in place.

  /** What can be seen of a server: its state, and all it has sent and reported. */
  datatype Record = Record(state: State, sent: seq<Output>, reported: seq<Callback>)

  function After(r: Record, e: Effect): Record {
    Record(e.state, r.sent + e.outputs, r.reported + e.callbacks)
  }

  class QuicRServer {
    var subscribeState: NsMap<Subscribers>
    var subscribeIdState: map<SubscriberId, SubscribeContext>
    var publishState: map<Name, PublishContext>
    var publishNamespaces: NsMap<IntentContext>
    var subscriberId: SubscriberId
    var sent: seq<Output>
    var reported: seq<Callback>

    constructor ()
      ensures Seen() == Record(INITIAL, [], [])
    {
      subscribeState, subscribeIdState, publishState, publishNamespaces := map[], map[], map[], map[];
      subscriberId, sent, reported := 0, [], [];
    }

    ghost function Value(): State
      reads this
    {
      State(subscribeState, subscribeIdState, publishState, publishNamespaces, subscriberId)
    }

    ghost function Seen(): Record
      reads this
    {
      Record(Value(), sent, reported)
    }

    method SubscribeResponse(id: SubscriberId, ns: Namespace, status: uint8)
      modifies this
      ensures Value() == old(Value()) && reported == old(reported)
      ensures sent == old(sent) + Perform(old(Value()), SubscribeResponseCall(id, ns, status)).1
    {
      if id !in subscribeIdState {
        return;
      }
      var context := subscribeIdState[id];
      var response := Messages.SubscribeResponse(ns, status, id % TWO_64);
      sent := sent + [Responded(id, context.contextId, context.streamId, response)];
    }

    method SubscriptionEnded(id: SubscriberId, ns: Namespace, reason: uint8)
      modifies this
      ensures Value() == old(Value()) && reported == old(reported)
      ensures sent == old(sent) + Perform(old(Value()), SubscriptionEndedCall(id, ns, reason)).1
    {
      if id !in subscribeIdState {
        return;
      }
      var context := subscribeIdState[id];
      sent := sent + [Ended(id, context.contextId, context.streamId, SubscribeEnd(ns, reason))];
    }

    method SendNamedObject(id: SubscriberId, datagram: PublishDatagram)
      modifies this
      ensures Value() == old(Value()) && reported == old(reported)
      ensures sent == old(sent) + Perform(old(Value()), SendNamedObjectCall(id, datagram)).1
    {
      if id !in subscribeIdState {
        return;
      }
      var context := subscribeIdState[id];
      sent := sent + [Forwarded(id, context.contextId, context.streamId, datagram)];
    }

    method PublishIntentResponse(ns: Namespace, status: uint8)
      modifies this
      ensures reported == old(reported)
      ensures var (s, outputs) := Perform(old(Value()), PublishIntentResponseCall(ns, status));
        Value() == s && sent == old(sent) + outputs
    {
      if !Count(publishNamespaces, ns) {
        return;
      }
      var context := Get(publishNamespaces, ns);
      var response := Messages.PublishIntentResponse(PUBLISH_INTENT_RESPONSE, ns, status, context.transactionId);
      publishNamespaces := Put(publishNamespaces, ns, context.(ready := true));
      sent := sent + [IntentAnswered(context.contextId, context.streamId, response)];
    }

    /** The application's calls in a callback, one after the other. */
    method Callback(callback: Callback, d: Delegate)
      modifies this
      ensures Seen() == After(old(Seen()), Notify(old(Value()), d, callback))
    {
      reported := reported + [callback];
      var calls := d(callback);
      ghost var s := Value();
      ghost var before := sent;
      ghost var all := PerformAll(s, calls);
      assert before + all.1 == sent + PerformAll(Value(), calls[0..]).1 by { assert calls[0..] == calls; }
      for i := 0 to |calls|
        invariant reported == old(reported) + [callback]
        invariant all.0 == PerformAll(Value(), calls[i..]).0
        invariant before + all.1 == sent + PerformAll(Value(), calls[i..]).1
      {
        ghost var v, out := Value(), sent;
        assert calls[i..][0] == calls[i] && calls[i..][1..] == calls[i + 1..];
        PerformCall(calls[i]);
        ghost var rest := PerformAll(Value(), calls[i + 1..]).1;
        assert out + (Perform(v, calls[i]).1 + rest) == sent + rest;
      }
    }

    method PerformCall(call: Call)
      modifies this
      ensures reported == old(reported)
      ensures var (s, outputs) := Perform(old(Value()), call);
        Value() == s && sent == old(sent) + outputs
    {
      match call
      case SubscribeResponseCall(id, ns, status) => SubscribeResponse(id, ns, status);
      case SubscriptionEndedCall(id, ns, reason) => SubscriptionEnded(id, ns, reason);
      case SendNamedObjectCall(id, datagram) => SendNamedObject(id, datagram);
      case PublishIntentResponseCall(ns, status) => PublishIntentResponse(ns, status);
    }

    method HandleSubscribeMessage(contextId: ContextId, streamId: StreamId, m: Subscribe, d: Delegate)
      modifies this
      ensures Seen() == After(old(Seen()), HandleSubscribe(old(Value()), d, contextId, streamId, m))
    {
      if !Count(subscribeState, m.ns) {
        subscribeState := Put(subscribeState, m.ns, map[]);
      }
      if contextId !in Get(subscribeState, m.ns) {
        var context := SubscribeContext(contextId, streamId, subscriberId);
        subscriberId := subscriberId + 1;
        subscribeState := Put(subscribeState, m.ns, Get(subscribeState, m.ns)[contextId := context]);
        subscribeIdState := subscribeIdState[context.subscriberId := context];
      }
      var context := Get(subscribeState, m.ns)[contextId];
      assert Value() == Admit(old(Value()), contextId, streamId, m.ns);
      Callback(OnSubscribe(m.ns, context.subscriberId, contextId, streamId, m.intent), d);
    }

    method HandleUnsubscribeMessage(contextId: ContextId, m: Unsubscribe, d: Delegate)
      modifies this
      ensures Seen() == After(old(Seen()), HandleUnsubscribe(old(Value()), d, contextId, m))
    {
      if !Count(subscribeState, m.ns) {
        subscribeState := Put(subscribeState, m.ns, map[]);
      }
      if contextId in Get(subscribeState, m.ns) {
        var context := Get(subscribeState, m.ns)[contextId];
        PerformAllKeeps(Value(), d(OnUnsubscribe(m.ns, context.subscriberId)));
        Callback(OnUnsubscribe(m.ns, context.subscriberId), d);
        DropEntry(m.ns, contextId);
      }
    }

    /** The removals at the end of handle_unsubscribe. */
    method DropEntry(ns: Namespace, contextId: ContextId)
      requires Count(subscribeState, ns) && contextId in Get(subscribeState, ns)
      modifies this`subscribeState, this`subscribeIdState
      ensures Value() == DropSubscriber(old(Value()), ns, contextId)
    {
      subscribeIdState := subscribeIdState - {Get(subscribeState, ns)[contextId].subscriberId};
      var others := Get(subscribeState, ns) - {contextId};
      subscribeState := Put(subscribeState, ns, others);
      if |Get(subscribeState, ns)| > 0 {
        subscribeState := Erase(subscribeState, ns);
        assert subscribeState == Erase(old(subscribeState), ns);
      }
    }

    method HandlePublishMessage(contextId: ContextId, streamId: StreamId, m: PublishDatagram, d: Delegate)
      modifies this
      ensures Seen() == After(old(Seen()), HandlePublish(old(Value()), d, contextId, streamId, m))
    {
      if !Announced(publishNamespaces, m.header.name) {
        return;
      }
      if m.header.name !in publishState {
        publishState := publishState[m.header.name := PublishContext(contextId, streamId)];
      }
      var context := publishState[m.header.name];
      Callback(OnPublisherObject(context.contextId, context.streamId, m), d);
    }

    method HandlePublishIntentMessage(contextId: ContextId, streamId: StreamId, m: PublishIntent, d: Delegate)
      modifies this
      ensures Seen() == After(old(Seen()), HandlePublishIntent(old(Value()), d, contextId, streamId, m))
    {
      if !Count(publishNamespaces, m.ns) {
        publishNamespaces := Put(publishNamespaces, m.ns,
          IntentContext(contextId, streamId, m.transactionId, false));
      }
      Callback(OnPublishIntent(m.ns, m.payload), d);
    }

    method HandlePublishIntentEndMessage(m: PublishIntentEnd, d: Delegate)
      modifies this
      ensures Seen() == After(old(Seen()), HandlePublishIntentEnd(old(Value()), d, m))
    {
      if !Count(publishNamespaces, m.ns) {
        return;
      }
      publishNamespaces := Erase(publishNamespaces, m.ns);
      ErasePublished(m.ns);
      Callback(OnPublishIntentEnd(m.ns, m.payload), d);
    }

    method ErasePublished(ns: Namespace)
      modifies this`publishState
      ensures publishState == map n | n in old(publishState) && !Contains(ns, n) :: old(publishState)[n]
    {
      var todo := publishState.Keys;
      ghost var before := publishState;
      while todo != {}
        invariant todo <= before.Keys
        invariant publishState == map n | n in before && (n in todo || !Contains(ns, n)) :: before[n]
        decreases |todo|
      {
        var name := LeastName(todo);
        todo := todo - {name};
        if Contains(ns, name) {
          publishState := publishState - {name};
        }
      }
    }

    /** on_connection_status with the status Disconnected. */
    method OnDisconnected(contextId: ContextId, d: Delegate)
      modifies this
      ensures Seen() == After(old(Seen()), Disconnect(old(Value()), d, contextId, old(subscribeState).Keys))
    {
      ghost var total := Disconnect(Value(), d, contextId, subscribeState.Keys);
      var todo := subscribeState.Keys;
      while todo != {}
        invariant subscribeState == old(subscribeState) && todo <= subscribeState.Keys
        invariant After(Seen(), Disconnect(Value(), d, contextId, todo)) == After(old(Seen()), total)
        decreases |todo|
      {
        var n := LeastName(todo);
        var sub := subscribeState[n];
        todo := todo - {n};
        if contextId in sub.value {
          var id := sub.value[contextId].subscriberId;
          ghost var before := Seen();
          ghost var e := Notify(Value(), d, OnUnsubscribe(sub.key, id));
          PerformAllKeeps(Value(), d(OnUnsubscribe(sub.key, id)));
          Callback(OnUnsubscribe(sub.key, id), d);
          subscribeIdState := subscribeIdState - {id};
          ghost var rest := Disconnect(Value(), d, contextId, todo);
          AfterTwice(before, e, rest);
        }
      }
    }

    /** One message from the transport, which never hands over an empty one: the
        first byte selects the handler, and a message that cannot be read is
        dropped. */
    method OnReceived(contextId: ContextId, streamId: StreamId, data: Bytes, d: Delegate)
      requires data != []
      modifies this
      ensures Seen() == match EventOf(contextId, streamId, data) {
        case Some(event) => After(old(Seen()), Step(old(Value()), d, event))
        case None => old(Seen())
      }
    {
      var event := ReadEvent(contextId, streamId, data);
      match event {
        case None =>
        case Some(e) =>
          match e {
            case Subscribing(_, _, m) => HandleSubscribeMessage(contextId, streamId, m, d);
            case Publishing(_, _, m) => HandlePublishMessage(contextId, streamId, m, d);
            case Unsubscribing(_, m) => HandleUnsubscribeMessage(contextId, m, d);
            case Intending(_, _, m) => HandlePublishIntentMessage(contextId, streamId, m, d);
            case IntentEnding(m) => HandlePublishIntentEndMessage(m, d);
          }
      }
    }
  }

  /** The reading at the start of each handler. */
  method ReadEvent(contextId: ContextId, streamId: StreamId, data: Bytes) returns (event: Option<ServerEvent>)
    requires data != []
    ensures event == EventOf(contextId, streamId, data)
    ensures event.Some? ==> !event.value.Disconnecting? && !event.value.Calling?
  {
    var msg := new MessageBuffer(data);
    event := None;
    if data[0] == SUBSCRIBE {
      var r := ReadSubscribe(msg, NEW_SUBSCRIBE);
      if r.Success? {
        event := Some(Subscribing(contextId, streamId, r.value));
      }
    } else if data[0] == PUBLISH {
      var r := ReadPublish(msg);
      if r.Success? {
        event := Some(Publishing(contextId, streamId, r.value));
      }
    } else if data[0] == UNSUBSCRIBE {
      var r := ReadUnsubscribe(msg, NEW_UNSUBSCRIBE);
      if r.Success? {
        event := Some(Unsubscribing(contextId, r.value));
      }
    } else if data[0] == PUBLISH_INTENT {
      var r := ReadPublishIntent(msg);
      if r.Success? {
        event := Some(Intending(contextId, streamId, r.value));
      }
    } else if data[0] == PUBLISH_INTENT_END {
      var r := ReadPublishIntentEnd(msg);
      if r.Success? {
        event := Some(IntentEnding(r.value));
      }
    }
  }

  lemma AfterTwice(r: Record, e: Effect, rest: Effect)
    ensures After(Record(rest.state, r.sent + e.outputs, r.reported + e.callbacks), rest)
         == After(r, Effect(rest.state, e.outputs + rest.outputs, e.callbacks + rest.callbacks))
  {
    assert (r.sent + e.outputs) + rest.outputs == r.sent + (e.outputs + rest.outputs);
    assert (r.reported + e.callbacks) + rest.callbacks == r.reported + (e.callbacks + rest.callbacks);
  }

  // The version of a message being read is that of a new object; nothing uses it.
  const NEW_SUBSCRIBE := Messages.Subscribe(0, 0, Namespace(Name(0, 0), 0), 0)
  const NEW_UNSUBSCRIBE := Messages.Unsubscribe(0, Namespace(Name(0, 0), 0))

  /** What a received message asks of the server. */
  function EventOf(contextId: ContextId, streamId: StreamId, data: Bytes): Option<ServerEvent>
    requires data != []
  {
    if data[0] == SUBSCRIBE then
      match DecodeSubscribe(data, NEW_SUBSCRIBE)
      case Got(m, _) => Some(Subscribing(contextId, streamId, m))
      case Threw(_, _) => None
    else if data[0] == PUBLISH then
      match DecodePublish(data)
      case Got(m, _) => Some(Publishing(contextId, streamId, m))
      case Threw(_, _) => None
    else if data[0] == UNSUBSCRIBE then
      match DecodeUnsubscribe(data, NEW_UNSUBSCRIBE)
      case Got(m, _) => Some(Unsubscribing(contextId, m))
      case Threw(_, _) => None
    else if data[0] == PUBLISH_INTENT then
      match DecodePublishIntent(data)
      case Got(m, _) => Some(Intending(contextId, streamId, m))
      case Threw(_, _) => None
    else if data[0] == PUBLISH_INTENT_END then
      match DecodePublishIntentEnd(data)
      case Got(m, _) => Some(IntentEnding(m))
      case Threw(_, _) => None
    else None
  }
}
