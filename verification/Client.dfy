/** The client (src/quicr_client.cpp): subscriptions, what arrives from the
    transport, and the delegates that are told of it. */
module Client {
  import opened Bits
  import opened ByteOrder
  import opened EndToEnd
  import opened MessageBuffers
  import opened Messages
  import opened NamespaceMaps
  import opened Names
  import opened Namespaces
  import opened Reassembly

  /** A delegate is held weakly; whether it is still there is up to the program,
      and so is whether it moves the bytes it is handed out of their vector. */
  datatype World = World(alive: set<nat>, takers: set<nat>)

  datatype SubscriptionState = SubscriptionState(ready: bool, transactionId: uint64)

  datatype ClientState = ClientState(
    subDelegates: NsMap<nat>,
    subscribeState: NsMap<SubscriptionState>,
    pubDelegates: NsMap<nat>,
    cache: Cache)

  const START := ClientState(map[], map[], map[], Cache(map[], 1))

  /** A call of a delegate. `key` is the name it is registered under. */
  datatype Report =
    | OnResponse(key: Name, delegate: nat, ns: Namespace, status: uint8)
    | OnEnded(key: Name, delegate: nat, ns: Namespace, reason: uint8)
    | OnObject(key: Name, delegate: nat, name: Name, data: Bytes)
    | OnIntentResponse(key: Name, delegate: nat, ns: Namespace, status: uint8)

  predicate ToSubscriber(r: Report, key: Name) {
    !r.OnIntentResponse? && r.key == key
  }

  datatype Change = Change(state: ClientState, sent: seq<Bytes>, reports: seq<Report>)

  /** A message from the server, after reading. */
  datatype Incoming =
    | Response(response: SubscribeResponse)
    | End(end: SubscribeEnd)
    | Publication(datagram: PublishDatagram)
    | IntentResponse(intentResponse: PublishIntentResponse)
    | Nothing

  // Calls by the application.

  function Subscribing(s: ClientState, delegate: nat, ns: Namespace, intent: uint8, transactionId: uint64): Change {
    var delegates := if Count(s.subDelegates, ns) then s.subDelegates else Put(s.subDelegates, ns, delegate);
    var msg := EncodeSubscribe(Subscribe(1, transactionId, ns, intent));
    if !Count(s.subscribeState, ns) then
      var context := SubscriptionState(false, transactionId);
      Change(s.(subDelegates := delegates, subscribeState := Put(s.subscribeState, ns, context)), [msg], [])
    else if Get(s.subscribeState, ns).ready then
      Change(s.(subDelegates := delegates), [], [])
    else
      Change(s.(subDelegates := delegates), [msg], [])
  }

  /** The delegate stays until the end of the subscription is received. */
  function Unsubscribing(s: ClientState, ns: Namespace): Change {
    Change(s.(subscribeState := Erase(s.subscribeState, ns)), [EncodeUnsubscribe(Unsubscribe(1, ns))], [])
  }

  /** A publish intent; the stream id has passed the conversion that throws for
      2^61 and more. */
  function Announcing(s: ClientState, delegate: nat, ns: Namespace, payload: Bytes, transactionId: uint64,
      streamId: UintVar): Change
    requires |payload| < TWO_61
  {
    var delegates := if Count(s.pubDelegates, ns) then s.pubDelegates else Put(s.pubDelegates, ns, delegate);
    Change(s.(pubDelegates := delegates),
      [EncodePublishIntent(PublishIntent(PUBLISH_INTENT, transactionId, ns, payload, streamId, 1))], [])
  }

  function Withdrawing(s: ClientState, ns: Namespace): Change {
    if !Count(s.pubDelegates, ns) then Change(s, [], [])
    else
      Change(s.(pubDelegates := Erase(s.pubDelegates, ns)),
        [EncodePublishIntentEnd(PublishIntentEnd(PUBLISH_INTENT_END, ns, []))], [])
  }

  function RemoveOne(s: ClientState, w: World, ns: Namespace, reason: uint8): Change {
    Change(
      s.(subscribeState := Erase(s.subscribeState, ns), subDelegates := Erase(s.subDelegates, ns)),
      [],
      if Count(s.subDelegates, ns) && Get(s.subDelegates, ns) in w.alive
      then [OnEnded(ns.name, Get(s.subDelegates, ns), ns, reason)] else [])
  }

  /** Removal of all states: those with an entry in `subscribe_state`. */
  function RemoveEach(s: ClientState, w: World, entries: NsMap<SubscriptionState>, todo: set<Name>,
      reason: uint8): Change
    requires todo <= entries.Keys
    decreases |todo|
  {
    if todo == {} then Change(s, [], [])
    else
      var n := LeastName(todo);
      var one := RemoveOne(s, w, entries[n].key, reason);
      var rest := RemoveEach(one.state, w, entries, todo - {n}, reason);
      Change(rest.state, one.sent + rest.sent, one.reports + rest.reports)
  }

  function RemoveAll(s: ClientState, w: World, reason: uint8): Change {
    RemoveEach(s, w, s.subscribeState, s.subscribeState.Keys, reason)
  }

  // Messages from the server.

  /** Every live delegate whose namespace contains the name gets its own copy. */
  function Deliver(delegates: NsMap<nat>, todo: set<Name>, w: World, name: Name, data: Bytes): seq<Report>
    requires todo <= delegates.Keys
    decreases |todo|
  {
    if todo == {} then []
    else
      var n := LeastName(todo);
      var rest := Deliver(delegates, todo - {n}, w, name, data);
      if Contains(delegates[n].key, name) && delegates[n].value in w.alive
      then [OnObject(n, delegates[n].value, name, data)] + rest
      else rest
  }

  /** An unfragmented object: one vector is offered to all, and is empty for those
      after a delegate that moves its bytes out. */
  function DeliverShared(delegates: NsMap<nat>, todo: set<Name>, w: World, name: Name, data: Bytes): seq<Report>
    requires todo <= delegates.Keys
    decreases |todo|
  {
    if todo == {} then []
    else
      var n := LeastName(todo);
      if Contains(delegates[n].key, name) && delegates[n].value in w.alive then
        [OnObject(n, delegates[n].value, name, data)]
        + DeliverShared(delegates, todo - {n}, w, name, if delegates[n].value in w.takers then [] else data)
      else
        DeliverShared(delegates, todo - {n}, w, name, data)
  }

  function ReceivePublication(s: ClientState, w: World, lim: Limits, d: PublishDatagram): Change {
    if d.header.offsetAndFin == 1 then
      Change(s, [], DeliverShared(s.subDelegates, s.subDelegates.Keys, w, d.header.name, d.mediaData))
    else
      var (cache, done) := Reassembly.Step(s.cache, lim, PieceOf(d));
      Change(s.(cache := cache), [],
        match done
        case Some(data) => Deliver(s.subDelegates, s.subDelegates.Keys, w, d.header.name, data)
        case None => [])
  }

  function Receive(s: ClientState, w: World, lim: Limits, m: Incoming): Change {
    match m
    case Response(r) =>
      Change(s, [],
        if Count(s.subDelegates, r.ns) && Get(s.subDelegates, r.ns) in w.alive
        then [OnResponse(r.ns.name, Get(s.subDelegates, r.ns), r.ns, r.response)] else [])
    case End(e) => RemoveOne(s, w, e.ns, e.reason)
    case Publication(d) => ReceivePublication(s, w, lim, d)
    case IntentResponse(r) =>
      Change(s, [],
        if Count(s.pubDelegates, r.ns) && Get(s.pubDelegates, r.ns) in w.alive
        then [OnIntentResponse(r.ns.name, Get(s.pubDelegates, r.ns), r.ns, r.response)] else [])
    case Nothing => Change(s, [], [])
  }

  /** The first byte says how to read a message; an empty one, one of another type
      and one that cannot be read are dropped. */
  function Parse(msg: Bytes): Incoming {
    if msg == [] then Nothing
    else if msg[0] == SUBSCRIBE_RESPONSE then
      match DecodeSubscribeResponse(msg)
      case Got(r, _) => Response(r)
      case Threw(_, _) => Nothing
    else if msg[0] == SUBSCRIBE_END then
      match DecodeSubscribeEnd(msg)
      case Got(e, _) => End(e)
      case Threw(_, _) => Nothing
    else if msg[0] == PUBLISH then
      match ReadDatagram(msg)
      case Some(d) => Publication(d)
      case None => Nothing
    else if msg[0] == PUBLISH_INTENT_RESPONSE then
      match DecodePublishIntentResponse(msg)
      case Got(r, _) => IntentResponse(r)
      case Threw(_, _) => Nothing
    else Nothing
  }

  // The client as an object that is updated in place.

  class QuicRClient {
    var subDelegates: NsMap<nat>
    var subscribeState: NsMap<SubscriptionState>
    var pubDelegates: NsMap<nat>
    var sent: seq<Bytes>
    var reports: seq<Report>

    /** The cache is static in the source: all clients share it. */
    const fragments: FragmentCache

    constructor (fragments: FragmentCache)
      ensures this.fragments == fragments && sent == [] && reports == []
      ensures Value() == START.(cache := fragments.Value())
    {
      subDelegates, subscribeState, pubDelegates := map[], map[], map[];
      sent, reports := [], [];
      this.fragments := fragments;
    }

    ghost function Value(): ClientState
      reads this, fragments
    {
      ClientState(subDelegates, subscribeState, pubDelegates, fragments.Value())
    }

    ghost function Seen(): Change
      reads this, fragments
    {
      Change(Value(), sent, reports)
    }

    method SubscribeTo(delegate: nat, ns: Namespace, intent: uint8, transactionId: uint64)
      modifies this
      ensures Seen() == Then(old(Seen()), Subscribing(old(Value()), delegate, ns, intent, transactionId))
    {
      if !Count(subDelegates, ns) {
        subDelegates := Put(subDelegates, ns, delegate);
      }
      var msg := new MessageBuffer([]);
      WriteSubscribe(msg, Subscribe(1, transactionId, ns, intent));
      assert msg.data == EncodeSubscribe(Subscribe(1, transactionId, ns, intent));
      if !Count(subscribeState, ns) {
        subscribeState := Put(subscribeState, ns, SubscriptionState(false, transactionId));
        sent := sent + [msg.data];
        return;
      }
      if Get(subscribeState, ns).ready {
        return;
      }
      sent := sent + [msg.data];
    }

    method UnsubscribeFrom(ns: Namespace)
      modifies this
      ensures Seen() == Then(old(Seen()), Unsubscribing(old(Value()), ns))
    {
      var msg := new MessageBuffer([]);
      WriteUnsubscribe(msg, Unsubscribe(1, ns));
      assert msg.data == EncodeUnsubscribe(Unsubscribe(1, ns));
      EraseAbsent(subscribeState, ns);
      if Count(subscribeState, ns) {
        subscribeState := Erase(subscribeState, ns);
      }
      sent := sent + [msg.data];
    }

    /** `accepted` says whether the transport takes the message; it is what the
        caller is told. */
    method Announce(delegate: nat, ns: Namespace, payload: Bytes, transactionId: uint64, streamId: UintVar,
        accepted: bool)
      returns (ok: bool)
      requires |payload| < TWO_61
      modifies this
      ensures ok == accepted
      ensures Seen() == Then(old(Seen()), Announcing(old(Value()), delegate, ns, payload, transactionId, streamId))
    {
      if !Count(pubDelegates, ns) {
        pubDelegates := Put(pubDelegates, ns, delegate);
      }
      var intent := PublishIntent(PUBLISH_INTENT, transactionId, ns, payload, streamId, 1);
      var msg := new MessageBuffer([]);
      WritePublishIntent(msg, intent);
      assert msg.data == EncodePublishIntent(intent);
      sent := sent + [msg.data];
      ok := accepted;
    }

    method Withdraw(ns: Namespace)
      modifies this
      ensures Seen() == Then(old(Seen()), Withdrawing(old(Value()), ns))
    {
      if !Count(pubDelegates, ns) {
        return;
      }
      pubDelegates := Erase(pubDelegates, ns);
      var intentEnd := PublishIntentEnd(PUBLISH_INTENT_END, ns, []);
      var msg := new MessageBuffer([]);
      WritePublishIntentEnd(msg, intentEnd);
      assert msg.data == EncodePublishIntentEnd(intentEnd);
      sent := sent + [msg.data];
    }

    method RemoveSubscribeState(all: bool, ns: Namespace, reason: uint8, w: World)
      modifies this
      ensures Seen() == Then(old(Seen()),
        if all then RemoveAll(old(Value()), w, reason) else RemoveOne(old(Value()), w, ns, reason))
    {
      if !all {
        RemoveState(ns, reason, w);
        return;
      }
      ghost var total := RemoveAll(Value(), w, reason);
      var entries := subscribeState;
      var todo := entries.Keys;
      while todo != {}
        invariant todo <= entries.Keys && fragments.Value() == old(fragments.Value())
        invariant Then(Seen(), RemoveEach(Value(), w, entries, todo, reason)) == Then(old(Seen()), total)
        decreases |todo|
      {
        var n := LeastName(todo);
        ghost var before := Seen();
        ghost var one := RemoveOne(Value(), w, entries[n].key, reason);
        RemoveState(entries[n].key, reason, w);
        todo := todo - {n};
        ThenTwice(before, one, RemoveEach(Value(), w, entries, todo, reason));
      }
    }

    method RemoveState(ns: Namespace, reason: uint8, w: World)
      modifies this
      ensures Seen() == Then(old(Seen()), RemoveOne(old(Value()), w, ns, reason))
    {
      EraseAbsent(subscribeState, ns);
      EraseAbsent(subDelegates, ns);
      if Count(subscribeState, ns) {
        subscribeState := Erase(subscribeState, ns);
      }
      if Count(subDelegates, ns) {
        var delegate := Get(subDelegates, ns);
        if delegate in w.alive {
          reports := reports + [OnEnded(ns.name, delegate, ns, reason)];
        }
        subDelegates := Erase(subDelegates, ns);
      }
    }

    /** One message from the transport. */
    method Handle(data: Bytes, w: World, lim: Limits)
      modifies this, fragments
      ensures Seen() == Then(old(Seen()), Receive(old(Value()), w, lim, Parse(data)))
    {
      if data == [] {
        return;
      }
      if data[0] == SUBSCRIBE_RESPONSE {
        HandleResponseMessage(data, w);
      } else if data[0] == SUBSCRIBE_END {
        HandleEndMessage(data, w);
      } else if data[0] == PUBLISH {
        HandlePublishMessage(data, w, lim);
      } else if data[0] == PUBLISH_INTENT_RESPONSE {
        HandleIntentResponseMessage(data, w);
      }
    }

    method HandleResponseMessage(data: Bytes, w: World)
      requires data != [] && data[0] == SUBSCRIBE_RESPONSE
      modifies this`reports
      ensures forall lim :: Seen() == Then(old(Seen()), Receive(old(Value()), w, lim, Parse(data)))
    {
      var msg := new MessageBuffer(data);
      var r := ReadSubscribeResponse(msg);
      if r.Success? {
        HandleResponse(r.value, w);
      }
    }

    method HandleEndMessage(data: Bytes, w: World)
      requires data != [] && data[0] == SUBSCRIBE_END
      modifies this
      ensures forall lim :: Seen() == Then(old(Seen()), Receive(old(Value()), w, lim, Parse(data)))
    {
      var msg := new MessageBuffer(data);
      var r := ReadSubscribeEnd(msg);
      if r.Success? {
        RemoveSubscribeState(false, r.value.ns, r.value.reason, w);
      }
    }

    method HandlePublishMessage(data: Bytes, w: World, lim: Limits)
      requires data != [] && data[0] == PUBLISH
      modifies this, fragments
      ensures Seen() == Then(old(Seen()), Receive(old(Value()), w, lim, Parse(data)))
    {
      var msg := new MessageBuffer(data);
      var r := ReadPublish(msg);
      if r.Success? {
        HandlePublication(r.value, w, lim);
      }
    }

    method HandleIntentResponseMessage(data: Bytes, w: World)
      requires data != [] && data[0] == PUBLISH_INTENT_RESPONSE
      modifies this`reports
      ensures forall lim :: Seen() == Then(old(Seen()), Receive(old(Value()), w, lim, Parse(data)))
    {
      var msg := new MessageBuffer(data);
      var r := ReadPublishIntentResponse(msg);
      if r.Success? {
        HandleIntentResponse(r.value, w);
      }
    }

    method HandleResponse(r: SubscribeResponse, w: World)
      modifies this`reports
      ensures reports == old(reports) +
        if Count(subDelegates, r.ns) && Get(subDelegates, r.ns) in w.alive
        then [OnResponse(r.ns.name, Get(subDelegates, r.ns), r.ns, r.response)] else []
    {
      if Count(subDelegates, r.ns) {
        var delegate := Get(subDelegates, r.ns);
        if delegate in w.alive {
          reports := reports + [OnResponse(r.ns.name, delegate, r.ns, r.response)];
        }
      }
    }

    method HandleIntentResponse(r: PublishIntentResponse, w: World)
      modifies this`reports
      ensures reports == old(reports) +
        if Count(pubDelegates, r.ns) && Get(pubDelegates, r.ns) in w.alive
        then [OnIntentResponse(r.ns.name, Get(pubDelegates, r.ns), r.ns, r.response)] else []
    {
      if Count(pubDelegates, r.ns) {
        var delegate := Get(pubDelegates, r.ns);
        if delegate in w.alive {
          reports := reports + [OnIntentResponse(r.ns.name, delegate, r.ns, r.response)];
        }
      }
    }

    method HandlePublication(d: PublishDatagram, w: World, lim: Limits)
      modifies this, fragments
      ensures Seen() == Then(old(Seen()), ReceivePublication(old(Value()), w, lim, d))
    {
      if d.header.offsetAndFin == 1 {
        OfferAll(d.header.name, d.mediaData, w);
      } else {
        var done := fragments.HandlePubFragment(PieceOf(d), lim);
        if done.Some? {
          CopyToAll(d.header.name, done.value, w);
        }
      }
    }

    /** The delivery loop of notify_pub_fragment. */
    method CopyToAll(name: Name, data: Bytes, w: World)
      modifies this`reports
      ensures reports == old(reports) + Deliver(subDelegates, subDelegates.Keys, w, name, data)
    {
      var todo := subDelegates.Keys;
      ghost var total := reports + Deliver(subDelegates, todo, w, name, data);
      while todo != {}
        invariant todo <= subDelegates.Keys
        invariant total == reports + Deliver(subDelegates, todo, w, name, data)
        decreases |todo|
      {
        var n := LeastName(todo);
        var entry := subDelegates[n];
        todo := todo - {n};
        if Contains(entry.key, name) && entry.value in w.alive {
          ghost var rest := Deliver(subDelegates, todo, w, name, data);
          assert reports + ([OnObject(n, entry.value, name, data)] + rest)
              == (reports + [OnObject(n, entry.value, name, data)]) + rest;
          reports := reports + [OnObject(n, entry.value, name, data)];
        }
      }
    }

    /** The delivery loop of handle for an unfragmented object. */
    method OfferAll(name: Name, bytes: Bytes, w: World)
      modifies this`reports
      ensures reports == old(reports) + DeliverShared(subDelegates, subDelegates.Keys, w, name, bytes)
    {
      var todo := subDelegates.Keys;
      var data := bytes;
      ghost var total := reports + DeliverShared(subDelegates, todo, w, name, data);
      while todo != {}
        invariant todo <= subDelegates.Keys
        invariant total == reports + DeliverShared(subDelegates, todo, w, name, data)
        decreases |todo|
      {
        var n := LeastName(todo);
        var entry := subDelegates[n];
        todo := todo - {n};
        if Contains(entry.key, name) && entry.value in w.alive {
          ghost var left := if entry.value in w.takers then [] else data;
          ghost var rest := DeliverShared(subDelegates, todo, w, name, left);
          assert reports + ([OnObject(n, entry.value, name, data)] + rest)
              == (reports + [OnObject(n, entry.value, name, data)]) + rest;
          reports := reports + [OnObject(n, entry.value, name, data)];
          if entry.value in w.takers {
            data := [];
          }
        }
      }
    }
  }

  /** What is seen after a further call. */
  function Then(before: Change, r: Change): Change {
    Change(r.state, before.sent + r.sent, before.reports + r.reports)
  }

  lemma ThenTwice(before: Change, one: Change, rest: Change)
    ensures Then(Then(before, one), rest)
         == Then(before, Change(rest.state, one.sent + rest.sent, one.reports + rest.reports))
  {
    assert (before.sent + one.sent) + rest.sent == before.sent + (one.sent + rest.sent);
    assert (before.reports + one.reports) + rest.reports == before.reports + (one.reports + rest.reports);
  }

  lemma EraseAbsent<V>(m: NsMap<V>, ns: Namespace)
    ensures !Count(m, ns) ==> Erase(m, ns) == m
  {}
}
