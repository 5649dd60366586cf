/** The relay application (cmd/really/really.cpp): what it does in each callback,
    and what follows for runs of the server together with it. */
module Relay {
  import opened Bits
  import opened ByteOrder
  import opened Messages
  import opened NamespaceMaps
  import opened Names
  import opened Namespaces
  import opened Server
  import opened ServerRuns
  import Subs = Subscriptions

  const STATUS_OK := 0

  /** The remote the relay lists for a subscriber: only the id is set. */
  function RemoteOf(id: SubscriberId): Subs.Remote {
    Subs.Remote(id, 0, 0)
  }

  /** Sends to every destination but the source of the object. */
  function Sends(list: seq<Subs.Remote>, contextId: ContextId, streamId: StreamId, m: PublishDatagram): seq<Call> {
    if list == [] then []
    else
      (if list[0].contextId == contextId && list[0].streamId == streamId then []
       else [SendNamedObjectCall(list[0].subscribeId, m)])
      + Sends(list[1..], contextId, streamId, m)
  }

  /** The calls the relay makes in a callback. */
  function Calls(index: Subs.Index, callback: Callback): seq<Call> {
    match callback
    case OnSubscribe(ns, id, _, _, _) => [SubscribeResponseCall(id, ns, STATUS_OK)]
    case OnUnsubscribe(ns, id) => [SubscriptionEndedCall(id, ns, STATUS_OK)]
    case OnPublisherObject(contextId, streamId, m) =>
      Sends(Subs.Destinations(Subs.Hits(index, m.header.name, 0)), contextId, streamId, m)
    case OnPublishIntent(ns, _) => [PublishIntentResponseCall(ns, STATUS_OK)]
    case OnPublishIntentEnd(_, _) => []
  }

  /** A subscription is listed. Its removal as written changes nothing. A length
      above 128 would index past the end of the source's vector. */
  function Listed(index: Subs.Index, callback: Callback): Subs.Index {
    match callback
    case OnSubscribe(ns, id, _, _, _) =>
      if ns.sigBits <= Subs.MAX_LENGTH then Subs.Add(index, ns.name, ns.sigBits, RemoteOf(id)) else index
    case _ => index
  }

  // The application as an object.

  class ReallyServer {
    const server: QuicRServer
    const subscribeList: Subs.SubscriptionIndex

    constructor ()
      ensures fresh(server) && fresh(subscribeList) && server.Seen() == Record(INITIAL, [], [])
      ensures forall len :: 0 <= len <= Subs.MAX_LENGTH ==> subscribeList.subscriptions[len] == map[]
    {
      server := new QuicRServer();
      subscribeList := new Subs.SubscriptionIndex();
    }

    method OnSubscribeCallback(ns: Namespace, id: SubscriberId, contextId: ContextId, streamId: StreamId, intent: uint8)
      requires ns.sigBits <= Subs.MAX_LENGTH
      modifies server, subscribeList
      ensures var cb := OnSubscribe(ns, id, contextId, streamId, intent);
        && subscribeList.subscriptions == Listed(old(subscribeList.subscriptions), cb)
        && server.Value() == old(server.Value()) && server.reported == old(server.reported)
        && server.sent == old(server.sent)
          + PerformAll(old(server.Value()), Calls(old(subscribeList.subscriptions), cb)).1
    {
      subscribeList.AddRemote(ns.name, ns.sigBits, RemoteOf(id));
      Single(server.Value(), SubscribeResponseCall(id, ns, STATUS_OK));
      server.SubscribeResponse(id, ns, STATUS_OK);
    }

    method OnUnsubscribeCallback(ns: Namespace, id: SubscriberId)
      requires ns.sigBits <= Subs.MAX_LENGTH
      modifies server, subscribeList
      ensures var cb := OnUnsubscribe(ns, id);
        && subscribeList.subscriptions == Listed(old(subscribeList.subscriptions), cb)
        && server.Value() == old(server.Value()) && server.reported == old(server.reported)
        && server.sent == old(server.sent)
          + PerformAll(old(server.Value()), Calls(old(subscribeList.subscriptions), cb)).1
    {
      Single(server.Value(), SubscriptionEndedCall(id, ns, STATUS_OK));
      server.SubscriptionEnded(id, ns, STATUS_OK);
      subscribeList.Remove(ns.name, ns.sigBits, RemoteOf(id));
    }

    method OnPublisherObjectCallback(contextId: ContextId, streamId: StreamId, m: PublishDatagram)
      modifies server
      ensures var cb := OnPublisherObject(contextId, streamId, m);
        && server.Value() == old(server.Value()) && server.reported == old(server.reported)
        && server.sent == old(server.sent) + PerformAll(old(server.Value()), Calls(subscribeList.subscriptions, cb)).1
    {
      var list := subscribeList.FindRemotes(m.header.name);
      SendToAll(list, contextId, streamId, m);
    }

    /** Each destination but the publisher itself. */
    method SendToAll(list: seq<Subs.Remote>, contextId: ContextId, streamId: StreamId, m: PublishDatagram)
      modifies server
      ensures server.Value() == old(server.Value()) && server.reported == old(server.reported)
      ensures server.sent
        == old(server.sent) + PerformAll(old(server.Value()), Sends(list, contextId, streamId, m)).1
    {
      ghost var v := server.Value();
      ghost var total := server.sent + PerformAll(v, Sends(list, contextId, streamId, m)).1;
      assert list[0..] == list;
      for i := 0 to |list|
        invariant server.Value() == v && server.reported == old(server.reported)
        invariant total == server.sent + PerformAll(v, Sends(list[i..], contextId, streamId, m)).1
      {
        var dest := list[i];
        SendsStep(v, list[i..], contextId, streamId, m, server.sent);
        assert list[i..][1..] == list[i + 1..];
        if dest.contextId == contextId && dest.streamId == streamId {
          continue;
        }
        server.SendNamedObject(dest.subscribeId, m);
      }
    }

    method OnPublishIntentCallback(ns: Namespace, payload: Bytes)
      modifies server
      ensures server.reported == old(server.reported)
      ensures var calls := Calls(subscribeList.subscriptions, OnPublishIntent(ns, payload));
        var (s, outputs) := PerformAll(old(server.Value()), calls);
        server.Value() == s && server.sent == old(server.sent) + outputs
    {
      Single(server.Value(), PublishIntentResponseCall(ns, STATUS_OK));
      server.PublishIntentResponse(ns, STATUS_OK);
    }
  }

  lemma Single(s: State, call: Call)
    ensures PerformAll(s, [call]) == Perform(s, call)
  {
    var (t, out) := Perform(s, call);
    assert PerformAll(t, []) == (t, []) && [call][1..] == [];
    assert out + [] == out;
  }

  lemma PerformFirst(s: State, call: Call, rest: seq<Call>)
    requires call.SendNamedObjectCall?
    ensures PerformAll(s, [call] + rest).1 == Perform(s, call).1 + PerformAll(s, rest).1
  {
    assert ([call] + rest)[1..] == rest;
  }

  /** One destination: skipped or sent to, before the others. */
  lemma SendsStep(s: State, list: seq<Subs.Remote>, contextId: ContextId, streamId: StreamId, m: PublishDatagram,
      sent: seq<Output>)
    requires list != []
    ensures var skipped := list[0].contextId == contextId && list[0].streamId == streamId;
      var rest := PerformAll(s, Sends(list[1..], contextId, streamId, m)).1;
      sent + PerformAll(s, Sends(list, contextId, streamId, m)).1
        == if skipped then sent + rest
           else (sent + Perform(s, SendNamedObjectCall(list[0].subscribeId, m)).1) + rest
  {
    var rest := Sends(list[1..], contextId, streamId, m);
    if list[0].contextId == contextId && list[0].streamId == streamId {
      assert [] + rest == rest;
    } else {
      PerformFirst(s, SendNamedObjectCall(list[0].subscribeId, m), rest);
    }
  }

  // Runs of the server and the relay together.

  datatype Relay = Relay(server: State, index: Subs.Index)

  ghost function RelayDelegate(index: Subs.Index): Delegate {
    callback => Calls(index, callback)
  }

  ghost function ListedAll(index: Subs.Index, callbacks: seq<Callback>): Subs.Index
    decreases |callbacks|
  {
    if callbacks == [] then index else ListedAll(Listed(index, callbacks[0]), callbacks[1..])
  }

  ghost function RelayEffect(r: Relay, event: ServerEvent): Effect {
    Step(r.server, RelayDelegate(r.index), event)
  }

  /** The one callback that changes the list is the only one of its step. */
  ghost function RelayStep(r: Relay, event: ServerEvent): Relay {
    var e := RelayEffect(r, event);
    Relay(e.state, ListedAll(r.index, e.callbacks))
  }

  ghost function RelayRun(r: Relay, events: seq<ServerEvent>): Relay
    decreases |events|
  {
    if events == [] then r else RelayRun(RelayStep(r, events[0]), events[1..])
  }

  ghost function RelayOutputs(r: Relay, events: seq<ServerEvent>): seq<Output>
    decreases |events|
  {
    if events == [] then [] else RelayEffect(r, events[0]).outputs + RelayOutputs(RelayStep(r, events[0]), events[1..])
  }

  /** The server is called in callbacks only. */
  ghost predicate FromTransport(events: seq<ServerEvent>) {
    forall e :: e in events ==> !e.Calling?
  }

  // A subscription's end.

  /** Nothing follows the end of a subscription for its id. */
  ghost predicate EndsLast(outputs: seq<Output>) {
    forall i, j :: 0 <= i < j < |outputs| && outputs[i].Ended? ==> !IsFor(outputs[j], outputs[i].id)
  }

  /** Every id whose end was sent is gone. */
  ghost predicate EndedGone(outputs: seq<Output>, s: State) {
    forall o :: o in outputs && o.Ended? ==> Gone(s, o.id)
  }

  ghost predicate EntriesBelow(s: State) {
    forall n, c :: Subscribed(s, n, c) ==> EntryOf(s, n, c).subscriberId < s.nextId
  }

  lemma {:induction false} DisconnectEnds(s: State, index: Subs.Index, contextId: ContextId, todo: set<Name>)
    requires EntriesBelow(s) && todo <= s.subscribeState.Keys
    ensures var e := Disconnect(s, RelayDelegate(index), contextId, todo);
      EndsLast(e.outputs) && EndedGone(e.outputs, e.state)
    decreases |todo|
  {
    if todo == {} {
    } else {
      var d := RelayDelegate(index);
      var n := LeastName(todo);
      var entry := s.subscribeState[n];
      if contextId !in entry.value {
        DisconnectEnds(s, index, contextId, todo - {n});
      } else {
        assert Subscribed(s, n, contextId);
        var id := entry.value[contextId].subscriberId;
        var cb := OnUnsubscribe(entry.key, id);
        var e := Notify(s, d, cb);
        NotifySame(s, d, cb);
        EndOutputs(s, index, entry.key, id);
        var t := e.state.(subscribeIdState := e.state.subscribeIdState - {id});
        assert forall m, c :: Subscribed(t, m, c) <==> Subscribed(s, m, c);
        DisconnectEnds(t, index, contextId, todo - {n});
        DisconnectGone(t, d, contextId, todo - {n}, id);
      }
    }
  }

  /** An unsubscription sends at most one message, the end for that id. */
  lemma EndOutputs(s: State, index: Subs.Index, ns: Namespace, id: SubscriberId)
    ensures var out := Notify(s, RelayDelegate(index), OnUnsubscribe(ns, id)).outputs;
      |out| <= 1 && forall o :: o in out ==> o.Ended? && o.id == id
  {
    Single(s, SubscriptionEndedCall(id, ns, STATUS_OK));
  }

  /** In other callbacks the relay ends nothing. */
  lemma {:induction false} SendsEndNothing(s: State, list: seq<Subs.Remote>, contextId: ContextId,
      streamId: StreamId, m: PublishDatagram)
    ensures forall o :: o in PerformAll(s, Sends(list, contextId, streamId, m)).1 ==> o.Forwarded?
  {
    if list == [] {
    } else {
      var rest := Sends(list[1..], contextId, streamId, m);
      SendsEndNothing(s, list[1..], contextId, streamId, m);
      if !(list[0].contextId == contextId && list[0].streamId == streamId) {
        PerformFirst(s, SendNamedObjectCall(list[0].subscribeId, m), rest);
      } else {
        assert [] + rest == rest;
      }
    }
  }

  lemma OtherCallbacksEndNothing(s: State, index: Subs.Index, callback: Callback)
    requires !callback.OnUnsubscribe?
    ensures forall o :: o in Notify(s, RelayDelegate(index), callback).outputs ==> !o.Ended?
  {
    match callback
    case OnSubscribe(ns, id, _, _, _) => Single(s, SubscribeResponseCall(id, ns, STATUS_OK));
    case OnPublishIntent(ns, _) => Single(s, PublishIntentResponseCall(ns, STATUS_OK));
    case OnPublisherObject(contextId, streamId, m) =>
      SendsEndNothing(s, Subs.Destinations(Subs.Hits(index, m.header.name, 0)), contextId, streamId, m);
    case _ =>
  }

  lemma UnsubscribingEnds(s: State, index: Subs.Index, contextId: ContextId, m: Unsubscribe)
    requires EntriesBelow(s)
    ensures var e := HandleUnsubscribe(s, RelayDelegate(index), contextId, m);
      EndsLast(e.outputs) && EndedGone(e.outputs, e.state)
  {
    var t := TouchSubscribers(s, m.ns);
    if contextId in Get(t.subscribeState, m.ns) {
      assert Subscribed(s, m.ns.name, contextId);
      var id := Get(t.subscribeState, m.ns)[contextId].subscriberId;
      EndOutputs(t, index, m.ns, id);
      NotifySame(t, RelayDelegate(index), OnUnsubscribe(m.ns, id));
    }
  }

  /** The callback of a step that has at most one, and the state it comes in. */
  lemma OneCallback(s: State, d: Delegate, event: ServerEvent) returns (t: State, callback: Callback)
    requires event.Subscribing? || event.Publishing? || event.Intending? || event.IntentEnding?
    ensures !callback.OnUnsubscribe?
    ensures var e := Step(s, d, event);
      || (e.outputs == [] && e.callbacks == [])
      || (e.outputs == Notify(t, d, callback).outputs && e.callbacks == [callback])
  {
    match event
    case Subscribing(contextId, streamId, m) =>
      t := Admit(s, contextId, streamId, m.ns);
      var id := Get(t.subscribeState, m.ns)[contextId].subscriberId;
      callback := OnSubscribe(m.ns, id, contextId, streamId, m.intent);
    case Publishing(contextId, streamId, m) =>
      var name := m.header.name;
      t := if name in s.publishState then s
           else s.(publishState := s.publishState[name := PublishContext(contextId, streamId)]);
      callback := OnPublisherObject(t.publishState[name].contextId, t.publishState[name].streamId, m);
    case Intending(contextId, streamId, m) =>
      t := if Count(s.publishNamespaces, m.ns) then s
           else s.(publishNamespaces := Put(s.publishNamespaces, m.ns,
                     IntentContext(contextId, streamId, m.transactionId, false)));
      callback := OnPublishIntent(m.ns, m.payload);
    case IntentEnding(m) =>
      t := s.(publishNamespaces := Erase(s.publishNamespaces, m.ns),
              publishState := map n | n in s.publishState && !Contains(m.ns, n) :: s.publishState[n]);
      callback := OnPublishIntentEnd(m.ns, m.payload);
  }

  lemma OtherStepsEndNothing(s: State, index: Subs.Index, event: ServerEvent)
    requires !event.Calling? && !event.Unsubscribing? && !event.Disconnecting?
    ensures forall o :: o in Step(s, RelayDelegate(index), event).outputs ==> !o.Ended?
  {
    var t, callback := OneCallback(s, RelayDelegate(index), event);
    OtherCallbacksEndNothing(t, index, callback);
  }

  lemma StepEnds(r: Relay, event: ServerEvent)
    requires IdInv(r.server) && !event.Calling?
    ensures EndsLast(RelayEffect(r, event).outputs)
    ensures EndedGone(RelayEffect(r, event).outputs, RelayStep(r, event).server)
  {
    if event.Disconnecting? {
      DisconnectEnds(r.server, r.index, event.contextId, r.server.subscribeState.Keys);
    } else if event.Unsubscribing? {
      UnsubscribingEnds(r.server, r.index, event.contextId, event.unsubscribe);
    } else {
      OtherStepsEndNothing(r.server, r.index, event);
    }
  }

  lemma {:induction false} RunEnds(r: Relay, events: seq<ServerEvent>)
    requires IdInv(r.server) && FromTransport(events)
    ensures EndsLast(RelayOutputs(r, events))
    ensures EndedGone(RelayOutputs(r, events), RelayRun(r, events).server)
    decreases |events|
  {
    if events == [] {
    } else {
      var e, next := RelayEffect(r, events[0]), RelayStep(r, events[0]);
      StepEnds(r, events[0]);
      StepIdInv(r.server, RelayDelegate(r.index), events[0]);
      RunEnds(next, events[1..]);
      forall o | o in e.outputs && o.Ended?
        ensures Gone(RelayRun(next, events[1..]).server, o.id)
        ensures SilentFor(RelayOutputs(next, events[1..]), o.id)
      {
        RelayGone(next, events[1..], o.id);
      }
    }
  }

  lemma {:induction false} RelayGone(r: Relay, events: seq<ServerEvent>, id: SubscriberId)
    requires Gone(r.server, id)
    ensures Gone(RelayRun(r, events).server, id) && SilentFor(RelayOutputs(r, events), id)
    decreases |events|
  {
    if events == [] {
    } else {
      StepGone(r.server, RelayDelegate(r.index), events[0], id);
      RelayGone(RelayStep(r, events[0]), events[1..], id);
    }
  }

  ghost function RelayStart(): Relay {
    Relay(INITIAL, seq(Subs.MAX_LENGTH + 1, _ => map[]))
  }

  /** From the start of the relay, every subscriber id is sent at most one end, and
      that is the last message for it. */
  lemma OneEndAndLast(events: seq<ServerEvent>)
    requires FromTransport(events)
    ensures EndsLast(RelayOutputs(RelayStart(), events))
  {
    RunEnds(RelayStart(), events);
  }

  // Where published objects go.

  /** The subscriptions reported so far, as a flat list. Ends take nothing off it. */
  ghost function FlatListed(flat: set<Subs.Subscription>, callback: Callback): set<Subs.Subscription> {
    match callback
    case OnSubscribe(ns, id, _, _, _) =>
      if ns.sigBits <= Subs.MAX_LENGTH
      then flat + {Subs.Subscription(MakeNamespace(ns.name, ns.sigBits), RemoteOf(id))} else flat
    case _ => flat
  }

  ghost function FlatAfter(flat: set<Subs.Subscription>, callbacks: seq<Callback>): set<Subs.Subscription>
    decreases |callbacks|
  {
    if callbacks == [] then flat else FlatAfter(FlatListed(flat, callbacks[0]), callbacks[1..])
  }

  ghost function RelayFlat(r: Relay, flat: set<Subs.Subscription>, events: seq<ServerEvent>): set<Subs.Subscription>
    decreases |events|
  {
    if events == [] then flat
    else RelayFlat(RelayStep(r, events[0]), FlatAfter(flat, RelayEffect(r, events[0]).callbacks), events[1..])
  }

  /** The index agrees with the flat list, whose remotes have no source set. */
  ghost predicate Lists(index: Subs.Index, flat: set<Subs.Subscription>) {
    && Subs.Agrees(index, flat)
    && forall s :: s in flat ==> s.remote == RemoteOf(s.remote.subscribeId)
  }

  lemma CallbackLists(index: Subs.Index, flat: set<Subs.Subscription>, callback: Callback)
    requires Lists(index, flat)
    ensures Lists(Listed(index, callback), FlatListed(flat, callback))
  {
    if callback.OnSubscribe? && callback.ns.sigBits <= Subs.MAX_LENGTH {
      Subs.StepAgrees(index, flat, Subs.Subscribed(callback.ns.name, callback.ns.sigBits, RemoteOf(callback.id)));
    }
  }

  lemma {:induction false} CallbacksList(index: Subs.Index, flat: set<Subs.Subscription>, callbacks: seq<Callback>)
    requires Lists(index, flat)
    ensures Lists(ListedAll(index, callbacks), FlatAfter(flat, callbacks))
    decreases |callbacks|
  {
    if callbacks == [] {
    } else {
      CallbackLists(index, flat, callbacks[0]);
      CallbacksList(Listed(index, callbacks[0]), FlatListed(flat, callbacks[0]), callbacks[1..]);
    }
  }

  lemma {:induction false} RunLists(r: Relay, flat: set<Subs.Subscription>, events: seq<ServerEvent>)
    requires Lists(r.index, flat)
    ensures Lists(RelayRun(r, events).index, RelayFlat(r, flat, events))
    decreases |events|
  {
    if events == [] {
    } else {
      var e := RelayEffect(r, events[0]);
      CallbacksList(r.index, flat, e.callbacks);
      RunLists(RelayStep(r, events[0]), FlatAfter(flat, e.callbacks), events[1..]);
    }
  }

  /** Some subscription reported for the id contains the name. */
  ghost predicate Wants(flat: set<Subs.Subscription>, id: SubscriberId, name: Name) {
    exists s :: s in flat && s.remote.subscribeId == id && Contains(s.ns, name)
  }

  /** The lengths of the subscriptions reported for the id that contain the name. */
  ghost function Lengths(flat: set<Subs.Subscription>, id: SubscriberId, name: Name): set<int> {
    set s: Subs.Subscription | s in flat && s.remote.subscribeId == id && Contains(s.ns, name) :: s.ns.sigBits
  }

  lemma WantsIffLengths(flat: set<Subs.Subscription>, id: SubscriberId, name: Name)
    ensures Wants(flat, id, name) <==> |Lengths(flat, id, name)| > 0
  {
    if Wants(flat, id, name) {
      var s: Subs.Subscription :| s in flat && s.remote.subscribeId == id && Contains(s.ns, name);
      assert s.ns.sigBits in Lengths(flat, id, name);
    } else {
      assert Lengths(flat, id, name) == {};
    }
  }

  lemma {:induction false} InDestinations(hits: seq<Subs.Hit>, remote: Subs.Remote)
    ensures remote in Subs.Destinations(hits) <==> exists h :: h in hits && h.remote == remote
  {
    if hits == [] {
    } else {
      InDestinations(hits[1..], remote);
      assert hits == [hits[0]] + hits[1..];
    }
  }

  /** The relay finds only remotes without a source, an id once for each length
      under which it is listed and wants the name. */
  lemma FoundCount(index: Subs.Index, flat: set<Subs.Subscription>, name: Name, id: SubscriberId)
    requires Lists(index, flat)
    ensures multiset(Found(index, name))[RemoteOf(id)] == |Lengths(flat, id, name)|
  {
    var hits := Subs.Hits(index, name, 0);
    Subs.HitsExact(index, name, 0);
    Subs.CountDestinations(hits, RemoteOf(id));
    forall h | h in hits && h.remote == RemoteOf(id)
      ensures h.len in Lengths(flat, id, name)
    {
      Subs.HitIffSubscribed(index, flat, name, h);
    }
    forall s: Subs.Subscription | s in flat && s.remote.subscribeId == id && Contains(s.ns, name)
      ensures s.ns.sigBits in Subs.LengthsOf(hits, RemoteOf(id))
    {
      var h := Subs.Hit(s.ns.sigBits, s.remote);
      Subs.HitIffSubscribed(index, flat, name, h);
      assert h in hits;
    }
    assert Subs.LengthsOf(hits, RemoteOf(id)) == Lengths(flat, id, name);
  }

  lemma FoundAreRemotes(index: Subs.Index, flat: set<Subs.Subscription>, name: Name)
    requires Lists(index, flat)
    ensures forall x :: x in Found(index, name) ==> x == RemoteOf(x.subscribeId)
  {
    var hits := Subs.Hits(index, name, 0);
    Subs.HitsExact(index, name, 0);
    forall x | x in Found(index, name)
      ensures x == RemoteOf(x.subscribeId)
    {
      InDestinations(hits, x);
      var h :| h in hits && h.remote == x;
      Subs.HitIffSubscribed(index, flat, name, h);
    }
  }

  /** A message for a live id, as forwarding makes it. */
  ghost predicate IsForwarding(s: State, m: PublishDatagram, o: Output) {
    && o.Forwarded? && o.id in s.subscribeIdState
    && o == Forwarded(o.id, s.subscribeIdState[o.id].contextId, s.subscribeIdState[o.id].streamId, m)
  }

  /** What is sent to a list of remotes without a source: one message to each whose
      id is alive, or none when the publisher is context 0 on stream 0. */
  lemma {:induction false} SentExactly(
    s: State, list: seq<Subs.Remote>, contextId: ContextId, streamId: StreamId, m: PublishDatagram, o: Output)
    requires forall x :: x in list ==> x == RemoteOf(x.subscribeId)
    ensures multiset(PerformAll(s, Sends(list, contextId, streamId, m)).1)[o]
         == if (contextId, streamId) != (0, 0) && IsForwarding(s, m, o) then multiset(list)[RemoteOf(o.id)] else 0
    decreases |list|
  {
    if list == [] {
    } else {
      var first, rest := list[0], list[1..];
      assert list == [first] + rest;
      assert first in list;
      SendsStep(s, list, contextId, streamId, m, []);
      SentExactly(s, rest, contextId, streamId, m, o);
      var later := PerformAll(s, Sends(rest, contextId, streamId, m)).1;
      var all := PerformAll(s, Sends(list, contextId, streamId, m)).1;
      var now := Perform(s, SendNamedObjectCall(first.subscribeId, m)).1;
      assert [] + all == all && [] + later == later && [] + now == now;
      SentFirst(s, first, m, o);
    }
  }

  lemma SentFirst(s: State, first: Subs.Remote, m: PublishDatagram, o: Output)
    requires first == RemoteOf(first.subscribeId)
    ensures multiset(Perform(s, SendNamedObjectCall(first.subscribeId, m)).1)[o]
         == if IsForwarding(s, m, o) && RemoteOf(o.id) == first then 1 else 0
  {}

  /** The context an object of this name is reported with. */
  ghost function PublisherOf(s: State, contextId: ContextId, streamId: StreamId, name: Name): PublishContext {
    if name in s.publishState then s.publishState[name] else PublishContext(contextId, streamId)
  }

  /** In every reachable state of the relay, an object in an announced namespace is
      sent, unaltered, exactly to the live ids with a subscription that contains its
      name, as many times as there are lengths of such subscriptions. The rule
      against sending it back to its source never applies as meant: the listed
      remotes carry no source, so it drops nothing, or everything when the first
      publisher of the name is context 0 on stream 0. */
  lemma ForwardedExactly(events: seq<ServerEvent>, contextId: ContextId, streamId: StreamId,
      m: PublishDatagram, o: Output)
    ensures var r := RelayRun(RelayStart(), events);
      var flat := RelayFlat(RelayStart(), {}, events);
      o in RelayEffect(r, Publishing(contextId, streamId, m)).outputs <==>
        && Announced(r.server.publishNamespaces, m.header.name)
        && PublisherOf(r.server, contextId, streamId, m.header.name) != PublishContext(0, 0)
        && o.Forwarded? && o.id in r.server.subscribeIdState && Wants(flat, o.id, m.header.name)
        && o.datagram == m
        && o.contextId == r.server.subscribeIdState[o.id].contextId
        && o.streamId == r.server.subscribeIdState[o.id].streamId
    ensures var r := RelayRun(RelayStart(), events);
      var outputs := RelayEffect(r, Publishing(contextId, streamId, m)).outputs;
      o in outputs ==>
        multiset(outputs)[o] == |Lengths(RelayFlat(RelayStart(), {}, events), o.id, m.header.name)|
  {
    RunLists(RelayStart(), {}, events);
    PublishSends(RelayRun(RelayStart(), events), RelayFlat(RelayStart(), {}, events), contextId, streamId, m, o);
  }

  lemma PublishSends(
    r: Relay, flat: set<Subs.Subscription>, contextId: ContextId, streamId: StreamId, m: PublishDatagram, o: Output)
    requires Lists(r.index, flat)
    ensures o in HandlePublish(r.server, RelayDelegate(r.index), contextId, streamId, m).outputs <==>
        && Announced(r.server.publishNamespaces, m.header.name)
        && PublisherOf(r.server, contextId, streamId, m.header.name) != PublishContext(0, 0)
        && o.Forwarded? && o.id in r.server.subscribeIdState && Wants(flat, o.id, m.header.name)
        && o.datagram == m
        && o.contextId == r.server.subscribeIdState[o.id].contextId
        && o.streamId == r.server.subscribeIdState[o.id].streamId
    ensures var outputs := HandlePublish(r.server, RelayDelegate(r.index), contextId, streamId, m).outputs;
      o in outputs ==> multiset(outputs)[o] == |Lengths(flat, o.id, m.header.name)|
  {
    var name := m.header.name;
    if Announced(r.server.publishNamespaces, name) {
      var t := PublishOutputs(r, contextId, streamId, m);
      var c := PublisherOf(r.server, contextId, streamId, name);
      FoundAreRemotes(r.index, flat, name);
      SentExactly(t, Found(r.index, name), c.contextId, c.streamId, m, o);
      if o.Forwarded? {
        FoundCount(r.index, flat, name, o.id);
        WantsIffLengths(flat, o.id, name);
      }
    }
  }

  ghost function Found(index: Subs.Index, name: Name): seq<Subs.Remote> {
    Subs.Destinations(Subs.Hits(index, name, 0))
  }

  lemma PublishOutputs(r: Relay, contextId: ContextId, streamId: StreamId, m: PublishDatagram) returns (t: State)
    requires Announced(r.server.publishNamespaces, m.header.name)
    ensures t.subscribeIdState == r.server.subscribeIdState
    ensures var c := PublisherOf(r.server, contextId, streamId, m.header.name);
      HandlePublish(r.server, RelayDelegate(r.index), contextId, streamId, m).outputs
        == PerformAll(t, Sends(Found(r.index, m.header.name), c.contextId, c.streamId, m)).1
  {
    var name := m.header.name;
    t := if name in r.server.publishState then r.server
         else r.server.(publishState := r.server.publishState[name := PublishContext(contextId, streamId)]);
    var c := PublisherOf(r.server, contextId, streamId, name);
    PublishNotifies(r.server, RelayDelegate(r.index), contextId, streamId, m, t);
    PublishCalls(r.index, c, m);
  }

  lemma PublishCalls(index: Subs.Index, c: PublishContext, m: PublishDatagram)
    ensures RelayDelegate(index)(OnPublisherObject(c.contextId, c.streamId, m))
         == Sends(Found(index, m.header.name), c.contextId, c.streamId, m)
  {}

  lemma PublishNotifies(s: State, d: Delegate, contextId: ContextId, streamId: StreamId, m: PublishDatagram, t: State)
    requires Announced(s.publishNamespaces, m.header.name)
    requires t == if m.header.name in s.publishState then s
      else s.(publishState := s.publishState[m.header.name := PublishContext(contextId, streamId)])
    ensures var c := PublisherOf(s, contextId, streamId, m.header.name);
      HandlePublish(s, d, contextId, streamId, m).outputs
        == PerformAll(t, d(OnPublisherObject(c.contextId, c.streamId, m))).1
  {}
}
