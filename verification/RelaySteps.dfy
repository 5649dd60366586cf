/** What the relay sends for each event, exactly, and how often over a run: answers,
    ends, and objects to those who asked for them. */
module RelaySteps {
  import opened Bits
  import opened ByteOrder
  import opened Messages
  import opened NamespaceMaps
  import opened Names
  import opened Namespaces
  import opened Relay
  import opened Server
  import opened ServerRuns
  import opened ServerSteps
  import Subs = Subscriptions

  // A run of the relay is a run of the server.

  /** The relay's reactions, event by event. */
  ghost function RelayTurns(r: Relay, events: seq<ServerEvent>): seq<ServerTurn>
    decreases |events|
  {
    if events == [] then []
    else [ServerTurn(events[0], RelayDelegate(r.index))] + RelayTurns(RelayStep(r, events[0]), events[1..])
  }

  lemma {:induction false} RelayRunsServer(r: Relay, events: seq<ServerEvent>)
    ensures RelayRun(r, events).server == Run(r.server, RelayTurns(r, events))
    ensures RelayOutputs(r, events) == Outputs(r.server, RelayTurns(r, events))
    decreases |events|
  {
    if events == [] {
    } else {
      var next, rest := RelayStep(r, events[0]), RelayTurns(RelayStep(r, events[0]), events[1..]);
      RelayRunsServer(next, events[1..]);
      assert RelayTurns(r, events)[1..] == rest;
    }
  }

  lemma ReachableRelay(events: seq<ServerEvent>)
    ensures IdInv(RelayRun(RelayStart(), events).server)
  {
    RelayRunsServer(RelayStart(), events);
    ReachableIdInv(RelayTurns(RelayStart(), events));
  }

  lemma {:induction false} RelayRunConcat(r: Relay, a: seq<ServerEvent>, b: seq<ServerEvent>)
    ensures RelayRun(r, a + b) == RelayRun(RelayRun(r, a), b)
    decreases |a|
  {
    if a == [] {
      assert a + b == b;
    } else {
      assert (a + b)[1..] == a[1..] + b;
      RelayRunConcat(RelayStep(r, a[0]), a[1..], b);
    }
  }

  lemma RelayRunOne(r: Relay, event: ServerEvent)
    ensures RelayRun(r, [event]) == RelayStep(r, event)
  {
    assert [event][1..] == [];
  }

  // Answers.

  /** The id a subscription is told of: that of the entry, or the next one. */
  ghost function IdGiven(s: State, contextId: ContextId, ns: Namespace): SubscriberId {
    if Subscribed(s, ns.name, contextId) then EntryOf(s, ns.name, contextId).subscriberId else s.nextId
  }

  /** In every reachable state a new subscription is answered with Ok, to where it
      came from. */
  lemma SubscriptionAnswered(r: Relay, contextId: ContextId, streamId: StreamId, m: Subscribe)
    requires !Subscribed(r.server, m.ns.name, contextId)
    ensures RelayEffect(r, Subscribing(contextId, streamId, m)).outputs
         == [Responded(r.server.nextId, contextId, streamId,
               SubscribeResponse(m.ns, 0, r.server.nextId % TWO_64))]
  {
    var t := Admit(r.server, contextId, streamId, m.ns);
    AdmitNew(r.server, contextId, streamId, m.ns);
    SubscribingNotifies(r.server, RelayDelegate(r.index), contextId, streamId, m);
    Single(t, SubscribeResponseCall(r.server.nextId, m.ns, STATUS_OK));
  }

  /** One of a listed context is answered where the first came from, as long as its
      id is alive. */
  lemma SubscriptionAnsweredAgain(r: Relay, contextId: ContextId, streamId: StreamId, m: Subscribe)
    requires Subscribed(r.server, m.ns.name, contextId)
    ensures var s, id := r.server, EntryOf(r.server, m.ns.name, contextId).subscriberId;
      RelayEffect(r, Subscribing(contextId, streamId, m)).outputs
        == if id !in s.subscribeIdState then []
           else [Responded(id, s.subscribeIdState[id].contextId, s.subscribeIdState[id].streamId,
                   SubscribeResponse(m.ns, 0, id % TWO_64))]
  {
    var t := Admit(r.server, contextId, streamId, m.ns);
    SubscribingNotifies(r.server, RelayDelegate(r.index), contextId, streamId, m);
    Single(t, SubscribeResponseCall(EntryOf(r.server, m.ns.name, contextId).subscriberId, m.ns, STATUS_OK));
  }

  /** An intent is answered with Ok, to where the one that registered the name came
      from and under its transaction id. */
  lemma IntentIsAnswered(r: Relay, contextId: ContextId, streamId: StreamId, m: PublishIntent)
    ensures var event := Intending(contextId, streamId, m);
      var registered := RegisteredAfter(Registrations(r.server), event)[m.ns.name];
      RelayEffect(r, event).outputs == [IntentAnswered(registered.contextId, registered.streamId,
        PublishIntentResponse(7, m.ns, 0, registered.transactionId))]
    ensures Ready(RelayEffect(r, Intending(contextId, streamId, m)).state, m.ns.name)
  {
    var s := r.server;
    var t := if Count(s.publishNamespaces, m.ns) then s
             else s.(publishNamespaces := Put(s.publishNamespaces, m.ns,
                       IntentContext(contextId, streamId, m.transactionId, false)));
    Single(t, PublishIntentResponseCall(m.ns, STATUS_OK));
    IntentReadyIff(s, RelayDelegate(r.index), contextId, streamId, m);
    assert PublishIntentResponseCall(m.ns, STATUS_OK) in RelayDelegate(r.index)(OnPublishIntent(m.ns, m.payload));
  }

  lemma IntentEndSilent(r: Relay, m: PublishIntentEnd)
    ensures RelayEffect(r, IntentEnding(m)).outputs == []
  {}

  // Ends.

  /** The end of a live id. */
  ghost function EndOf(s: State, id: SubscriberId, ns: Namespace): seq<Output> {
    if id !in s.subscribeIdState then []
    else [Ended(id, s.subscribeIdState[id].contextId, s.subscribeIdState[id].streamId, SubscribeEnd(ns, 0))]
  }

  lemma EndSent(s: State, index: Subs.Index, ns: Namespace, id: SubscriberId)
    ensures Notify(s, RelayDelegate(index), OnUnsubscribe(ns, id)).outputs == EndOf(s, id, ns)
  {
    Single(s, SubscriptionEndedCall(id, ns, STATUS_OK));
  }

  lemma UnsubscribingSends(r: Relay, contextId: ContextId, m: Unsubscribe)
    ensures RelayEffect(r, Unsubscribing(contextId, m)).outputs
         == if Subscribed(r.server, m.ns.name, contextId)
            then EndOf(r.server, EntryOf(r.server, m.ns.name, contextId).subscriberId, m.ns) else []
  {
    var t := TouchSubscribers(r.server, m.ns);
    if contextId in Get(t.subscribeState, m.ns) {
      EndSent(t, r.index, m.ns, Get(t.subscribeState, m.ns)[contextId].subscriberId);
    }
  }

  /** In every reachable state an unsubscription by a context whose id is alive sends
      exactly one message: the end, with Ok, to that context and to the stream its
      subscription came on. Any other sends nothing. */
  lemma UnsubscriptionEnds(events: seq<ServerEvent>, contextId: ContextId, m: Unsubscribe)
    ensures var r := RelayRun(RelayStart(), events);
      var s, outputs := r.server, RelayEffect(r, Unsubscribing(contextId, m)).outputs;
      if Subscribed(s, m.ns.name, contextId) && EntryOf(s, m.ns.name, contextId).subscriberId in s.subscribeIdState
      then
        var entry := EntryOf(s, m.ns.name, contextId);
        outputs == [Ended(entry.subscriberId, contextId, entry.streamId, SubscribeEnd(m.ns, 0))]
      else outputs == []
  {
    ReachableRelay(events);
    UnsubscribingSends(RelayRun(RelayStart(), events), contextId, m);
  }

  /** An end that a disconnection of the context sends. */
  ghost predicate IsEndOf(s: State, contextId: ContextId, n: Name, o: Output) {
    && Subscribed(s, n, contextId)
    && var entry := EntryOf(s, n, contextId);
       && entry.subscriberId in s.subscribeIdState
       && o == Ended(entry.subscriberId, contextId, entry.streamId, SubscribeEnd(s.subscribeState[n].key, 0))
  }

  ghost predicate EndAmong(s: State, contextId: ContextId, names: set<Name>, o: Output) {
    exists n :: n in names && IsEndOf(s, contextId, n, o)
  }

  lemma EndAmongFirst(s: State, contextId: ContextId, names: set<Name>, n: Name, o: Output)
    requires n in names
    ensures EndAmong(s, contextId, names, o) <==>
      IsEndOf(s, contextId, n, o) || EndAmong(s, contextId, names - {n}, o)
  {
    if x :| x in names && IsEndOf(s, contextId, x, o) {
      assert x == n || x in names - {n};
    }
  }

  /** Each is there, no other, and none twice. */
  ghost predicate AreEndsOf(outputs: seq<Output>, s: State, contextId: ContextId, names: set<Name>) {
    && (forall o :: o in outputs <==> EndAmong(s, contextId, names, o))
    && (forall i, j :: 0 <= i < j < |outputs| ==> outputs[i] != outputs[j])
  }

  lemma {:induction false} DisconnectSends(s: State, index: Subs.Index, contextId: ContextId, todo: set<Name>)
    requires IdInv(s) && todo <= s.subscribeState.Keys
    ensures AreEndsOf(Disconnect(s, RelayDelegate(index), contextId, todo).outputs, s, contextId, todo)
    decreases |todo|
  {
    if todo == {} {
    } else {
      var d := RelayDelegate(index);
      var n := LeastName(todo);
      var entry := s.subscribeState[n];
      if contextId !in entry.value {
        DisconnectSends(s, index, contextId, todo - {n});
        forall o
          ensures EndAmong(s, contextId, todo, o) <==> EndAmong(s, contextId, todo - {n}, o)
        {
          EndAmongFirst(s, contextId, todo, n, o);
        }
      } else {
        assert Subscribed(s, n, contextId);
        var id := entry.value[contextId].subscriberId;
        var e := Notify(s, d, OnUnsubscribe(entry.key, id));
        NotifySame(s, d, OnUnsubscribe(entry.key, id));
        EndSent(s, index, entry.key, id);
        var t := e.state.(subscribeIdState := e.state.subscribeIdState - {id});
        assert forall x, c :: Subscribed(t, x, c) <==> Subscribed(s, x, c);
        FewerInv(s, t);
        DisconnectSends(t, index, contextId, todo - {n});
        EndsJoined(s, t, contextId, todo, n, Disconnect(t, d, contextId, todo - {n}).outputs);
      }
    }
  }

  /** Without the id of its entry under `n`, a context has the same other ends. */
  lemma EndsAfter(s: State, t: State, contextId: ContextId, n: Name, x: Name, o: Output)
    requires IdInv(s) && Subscribed(s, n, contextId) && t.subscribeState == s.subscribeState
    requires t.subscribeIdState == s.subscribeIdState - {EntryOf(s, n, contextId).subscriberId}
    requires x != n
    ensures IsEndOf(t, contextId, x, o) <==> IsEndOf(s, contextId, x, o)
    ensures IsEndOf(s, contextId, x, o) ==> o.id != EntryOf(s, n, contextId).subscriberId
  {
    assert Subscribed(t, x, contextId) <==> Subscribed(s, x, contextId);
  }

  lemma EndAmongAfter(s: State, t: State, contextId: ContextId, n: Name, names: set<Name>, o: Output)
    requires IdInv(s) && Subscribed(s, n, contextId) && t.subscribeState == s.subscribeState
    requires t.subscribeIdState == s.subscribeIdState - {EntryOf(s, n, contextId).subscriberId}
    requires n !in names
    ensures EndAmong(t, contextId, names, o) <==> EndAmong(s, contextId, names, o)
    ensures EndAmong(s, contextId, names, o) ==> o.Ended? && o.id != EntryOf(s, n, contextId).subscriberId
  {
    forall x | x in names
      ensures IsEndOf(t, contextId, x, o) <==> IsEndOf(s, contextId, x, o)
      ensures IsEndOf(s, contextId, x, o) ==> o.id != EntryOf(s, n, contextId).subscriberId
    {
      EndsAfter(s, t, contextId, n, x, o);
    }
  }

  lemma EndsJoined(s: State, t: State, contextId: ContextId, todo: set<Name>, n: Name, rest: seq<Output>)
    requires n in todo && IdInv(s) && Subscribed(s, n, contextId) && t.subscribeState == s.subscribeState
    requires t.subscribeIdState == s.subscribeIdState - {EntryOf(s, n, contextId).subscriberId}
    requires AreEndsOf(rest, t, contextId, todo - {n})
    ensures var first := EndOf(s, EntryOf(s, n, contextId).subscriberId, s.subscribeState[n].key);
      AreEndsOf(first + rest, s, contextId, todo)
  {
    var id := EntryOf(s, n, contextId).subscriberId;
    var first := EndOf(s, id, s.subscribeState[n].key);
    forall o
      ensures o in first + rest <==> EndAmong(s, contextId, todo, o)
      ensures o in rest ==> o.Ended? && o.id != id
    {
      EndAmongFirst(s, contextId, todo, n, o);
      EndAmongAfter(s, t, contextId, n, todo - {n}, o);
    }
    forall i, j | 0 <= i < j < |first + rest|
      ensures (first + rest)[i] != (first + rest)[j]
    {
      assert j >= |first| ==> rest[j - |first|] in rest;
    }
  }

  /** In every reachable state a disconnection sends exactly one end, with Ok, for
      each live id listed for the context, under the namespace it is listed with. */
  lemma DisconnectionEnds(events: seq<ServerEvent>, contextId: ContextId)
    ensures var r := RelayRun(RelayStart(), events);
      var outputs := RelayEffect(r, Disconnecting(contextId)).outputs;
      && (forall o :: o in outputs <==> exists n :: IsEndOf(r.server, contextId, n, o))
      && (forall i, j :: 0 <= i < j < |outputs| ==> outputs[i] != outputs[j])
  {
    var r := RelayRun(RelayStart(), events);
    var names := r.server.subscribeState.Keys;
    ReachableRelay(events);
    DisconnectSends(r.server, r.index, contextId, names);
    forall o
      ensures EndAmong(r.server, contextId, names, o) <==> exists n :: IsEndOf(r.server, contextId, n, o)
    {
      if n :| IsEndOf(r.server, contextId, n, o) {
        assert n in names;
      }
    }
  }

  /** How many ends are sent for an id. */
  ghost function EndCount(outputs: seq<Output>, id: SubscriberId): nat {
    if outputs == [] then 0
    else (if outputs[0].Ended? && outputs[0].id == id then 1 else 0) + EndCount(outputs[1..], id)
  }

  lemma {:induction false} EndCountConcat(a: seq<Output>, b: seq<Output>, id: SubscriberId)
    ensures EndCount(a + b, id) == EndCount(a, id) + EndCount(b, id)
  {
    if a == [] {
      assert a + b == b;
    } else {
      assert (a + b)[1..] == a[1..] + b;
      EndCountConcat(a[1..], b, id);
    }
  }

  lemma {:induction false} NoEndCount(outputs: seq<Output>, id: SubscriberId)
    requires forall o :: o in outputs ==> !o.Ended?
    ensures EndCount(outputs, id) == 0
  {
    if outputs == [] {
    } else {
      assert outputs[0] in outputs && forall o :: o in outputs[1..] ==> o in outputs;
      NoEndCount(outputs[1..], id);
    }
  }

  lemma EndOfCount(s: State, other: SubscriberId, ns: Namespace, id: SubscriberId)
    ensures EndCount(EndOf(s, other, ns), id) == if other in s.subscribeIdState && id == other then 1 else 0
  {
    if other in s.subscribeIdState {
      assert EndOf(s, other, ns)[1..] == [];
    }
  }

  /** The step takes the id away. */
  ghost predicate Leaves(s: State, t: State, id: SubscriberId) {
    id in s.subscribeIdState && id !in t.subscribeIdState
  }

  lemma {:induction false} DisconnectEndCount(s: State, index: Subs.Index, contextId: ContextId, todo: set<Name>,
      id: SubscriberId)
    requires IdInv(s) && todo <= s.subscribeState.Keys
    ensures var e := Disconnect(s, RelayDelegate(index), contextId, todo);
      && EndCount(e.outputs, id) == (if Leaves(s, e.state, id) then 1 else 0)
      && (id !in s.subscribeIdState ==> id !in e.state.subscribeIdState)
    decreases |todo|
  {
    if todo == {} {
    } else {
      var d := RelayDelegate(index);
      var n := LeastName(todo);
      var entry := s.subscribeState[n];
      if contextId !in entry.value {
        DisconnectEndCount(s, index, contextId, todo - {n}, id);
      } else {
        var other := entry.value[contextId].subscriberId;
        var e := Notify(s, d, OnUnsubscribe(entry.key, other));
        NotifySame(s, d, OnUnsubscribe(entry.key, other));
        EndSent(s, index, entry.key, other);
        EndOfCount(s, other, entry.key, id);
        var t := e.state.(subscribeIdState := e.state.subscribeIdState - {other});
        assert forall x, c :: Subscribed(t, x, c) <==> Subscribed(s, x, c);
        FewerInv(s, t);
        DisconnectEndCount(t, index, contextId, todo - {n}, id);
        EndCountConcat(e.outputs, Disconnect(t, d, contextId, todo - {n}).outputs, id);
      }
    }
  }

  lemma UnsubscribingEndCount(r: Relay, contextId: ContextId, m: Unsubscribe, id: SubscriberId)
    ensures var e := RelayEffect(r, Unsubscribing(contextId, m));
      EndCount(e.outputs, id) == if Leaves(r.server, e.state, id) then 1 else 0
  {
    UnsubscribingSends(r, contextId, m);
    if Subscribed(r.server, m.ns.name, contextId) {
      Unsubscription(r.server, RelayDelegate(r.index), contextId, m);
      EndOfCount(r.server, EntryOf(r.server, m.ns.name, contextId).subscriberId, m.ns, id);
    } else {
      StrayUnsubscription(r.server, RelayDelegate(r.index), contextId, m);
    }
  }

  lemma OtherStepLeavesNone(r: Relay, event: ServerEvent, id: SubscriberId)
    requires !event.Unsubscribing? && !event.Disconnecting? && !event.Calling?
    ensures !Leaves(r.server, RelayEffect(r, event).state, id)
  {
    var d := RelayDelegate(r.index);
    match event
    case Subscribing(contextId, streamId, m) =>
      if Subscribed(r.server, m.ns.name, contextId) {
        RepeatedSubscription(r.server, d, contextId, streamId, m);
      } else {
        NewSubscription(r.server, d, contextId, streamId, m);
      }
    case _ => OtherStepsSame(r.server, d, event);
  }

  lemma StepEndCount(r: Relay, event: ServerEvent, id: SubscriberId)
    requires IdInv(r.server) && !event.Calling?
    ensures EndCount(RelayEffect(r, event).outputs, id)
         == if Leaves(r.server, RelayEffect(r, event).state, id) then 1 else 0
  {
    match event
    case Unsubscribing(contextId, m) => UnsubscribingEndCount(r, contextId, m, id);
    case Disconnecting(contextId) =>
      DisconnectEndCount(r.server, r.index, contextId, r.server.subscribeState.Keys, id);
    case _ =>
      OtherStepsEndNothing(r.server, r.index, event);
      NoEndCount(RelayEffect(r, event).outputs, id);
      OtherStepLeavesNone(r, event, id);
  }

  /** An id that is alive, or still to be given out. */
  ghost predicate Open(s: State, id: SubscriberId) {
    id in s.subscribeIdState || s.nextId <= id
  }

  lemma {:induction false} RunEndCount(r: Relay, events: seq<ServerEvent>, id: SubscriberId)
    requires IdInv(r.server) && FromTransport(events)
    ensures EndCount(RelayOutputs(r, events), id)
         == if Open(r.server, id) && Gone(RelayRun(r, events).server, id) then 1 else 0
    decreases |events|
  {
    if events == [] {
    } else {
      var d, next := RelayDelegate(r.index), RelayStep(r, events[0]);
      StepEndCount(r, events[0], id);
      StepIdInv(r.server, d, events[0]);
      RunEndCount(next, events[1..], id);
      EndCountConcat(RelayEffect(r, events[0]).outputs, RelayOutputs(next, events[1..]), id);
      StepOpen(r.server, d, events[0], id);
      if Gone(next.server, id) {
        RelayGone(next, events[1..], id);
      }
      LeavesOnce(r.server, next.server, RelayRun(next, events[1..]).server, id);
    }
  }

  /** An id leaves in the first step, in the rest, or not at all. */
  lemma LeavesOnce(s: State, t: State, u: State, id: SubscriberId)
    requires (Gone(s, id) ==> Gone(t, id)) && (Open(t, id) || Gone(t, id)) && (Gone(t, id) ==> Gone(u, id))
    requires Leaves(s, t, id) <==> Open(s, id) && Gone(t, id)
    ensures (if Leaves(s, t, id) then 1 else 0) + (if Open(t, id) && Gone(u, id) then 1 else 0)
         == if Open(s, id) && Gone(u, id) then 1 else 0
  {}

  /** An id given out by a step is alive after it. */
  lemma StepOpen(s: State, d: Delegate, event: ServerEvent, id: SubscriberId)
    requires IdInv(s)
    ensures var t := Step(s, d, event).state;
      && (Gone(s, id) ==> Gone(t, id)) && (Open(t, id) || Gone(t, id))
      && (Leaves(s, t, id) <==> Open(s, id) && Gone(t, id))
  {
    if Gone(s, id) {
      StepGone(s, d, event, id);
    }
    match event
    case Subscribing(contextId, streamId, m) =>
      if Subscribed(s, m.ns.name, contextId) {
        RepeatedSubscription(s, d, contextId, streamId, m);
      } else {
        NewSubscription(s, d, contextId, streamId, m);
      }
    case Unsubscribing(contextId, m) =>
      if Subscribed(s, m.ns.name, contextId) {
        Unsubscription(s, d, contextId, m);
      } else {
        StrayUnsubscription(s, d, contextId, m);
      }
    case Disconnecting(contextId) => DisconnectNextId(s, d, contextId, s.subscribeState.Keys);
    case _ => OtherStepsSame(s, d, event);
  }

  /** Over every run of the relay, an id that is gone was sent exactly one end, and
      one that is alive none. */
  lemma EndedExactlyOnce(events: seq<ServerEvent>, id: SubscriberId)
    requires FromTransport(events)
    ensures EndCount(RelayOutputs(RelayStart(), events), id)
         == if Gone(RelayRun(RelayStart(), events).server, id) then 1 else 0
  {
    RunEndCount(RelayStart(), events, id);
  }

  // Who is listed.

  /** The subscription an event adds to the list. */
  ghost predicate AddsToList(s: State, event: ServerEvent, sub: Subs.Subscription) {
    && event.Subscribing? && event.subscribe.ns.sigBits <= 128
    && sub.ns == MakeNamespace(event.subscribe.ns.name, event.subscribe.ns.sigBits)
    && sub.remote == RemoteOf(IdGiven(s, event.contextId, event.subscribe.ns))
  }

  lemma {:induction false} NothingListed(flat: set<Subs.Subscription>, callbacks: seq<Callback>)
    requires forall cb :: cb in callbacks ==> !cb.OnSubscribe?
    ensures FlatAfter(flat, callbacks) == flat
    decreases |callbacks|
  {
    if callbacks == [] {
    } else {
      assert callbacks[0] in callbacks && forall cb :: cb in callbacks[1..] ==> cb in callbacks;
      NothingListed(flat, callbacks[1..]);
    }
  }

  lemma OneListed(flat: set<Subs.Subscription>, callback: Callback)
    ensures FlatAfter(flat, [callback]) == FlatListed(flat, callback)
  {
    assert [callback][1..] == [];
  }

  lemma StepLists(r: Relay, flat: set<Subs.Subscription>, event: ServerEvent)
    requires IdInv(r.server)
    ensures forall sub :: sub in FlatAfter(flat, RelayEffect(r, event).callbacks) <==>
      sub in flat || AddsToList(r.server, event, sub)
  {
    var s, d := r.server, RelayDelegate(r.index);
    match event
    case Subscribing(contextId, streamId, m) =>
      var callback := OnSubscribe(m.ns, IdGiven(s, contextId, m.ns), contextId, streamId, m.intent);
      if Subscribed(s, m.ns.name, contextId) {
        RepeatedSubscription(s, d, contextId, streamId, m);
      } else {
        NewSubscription(s, d, contextId, streamId, m);
      }
      OneListed(flat, callback);
    case _ =>
      OthersReportNone(s, d, event);
      NothingListed(flat, RelayEffect(r, event).callbacks);
  }

  lemma OthersReportNone(s: State, d: Delegate, event: ServerEvent)
    requires !event.Subscribing?
    ensures forall cb :: cb in Step(s, d, event).callbacks ==> !cb.OnSubscribe?
  {
    match event
    case Disconnecting(contextId) => DisconnectReports(s, d, contextId, s.subscribeState.Keys);
    case _ =>
  }

  /** Some event of the run added the subscription. */
  ghost predicate ListedIn(r: Relay, events: seq<ServerEvent>, sub: Subs.Subscription) {
    exists p :: 0 <= p < |events| && AddsToList(RelayRun(r, events[..p]).server, events[p], sub)
  }

  lemma ListedInFirst(r: Relay, events: seq<ServerEvent>, sub: Subs.Subscription)
    requires events != []
    ensures ListedIn(r, events, sub) <==>
      AddsToList(r.server, events[0], sub) || ListedIn(RelayStep(r, events[0]), events[1..], sub)
  {
    var next, rest := RelayStep(r, events[0]), events[1..];
    forall p | 0 <= p < |rest|
      ensures RelayRun(r, events[..p + 1]) == RelayRun(next, rest[..p]) && events[p + 1] == rest[p]
    {
      assert events[..p + 1][1..] == rest[..p];
    }
    assert RelayRun(r, events[..0]) == r;
    if q :| 0 <= q < |rest| && AddsToList(RelayRun(next, rest[..q]).server, rest[q], sub) {
      assert AddsToList(RelayRun(r, events[..q + 1]).server, events[q + 1], sub);
    }
    if p :| 0 <= p < |events| && AddsToList(RelayRun(r, events[..p]).server, events[p], sub) {
      if p > 0 {
        assert AddsToList(RelayRun(next, rest[..p - 1]).server, rest[p - 1], sub);
      }
    }
  }

  /** The flat list after a run is what its subscriptions, and they alone, put on it. */
  lemma {:induction false} RunListed(r: Relay, flat: set<Subs.Subscription>, events: seq<ServerEvent>,
      sub: Subs.Subscription)
    requires IdInv(r.server)
    ensures sub in RelayFlat(r, flat, events) <==> sub in flat || ListedIn(r, events, sub)
    decreases |events|
  {
    if events == [] {
    } else {
      StepLists(r, flat, events[0]);
      StepIdInv(r.server, RelayDelegate(r.index), events[0]);
      RunListed(RelayStep(r, events[0]), FlatAfter(flat, RelayEffect(r, events[0]).callbacks), events[1..], sub);
      ListedInFirst(r, events, sub);
    }
  }

  /** The event subscribes the context of the id to a namespace that contains the
      name; one longer than 128 bits is not listed. */
  ghost predicate SubscribesTo(s: State, event: ServerEvent, id: SubscriberId, name: Name) {
    && event.Subscribing? && event.subscribe.ns.sigBits <= 128 && Contains(Remasked(event.subscribe.ns), name)
    && IdGiven(s, event.contextId, event.subscribe.ns) == id
  }

  /** The relay has a subscription of an id that contains a name exactly when some
      event of the run is such a subscription. */
  lemma WantsIffSubscribed(events: seq<ServerEvent>, id: SubscriberId, name: Name)
    ensures Wants(RelayFlat(RelayStart(), {}, events), id, name) <==>
      exists p :: 0 <= p < |events| && SubscribesTo(RelayRun(RelayStart(), events[..p]).server, events[p], id, name)
  {
    var start, flat := RelayStart(), RelayFlat(RelayStart(), {}, events);
    if Wants(flat, id, name) {
      var sub: Subs.Subscription :| sub in flat && sub.remote.subscribeId == id && Contains(sub.ns, name);
      RunListed(start, {}, events, sub);
      var q :| 0 <= q < |events| && AddsToList(RelayRun(start, events[..q]).server, events[q], sub);
      assert SubscribesTo(RelayRun(start, events[..q]).server, events[q], id, name);
    }
    if p :| 0 <= p < |events| && SubscribesTo(RelayRun(start, events[..p]).server, events[p], id, name) {
      var sub := Subs.Subscription(Remasked(events[p].subscribe.ns), RemoteOf(id));
      assert AddsToList(RelayRun(start, events[..p]).server, events[p], sub);
      RunListed(start, {}, events, sub);
    }
  }

  // In which order objects are sent.

  /** The ids of the remotes that are alive, in the order of the list. */
  ghost function LiveIds(s: State, list: seq<Subs.Remote>): seq<SubscriberId> {
    if list == [] then []
    else (if list[0].subscribeId in s.subscribeIdState then [list[0].subscribeId] else []) + LiveIds(s, list[1..])
  }

  /** The ids objects are sent to. */
  ghost function SentIds(outputs: seq<Output>): seq<SubscriberId> {
    if outputs == [] then []
    else (if outputs[0].Forwarded? then [outputs[0].id] else []) + SentIds(outputs[1..])
  }

  lemma SentIdsFirst(first: seq<Output>, rest: seq<Output>)
    requires |first| <= 1
    ensures SentIds(first + rest) == SentIds(first) + SentIds(rest)
  {
    if first == [] {
      assert first + rest == rest;
    } else {
      assert (first + rest)[1..] == rest && first[1..] == [];
    }
  }

  lemma {:induction false} SentInOrder(s: State, list: seq<Subs.Remote>, contextId: ContextId, streamId: StreamId,
      m: PublishDatagram)
    requires (contextId, streamId) != (0, 0) && forall x :: x in list ==> x == RemoteOf(x.subscribeId)
    ensures SentIds(PerformAll(s, Sends(list, contextId, streamId, m)).1) == LiveIds(s, list)
    decreases |list|
  {
    if list == [] {
    } else {
      assert list[0] in list && forall x :: x in list[1..] ==> x in list;
      var call := SendNamedObjectCall(list[0].subscribeId, m);
      var rest := Sends(list[1..], contextId, streamId, m);
      SentInOrder(s, list[1..], contextId, streamId, m);
      PerformFirst(s, call, rest);
      SentIdsFirst(Perform(s, call).1, PerformAll(s, rest).1);
    }
  }

  /** In every reachable state an object goes to the live ones of the remotes that
      `find` lists, in that order: by length, and for one length by id. */
  lemma ForwardedInOrder(events: seq<ServerEvent>, contextId: ContextId, streamId: StreamId, m: PublishDatagram)
    requires var s := RelayRun(RelayStart(), events).server;
      && Announced(s.publishNamespaces, m.header.name)
      && PublisherOf(s, contextId, streamId, m.header.name) != PublishContext(0, 0)
    ensures var r := RelayRun(RelayStart(), events);
      SentIds(RelayEffect(r, Publishing(contextId, streamId, m)).outputs)
        == LiveIds(r.server, Found(r.index, m.header.name))
  {
    var r := RelayRun(RelayStart(), events);
    RunLists(RelayStart(), {}, events);
    FoundAreRemotes(r.index, RelayFlat(RelayStart(), {}, events), m.header.name);
    var t := PublishOutputs(r, contextId, streamId, m);
    var c := PublisherOf(r.server, contextId, streamId, m.header.name);
    var found := Found(r.index, m.header.name);
    SentInOrder(t, found, c.contextId, c.streamId, m);
    SameLiveIds(r.server, t, found);
  }

  lemma {:induction false} SameLiveIds(s: State, t: State, list: seq<Subs.Remote>)
    requires s.subscribeIdState == t.subscribeIdState
    ensures LiveIds(s, list) == LiveIds(t, list)
    decreases |list|
  {
    if list == [] {
    } else {
      SameLiveIds(s, t, list[1..]);
    }
  }

  // From a subscription to the objects.

  /** An id keeps its context and stream as long as it is alive. */
  lemma StepKeepsId(s: State, d: Delegate, event: ServerEvent, id: SubscriberId)
    requires id < s.nextId && id in Step(s, d, event).state.subscribeIdState
    ensures id in s.subscribeIdState && Step(s, d, event).state.subscribeIdState[id] == s.subscribeIdState[id]
  {
    match event
    case Subscribing(contextId, streamId, m) =>
      if Subscribed(s, m.ns.name, contextId) {
        RepeatedSubscription(s, d, contextId, streamId, m);
      } else {
        NewSubscription(s, d, contextId, streamId, m);
      }
    case Unsubscribing(contextId, m) =>
      if Subscribed(s, m.ns.name, contextId) {
        Unsubscription(s, d, contextId, m);
      } else {
        StrayUnsubscription(s, d, contextId, m);
      }
    case Disconnecting(contextId) => DisconnectKeepsIds(s, d, contextId, s.subscribeState.Keys, id);
    case _ => OtherStepsSame(s, d, event);
  }

  lemma {:induction false} DisconnectKeepsIds(s: State, d: Delegate, contextId: ContextId, todo: set<Name>,
      id: SubscriberId)
    requires todo <= s.subscribeState.Keys && id in Disconnect(s, d, contextId, todo).state.subscribeIdState
    ensures id in s.subscribeIdState
    ensures Disconnect(s, d, contextId, todo).state.subscribeIdState[id] == s.subscribeIdState[id]
    decreases |todo|
  {
    if todo == {} {
    } else {
      var n := LeastName(todo);
      var entry := s.subscribeState[n];
      if contextId !in entry.value {
        DisconnectKeepsIds(s, d, contextId, todo - {n}, id);
      } else {
        var other := entry.value[contextId].subscriberId;
        var e := Notify(s, d, OnUnsubscribe(entry.key, other));
        NotifySame(s, d, OnUnsubscribe(entry.key, other));
        var t := e.state.(subscribeIdState := e.state.subscribeIdState - {other});
        DisconnectKeepsIds(t, d, contextId, todo - {n}, id);
      }
    }
  }

  lemma {:induction false} RunKeepsId(r: Relay, events: seq<ServerEvent>, id: SubscriberId)
    requires id < r.server.nextId && id in RelayRun(r, events).server.subscribeIdState
    ensures id in r.server.subscribeIdState
    ensures RelayRun(r, events).server.subscribeIdState[id] == r.server.subscribeIdState[id]
    decreases |events|
  {
    if events == [] {
    } else {
      StepNextId(r.server, RelayDelegate(r.index), events[0]);
      RunKeepsId(RelayStep(r, events[0]), events[1..], id);
      StepKeepsId(r.server, RelayDelegate(r.index), events[0], id);
    }
  }

  /** From a subscription to its objects: in every run of the relay, a context that
      is not listed subscribes to a namespace; as long as the id it was given is
      alive, every object of that namespace that is announced is sent to that context
      on that stream, unless its publisher is context 0 on stream 0. */
  lemma SubscriberIsServed(before: seq<ServerEvent>, contextId: ContextId, streamId: StreamId, m: Subscribe,
      after: seq<ServerEvent>, publisher: ContextId, stream: StreamId, d: PublishDatagram)
    requires !Subscribed(RelayRun(RelayStart(), before).server, m.ns.name, contextId) && m.ns.sigBits <= 128
    requires Contains(Remasked(m.ns), d.header.name)
    requires var r := RelayRun(RelayStart(), before + [Subscribing(contextId, streamId, m)] + after);
      && RelayRun(RelayStart(), before).server.nextId in r.server.subscribeIdState
      && Announced(r.server.publishNamespaces, d.header.name)
      && PublisherOf(r.server, publisher, stream, d.header.name) != PublishContext(0, 0)
    ensures var r := RelayRun(RelayStart(), before + [Subscribing(contextId, streamId, m)] + after);
      Forwarded(RelayRun(RelayStart(), before).server.nextId, contextId, streamId, d)
        in RelayEffect(r, Publishing(publisher, stream, d)).outputs
  {
    var event := Subscribing(contextId, streamId, m);
    var events := before + [event] + after;
    var r0 := RelayRun(RelayStart(), before);
    var id := r0.server.nextId;
    RunThrough(before, event, after);
    NewSubscription(r0.server, RelayDelegate(r0.index), contextId, streamId, m);
    RunKeepsId(RelayStep(r0, event), after, id);
    assert events[..|before|] == before && events[|before|] == event;
    assert SubscribesTo(RelayRun(RelayStart(), events[..|before|]).server, events[|before|], id, d.header.name);
    WantsIffSubscribed(events, id, d.header.name);
    ForwardedExactly(events, publisher, stream, d, Forwarded(id, contextId, streamId, d));
  }

  lemma RunThrough(before: seq<ServerEvent>, event: ServerEvent, after: seq<ServerEvent>)
    ensures RelayRun(RelayStart(), before + [event] + after)
         == RelayRun(RelayStep(RelayRun(RelayStart(), before), event), after)
  {
    RelayRunConcat(RelayStart(), before + [event], after);
    RelayRunConcat(RelayStart(), before, [event]);
    RelayRunOne(RelayRun(RelayStart(), before), event);
  }
}
