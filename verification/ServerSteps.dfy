/** What each event does to the server, exactly, whatever the application calls; and
    where everything that is sent in a run goes. */
module ServerSteps {
  import opened Bits
  import opened ByteOrder
  import opened Messages
  import opened NamespaceMaps
  import opened Names
  import opened Namespaces
  import opened Server
  import opened ServerRuns

  // Subscriptions.

  /** A subscription of a context that is not listed under the name creates an id:
      the next one, alive, with the context and the stream the message came on. */
  lemma NewSubscription(s: State, d: Delegate, contextId: ContextId, streamId: StreamId, m: Subscribe)
    requires !Subscribed(s, m.ns.name, contextId)
    ensures var e := Step(s, d, Subscribing(contextId, streamId, m));
      var made := SubscribeContext(contextId, streamId, s.nextId);
      && e.callbacks == [OnSubscribe(m.ns, s.nextId, contextId, streamId, m.intent)]
      && Subscribed(e.state, m.ns.name, contextId) && EntryOf(e.state, m.ns.name, contextId) == made
      && e.state.nextId == s.nextId + 1
      && e.state.subscribeIdState == s.subscribeIdState[s.nextId := made]
      && KeepsOthers(s, e.state, m.ns.name, contextId) && SameOtherNames(s, e.state, m.ns.name)
      && e.state.subscribeState[m.ns.name].key
         == (if m.ns.name in s.subscribeState then s.subscribeState[m.ns.name].key else m.ns)
      && SamePublishers(s, e.state)
    ensures var t := Step(s, d, Subscribing(contextId, streamId, m)).state;
      forall n, c :: Subscribed(t, n, c) ==> Subscribed(s, n, c) || (n == m.ns.name && c == contextId)
  {
    AdmitNew(s, contextId, streamId, m.ns);
    SubscribingNotifies(s, d, contextId, streamId, m);
    var callback := OnSubscribe(m.ns, s.nextId, contextId, streamId, m.intent);
    NotifySame(Admit(s, contextId, streamId, m.ns), d, callback);
    NotifyPublishers(Admit(s, contextId, streamId, m.ns), d, callback);
  }

  lemma SubscribingNotifies(s: State, d: Delegate, contextId: ContextId, streamId: StreamId, m: Subscribe)
    ensures var t := Admit(s, contextId, streamId, m.ns);
      Step(s, d, Subscribing(contextId, streamId, m)) == Notify(t, d,
        OnSubscribe(m.ns, Get(t.subscribeState, m.ns)[contextId].subscriberId, contextId, streamId, m.intent))
  {}

  lemma AdmitNew(s: State, contextId: ContextId, streamId: StreamId, ns: Namespace)
    requires !Subscribed(s, ns.name, contextId)
    ensures var t, made := Admit(s, contextId, streamId, ns), SubscribeContext(contextId, streamId, s.nextId);
      && Subscribed(t, ns.name, contextId) && EntryOf(t, ns.name, contextId) == made
      && t.nextId == s.nextId + 1 && t.subscribeIdState == s.subscribeIdState[s.nextId := made]
      && t.publishState == s.publishState && t.publishNamespaces == s.publishNamespaces
      && KeepsOthers(s, t, ns.name, contextId) && SameOtherNames(s, t, ns.name)
      && t.subscribeState[ns.name].key
         == (if ns.name in s.subscribeState then s.subscribeState[ns.name].key else ns)
    ensures var t := Admit(s, contextId, streamId, ns);
      forall n, c :: Subscribed(t, n, c) ==> Subscribed(s, n, c) || (n == ns.name && c == contextId)
  {
    TouchFinds(s, ns);
    AllocateNew(TouchSubscribers(s, ns), contextId, streamId, ns);
  }

  /** An entry without subscribers is made where there is none. */
  lemma TouchFinds(s: State, ns: Namespace)
    ensures var t := TouchSubscribers(s, ns);
      && t == s.(subscribeState := t.subscribeState) && SameOtherNames(s, t, ns.name)
      && ns.name in t.subscribeState
      && t.subscribeState[ns.name]
         == (if ns.name in s.subscribeState then s.subscribeState[ns.name] else Entry(ns, map[]))
    ensures var t := TouchSubscribers(s, ns);
      forall n, c :: (Subscribed(t, n, c) <==> Subscribed(s, n, c))
        && (Subscribed(s, n, c) ==> EntryOf(t, n, c) == EntryOf(s, n, c))
  {}

  lemma AllocateNew(s: State, contextId: ContextId, streamId: StreamId, ns: Namespace)
    requires Count(s.subscribeState, ns) && !Subscribed(s, ns.name, contextId)
    ensures var t, made := Allocate(s, ns, contextId, streamId), SubscribeContext(contextId, streamId, s.nextId);
      && Subscribed(t, ns.name, contextId) && EntryOf(t, ns.name, contextId) == made
      && t.nextId == s.nextId + 1 && t.subscribeIdState == s.subscribeIdState[s.nextId := made]
      && t.publishState == s.publishState && t.publishNamespaces == s.publishNamespaces
      && KeepsOthers(s, t, ns.name, contextId) && SameOtherNames(s, t, ns.name)
      && t.subscribeState[ns.name].key == s.subscribeState[ns.name].key
    ensures var t := Allocate(s, ns, contextId, streamId);
      forall n, c :: Subscribed(t, n, c) ==> Subscribed(s, n, c) || (n == ns.name && c == contextId)
  {}

  /** The entries of other names are the same. */
  ghost predicate SameOtherNames(s: State, t: State, name: Name) {
    s.subscribeState - {name} == t.subscribeState - {name}
  }

  /** One of a context that is listed changes nothing. */
  lemma RepeatedSubscription(s: State, d: Delegate, contextId: ContextId, streamId: StreamId, m: Subscribe)
    requires Subscribed(s, m.ns.name, contextId)
    ensures var e := Step(s, d, Subscribing(contextId, streamId, m));
      && e.callbacks
         == [OnSubscribe(m.ns, EntryOf(s, m.ns.name, contextId).subscriberId, contextId, streamId, m.intent)]
      && SameSubscriptions(s, e.state) && SamePublishers(s, e.state)
  {
    var callback := OnSubscribe(m.ns, EntryOf(s, m.ns.name, contextId).subscriberId, contextId, streamId, m.intent);
    NotifySame(s, d, callback);
    NotifyPublishers(s, d, callback);
  }

  /** An unsubscription of a listed context is reported with its id, which is gone
      afterwards. No other id and no other name is touched. The name keeps an empty
      entry when the context was its only subscriber, and loses it otherwise. */
  lemma Unsubscription(s: State, d: Delegate, contextId: ContextId, m: Unsubscribe)
    requires Subscribed(s, m.ns.name, contextId)
    ensures var e, id := Step(s, d, Unsubscribing(contextId, m)), EntryOf(s, m.ns.name, contextId).subscriberId;
      && e.callbacks == [OnUnsubscribe(m.ns, id)]
      && e.state.subscribeIdState == s.subscribeIdState - {id} && e.state.nextId == s.nextId
      && SameOtherNames(s, e.state, m.ns.name) && SamePublishers(s, e.state)
    ensures var t, entry := Step(s, d, Unsubscribing(contextId, m)).state, s.subscribeState[m.ns.name];
      if entry.value.Keys == {contextId}
      then m.ns.name in t.subscribeState && t.subscribeState[m.ns.name] == Entry(entry.key, map[])
      else m.ns.name !in t.subscribeState
  {
    var callback := OnUnsubscribe(m.ns, EntryOf(s, m.ns.name, contextId).subscriberId);
    var t := Notify(s, d, callback).state;
    NotifySame(s, d, callback);
    NotifyPublishers(s, d, callback);
    DropLeaves(t, m.ns, contextId);
  }

  lemma DropLeaves(s: State, ns: Namespace, contextId: ContextId)
    requires Subscribed(s, ns.name, contextId)
    ensures var t, entry := DropSubscriber(s, ns, contextId), s.subscribeState[ns.name];
      && SameOtherNames(s, t, ns.name)
      && if entry.value.Keys == {contextId}
         then ns.name in t.subscribeState && t.subscribeState[ns.name] == Entry(entry.key, map[])
         else ns.name !in t.subscribeState
  {
    var subscribers := s.subscribeState[ns.name].value;
    var others := subscribers - {contextId};
    if subscribers.Keys == {contextId} {
      assert others == map[];
      PutLeaves(s.subscribeState, ns, map[]);
    } else {
      var other :| other in subscribers && other != contextId;
      assert other in others;
    }
  }

  lemma PutLeaves(m: NsMap<Subscribers>, ns: Namespace, value: Subscribers)
    requires ns.name in m
    ensures var r := Put(m, ns, value);
      ns.name in r && r[ns.name] == Entry(m[ns.name].key, value) && m - {ns.name} == r - {ns.name}
  {}

  /** One of any other context leaves an entry under the name, and does nothing else. */
  lemma StrayUnsubscription(s: State, d: Delegate, contextId: ContextId, m: Unsubscribe)
    requires !Subscribed(s, m.ns.name, contextId)
    ensures var e := Step(s, d, Unsubscribing(contextId, m));
      && e.outputs == [] && e.callbacks == []
      && e.state == s.(subscribeState := e.state.subscribeState) && SameOtherNames(s, e.state, m.ns.name)
      && m.ns.name in e.state.subscribeState
      && e.state.subscribeState[m.ns.name]
         == (if m.ns.name in s.subscribeState then s.subscribeState[m.ns.name] else Entry(m.ns, map[]))
  {
    TouchFinds(s, m.ns);
  }

  /** The ids of the entries of a context. */
  ghost function IdsOf(s: State, contextId: ContextId, names: set<Name>): set<SubscriberId> {
    set n | n in names && Subscribed(s, n, contextId) :: EntryOf(s, n, contextId).subscriberId
  }

  /** The report of a context's subscription under a name. */
  ghost function ReportOf(s: State, contextId: ContextId, n: Name): Callback
    requires Subscribed(s, n, contextId)
  {
    OnUnsubscribe(s.subscribeState[n].key, EntryOf(s, n, contextId).subscriberId)
  }

  /** Reports of ends, in ascending order of the names. */
  ghost predicate InOrder(reports: seq<Callback>) {
    && (forall cb :: cb in reports ==> cb.OnUnsubscribe?)
    && forall i, j :: 0 <= i < j < |reports| && reports[i].OnUnsubscribe? && reports[j].OnUnsubscribe? ==>
         reports[i].ns.name.Num() < reports[j].ns.name.Num()
  }

  lemma {:induction false} DisconnectExactly(s: State, d: Delegate, contextId: ContextId, todo: set<Name>)
    requires Keyed(s.subscribeState) && todo <= s.subscribeState.Keys
    ensures var e := Disconnect(s, d, contextId, todo);
      && e.state.subscribeState == s.subscribeState && e.state.nextId == s.nextId
      && e.state.subscribeIdState == s.subscribeIdState - IdsOf(s, contextId, todo)
    ensures var reports := Disconnect(s, d, contextId, todo).callbacks;
      && (forall cb :: cb in reports <==>
            exists n :: n in todo && Subscribed(s, n, contextId) && cb == ReportOf(s, contextId, n))
      && InOrder(reports)
    decreases |todo|
  {
    if todo == {} {
      assert IdsOf(s, contextId, todo) == {};
    } else {
      var n := LeastName(todo);
      var rest := todo - {n};
      if !Subscribed(s, n, contextId) {
        DisconnectExactly(s, d, contextId, rest);
        assert IdsOf(s, contextId, todo) == IdsOf(s, contextId, rest);
      } else {
        var id := EntryOf(s, n, contextId).subscriberId;
        var e := Notify(s, d, ReportOf(s, contextId, n));
        NotifySame(s, d, ReportOf(s, contextId, n));
        var t := e.state.(subscribeIdState := e.state.subscribeIdState - {id});
        SameEntries(s, t, contextId, rest);
        DisconnectExactly(t, d, contextId, rest);
        assert IdsOf(s, contextId, todo) == {id} + IdsOf(s, contextId, rest);
        NumIsInjective();
        ReportsJoin(s, contextId, todo, n, Disconnect(t, d, contextId, rest).callbacks);
      }
    }
  }

  lemma SameEntries(s: State, t: State, contextId: ContextId, names: set<Name>)
    requires t.subscribeState == s.subscribeState
    ensures IdsOf(t, contextId, names) == IdsOf(s, contextId, names)
    ensures forall n :: Subscribed(t, n, contextId) <==> Subscribed(s, n, contextId)
    ensures forall n :: Subscribed(s, n, contextId) ==> ReportOf(t, contextId, n) == ReportOf(s, contextId, n)
  {
    assert forall n :: Subscribed(t, n, contextId) <==> Subscribed(s, n, contextId);
  }

  lemma ReportsJoin(s: State, contextId: ContextId, todo: set<Name>, n: Name, rest: seq<Callback>)
    requires Keyed(s.subscribeState) && n in todo && Subscribed(s, n, contextId)
    requires forall x :: x in todo && x != n ==> n.Num() < x.Num()
    requires forall cb :: cb in rest <==>
      exists x :: x in todo - {n} && Subscribed(s, x, contextId) && cb == ReportOf(s, contextId, x)
    requires InOrder(rest)
    ensures var reports := [ReportOf(s, contextId, n)] + rest;
      && (forall cb :: cb in reports <==>
            exists x :: x in todo && Subscribed(s, x, contextId) && cb == ReportOf(s, contextId, x))
      && InOrder(reports)
  {
    var reports := [ReportOf(s, contextId, n)] + rest;
    forall cb
      ensures cb in reports <==>
        exists x :: x in todo && Subscribed(s, x, contextId) && cb == ReportOf(s, contextId, x)
    {
      if x :| x in todo && Subscribed(s, x, contextId) && cb == ReportOf(s, contextId, x) {
        assert x == n || x in todo - {n};
      }
    }
    forall j | 0 <= j < |rest|
      ensures rest[j].OnUnsubscribe? && n.Num() < rest[j].ns.name.Num()
    {
      assert rest[j] in rest;
    }
  }

  /** A disconnection reports every subscription of the context, each once and in
      order of the names, and takes exactly their ids away. */
  lemma Disconnection(s: State, d: Delegate, contextId: ContextId)
    requires Keyed(s.subscribeState)
    ensures var e := Step(s, d, Disconnecting(contextId));
      && e.state.subscribeState == s.subscribeState && e.state.nextId == s.nextId
      && SamePublishers(s, e.state)
      && (forall id :: id in e.state.subscribeIdState <==>
            (id in s.subscribeIdState
             && forall n :: Subscribed(s, n, contextId) ==> EntryOf(s, n, contextId).subscriberId != id))
      && (forall id :: id in e.state.subscribeIdState ==> e.state.subscribeIdState[id] == s.subscribeIdState[id])
    ensures var reports := Step(s, d, Disconnecting(contextId)).callbacks;
      && (forall cb :: cb in reports <==> exists n :: Subscribed(s, n, contextId) && cb == ReportOf(s, contextId, n))
      && InOrder(reports)
  {
    var names := s.subscribeState.Keys;
    DisconnectExactly(s, d, contextId, names);
    DisconnectPublishers(s, d, contextId, names);
    assert forall n :: Subscribed(s, n, contextId) ==>
      n in names && EntryOf(s, n, contextId).subscriberId in IdsOf(s, contextId, names);
  }

  // Publishers.

  /** An object in no announced namespace is dropped. Any other is reported with the
      context and the stream of the first publisher of its name, which the server
      remembers. */
  lemma PublicationEffect(s: State, d: Delegate, contextId: ContextId, streamId: StreamId, m: PublishDatagram)
    ensures !Announced(s.publishNamespaces, m.header.name) ==>
      Step(s, d, Publishing(contextId, streamId, m)) == Effect(s, [], [])
    ensures Announced(s.publishNamespaces, m.header.name) ==>
      var e := Step(s, d, Publishing(contextId, streamId, m));
      var first := if m.header.name in s.publishState then s.publishState[m.header.name]
                   else PublishContext(contextId, streamId);
      && e.callbacks == [OnPublisherObject(first.contextId, first.streamId, m)]
      && e.state.publishState == s.publishState[m.header.name := first]
      && SameSubscriptions(s, e.state) && SameRegistrations(s, e.state)
  {
    if Announced(s.publishNamespaces, m.header.name) {
      var name := m.header.name;
      var t := if name in s.publishState then s
               else s.(publishState := s.publishState[name := PublishContext(contextId, streamId)]);
      var callback := OnPublisherObject(t.publishState[name].contextId, t.publishState[name].streamId, m);
      NotifySame(t, d, callback);
      NotifyPublishers(t, d, callback);
      NotifyRegistrations(t, d, callback);
      assert t.publishState == s.publishState[name := t.publishState[name]];
    }
  }

  /** What of an intent stays as the message that registered it had it. */
  datatype Registration = Registration(
    ns: Namespace, contextId: ContextId, streamId: StreamId, transactionId: uint64)

  ghost function Registrations(s: State): map<Name, Registration> {
    map n | n in s.publishNamespaces :: var c := s.publishNamespaces[n].value;
      Registration(s.publishNamespaces[n].key, c.contextId, c.streamId, c.transactionId)
  }

  ghost predicate SameRegistrations(s: State, t: State) {
    Registrations(t) == Registrations(s)
  }

  lemma {:induction false} PerformAllRegistrations(s: State, calls: seq<Call>)
    ensures SameRegistrations(s, PerformAll(s, calls).0)
    decreases |calls|
  {
    if calls == [] {
    } else {
      PerformRegistrations(s, calls[0]);
      PerformAllRegistrations(Perform(s, calls[0]).0, calls[1..]);
    }
  }

  lemma PerformRegistrations(s: State, call: Call)
    ensures SameRegistrations(s, Perform(s, call).0)
  {
    assert Registrations(Perform(s, call).0) == Registrations(s);
  }

  lemma NotifyRegistrations(s: State, d: Delegate, callback: Callback)
    ensures SameRegistrations(s, Notify(s, d, callback).state)
  {
    PerformAllRegistrations(s, d(callback));
  }

  /** The registrations after an event, by the event alone: an intent registers its
      namespace under a name that is free, and an end frees the name. */
  ghost function RegisteredAfter(r: map<Name, Registration>, event: ServerEvent): map<Name, Registration> {
    match event
    case Intending(contextId, streamId, m) =>
      if m.ns.name in r then r else r[m.ns.name := Registration(m.ns, contextId, streamId, m.transactionId)]
    case IntentEnding(m) => r - {m.ns.name}
    case _ => r
  }

  /** An intent is reported, and registered when its name is free. */
  lemma IntentEffect(s: State, d: Delegate, contextId: ContextId, streamId: StreamId, m: PublishIntent)
    ensures var e := Step(s, d, Intending(contextId, streamId, m));
      && e.callbacks == [OnPublishIntent(m.ns, m.payload)]
      && Registrations(e.state) == RegisteredAfter(Registrations(s), Intending(contextId, streamId, m))
      && e.state.publishState == s.publishState && SameSubscriptions(s, e.state)
  {
    var t := if Count(s.publishNamespaces, m.ns) then s
             else s.(publishNamespaces := Put(s.publishNamespaces, m.ns,
                       IntentContext(contextId, streamId, m.transactionId, false)));
    var callback := OnPublishIntent(m.ns, m.payload);
    NotifySame(t, d, callback);
    NotifyPublishers(t, d, callback);
    NotifyRegistrations(t, d, callback);
    assert Registrations(t) == RegisteredAfter(Registrations(s), Intending(contextId, streamId, m));
  }

  /** The intent of this name has been answered. */
  ghost predicate Ready(s: State, n: Name) {
    n in s.publishNamespaces && s.publishNamespaces[n].value.ready
  }

  ghost predicate Answers(calls: seq<Call>, n: Name) {
    exists call :: call in calls && call.PublishIntentResponseCall? && call.ns.name == n
  }

  lemma {:induction false} PerformAllReady(s: State, calls: seq<Call>, n: Name)
    ensures Ready(PerformAll(s, calls).0, n) <==> Ready(s, n) || (n in s.publishNamespaces && Answers(calls, n))
    decreases |calls|
  {
    if calls == [] {
    } else {
      PerformAllReady(Perform(s, calls[0]).0, calls[1..], n);
      PerformAllKeeps(s, [calls[0]]);
      assert calls == [calls[0]] + calls[1..];
      assert Answers(calls, n) <==>
        (calls[0].PublishIntentResponseCall? && calls[0].ns.name == n) || Answers(calls[1..], n);
    }
  }

  /** An intent is ready once the application has answered it, and pending before. */
  lemma IntentReadyIff(s: State, d: Delegate, contextId: ContextId, streamId: StreamId, m: PublishIntent)
    ensures Ready(Step(s, d, Intending(contextId, streamId, m)).state, m.ns.name)
      <==> Ready(s, m.ns.name) || Answers(d(OnPublishIntent(m.ns, m.payload)), m.ns.name)
  {
    var t := if Count(s.publishNamespaces, m.ns) then s
             else s.(publishNamespaces := Put(s.publishNamespaces, m.ns,
                       IntentContext(contextId, streamId, m.transactionId, false)));
    PerformAllReady(t, d(OnPublishIntent(m.ns, m.payload)), m.ns.name);
  }

  /** The end of a registered namespace is reported; the name is free again, and the
      publishers of exactly the names in the message's namespace are forgotten. */
  lemma IntentEndEffect(s: State, d: Delegate, m: PublishIntentEnd)
    ensures !Count(s.publishNamespaces, m.ns) ==> Step(s, d, IntentEnding(m)) == Effect(s, [], [])
    ensures Count(s.publishNamespaces, m.ns) ==>
      var e := Step(s, d, IntentEnding(m));
      && e.callbacks == [OnPublishIntentEnd(m.ns, m.payload)]
      && Registrations(e.state) == RegisteredAfter(Registrations(s), IntentEnding(m))
      && (forall n :: n in e.state.publishState <==> n in s.publishState && !Contains(m.ns, n))
      && (forall n :: n in e.state.publishState ==> e.state.publishState[n] == s.publishState[n])
      && SameSubscriptions(s, e.state)
  {
    if Count(s.publishNamespaces, m.ns) {
      var t := s.(publishNamespaces := Erase(s.publishNamespaces, m.ns),
                  publishState := map n | n in s.publishState && !Contains(m.ns, n) :: s.publishState[n]);
      var callback := OnPublishIntentEnd(m.ns, m.payload);
      NotifySame(t, d, callback);
      NotifyPublishers(t, d, callback);
      NotifyRegistrations(t, d, callback);
      assert Registrations(t) == RegisteredAfter(Registrations(s), IntentEnding(m));
    }
  }

  lemma {:induction false} DisconnectRegistrations(s: State, d: Delegate, contextId: ContextId, todo: set<Name>)
    requires todo <= s.subscribeState.Keys
    ensures SameRegistrations(s, Disconnect(s, d, contextId, todo).state)
    decreases |todo|
  {
    if todo == {} {
    } else {
      var n := LeastName(todo);
      if contextId !in s.subscribeState[n].value {
        DisconnectRegistrations(s, d, contextId, todo - {n});
      } else {
        var id := s.subscribeState[n].value[contextId].subscriberId;
        var callback := OnUnsubscribe(s.subscribeState[n].key, id);
        var e := Notify(s, d, callback);
        NotifySame(s, d, callback);
        NotifyRegistrations(s, d, callback);
        var t := e.state.(subscribeIdState := e.state.subscribeIdState - {id});
        DisconnectRegistrations(t, d, contextId, todo - {n});
      }
    }
  }

  lemma StepRegistrations(s: State, d: Delegate, event: ServerEvent)
    ensures Registrations(Step(s, d, event).state) == RegisteredAfter(Registrations(s), event)
  {
    match event
    case Intending(contextId, streamId, m) => IntentEffect(s, d, contextId, streamId, m);
    case IntentEnding(m) => IntentEndEffect(s, d, m);
    case Publishing(contextId, streamId, m) => PublicationEffect(s, d, contextId, streamId, m);
    case Disconnecting(contextId) => DisconnectRegistrations(s, d, contextId, s.subscribeState.Keys);
    case Calling(call) => PerformRegistrations(s, call);
    case Subscribing(contextId, streamId, m) => SubscribingRegistrations(s, d, contextId, streamId, m);
    case Unsubscribing(contextId, m) => UnsubscribingRegistrations(s, d, contextId, m);
  }

  lemma SubscribingRegistrations(s: State, d: Delegate, contextId: ContextId, streamId: StreamId, m: Subscribe)
    ensures SameRegistrations(s, Step(s, d, Subscribing(contextId, streamId, m)).state)
  {
    var t := Admit(s, contextId, streamId, m.ns);
    var id := Get(t.subscribeState, m.ns)[contextId].subscriberId;
    SubscribingNotifies(s, d, contextId, streamId, m);
    NotifyRegistrations(t, d, OnSubscribe(m.ns, id, contextId, streamId, m.intent));
    assert t.publishNamespaces == s.publishNamespaces;
  }

  lemma UnsubscribingRegistrations(s: State, d: Delegate, contextId: ContextId, m: Unsubscribe)
    ensures SameRegistrations(s, Step(s, d, Unsubscribing(contextId, m)).state)
  {
    if Subscribed(s, m.ns.name, contextId) {
      var callback := OnUnsubscribe(m.ns, EntryOf(s, m.ns.name, contextId).subscriberId);
      NotifySame(s, d, callback);
      NotifyRegistrations(s, d, callback);
    } else {
      StrayUnsubscription(s, d, contextId, m);
    }
  }

  ghost function RegisteredBy(r: map<Name, Registration>, turns: seq<ServerTurn>): map<Name, Registration>
    decreases |turns|
  {
    if turns == [] then r else RegisteredBy(RegisteredAfter(r, turns[0].event), turns[1..])
  }

  /** In every run the registered namespaces are what the messages make them; the
      application has no part in it. */
  lemma {:induction false} RunRegistrations(s: State, turns: seq<ServerTurn>)
    ensures Registrations(Run(s, turns)) == RegisteredBy(Registrations(s), turns)
    decreases |turns|
  {
    if turns == [] {
    } else {
      StepRegistrations(s, turns[0].delegate, turns[0].event);
      RunRegistrations(Step(s, turns[0].delegate, turns[0].event).state, turns[1..]);
    }
  }

  /** In every run an object is reported exactly when one of the namespaces that the
      messages so far have registered contains its name. */
  lemma ReportedIffRegistered(before: seq<ServerTurn>, d: Delegate, contextId: ContextId, streamId: StreamId,
      m: PublishDatagram)
    ensures var registered := RegisteredBy(map[], before);
      Step(Run(INITIAL, before), d, Publishing(contextId, streamId, m)).callbacks != []
      <==> exists n :: n in registered && Contains(registered[n].ns, m.header.name)
  {
    var s, registered := Run(INITIAL, before), RegisteredBy(map[], before);
    assert Registrations(INITIAL) == map[];
    RunRegistrations(INITIAL, before);
    PublicationEffect(s, d, contextId, streamId, m);
    if n :| n in registered && Contains(registered[n].ns, m.header.name) {
      assert n in s.publishNamespaces && s.publishNamespaces[n].key == registered[n].ns;
    }
    if n :| n in s.publishNamespaces && Contains(s.publishNamespaces[n].key, m.header.name) {
      assert n in registered && registered[n].ns == s.publishNamespaces[n].key;
    }
  }

  // Where messages go.

  /** The context and the stream a subscription came on. */
  datatype Origin = Origin(contextId: ContextId, streamId: StreamId)

  /** The event creates an id. */
  ghost predicate Creates(s: State, event: ServerEvent) {
    event.Subscribing? && !Subscribed(s, event.subscribe.ns.name, event.contextId)
  }

  ghost function OriginsOf(s: State, event: ServerEvent): seq<Origin> {
    if Creates(s, event) then [Origin(event.contextId, event.streamId)] else []
  }

  /** Where the subscriptions that created an id came from, in order: the id is the
      position. */
  ghost function Origins(s: State, turns: seq<ServerTurn>): seq<Origin>
    decreases |turns|
  {
    if turns == [] then []
    else OriginsOf(s, turns[0].event) + Origins(Step(s, turns[0].delegate, turns[0].event).state, turns[1..])
  }

  /** Every id has an origin, with which the id map agrees. */
  ghost predicate Traced(s: State, origins: seq<Origin>) {
    && |origins| == s.nextId
    && forall id :: id in s.subscribeIdState ==>
         id < |origins| && Origin(s.subscribeIdState[id].contextId, s.subscribeIdState[id].streamId) == origins[id]
  }

  /** The message goes to where its subscription came from, or answers a registered
      intent where that came from. */
  ghost predicate GoesBack(o: Output, origins: seq<Origin>, registered: map<Name, Registration>) {
    match o
    case IntentAnswered(contextId, streamId, answer) =>
      && answer.messageType == 7 && answer.ns.name in registered
      && var r := registered[answer.ns.name];
         contextId == r.contextId && streamId == r.streamId && answer.transactionId == r.transactionId
    case Responded(id, contextId, streamId, response) =>
      id < |origins| && Origin(contextId, streamId) == origins[id] && response.transactionId == id % TWO_64
    case Ended(id, contextId, streamId, _) =>
      id < |origins| && Origin(contextId, streamId) == origins[id]
    case Forwarded(id, contextId, streamId, _) =>
      id < |origins| && Origin(contextId, streamId) == origins[id]
  }

  ghost predicate AllGoBack(outputs: seq<Output>, origins: seq<Origin>, registered: map<Name, Registration>) {
    forall o :: o in outputs ==> GoesBack(o, origins, registered)
  }

  lemma PerformGoesBack(s: State, call: Call, origins: seq<Origin>)
    requires Traced(s, origins)
    ensures AllGoBack(Perform(s, call).1, origins, Registrations(s))
  {}

  lemma {:induction false} PerformAllGoesBack(s: State, calls: seq<Call>, origins: seq<Origin>)
    requires Traced(s, origins)
    ensures AllGoBack(PerformAll(s, calls).1, origins, Registrations(s))
    decreases |calls|
  {
    if calls == [] {
    } else {
      var t := Perform(s, calls[0]).0;
      PerformGoesBack(s, calls[0], origins);
      PerformRegistrations(s, calls[0]);
      PerformAllKeeps(s, [calls[0]]);
      assert t.subscribeIdState == s.subscribeIdState && t.nextId == s.nextId;
      PerformAllGoesBack(t, calls[1..], origins);
    }
  }

  lemma NotifyGoesBack(s: State, d: Delegate, callback: Callback, origins: seq<Origin>)
    requires Traced(s, origins)
    ensures AllGoBack(Notify(s, d, callback).outputs, origins, Registrations(s))
    ensures Traced(Notify(s, d, callback).state, origins)
  {
    PerformAllGoesBack(s, d(callback), origins);
    NotifySame(s, d, callback);
  }

  lemma {:induction false} DisconnectGoesBack(s: State, d: Delegate, contextId: ContextId, todo: set<Name>,
      origins: seq<Origin>)
    requires Traced(s, origins) && todo <= s.subscribeState.Keys
    ensures AllGoBack(Disconnect(s, d, contextId, todo).outputs, origins, Registrations(s))
    ensures Traced(Disconnect(s, d, contextId, todo).state, origins)
    decreases |todo|
  {
    if todo == {} {
    } else {
      var n := LeastName(todo);
      if contextId !in s.subscribeState[n].value {
        DisconnectGoesBack(s, d, contextId, todo - {n}, origins);
      } else {
        var id := s.subscribeState[n].value[contextId].subscriberId;
        var callback := OnUnsubscribe(s.subscribeState[n].key, id);
        var e := Notify(s, d, callback);
        NotifySame(s, d, callback);
        NotifyRegistrations(s, d, callback);
        NotifyGoesBack(s, d, callback, origins);
        var t := e.state.(subscribeIdState := e.state.subscribeIdState - {id});
        assert Registrations(t) == Registrations(e.state);
        DisconnectGoesBack(t, d, contextId, todo - {n}, origins);
      }
    }
  }

  lemma SubscribingGoesBack(s: State, d: Delegate, contextId: ContextId, streamId: StreamId, m: Subscribe,
      origins: seq<Origin>)
    requires Traced(s, origins)
    ensures var event := Subscribing(contextId, streamId, m);
      && AllGoBack(Step(s, d, event).outputs, origins + OriginsOf(s, event), Registrations(s))
      && Traced(Step(s, d, event).state, origins + OriginsOf(s, event))
  {
    var event := Subscribing(contextId, streamId, m);
    var t := Admit(s, contextId, streamId, m.ns);
    var all := origins + OriginsOf(s, event);
    AdmitTraced(s, contextId, streamId, m, origins);
    SubscribingNotifies(s, d, contextId, streamId, m);
    var id := Get(t.subscribeState, m.ns)[contextId].subscriberId;
    NotifyGoesBack(t, d, OnSubscribe(m.ns, id, contextId, streamId, m.intent), all);
  }

  lemma AdmitTraced(s: State, contextId: ContextId, streamId: StreamId, m: Subscribe, origins: seq<Origin>)
    requires Traced(s, origins)
    ensures var t := Admit(s, contextId, streamId, m.ns);
      Traced(t, origins + OriginsOf(s, Subscribing(contextId, streamId, m))) && Registrations(t) == Registrations(s)
  {
    var t := Admit(s, contextId, streamId, m.ns);
    if !Subscribed(s, m.ns.name, contextId) {
      AdmitNew(s, contextId, streamId, m.ns);
    }
    assert t.publishNamespaces == s.publishNamespaces;
  }

  lemma UnsubscribingGoesBack(s: State, d: Delegate, contextId: ContextId, m: Unsubscribe, origins: seq<Origin>)
    requires Traced(s, origins)
    ensures AllGoBack(Step(s, d, Unsubscribing(contextId, m)).outputs, origins, Registrations(s))
    ensures Traced(Step(s, d, Unsubscribing(contextId, m)).state, origins)
  {
    var t := TouchSubscribers(s, m.ns);
    assert Registrations(t) == Registrations(s);
    if contextId in Get(t.subscribeState, m.ns) {
      var id := Get(t.subscribeState, m.ns)[contextId].subscriberId;
      NotifyGoesBack(t, d, OnUnsubscribe(m.ns, id), origins);
    }
  }

  lemma PublishingGoesBack(s: State, d: Delegate, contextId: ContextId, streamId: StreamId, m: PublishDatagram,
      origins: seq<Origin>)
    requires Traced(s, origins)
    ensures AllGoBack(Step(s, d, Publishing(contextId, streamId, m)).outputs, origins, Registrations(s))
  {
    if Announced(s.publishNamespaces, m.header.name) {
      var name := m.header.name;
      var t := if name in s.publishState then s
               else s.(publishState := s.publishState[name := PublishContext(contextId, streamId)]);
      assert Registrations(t) == Registrations(s);
      var c := t.publishState[name];
      NotifyGoesBack(t, d, OnPublisherObject(c.contextId, c.streamId, m), origins);
    }
  }

  lemma IntendingGoesBack(s: State, d: Delegate, contextId: ContextId, streamId: StreamId, m: PublishIntent,
      origins: seq<Origin>)
    requires Traced(s, origins)
    ensures var event := Intending(contextId, streamId, m);
      AllGoBack(Step(s, d, event).outputs, origins, RegisteredAfter(Registrations(s), event))
  {
    var t := if Count(s.publishNamespaces, m.ns) then s
             else s.(publishNamespaces := Put(s.publishNamespaces, m.ns,
                       IntentContext(contextId, streamId, m.transactionId, false)));
    assert Registrations(t) == RegisteredAfter(Registrations(s), Intending(contextId, streamId, m));
    NotifyGoesBack(t, d, OnPublishIntent(m.ns, m.payload), origins);
  }

  lemma IntentEndingGoesBack(s: State, d: Delegate, m: PublishIntentEnd, origins: seq<Origin>)
    requires Traced(s, origins)
    ensures AllGoBack(Step(s, d, IntentEnding(m)).outputs, origins, RegisteredAfter(Registrations(s), IntentEnding(m)))
  {
    if Count(s.publishNamespaces, m.ns) {
      var t := s.(publishNamespaces := Erase(s.publishNamespaces, m.ns),
                  publishState := map n | n in s.publishState && !Contains(m.ns, n) :: s.publishState[n]);
      assert Registrations(t) == RegisteredAfter(Registrations(s), IntentEnding(m));
      NotifyGoesBack(t, d, OnPublishIntentEnd(m.ns, m.payload), origins);
    }
  }

  lemma OtherStepGoesBack(s: State, d: Delegate, event: ServerEvent, origins: seq<Origin>)
    requires Traced(s, origins)
    requires event.Publishing? || event.Intending? || event.IntentEnding? || event.Calling?
    ensures AllGoBack(Step(s, d, event).outputs, origins, RegisteredAfter(Registrations(s), event))
    ensures Traced(Step(s, d, event).state, origins)
  {
    OtherStepsSame(s, d, event);
    match event
    case Calling(call) => PerformGoesBack(s, call, origins);
    case Publishing(contextId, streamId, m) => PublishingGoesBack(s, d, contextId, streamId, m, origins);
    case Intending(contextId, streamId, m) => IntendingGoesBack(s, d, contextId, streamId, m, origins);
    case IntentEnding(m) => IntentEndingGoesBack(s, d, m, origins);
  }

  lemma StepGoesBack(s: State, d: Delegate, event: ServerEvent, origins: seq<Origin>)
    requires Traced(s, origins)
    ensures AllGoBack(Step(s, d, event).outputs,
      origins + OriginsOf(s, event), RegisteredAfter(Registrations(s), event))
    ensures Traced(Step(s, d, event).state, origins + OriginsOf(s, event))
  {
    assert origins + [] == origins;
    match event
    case Subscribing(contextId, streamId, m) => SubscribingGoesBack(s, d, contextId, streamId, m, origins);
    case Unsubscribing(contextId, m) => UnsubscribingGoesBack(s, d, contextId, m, origins);
    case Disconnecting(contextId) => DisconnectGoesBack(s, d, contextId, s.subscribeState.Keys, origins);
    case _ => OtherStepGoesBack(s, d, event, origins);
  }

  lemma {:induction false} RunTraced(s: State, turns: seq<ServerTurn>, origins: seq<Origin>)
    requires Traced(s, origins)
    ensures Traced(Run(s, turns), origins + Origins(s, turns))
    decreases |turns|
  {
    if turns == [] {
      assert origins + [] == origins;
    } else {
      var t := Step(s, turns[0].delegate, turns[0].event).state;
      var more := OriginsOf(s, turns[0].event);
      StepGoesBack(s, turns[0].delegate, turns[0].event, origins);
      RunTraced(t, turns[1..], origins + more);
      JoinOrigins(origins, more, Origins(t, turns[1..]));
    }
  }

  lemma JoinOrigins(a: seq<Origin>, b: seq<Origin>, c: seq<Origin>)
    ensures a + b + c == a + (b + c)
  {}

  /** Whatever the application does, every message of a run goes to the context and
      the stream that the subscription which created its id came on, or that the
      intent it answers came on. */
  lemma MessagesGoBack(before: seq<ServerTurn>, turn: ServerTurn, o: Output)
    requires o in Step(Run(INITIAL, before), turn.delegate, turn.event).outputs
    ensures var s := Run(INITIAL, before);
      GoesBack(o, Origins(INITIAL, before) + OriginsOf(s, turn.event),
        RegisteredAfter(RegisteredBy(map[], before), turn.event))
    ensures |Origins(INITIAL, before)| == Run(INITIAL, before).nextId
  {
    assert Registrations(INITIAL) == map[];
    RunTraced(INITIAL, before, []);
    assert [] + Origins(INITIAL, before) == Origins(INITIAL, before);
    RunRegistrations(INITIAL, before);
    StepGoesBack(Run(INITIAL, before), turn.delegate, turn.event, Origins(INITIAL, before));
  }

  /** The calls of a callback are made one after the other, none left out. */
  lemma {:induction false} CallsInOrder(s: State, a: seq<Call>, b: seq<Call>)
    ensures var (t, first) := PerformAll(s, a);
      var (u, second) := PerformAll(t, b);
      PerformAll(s, a + b) == (u, first + second)
    decreases |a|
  {
    if a == [] {
      assert a + b == b;
      assert [] + PerformAll(s, b).1 == PerformAll(s, b).1;
    } else {
      var (t, now) := Perform(s, a[0]);
      assert (a + b)[1..] == a[1..] + b;
      CallsInOrder(t, a[1..], b);
      var first, second := PerformAll(t, a[1..]).1, PerformAll(PerformAll(t, a[1..]).0, b).1;
      assert now + (first + second) == (now + first) + second;
    }
  }

  /** A call for an id that is alive sends one message, for one that is gone none;
      the answer to an intent is sent when its name is registered. */
  lemma CallSends(s: State, d: Delegate, call: Call)
    ensures var outputs := Step(s, d, Calling(call)).outputs;
      match call
      case SubscribeResponseCall(id, ns, status) =>
        if id in s.subscribeIdState
        then |outputs| == 1 && outputs[0].Responded? && outputs[0].id == id
          && outputs[0].response.ns == ns && outputs[0].response.response == status
        else outputs == []
      case SubscriptionEndedCall(id, ns, reason) =>
        if id in s.subscribeIdState
        then |outputs| == 1 && outputs[0].Ended? && outputs[0].id == id
          && outputs[0].end.ns == ns && outputs[0].end.reason == reason
        else outputs == []
      case SendNamedObjectCall(id, datagram) =>
        if id in s.subscribeIdState
        then |outputs| == 1 && outputs[0].Forwarded? && outputs[0].id == id && outputs[0].datagram == datagram
        else outputs == []
      case PublishIntentResponseCall(ns, status) =>
        if ns.name in s.publishNamespaces
        then |outputs| == 1 && outputs[0].IntentAnswered?
          && outputs[0].answer.ns == ns && outputs[0].answer.response == status
        else outputs == []
    ensures Step(s, d, Calling(call)).callbacks == []
    ensures forall n :: Ready(Step(s, d, Calling(call)).state, n) <==>
      Ready(s, n) || (n in s.publishNamespaces && Answers([call], n))
  {
    forall n
      ensures Answers([call], n) <==> call.PublishIntentResponseCall? && call.ns.name == n
    {
      assert call in [call];
    }
  }
}
