/** Properties of the server over whole runs, for any application. */
module ServerRuns {
  import opened Bits
  import opened Messages
  import opened NamespaceMaps
  import opened Names
  import opened Namespaces
  import opened Server

  /** One step of a run: what reaches the server and how the application reacts. */
  datatype ServerTurn = ServerTurn(event: ServerEvent, delegate: Delegate)

  ghost function Run(s: State, turns: seq<ServerTurn>): State
    decreases |turns|
  {
    if turns == [] then s else Run(Step(s, turns[0].delegate, turns[0].event).state, turns[1..])
  }

  /** Everything handed to the transport in a run, in order. */
  ghost function Outputs(s: State, turns: seq<ServerTurn>): seq<Output>
    decreases |turns|
  {
    if turns == [] then []
    else
      var e := Step(s, turns[0].delegate, turns[0].event);
      e.outputs + Outputs(e.state, turns[1..])
  }

  ghost function Callbacks(s: State, turns: seq<ServerTurn>): seq<Callback>
    decreases |turns|
  {
    if turns == [] then []
    else
      var e := Step(s, turns[0].delegate, turns[0].event);
      e.callbacks + Callbacks(e.state, turns[1..])
  }

  // Agreement of the two subscription maps.

  ghost predicate Subscribed(s: State, n: Name, contextId: ContextId) {
    n in s.subscribeState && contextId in s.subscribeState[n].value
  }

  function EntryOf(s: State, n: Name, contextId: ContextId): SubscribeContext
    requires n in s.subscribeState && contextId in s.subscribeState[n].value
  {
    s.subscribeState[n].value[contextId]
  }

  /** Entries are stored under their own keys with ids given out before, no two
      with one id; the ids still alive are keyed by themselves, and agree with the
      entry of the same id. */
  ghost predicate IdInv(s: State) {
    && Keyed(s.subscribeState)
    && (forall n, c :: Subscribed(s, n, c) ==>
          EntryOf(s, n, c).contextId == c && EntryOf(s, n, c).subscriberId < s.nextId)
    && (forall n1, c1, n2, c2 ::
          (Subscribed(s, n1, c1) && Subscribed(s, n2, c2)
           && EntryOf(s, n1, c1).subscriberId == EntryOf(s, n2, c2).subscriberId) ==> n1 == n2 && c1 == c2)
    && (forall id :: id in s.subscribeIdState ==>
          s.subscribeIdState[id].subscriberId == id && id < s.nextId)
    && (forall n, c :: Subscribed(s, n, c) && EntryOf(s, n, c).subscriberId in s.subscribeIdState ==>
          s.subscribeIdState[EntryOf(s, n, c).subscriberId] == EntryOf(s, n, c))
  }

  lemma TouchInv(s: State, ns: Namespace)
    requires IdInv(s)
    ensures IdInv(TouchSubscribers(s, ns))
  {
    var t := TouchSubscribers(s, ns);
    assert forall n, c :: Subscribed(t, n, c) <==> Subscribed(s, n, c);
  }

  lemma AllocateInv(s: State, contextId: ContextId, streamId: StreamId, ns: Namespace)
    requires IdInv(s) && Count(s.subscribeState, ns) && contextId !in Get(s.subscribeState, ns)
    ensures IdInv(Allocate(s, ns, contextId, streamId))
  {
    var r := Allocate(s, ns, contextId, streamId);
    forall n, c | Subscribed(r, n, c)
      ensures (n == ns.name && c == contextId) || (Subscribed(s, n, c) && EntryOf(r, n, c) == EntryOf(s, n, c))
    {}
    assert EntryOf(r, ns.name, contextId) == SubscribeContext(contextId, streamId, s.nextId);
  }

  lemma AdmitInv(s: State, contextId: ContextId, streamId: StreamId, ns: Namespace)
    requires IdInv(s)
    ensures IdInv(Admit(s, contextId, streamId, ns))
  {
    var t := TouchSubscribers(s, ns);
    TouchInv(s, ns);
    if contextId !in Get(t.subscribeState, ns) {
      AllocateInv(t, contextId, streamId, ns);
    }
  }

  lemma DropInv(s: State, ns: Namespace, contextId: ContextId)
    requires IdInv(s) && Count(s.subscribeState, ns) && contextId in Get(s.subscribeState, ns)
    ensures IdInv(DropSubscriber(s, ns, contextId))
  {
    DropFewer(s, ns, contextId);
    FewerInv(s, DropSubscriber(s, ns, contextId));
  }

  /** `r` has no entries and no ids but those of `s`. */
  ghost predicate Fewer(s: State, r: State) {
    && Keyed(r.subscribeState) && r.nextId == s.nextId
    && (forall n, c :: Subscribed(r, n, c) ==> Subscribed(s, n, c) && EntryOf(r, n, c) == EntryOf(s, n, c))
    && (forall id :: id in r.subscribeIdState ==>
          id in s.subscribeIdState && r.subscribeIdState[id] == s.subscribeIdState[id])
  }

  lemma DropFewer(s: State, ns: Namespace, contextId: ContextId)
    requires Keyed(s.subscribeState) && Count(s.subscribeState, ns) && contextId in Get(s.subscribeState, ns)
    ensures Fewer(s, DropSubscriber(s, ns, contextId))
  {
    var others := Get(s.subscribeState, ns) - {contextId};
    if |others| > 0 {
      EraseFewer(s, ns, Get(s.subscribeState, ns)[contextId].subscriberId);
    } else {
      PutFewer(s, ns, others, Get(s.subscribeState, ns)[contextId].subscriberId);
    }
  }

  lemma EraseFewer(s: State, ns: Namespace, id: SubscriberId)
    requires Keyed(s.subscribeState)
    ensures Fewer(s, s.(subscribeIdState := s.subscribeIdState - {id}, subscribeState := Erase(s.subscribeState, ns)))
  {}

  lemma PutFewer(s: State, ns: Namespace, others: Subscribers, id: SubscriberId)
    requires Keyed(s.subscribeState) && Count(s.subscribeState, ns)
    requires forall c :: c in others ==> c in Get(s.subscribeState, ns) && others[c] == Get(s.subscribeState, ns)[c]
    ensures Fewer(s,
      s.(subscribeIdState := s.subscribeIdState - {id}, subscribeState := Put(s.subscribeState, ns, others)))
  {}

  /** Taking entries away keeps the agreement. */
  lemma FewerInv(s: State, r: State)
    requires IdInv(s) && Fewer(s, r)
    ensures IdInv(r)
  {}

  /** States that differ only in what the invariant does not speak of. */
  ghost predicate SameSubscriptions(s: State, t: State) {
    t.subscribeState == s.subscribeState && t.subscribeIdState == s.subscribeIdState && t.nextId == s.nextId
  }

  lemma SameInv(s: State, t: State)
    requires IdInv(s) && SameSubscriptions(s, t)
    ensures IdInv(t)
  {
    assert forall n, c :: Subscribed(t, n, c) <==> Subscribed(s, n, c);
  }

  lemma NotifySame(s: State, d: Delegate, callback: Callback)
    ensures SameSubscriptions(s, Notify(s, d, callback).state)
  {
    PerformAllKeeps(s, d(callback));
  }

  lemma {:induction false} DisconnectInv(s: State, d: Delegate, contextId: ContextId, todo: set<Name>)
    requires IdInv(s) && todo <= s.subscribeState.Keys
    ensures IdInv(Disconnect(s, d, contextId, todo).state)
    ensures Disconnect(s, d, contextId, todo).state.subscribeState == s.subscribeState
    decreases |todo|
  {
    if todo == {} {
    } else {
      var n := LeastName(todo);
      var entry := s.subscribeState[n];
      if contextId !in entry.value {
        DisconnectInv(s, d, contextId, todo - {n});
      } else {
        var id := entry.value[contextId].subscriberId;
        var e := Notify(s, d, OnUnsubscribe(entry.key, id));
        NotifySame(s, d, OnUnsubscribe(entry.key, id));
        SameInv(s, e.state);
        var t := e.state.(subscribeIdState := e.state.subscribeIdState - {id});
        assert forall m, c :: Subscribed(t, m, c) <==> Subscribed(s, m, c);
        DisconnectInv(t, d, contextId, todo - {n});
      }
    }
  }

  lemma SubscribingInv(s: State, d: Delegate, contextId: ContextId, streamId: StreamId, m: Subscribe)
    requires IdInv(s)
    ensures IdInv(HandleSubscribe(s, d, contextId, streamId, m).state)
  {
    var t := Admit(s, contextId, streamId, m.ns);
    AdmitInv(s, contextId, streamId, m.ns);
    var id := Get(t.subscribeState, m.ns)[contextId].subscriberId;
    NotifySame(t, d, OnSubscribe(m.ns, id, contextId, streamId, m.intent));
    SameInv(t, HandleSubscribe(s, d, contextId, streamId, m).state);
  }

  lemma UnsubscribingInv(s: State, d: Delegate, contextId: ContextId, m: Unsubscribe)
    requires IdInv(s)
    ensures IdInv(HandleUnsubscribe(s, d, contextId, m).state)
  {
    var t := TouchSubscribers(s, m.ns);
    TouchInv(s, m.ns);
    if contextId in Get(t.subscribeState, m.ns) {
      var id := Get(t.subscribeState, m.ns)[contextId].subscriberId;
      var e := Notify(t, d, OnUnsubscribe(m.ns, id));
      NotifySame(t, d, OnUnsubscribe(m.ns, id));
      SameInv(t, e.state);
      DropInv(e.state, m.ns, contextId);
    }
  }

  lemma StepIdInv(s: State, d: Delegate, event: ServerEvent)
    requires IdInv(s)
    ensures IdInv(Step(s, d, event).state)
  {
    match event
    case Subscribing(contextId, streamId, m) => SubscribingInv(s, d, contextId, streamId, m);
    case Unsubscribing(contextId, m) => UnsubscribingInv(s, d, contextId, m);
    case Disconnecting(contextId) =>
      DisconnectInv(s, d, contextId, s.subscribeState.Keys);
    case _ =>
      OtherStepsSame(s, d, event);
      SameInv(s, Step(s, d, event).state);
  }

  lemma OtherStepsSame(s: State, d: Delegate, event: ServerEvent)
    requires event.Publishing? || event.Intending? || event.IntentEnding? || event.Calling?
    ensures SameSubscriptions(s, Step(s, d, event).state)
  {
    if event.Calling? {
      PerformAllKeeps(s, [event.call]);
      assert PerformAll(s, [event.call]).0 == Perform(s, event.call).0;
    } else {
      forall t, callback
        ensures SameSubscriptions(t, Notify(t, d, callback).state)
      {
        NotifySame(t, d, callback);
      }
    }
  }

  /** In every run. */
  lemma {:induction false} RunIdInv(s: State, turns: seq<ServerTurn>)
    requires IdInv(s)
    ensures IdInv(Run(s, turns))
    decreases |turns|
  {
    if turns == [] {
    } else {
      StepIdInv(s, turns[0].delegate, turns[0].event);
      RunIdInv(Step(s, turns[0].delegate, turns[0].event).state, turns[1..]);
    }
  }

  /** In every state reachable from the start. */
  lemma ReachableIdInv(turns: seq<ServerTurn>)
    ensures IdInv(Run(INITIAL, turns))
  {
    RunIdInv(INITIAL, turns);
  }

  // Ids that are gone.

  /** Messages go to these subscribers only. */
  ghost predicate Within(outputs: seq<Output>, ids: set<SubscriberId>) {
    forall o :: o in outputs && !o.IntentAnswered? ==> o.id in ids
  }

  lemma {:induction false} PerformAllWithin(s: State, calls: seq<Call>)
    ensures Within(PerformAll(s, calls).1, s.subscribeIdState.Keys)
    decreases |calls|
  {
    if calls == [] {
    } else {
      PerformAllKeeps(s, [calls[0]]);
      PerformAllWithin(Perform(s, calls[0]).0, calls[1..]);
    }
  }

  ghost predicate Gone(s: State, id: SubscriberId) {
    id < s.nextId && id !in s.subscribeIdState
  }

  ghost predicate SilentFor(outputs: seq<Output>, id: SubscriberId) {
    forall o :: o in outputs ==> !IsFor(o, id)
  }

  lemma {:induction false} DisconnectGone(s: State, d: Delegate, contextId: ContextId, todo: set<Name>,
      id: SubscriberId)
    requires Gone(s, id) && todo <= s.subscribeState.Keys
    ensures Gone(Disconnect(s, d, contextId, todo).state, id)
    ensures SilentFor(Disconnect(s, d, contextId, todo).outputs, id)
    decreases |todo|
  {
    if todo == {} {
    } else {
      var n := LeastName(todo);
      var entry := s.subscribeState[n];
      if contextId !in entry.value {
        DisconnectGone(s, d, contextId, todo - {n}, id);
      } else {
        var other := entry.value[contextId].subscriberId;
        var e := Notify(s, d, OnUnsubscribe(entry.key, other));
        NotifySame(s, d, OnUnsubscribe(entry.key, other));
        PerformAllWithin(s, d(OnUnsubscribe(entry.key, other)));
        var t := e.state.(subscribeIdState := e.state.subscribeIdState - {other});
        DisconnectGone(t, d, contextId, todo - {n}, id);
      }
    }
  }

  lemma NotifyGone(s: State, d: Delegate, callback: Callback, id: SubscriberId)
    requires Gone(s, id)
    ensures Gone(Notify(s, d, callback).state, id) && SilentFor(Notify(s, d, callback).outputs, id)
  {
    NotifySame(s, d, callback);
    PerformAllWithin(s, d(callback));
  }

  lemma StepGone(s: State, d: Delegate, event: ServerEvent, id: SubscriberId)
    requires Gone(s, id)
    ensures Gone(Step(s, d, event).state, id) && SilentFor(Step(s, d, event).outputs, id)
  {
    match event
    case Disconnecting(contextId) =>
      DisconnectGone(s, d, contextId, s.subscribeState.Keys, id);
    case Calling(call) =>
      PerformAllKeeps(s, [call]);
      assert PerformAll(s, [call]).0 == Perform(s, call).0;
    case _ =>
      forall t, callback | Gone(t, id)
        ensures Gone(Notify(t, d, callback).state, id) && SilentFor(Notify(t, d, callback).outputs, id)
      {
        NotifyGone(t, d, callback, id);
      }
  }

  /** Once an id has left `subscribe_id_state` nothing is ever sent for it again,
      whatever happens and whatever the application does. */
  lemma {:induction false} GoneForGood(s: State, turns: seq<ServerTurn>, id: SubscriberId)
    requires Gone(s, id)
    ensures Gone(Run(s, turns), id) && SilentFor(Outputs(s, turns), id)
    decreases |turns|
  {
    if turns == [] {
    } else {
      StepGone(s, turns[0].delegate, turns[0].event, id);
      GoneForGood(Step(s, turns[0].delegate, turns[0].event).state, turns[1..], id);
    }
  }

  lemma {:induction false} RunNextId(s: State, turns: seq<ServerTurn>)
    ensures s.nextId <= Run(s, turns).nextId
    decreases |turns|
  {
    if turns == [] {
    } else {
      StepNextId(s, turns[0].delegate, turns[0].event);
      RunNextId(Step(s, turns[0].delegate, turns[0].event).state, turns[1..]);
    }
  }

  lemma {:induction false} DisconnectNextId(s: State, d: Delegate, contextId: ContextId, todo: set<Name>)
    requires todo <= s.subscribeState.Keys
    ensures Disconnect(s, d, contextId, todo).state.nextId == s.nextId
    decreases |todo|
  {
    if todo == {} {
    } else {
      var n := LeastName(todo);
      var entry := s.subscribeState[n];
      if contextId !in entry.value {
        DisconnectNextId(s, d, contextId, todo - {n});
      } else {
        var id := entry.value[contextId].subscriberId;
        var e := Notify(s, d, OnUnsubscribe(entry.key, id));
        NotifySame(s, d, OnUnsubscribe(entry.key, id));
        DisconnectNextId(e.state.(subscribeIdState := e.state.subscribeIdState - {id}), d, contextId, todo - {n});
      }
    }
  }

  lemma StepNextId(s: State, d: Delegate, event: ServerEvent)
    ensures s.nextId <= Step(s, d, event).state.nextId
  {
    if event.Disconnecting? {
      DisconnectNextId(s, d, event.contextId, s.subscribeState.Keys);
    } else if event.Calling? {
      OtherStepsSame(s, d, event);
    } else {
      forall t, callback
        ensures SameSubscriptions(t, Notify(t, d, callback).state)
      {
        NotifySame(t, d, callback);
      }
    }
  }

  /** An id that was alive and is no more gets nothing in the rest of the run. */
  lemma SilentAfterLeaving(s: State, before: seq<ServerTurn>, after: seq<ServerTurn>, id: SubscriberId)
    requires IdInv(s) && id in s.subscribeIdState && id !in Run(s, before).subscribeIdState
    ensures SilentFor(Outputs(Run(s, before), after), id)
  {
    RunNextId(s, before);
    GoneForGood(Run(s, before), after, id);
  }

  // What an unsubscription and a disconnection leave behind.

  /** Every other subscription is still recorded, unaltered. */
  ghost predicate KeepsOthers(s: State, t: State, name: Name, contextId: ContextId) {
    forall n, c :: Subscribed(s, n, c) && !(n == name && c == contextId) ==>
      Subscribed(t, n, c) && EntryOf(t, n, c) == EntryOf(s, n, c)
  }

  /** An unsubscription takes its own entry away, and no other exactly when there
      is no other of that name. */
  lemma UnsubscribeKeepsOthersIff(s: State, d: Delegate, contextId: ContextId, m: Unsubscribe)
    requires Subscribed(s, m.ns.name, contextId)
    ensures var t := Step(s, d, Unsubscribing(contextId, m)).state;
      && !Subscribed(t, m.ns.name, contextId)
      && (KeepsOthers(s, t, m.ns.name, contextId) <==> Get(s.subscribeState, m.ns).Keys == {contextId})
  {
    var subscribers := Get(s.subscribeState, m.ns);
    var id := subscribers[contextId].subscriberId;
    var e := Notify(s, d, OnUnsubscribe(m.ns, id));
    NotifySame(s, d, OnUnsubscribe(m.ns, id));
    var t := DropSubscriber(e.state, m.ns, contextId);
    if subscribers.Keys == {contextId} {
      assert subscribers - {contextId} == map[];
    } else {
      var other :| other in subscribers && other != contextId;
      assert other in subscribers - {contextId};
      assert Subscribed(s, m.ns.name, other) && !Subscribed(t, m.ns.name, other);
    }
  }

  /** An id without an entry: no unsubscription and no disconnection finds it. */
  ghost predicate Orphan(s: State, id: SubscriberId) {
    id in s.subscribeIdState && forall n, c :: Subscribed(s, n, c) ==> EntryOf(s, n, c).subscriberId != id
  }

  /** The others an unsubscription drops keep their ids. */
  lemma UnsubscribeOrphans(s: State, d: Delegate, contextId: ContextId, m: Unsubscribe, other: ContextId)
    requires IdInv(s) && Subscribed(s, m.ns.name, contextId) && Subscribed(s, m.ns.name, other) && other != contextId
    requires EntryOf(s, m.ns.name, other).subscriberId in s.subscribeIdState
    ensures Orphan(Step(s, d, Unsubscribing(contextId, m)).state, EntryOf(s, m.ns.name, other).subscriberId)
  {
    var id := Get(s.subscribeState, m.ns)[contextId].subscriberId;
    var e := Notify(s, d, OnUnsubscribe(m.ns, id));
    NotifySame(s, d, OnUnsubscribe(m.ns, id));
    assert other in Get(s.subscribeState, m.ns) - {contextId};
    DropFewer(e.state, m.ns, contextId);
    var t := DropSubscriber(e.state, m.ns, contextId);
    forall n, c | Subscribed(t, n, c)
      ensures EntryOf(t, n, c).subscriberId != EntryOf(s, m.ns.name, other).subscriberId
    {
      assert Subscribed(s, n, c) && n != m.ns.name;
    }
  }

  lemma FewerOrphan(s: State, r: State, id: SubscriberId)
    requires Orphan(s, id) && id in r.subscribeIdState
    requires forall n, c :: Subscribed(r, n, c) ==> Subscribed(s, n, c) && EntryOf(r, n, c) == EntryOf(s, n, c)
    ensures Orphan(r, id)
  {}

  lemma AdmitOrphan(s: State, contextId: ContextId, streamId: StreamId, ns: Namespace, id: SubscriberId)
    requires IdInv(s) && Orphan(s, id)
    ensures Orphan(Admit(s, contextId, streamId, ns), id)
  {
    var t := TouchSubscribers(s, ns);
    FewerOrphan(s, t, id);
    if contextId !in Get(t.subscribeState, ns) {
      AllocateOrphan(t, contextId, streamId, ns, id);
    }
  }

  lemma AllocateOrphan(s: State, contextId: ContextId, streamId: StreamId, ns: Namespace, id: SubscriberId)
    requires Orphan(s, id) && id < s.nextId && Count(s.subscribeState, ns)
    ensures Orphan(Allocate(s, ns, contextId, streamId), id)
  {
    var r := Allocate(s, ns, contextId, streamId);
    forall n, c | Subscribed(r, n, c)
      ensures EntryOf(r, n, c).subscriberId != id
    {
      if n != ns.name || c != contextId {
        assert Subscribed(s, n, c) && EntryOf(r, n, c) == EntryOf(s, n, c);
      }
    }
  }

  lemma {:induction false} DisconnectOrphan(s: State, d: Delegate, contextId: ContextId, todo: set<Name>,
      id: SubscriberId)
    requires Orphan(s, id) && todo <= s.subscribeState.Keys
    ensures Orphan(Disconnect(s, d, contextId, todo).state, id)
    decreases |todo|
  {
    if todo == {} {
    } else {
      var n := LeastName(todo);
      var entry := s.subscribeState[n];
      if contextId !in entry.value {
        DisconnectOrphan(s, d, contextId, todo - {n}, id);
      } else {
        assert Subscribed(s, n, contextId);
        var other := entry.value[contextId].subscriberId;
        var e := Notify(s, d, OnUnsubscribe(entry.key, other));
        NotifySame(s, d, OnUnsubscribe(entry.key, other));
        var t := e.state.(subscribeIdState := e.state.subscribeIdState - {other});
        FewerOrphan(s, t, id);
        DisconnectOrphan(t, d, contextId, todo - {n}, id);
      }
    }
  }

  lemma UnsubscribingOrphan(s: State, d: Delegate, contextId: ContextId, m: Unsubscribe, id: SubscriberId)
    requires Keyed(s.subscribeState) && Orphan(s, id)
    ensures Orphan(HandleUnsubscribe(s, d, contextId, m).state, id)
  {
    var t := TouchSubscribers(s, m.ns);
    FewerOrphan(s, t, id);
    if contextId in Get(t.subscribeState, m.ns) {
      assert Subscribed(t, m.ns.name, contextId);
      var other := Get(t.subscribeState, m.ns)[contextId].subscriberId;
      var e := Notify(t, d, OnUnsubscribe(m.ns, other));
      NotifySame(t, d, OnUnsubscribe(m.ns, other));
      DropFewer(e.state, m.ns, contextId);
      FewerOrphan(t, DropSubscriber(e.state, m.ns, contextId), id);
    }
  }

  lemma StepOrphan(s: State, d: Delegate, event: ServerEvent, id: SubscriberId)
    requires IdInv(s) && Orphan(s, id)
    ensures Orphan(Step(s, d, event).state, id)
  {
    match event
    case Subscribing(contextId, streamId, m) =>
      var t := Admit(s, contextId, streamId, m.ns);
      AdmitOrphan(s, contextId, streamId, m.ns, id);
      var given := Get(t.subscribeState, m.ns)[contextId].subscriberId;
      NotifySame(t, d, OnSubscribe(m.ns, given, contextId, streamId, m.intent));
      FewerOrphan(t, Step(s, d, event).state, id);
    case Unsubscribing(contextId, m) =>
      UnsubscribingOrphan(s, d, contextId, m, id);
    case Disconnecting(contextId) =>
      DisconnectOrphan(s, d, contextId, s.subscribeState.Keys, id);
    case _ =>
      OtherStepsSame(s, d, event);
      FewerOrphan(s, Step(s, d, event).state, id);
  }

  /** An id whose entry was dropped by another's unsubscription stays alive for
      good: nothing a client does ends it. */
  lemma {:induction false} OrphanForGood(s: State, turns: seq<ServerTurn>, id: SubscriberId)
    requires IdInv(s) && Orphan(s, id)
    ensures Orphan(Run(s, turns), id)
    decreases |turns|
  {
    if turns == [] {
    } else {
      StepOrphan(s, turns[0].delegate, turns[0].event, id);
      StepIdInv(s, turns[0].delegate, turns[0].event);
      OrphanForGood(Step(s, turns[0].delegate, turns[0].event).state, turns[1..], id);
    }
  }

  /** A context already listed is given the id of its entry again, and that id is
      alive exactly when it was. */
  lemma IdGivenLiveIff(s: State, d: Delegate, contextId: ContextId, streamId: StreamId, m: Subscribe)
    requires Subscribed(s, m.ns.name, contextId)
    ensures var id := EntryOf(s, m.ns.name, contextId).subscriberId;
      var e := Step(s, d, Subscribing(contextId, streamId, m));
      && e.callbacks == [OnSubscribe(m.ns, id, contextId, streamId, m.intent)]
      && (id in e.state.subscribeIdState <==> id in s.subscribeIdState)
  {
    var id := EntryOf(s, m.ns.name, contextId).subscriberId;
    NotifySame(s, d, OnSubscribe(m.ns, id, contextId, streamId, m.intent));
  }

  lemma {:induction false} DisconnectDrops(s: State, d: Delegate, contextId: ContextId, todo: set<Name>, n: Name)
    requires IdInv(s) && n in todo && todo <= s.subscribeState.Keys && Subscribed(s, n, contextId)
    ensures Gone(Disconnect(s, d, contextId, todo).state, EntryOf(s, n, contextId).subscriberId)
    decreases |todo|
  {
    var least := LeastName(todo);
    var entry := s.subscribeState[least];
    if contextId !in entry.value {
      DisconnectDrops(s, d, contextId, todo - {least}, n);
    } else {
      var id := entry.value[contextId].subscriberId;
      var e := Notify(s, d, OnUnsubscribe(entry.key, id));
      NotifySame(s, d, OnUnsubscribe(entry.key, id));
      var t := e.state.(subscribeIdState := e.state.subscribeIdState - {id});
      if least == n {
        DisconnectGone(t, d, contextId, todo - {least}, id);
      } else {
        assert forall x, c :: Subscribed(t, x, c) <==> Subscribed(s, x, c);
        FewerInv(s, t);
        DisconnectDrops(t, d, contextId, todo - {least}, n);
      }
    }
  }

  /** A disconnection leaves the entries of its context listed, with ids that are
      gone. */
  lemma DisconnectLeavesDeadEntry(s: State, d: Delegate, contextId: ContextId, n: Name)
    requires IdInv(s) && Subscribed(s, n, contextId)
    ensures var t := Step(s, d, Disconnecting(contextId)).state;
      && Subscribed(t, n, contextId) && EntryOf(t, n, contextId) == EntryOf(s, n, contextId)
      && Gone(t, EntryOf(s, n, contextId).subscriberId)
  {
    DisconnectInv(s, d, contextId, s.subscribeState.Keys);
    DisconnectDrops(s, d, contextId, s.subscribeState.Keys, n);
  }

  /** After a disconnection, as long as its entry stays listed, a new subscription
      of the context to that name is given the id that is gone, so it is never
      answered and never sent an object. */
  lemma NoAnswerAfterDisconnect(
    s: State, d: Delegate, between: seq<ServerTurn>, now: Delegate, after: seq<ServerTurn>,
    contextId: ContextId, streamId: StreamId, m: Subscribe)
    requires IdInv(s) && Subscribed(s, m.ns.name, contextId)
    requires var u := Run(Step(s, d, Disconnecting(contextId)).state, between);
      Subscribed(u, m.ns.name, contextId) && EntryOf(u, m.ns.name, contextId) == EntryOf(s, m.ns.name, contextId)
    ensures var id := EntryOf(s, m.ns.name, contextId).subscriberId;
      var e := Step(Run(Step(s, d, Disconnecting(contextId)).state, between), now, Subscribing(contextId, streamId, m));
      && e.callbacks == [OnSubscribe(m.ns, id, contextId, streamId, m.intent)]
      && SilentFor(e.outputs, id) && SilentFor(Outputs(e.state, after), id)
  {
    var id := EntryOf(s, m.ns.name, contextId).subscriberId;
    var t := Step(s, d, Disconnecting(contextId)).state;
    var u := Run(t, between);
    DisconnectLeavesDeadEntry(s, d, contextId, m.ns.name);
    GoneForGood(t, between, id);
    IdGivenLiveIff(u, now, contextId, streamId, m);
    StepGone(u, now, Subscribing(contextId, streamId, m), id);
    GoneForGood(Step(u, now, Subscribing(contextId, streamId, m)).state, after, id);
  }

  /** An application that calls nothing. */
  ghost function Idle(): Delegate {
    _ => []
  }

  ghost function SubscribedOnce(ns: Namespace): State {
    Step(INITIAL, Idle(), Subscribing(1, 0, Subscribe(1, 0, ns, 0))).state
  }

  /** The start, one subscription and its disconnection: a dead entry. */
  lemma DeadEntryWitness(ns: Namespace)
    ensures var s := Step(SubscribedOnce(ns), Idle(), Disconnecting(1)).state;
      Subscribed(s, ns.name, 1) && Gone(s, EntryOf(s, ns.name, 1).subscriberId)
  {
    var s := SubscribedOnce(ns);
    OneSubscription(ns);
    StepIdInv(INITIAL, Idle(), Subscribing(1, 0, Subscribe(1, 0, ns, 0)));
    DisconnectLeavesDeadEntry(s, Idle(), 1, ns.name);
  }

  lemma IdleNotifies(s: State, callback: Callback)
    ensures Notify(s, Idle(), callback) == Effect(s, [], [callback])
  {}

  lemma OneSubscription(ns: Namespace)
    ensures SubscribedOnce(ns) == INITIAL.(
      subscribeState := map[ns.name := Entry(ns, map[1 := SubscribeContext(1, 0, 0)])],
      subscribeIdState := map[0 := SubscribeContext(1, 0, 0)], nextId := 1)
  {
    IdleNotifies(Admit(INITIAL, 1, 0, ns), OnSubscribe(ns, 0, 1, 0, 0));
  }

  ghost function SubscribedTwice(ns: Namespace): State {
    Step(SubscribedOnce(ns), Idle(), Subscribing(2, 0, Subscribe(1, 0, ns, 0))).state
  }

  /** The start, two subscriptions of one namespace and the first given up: the
      other's entry is gone too, and its id is not. */
  lemma OthersDroppedWitness(ns: Namespace)
    ensures var s := Step(SubscribedTwice(ns), Idle(), Unsubscribing(1, Unsubscribe(1, ns))).state;
      !Subscribed(s, ns.name, 2) && Orphan(s, 1)
  {
    OneSubscription(ns);
    var once := SubscribedOnce(ns);
    IdleNotifies(Admit(once, 2, 0, ns), OnSubscribe(ns, 1, 2, 0, 0));
    var twice := SubscribedTwice(ns);
    assert twice.subscribeState[ns.name].value == map[1 := SubscribeContext(1, 0, 0), 2 := SubscribeContext(2, 0, 1)];
    assert 2 in twice.subscribeState[ns.name].value - {1};
    IdleNotifies(twice, OnUnsubscribe(ns, 0));
  }

  // Published names.

  /** Every name with a publisher lies in a registered publish namespace. */
  ghost predicate Covered(s: State) {
    && Keyed(s.publishNamespaces)
    && forall n :: n in s.publishState ==> Announced(s.publishNamespaces, n)
  }

  /** An end that erases a namespace is at most as long as the one it erases. */
  ghost predicate EndsProperly(s: State, event: ServerEvent) {
    event.IntentEnding? && Count(s.publishNamespaces, event.intentEnd.ns) ==>
      var key := s.publishNamespaces[event.intentEnd.ns.name].key;
      Masked(key) && Masked(event.intentEnd.ns) && event.intentEnd.ns.sigBits <= key.sigBits < 128
  }

  ghost predicate AllEndProperly(s: State, turns: seq<ServerTurn>)
    decreases |turns|
  {
    turns == [] ||
    (EndsProperly(s, turns[0].event)
     && AllEndProperly(Step(s, turns[0].delegate, turns[0].event).state, turns[1..]))
  }

  /** Same publishers, and the same namespaces registered. */
  ghost predicate SamePublishers(s: State, t: State) {
    && t.publishState == s.publishState && t.publishNamespaces.Keys == s.publishNamespaces.Keys
    && forall n :: n in s.publishNamespaces ==> t.publishNamespaces[n].key == s.publishNamespaces[n].key
  }

  lemma NotifyPublishers(s: State, d: Delegate, callback: Callback)
    ensures SamePublishers(s, Notify(s, d, callback).state)
  {
    PerformAllKeeps(s, d(callback));
  }

  lemma AnnouncedSame(s: State, t: State)
    requires SamePublishers(s, t)
    ensures forall n :: Announced(s.publishNamespaces, n) <==> Announced(t.publishNamespaces, n)
    ensures Covered(s) ==> Covered(t)
  {
    forall n
      ensures Announced(s.publishNamespaces, n) <==> Announced(t.publishNamespaces, n)
    {
      if Announced(s.publishNamespaces, n) {
        var k :| k in s.publishNamespaces && Contains(s.publishNamespaces[k].key, n);
        assert k in t.publishNamespaces;
      }
    }
  }

  lemma {:induction false} DisconnectPublishers(s: State, d: Delegate, contextId: ContextId, todo: set<Name>)
    requires todo <= s.subscribeState.Keys
    ensures SamePublishers(s, Disconnect(s, d, contextId, todo).state)
    decreases |todo|
  {
    if todo == {} {
    } else {
      var n := LeastName(todo);
      var entry := s.subscribeState[n];
      if contextId !in entry.value {
        DisconnectPublishers(s, d, contextId, todo - {n});
      } else {
        var id := entry.value[contextId].subscriberId;
        var e := Notify(s, d, OnUnsubscribe(entry.key, id));
        NotifyPublishers(s, d, OnUnsubscribe(entry.key, id));
        NotifySame(s, d, OnUnsubscribe(entry.key, id));
        DisconnectPublishers(e.state.(subscribeIdState := e.state.subscribeIdState - {id}), d, contextId, todo - {n});
      }
    }
  }

  /** Steps that are neither a publication nor about an intent. */
  lemma OtherPublishersSame(s: State, d: Delegate, event: ServerEvent)
    requires event.Subscribing? || event.Unsubscribing? || event.Disconnecting? || event.Calling?
    ensures SamePublishers(s, Step(s, d, event).state)
  {
    if event.Disconnecting? {
      DisconnectPublishers(s, d, event.contextId, s.subscribeState.Keys);
    } else if event.Calling? {
      PerformAllKeeps(s, [event.call]);
      assert PerformAll(s, [event.call]).0 == Perform(s, event.call).0;
    } else {
      forall t, callback
        ensures SamePublishers(t, Notify(t, d, callback).state)
      {
        NotifyPublishers(t, d, callback);
      }
    }
  }

  lemma IntentEndCovered(s: State, ns: Namespace)
    requires Covered(s) && Count(s.publishNamespaces, ns)
    requires var key := s.publishNamespaces[ns.name].key;
      Masked(key) && Masked(ns) && ns.sigBits <= key.sigBits < 128
    ensures forall n :: n in s.publishState && !Contains(ns, n) ==> Announced(Erase(s.publishNamespaces, ns), n)
  {
    var key := s.publishNamespaces[ns.name].key;
    ContainsOwnName(ns);
    NestedOrDisjoint(ns, key);
    forall n | n in s.publishState && !Contains(ns, n)
      ensures Announced(Erase(s.publishNamespaces, ns), n)
    {
      var k :| k in s.publishNamespaces && Contains(s.publishNamespaces[k].key, n);
      assert k in Erase(s.publishNamespaces, ns);
    }
  }

  lemma IntentCovered(s: State, ns: Namespace, c: IntentContext)
    requires Covered(s) && !Count(s.publishNamespaces, ns)
    ensures Covered(s.(publishNamespaces := Put(s.publishNamespaces, ns, c)))
  {
    var t := s.(publishNamespaces := Put(s.publishNamespaces, ns, c));
    forall n | n in t.publishState
      ensures Announced(t.publishNamespaces, n)
    {
      var k :| k in s.publishNamespaces && Contains(s.publishNamespaces[k].key, n);
      assert k in t.publishNamespaces;
    }
  }

  lemma StepCovered(s: State, d: Delegate, event: ServerEvent)
    requires Covered(s) && EndsProperly(s, event)
    ensures Covered(Step(s, d, event).state)
  {
    var after := Step(s, d, event).state;
    match event
    case Publishing(contextId, streamId, m) =>
      if Announced(s.publishNamespaces, m.header.name) {
        var name := m.header.name;
        var t := if name in s.publishState then s
                 else s.(publishState := s.publishState[name := PublishContext(contextId, streamId)]);
        var callback := OnPublisherObject(t.publishState[name].contextId, t.publishState[name].streamId, m);
        NotifyPublishers(t, d, callback);
        AnnouncedSame(t, after);
      }
    case Intending(contextId, streamId, m) =>
      var entry := IntentContext(contextId, streamId, m.transactionId, false);
      var t := if Count(s.publishNamespaces, m.ns) then s
               else s.(publishNamespaces := Put(s.publishNamespaces, m.ns, entry));
      if !Count(s.publishNamespaces, m.ns) {
        IntentCovered(s, m.ns, entry);
      }
      NotifyPublishers(t, d, OnPublishIntent(m.ns, m.payload));
      AnnouncedSame(t, after);
    case IntentEnding(m) =>
      if Count(s.publishNamespaces, m.ns) {
        IntentEndCovered(s, m.ns);
        var t := s.(publishNamespaces := Erase(s.publishNamespaces, m.ns),
                    publishState := map n | n in s.publishState && !Contains(m.ns, n) :: s.publishState[n]);
        NotifyPublishers(t, d, OnPublishIntentEnd(m.ns, m.payload));
        AnnouncedSame(t, after);
      }
    case _ =>
      OtherPublishersSame(s, d, event);
      AnnouncedSame(s, after);
  }

  /** Every published name stays announced, in every run whose ends are proper. */
  lemma {:induction false} RunCovered(s: State, turns: seq<ServerTurn>)
    requires Covered(s) && AllEndProperly(s, turns)
    ensures Covered(Run(s, turns))
    decreases |turns|
  {
    if turns == [] {
    } else {
      StepCovered(s, turns[0].delegate, turns[0].event);
      RunCovered(Step(s, turns[0].delegate, turns[0].event).state, turns[1..]);
    }
  }

  /** In every state reachable from the start by proper ends. */
  lemma ReachableCovered(turns: seq<ServerTurn>)
    requires AllEndProperly(INITIAL, turns)
    ensures Covered(Run(INITIAL, turns))
  {
    RunCovered(INITIAL, turns);
  }

  /** An end for a namespace longer than the stored one of the same name leaves
      names behind that nothing announces: ends keep the coverage of every state
      exactly when they are proper. */
  lemma EndKeepsCoverageIff(key: Namespace, m: PublishIntentEnd, d: Delegate, c: IntentContext)
    requires Masked(key) && Masked(m.ns) && key.name == m.ns.name
    requires key.sigBits < 128 && m.ns.sigBits < 128
    ensures m.ns.sigBits <= key.sigBits <==>
      forall s :: Covered(s) && Stores(s, key) ==> Covered(Step(s, d, IntentEnding(m)).state)
  {
    if m.ns.sigBits <= key.sigBits {
      forall s | Covered(s) && Stores(s, key)
        ensures Covered(Step(s, d, IntentEnding(m)).state)
      {
        StepCovered(s, d, IntentEnding(m));
      }
    } else {
      ContainsNamespaceIffCovers(m.ns, key);
      var x :| Contains(key, x) && !Contains(m.ns, x);
      var s := INITIAL.(publishNamespaces := map[key.name := Entry(key, c)],
                        publishState := map[x := PublishContext(0, 0)]);
      assert key.name in s.publishNamespaces;
      assert Covered(s) && Stores(s, key);
      LeftBehind(s, d, key, m, x);
    }
  }

  /** Such a state is reached from the start: an intent for the first 32 bits, an
      object outside the first 64, and the end of the first 64. */
  lemma EndLeavesNameWitness(intent: PublishIntent, m: PublishDatagram, end: PublishIntentEnd)
    requires intent.ns == MakeNamespace(Name(0, 0), 32) && m.header.name == Name(1, 0)
    requires end.ns == MakeNamespace(Name(0, 0), 64)
    ensures var turns := [ServerTurn(Intending(1, 0, intent), Idle()), ServerTurn(Publishing(1, 0, m), Idle()),
                          ServerTurn(IntentEnding(end), Idle())];
      !Covered(Run(INITIAL, turns)) && Covered(Run(INITIAL, turns[..2]))
  {
    WitnessNames(m.header.name);
    var s2 := IntentAndObject(intent, m);
    LeftBehind(s2, Idle(), intent.ns, end, m.header.name);
    ThreeTurns(INITIAL, ServerTurn(Intending(1, 0, intent), Idle()), ServerTurn(Publishing(1, 0, m), Idle()),
      ServerTurn(IntentEnding(end), Idle()));
  }

  lemma IntentAndObject(intent: PublishIntent, m: PublishDatagram) returns (s2: State)
    requires Contains(intent.ns, m.header.name)
    ensures s2 == Step(Step(INITIAL, Idle(), Intending(1, 0, intent)).state, Idle(), Publishing(1, 0, m)).state
    ensures Covered(s2) && Stores(s2, intent.ns) && s2.publishNamespaces.Keys == {intent.ns.name}
    ensures m.header.name in s2.publishState
  {
    var key, x := intent.ns, m.header.name;
    var c := IntentContext(1, 0, intent.transactionId, false);
    var s1 := INITIAL.(publishNamespaces := map[key.name := Entry(key, c)]);
    s2 := s1.(publishState := map[x := PublishContext(1, 0)]);
    IdleNotifies(s1, OnPublishIntent(key, intent.payload));
    IdleNotifies(s2, OnPublisherObject(1, 0, m));
    assert key.name in s1.publishNamespaces;
    assert Step(INITIAL, Idle(), Intending(1, 0, intent)).state == s1;
  }

  lemma ThreeTurns(s: State, a: ServerTurn, b: ServerTurn, c: ServerTurn)
    ensures var t := Step(Step(s, a.delegate, a.event).state, b.delegate, b.event).state;
      Run(s, [a, b, c][..2]) == t && Run(s, [a, b, c]) == Step(t, c.delegate, c.event).state
  {
    var none: seq<ServerTurn> := [];
    var s1 := Step(s, a.delegate, a.event).state;
    var t := Step(s1, b.delegate, b.event).state;
    assert [a, b, c][..2] == [a] + ([b] + none) && [a, b, c] == [a] + ([b] + ([c] + none));
    RunFirst(s, a, [b] + none);
    RunFirst(s, a, [b] + ([c] + none));
    RunFirst(s1, b, none);
    RunFirst(s1, b, [c] + none);
    RunFirst(t, c, none);
  }

  lemma RunFirst(s: State, turn: ServerTurn, rest: seq<ServerTurn>)
    ensures Run(s, [turn] + rest) == Run(Step(s, turn.delegate, turn.event).state, rest)
  {
    assert ([turn] + rest)[1..] == rest;
  }

  lemma WitnessNames(x: Name)
    requires x == Name(1, 0)
    ensures var key, longer := MakeNamespace(Name(0, 0), 32), MakeNamespace(Name(0, 0), 64);
      key.name == longer.name == Name(0, 0) && Contains(key, x) && !Contains(longer, x)
  {
    var key, longer := MakeNamespace(Name(0, 0), 32), MakeNamespace(Name(0, 0), 64);
    ContainsIffInterval(key, x);
    ContainsIffInterval(longer, x);
    Pow2Limb();
    Pow2Mono(65, 96);
  }

  ghost predicate Stores(s: State, key: Namespace) {
    key.name in s.publishNamespaces && s.publishNamespaces[key.name].key == key
  }

  lemma LeftBehind(s: State, d: Delegate, key: Namespace, m: PublishIntentEnd, x: Name)
    requires Stores(s, key) && s.publishNamespaces.Keys == {key.name} && key.name == m.ns.name
    requires x in s.publishState && !Contains(m.ns, x)
    ensures !Covered(Step(s, d, IntentEnding(m)).state)
  {
    var t := s.(publishNamespaces := Erase(s.publishNamespaces, m.ns),
                publishState := map n | n in s.publishState && !Contains(m.ns, n) :: s.publishState[n]);
    NotifyPublishers(t, d, OnPublishIntentEnd(m.ns, m.payload));
    assert t.publishNamespaces.Keys == {};
    assert x in Step(s, d, IntentEnding(m)).state.publishState;
  }

  // The first publisher of a name.

  ghost predicate ErasesName(s: State, event: ServerEvent, n: Name) {
    event.IntentEnding? && Count(s.publishNamespaces, event.intentEnd.ns) && Contains(event.intentEnd.ns, n)
  }

  ghost predicate NeverErased(s: State, turns: seq<ServerTurn>, n: Name)
    decreases |turns|
  {
    turns == [] ||
    (!ErasesName(s, turns[0].event, n)
     && NeverErased(Step(s, turns[0].delegate, turns[0].event).state, turns[1..], n))
  }

  /** Objects of `n` are reported with this context. */
  ghost predicate ReportedAs(callbacks: seq<Callback>, n: Name, c: PublishContext) {
    forall cb :: cb in callbacks && cb.OnPublisherObject? && cb.datagram.header.name == n ==>
      cb.contextId == c.contextId && cb.streamId == c.streamId
  }

  lemma {:induction false} DisconnectReports(s: State, d: Delegate, contextId: ContextId, todo: set<Name>)
    requires todo <= s.subscribeState.Keys
    ensures forall cb :: cb in Disconnect(s, d, contextId, todo).callbacks ==> cb.OnUnsubscribe?
    decreases |todo|
  {
    if todo == {} {
    } else {
      var n := LeastName(todo);
      var entry := s.subscribeState[n];
      if contextId !in entry.value {
        DisconnectReports(s, d, contextId, todo - {n});
      } else {
        var id := entry.value[contextId].subscriberId;
        var e := Notify(s, d, OnUnsubscribe(entry.key, id));
        NotifySame(s, d, OnUnsubscribe(entry.key, id));
        DisconnectReports(e.state.(subscribeIdState := e.state.subscribeIdState - {id}), d, contextId, todo - {n});
      }
    }
  }

  lemma StepKeepsPublisher(s: State, d: Delegate, event: ServerEvent, n: Name)
    requires n in s.publishState && !ErasesName(s, event, n)
    ensures var e := Step(s, d, event);
      && n in e.state.publishState && e.state.publishState[n] == s.publishState[n]
      && ReportedAs(e.callbacks, n, s.publishState[n])
  {
    if event.Subscribing? || event.Unsubscribing? || event.Disconnecting? || event.Calling? {
      OtherPublishersSame(s, d, event);
      if event.Disconnecting? {
        DisconnectReports(s, d, event.contextId, s.subscribeState.Keys);
      }
    } else {
      forall t, callback
        ensures SamePublishers(t, Notify(t, d, callback).state)
      {
        NotifyPublishers(t, d, callback);
      }
    }
  }

  /** Until an end erases it, a name keeps the context of its first publisher, in
      the state and in every callback. */
  lemma {:induction false} FirstPublisherKept(s: State, turns: seq<ServerTurn>, n: Name)
    requires n in s.publishState && NeverErased(s, turns, n)
    ensures n in Run(s, turns).publishState && Run(s, turns).publishState[n] == s.publishState[n]
    ensures ReportedAs(Callbacks(s, turns), n, s.publishState[n])
    decreases |turns|
  {
    if turns == [] {
    } else {
      StepKeepsPublisher(s, turns[0].delegate, turns[0].event, n);
      FirstPublisherKept(Step(s, turns[0].delegate, turns[0].event).state, turns[1..], n);
    }
  }
}
