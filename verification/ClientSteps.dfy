/** What each event does to the client, exactly: what it records, what it sends and
    whom it tells. */
module ClientSteps {
  import opened Bits
  import opened ByteOrder
  import opened Client
  import opened ClientRuns
  import opened ClientTraffic
  import opened Dispatch
  import opened Fragmentation
  import opened MessageBuffers
  import opened Messages
  import opened NamespaceMaps
  import opened Names
  import opened Namespaces
  import opened Reassembly
  import Server
  import opened Wrappers

  // What is recorded.

  /** The event takes the delegate of the key away. */
  ghost predicate Ends(s: ClientState, e: ClientEvent, key: Name) {
    || (e.Removed? && (if e.all then key in s.subscribeState else e.ns.name == key))
    || (e.Received? && e.msg.End? && e.msg.end.ns.name == key)
  }

  /** A key has a delegate when it had one that was not taken away, or is registered
      now; the delegate that is there already is the one that stays. */
  lemma StepDelegates(s: ClientState, lim: Limits, t: Turn, key: Name)
    requires HasDelegates(s)
    ensures var next := ClientStep(s, lim, t).state;
      && (key in next.subDelegates <==>
            Registers(t.event, key) || (key in s.subDelegates && !Ends(s, t.event, key)))
      && (key in next.subDelegates ==>
            next.subDelegates[key]
              == if key in s.subDelegates then s.subDelegates[key] else Entry(t.event.ns, t.event.delegate))
  {
    if t.event.Removed? && t.event.all {
      RemoveEachState(s, t.world, s.subscribeState, s.subscribeState.Keys, t.event.reason);
    }
  }

  /** A subscription is in progress from the call that makes it, under its
      transaction id, until it is given up or ended. */
  lemma StepProgress(s: ClientState, lim: Limits, t: Turn, key: Name)
    requires HasDelegates(s)
    ensures var next := ClientStep(s, lim, t).state;
      && (key in next.subscribeState <==>
            Registers(t.event, key) || (key in s.subscribeState && !Ends(s, t.event, key)
              && !(t.event.Unsubscribed? && t.event.ns.name == key)))
      && (key in next.subscribeState ==>
            next.subscribeState[key]
              == if key in s.subscribeState then s.subscribeState[key]
                 else Entry(t.event.ns, SubscriptionState(false, t.event.transactionId)))
  {
    if t.event.Removed? && t.event.all {
      RemoveEachState(s, t.world, s.subscribeState, s.subscribeState.Keys, t.event.reason);
    }
  }

  /** A publisher delegate is there from the first announcement of the name until
      the name is withdrawn. */
  lemma StepPublishers(s: ClientState, lim: Limits, t: Turn, key: Name)
    requires HasDelegates(s)
    ensures var next := ClientStep(s, lim, t).state;
      && (key in next.pubDelegates <==>
            || (t.event.Announced? && t.event.ns.name == key)
            || (key in s.pubDelegates && !(t.event.Withdrawn? && t.event.ns.name == key)))
      && (key in next.pubDelegates ==>
            next.pubDelegates[key]
              == if key in s.pubDelegates then s.pubDelegates[key] else Entry(t.event.ns, t.event.delegate))
  {
    if t.event.Removed? && t.event.all {
      RemoveEachState(s, t.world, s.subscribeState, s.subscribeState.Keys, t.event.reason);
    }
  }

  // What is sent.

  /** The messages of a run, in order. */
  ghost function Sent(s: ClientState, lim: Limits, turns: seq<Turn>): seq<Bytes>
    decreases |turns|
  {
    if turns == [] then []
    else
      var r := ClientStep(s, lim, turns[0]);
      r.sent + Sent(r.state, lim, turns[1..])
  }

  /** A call for a subscription that is ready sends nothing; any other sends the one
      message that asks for the namespace. */
  lemma SubscribeSends(s: ClientState, delegate: nat, ns: Namespace, intent: uint8, transactionId: uint64,
      into: Subscribe)
    ensures var sent := CallStep(s, Subscribed(delegate, ns, intent, transactionId)).sent;
      if ns.name in s.subscribeState && s.subscribeState[ns.name].value.ready then sent == []
      else
        && |sent| == 1
        && DecodeSubscribe(sent[0], into) == Got(Subscribe(into.version, transactionId, Remasked(ns), intent), [])
  {
    var msg := EncodeSubscribe(Subscribe(1, transactionId, ns, intent));
    assert msg + [] == msg;
    SubscribeRoundTrip(Subscribe(1, transactionId, ns, intent), into, []);
  }

  lemma UnsubscribeSends(s: ClientState, ns: Namespace, into: Unsubscribe)
    ensures var sent := CallStep(s, Unsubscribed(ns)).sent;
      |sent| == 1 && DecodeUnsubscribe(sent[0], into) == Got(Unsubscribe(into.version, Remasked(ns)), [])
  {
    var msg := EncodeUnsubscribe(Unsubscribe(1, ns));
    assert msg + [] == msg;
    UnsubscribeRoundTrip(Unsubscribe(1, ns), into, []);
  }

  lemma AnnounceSends(s: ClientState, delegate: nat, ns: Namespace, payload: Payload, transactionId: uint64,
      streamId: UintVar)
    requires |payload| < 0x1_0000
    ensures var sent := CallStep(s, Announced(delegate, ns, payload, transactionId, streamId)).sent;
      && |sent| == 1
      && DecodePublishIntent(sent[0])
         == Got(PublishIntent(6, transactionId, Remasked(ns), payload, Low60(streamId), 1), [])
  {
    var m := PublishIntent(PUBLISH_INTENT, transactionId, ns, payload, streamId, 1);
    var msg := EncodePublishIntent(m);
    assert msg + [] == msg;
    PublishIntentRoundTrip(m, []);
  }

  /** Only a namespace with a publisher delegate is withdrawn at the server. */
  lemma WithdrawSends(s: ClientState, ns: Namespace)
    ensures var sent := CallStep(s, Withdrawn(ns)).sent;
      if ns.name !in s.pubDelegates then sent == []
      else |sent| == 1 && DecodePublishIntentEnd(sent[0]) == Got(PublishIntentEnd(8, Remasked(ns), []), [])
  {
    var m := PublishIntentEnd(PUBLISH_INTENT_END, ns, []);
    var msg := EncodePublishIntentEnd(m);
    assert msg + [] == msg;
    PublishIntentEndRoundTrip(m, []);
  }

  /** What is not a call sends nothing. */
  lemma {:induction false} RemoveEachSends(s: ClientState, w: World, entries: NsMap<SubscriptionState>,
      todo: set<Name>, reason: uint8)
    requires todo <= entries.Keys
    ensures RemoveEach(s, w, entries, todo, reason).sent == []
    decreases |todo|
  {
    if todo == {} {
    } else {
      var n := LeastName(todo);
      RemoveEachSends(RemoveOne(s, w, entries[n].key, reason).state, w, entries, todo - {n}, reason);
    }
  }

  lemma OthersSendNothing(s: ClientState, lim: Limits, t: Turn)
    requires !IsCall(t.event)
    ensures ClientStep(s, lim, t).sent == []
  {
    if t.event.Removed? && t.event.all {
      RemoveEachSends(s, t.world, s.subscribeState, s.subscribeState.Keys, t.event.reason);
    }
  }

  /** Nothing ever makes a subscription ready. */
  ghost predicate NeverReady(s: ClientState) {
    forall n :: n in s.subscribeState ==> !s.subscribeState[n].value.ready
  }

  lemma StepNeverReady(s: ClientState, lim: Limits, t: Turn)
    requires HasDelegates(s) && NeverReady(s)
    ensures NeverReady(ClientStep(s, lim, t).state)
  {
    var next := ClientStep(s, lim, t).state;
    forall n | n in next.subscribeState
      ensures !next.subscribeState[n].value.ready
    {
      StepProgress(s, lim, t, n);
    }
  }

  /** The names with a publisher delegate, by the calls alone. */
  ghost function AnnouncedNames(names: set<Name>, e: ClientEvent): set<Name> {
    if e.Announced? then names + {e.ns.name} else if e.Withdrawn? then names - {e.ns.name} else names
  }

  lemma StepAnnouncing(s: ClientState, lim: Limits, t: Turn)
    requires HasDelegates(s)
    ensures ClientStep(s, lim, t).state.pubDelegates.Keys == AnnouncedNames(s.pubDelegates.Keys, t.event)
  {
    forall key
      ensures key in ClientStep(s, lim, t).state.pubDelegates <==> key in AnnouncedNames(s.pubDelegates.Keys, t.event)
    {
      StepPublishers(s, lim, t, key);
    }
  }

  /** What a call asks of the server, for a client on this context and stream. */
  ghost function Asks(names: set<Name>, e: ClientEvent, c: Server.ContextId, st: Server.StreamId)
    : seq<Server.ServerEvent>
  {
    match e
    case Subscribed(_, ns, intent, id) => [Server.Subscribing(c, st, Subscribe(0, id, Remasked(ns), intent))]
    case Unsubscribed(ns) => [Server.Unsubscribing(c, Unsubscribe(0, Remasked(ns)))]
    case Announced(_, ns, payload, id, streamId) =>
      [Server.Intending(c, st, PublishIntent(6, id, Remasked(ns), payload, Low60(streamId), 1))]
    case Withdrawn(ns) =>
      if ns.name in names then [Server.IntentEnding(PublishIntentEnd(8, Remasked(ns), []))] else []
    case _ => []
  }

  ghost function AsksAll(names: set<Name>, turns: seq<Turn>, c: Server.ContextId, st: Server.StreamId)
    : seq<Server.ServerEvent>
    decreases |turns|
  {
    if turns == [] then []
    else Asks(names, turns[0].event, c, st) + AsksAll(AnnouncedNames(names, turns[0].event), turns[1..], c, st)
  }

  /** The events the server makes of messages on this context and stream. */
  ghost function Heard(msgs: seq<Bytes>, c: Server.ContextId, st: Server.StreamId): seq<Server.ServerEvent> {
    if msgs == [] then []
    else
      (if msgs[0] != [] && Server.EventOf(c, st, msgs[0]).Some? then [Server.EventOf(c, st, msgs[0]).value] else [])
      + Heard(msgs[1..], c, st)
  }

  lemma {:induction false} HeardConcat(a: seq<Bytes>, b: seq<Bytes>, c: Server.ContextId, st: Server.StreamId)
    ensures Heard(a + b, c, st) == Heard(a, c, st) + Heard(b, c, st)
  {
    if a == [] {
      assert a + b == b;
    } else {
      assert (a + b)[1..] == a[1..] + b;
      HeardConcat(a[1..], b, c, st);
    }
  }

  lemma HeardOne(msg: Bytes, c: Server.ContextId, st: Server.StreamId, e: Server.ServerEvent)
    requires msg != [] && Server.EventOf(c, st, msg) == Some(e)
    ensures Heard([msg], c, st) == [e]
  {
    assert [msg][1..] == [];
  }

  ghost predicate ShortPayload(e: ClientEvent) {
    e.Announced? ==> |e.payload| < 0x1_0000
  }

  /** The server hears of a call exactly what it asks. */
  lemma CallHeard(s: ClientState, e: ClientEvent, c: Server.ContextId, st: Server.StreamId)
    requires IsCall(e) && NeverReady(s) && ShortPayload(e)
    ensures var asked := Asks(s.pubDelegates.Keys, e, c, st);
      Heard(CallStep(s, e).sent, c, st) == asked && |CallStep(s, e).sent| == |asked|
  {
    match e
    case Subscribed(_, ns, intent, id) =>
      var m := Subscribe(1, id, ns, intent);
      assert EncodeSubscribe(m) + [] == EncodeSubscribe(m);
      SubscribeReceived(c, st, m, []);
      HeardOne(EncodeSubscribe(m), c, st, Server.Subscribing(c, st, Subscribe(0, id, Remasked(ns), intent)));
    case Unsubscribed(ns) =>
      var m := Unsubscribe(1, ns);
      assert EncodeUnsubscribe(m) + [] == EncodeUnsubscribe(m);
      UnsubscribeReceived(c, st, m, []);
      HeardOne(EncodeUnsubscribe(m), c, st, Server.Unsubscribing(c, Unsubscribe(0, Remasked(ns))));
    case Announced(_, ns, payload, id, streamId) =>
      var m := PublishIntent(6, id, ns, payload, streamId, 1);
      assert EncodePublishIntent(m) + [] == EncodePublishIntent(m);
      PublishIntentReceived(c, st, m, []);
      HeardOne(EncodePublishIntent(m), c, st,
        Server.Intending(c, st, PublishIntent(6, id, Remasked(ns), payload, Low60(streamId), 1)));
    case Withdrawn(ns) =>
      var m := PublishIntentEnd(8, ns, []);
      assert EncodePublishIntentEnd(m) + [] == EncodePublishIntentEnd(m);
      PublishIntentEndReceived(c, st, m, []);
      HeardOne(EncodePublishIntentEnd(m), c, st, Server.IntentEnding(PublishIntentEnd(8, Remasked(ns), [])));
  }

  lemma StepHeard(s: ClientState, lim: Limits, t: Turn, c: Server.ContextId, st: Server.StreamId)
    requires NeverReady(s) && ShortPayload(t.event)
    ensures var asked := Asks(s.pubDelegates.Keys, t.event, c, st);
      Heard(ClientStep(s, lim, t).sent, c, st) == asked && |ClientStep(s, lim, t).sent| == |asked|
  {
    if IsCall(t.event) {
      CallHeard(s, t.event, c, st);
    } else {
      OthersSendNothing(s, lim, t);
    }
  }

  lemma {:induction false} RunHeard(s: ClientState, lim: Limits, turns: seq<Turn>, c: Server.ContextId,
      st: Server.StreamId)
    requires HasDelegates(s) && NeverReady(s) && forall t :: t in turns ==> ShortPayload(t.event)
    ensures var asked := AsksAll(s.pubDelegates.Keys, turns, c, st);
      Heard(Sent(s, lim, turns), c, st) == asked && |Sent(s, lim, turns)| == |asked|
    decreases |turns|
  {
    if turns == [] {
    } else {
      var r, rest := ClientStep(s, lim, turns[0]), turns[1..];
      assert turns[0] in turns && forall t :: t in rest ==> t in turns;
      StepHasDelegates(s, lim, turns[0]);
      StepNeverReady(s, lim, turns[0]);
      StepAnnouncing(s, lim, turns[0]);
      StepHeard(s, lim, turns[0], c, st);
      RunHeard(r.state, lim, rest, c, st);
      HeardConcat(r.sent, Sent(r.state, lim, rest), c, st);
    }
  }

  /** From client to server, in every run from the start: the server hears, in order,
      exactly what the calls ask: every subscription, unsubscription and announcement,
      and the withdrawal of what is announced. */
  lemma ServerHearsCalls(lim: Limits, turns: seq<Turn>, c: Server.ContextId, st: Server.StreamId)
    requires forall t :: t in turns ==> ShortPayload(t.event)
    ensures Heard(Sent(START, lim, turns), c, st) == AsksAll({}, turns, c, st)
    ensures |Sent(START, lim, turns)| == |AsksAll({}, turns, c, st)|
  {
    assert START.pubDelegates.Keys == {};
    RunHeard(START, lim, turns, c, st);
  }

  // Who is told.

  /** An answer is told to the live delegate of the name, as is the end. */
  lemma ResponseTold(s: ClientState, lim: Limits, w: World, m: SubscribeResponse, suffix: Bytes)
    ensures var ns := Remasked(m.ns);
      var r := ClientStep(s, lim, Turn(Received(Parse(EncodeSubscribeResponse(m) + suffix)), w));
      && r.state == s && r.sent == []
      && r.reports == if ns.name in s.subDelegates && s.subDelegates[ns.name].value in w.alive
           then [OnResponse(ns.name, s.subDelegates[ns.name].value, ns, m.response)] else []
  {
    SubscribeResponseReceived(m, suffix);
  }

  lemma EndTold(s: ClientState, lim: Limits, w: World, m: SubscribeEnd, suffix: Bytes)
    ensures var ns, r := Remasked(m.ns), ClientStep(s, lim, Turn(Received(Parse(EncodeSubscribeEnd(m) + suffix)), w));
      && r.state.subDelegates == s.subDelegates - {ns.name} && r.state.subscribeState == s.subscribeState - {ns.name}
      && r.state.pubDelegates == s.pubDelegates && r.state.cache == s.cache && r.sent == []
      && r.reports == if ns.name in s.subDelegates && s.subDelegates[ns.name].value in w.alive
           then [OnEnded(ns.name, s.subDelegates[ns.name].value, ns, m.reason)] else []
  {
    SubscribeEndReceived(m, suffix);
  }

  /** The end a removal tells the delegate of a key. */
  ghost predicate IsRemoval(r: Report, s: ClientState, w: World, entries: NsMap<SubscriptionState>, todo: set<Name>,
      reason: uint8)
    requires todo <= entries.Keys
  {
    && r.OnEnded? && r.key in todo && r.key in s.subDelegates && s.subDelegates[r.key].value in w.alive
    && r == OnEnded(r.key, s.subDelegates[r.key].value, entries[r.key].key, reason)
  }

  lemma {:induction false} RemovalTold(s: ClientState, w: World, entries: NsMap<SubscriptionState>, todo: set<Name>,
      reason: uint8)
    requires todo <= entries.Keys && Keyed(entries)
    ensures forall r :: r in RemoveEach(s, w, entries, todo, reason).reports <==>
      IsRemoval(r, s, w, entries, todo, reason)
    decreases |todo|
  {
    if todo == {} {
    } else {
      var n := LeastName(todo);
      var one := RemoveOne(s, w, entries[n].key, reason);
      RemovalTold(one.state, w, entries, todo - {n}, reason);
    }
  }

  /** Removal of all tells exactly the live delegates of the subscriptions in
      progress, of the namespace each subscribed to and of the reason; removal of one
      tells the live delegate of its name. */
  lemma RemovedTold(s: ClientState, lim: Limits, w: World, all: bool, ns: Namespace, reason: uint8)
    requires HasDelegates(s)
    ensures var reports := ClientStep(s, lim, Turn(Removed(all, ns, reason), w)).reports;
      if all then forall r :: r in reports <==> IsRemoval(r, s, w, s.subscribeState, s.subscribeState.Keys, reason)
      else reports == if ns.name in s.subDelegates && s.subDelegates[ns.name].value in w.alive
        then [OnEnded(ns.name, s.subDelegates[ns.name].value, ns, reason)] else []
  {
    if all {
      RemovalTold(s, w, s.subscribeState, s.subscribeState.Keys, reason);
    }
  }

  lemma IntentAnswerTold(s: ClientState, lim: Limits, w: World, m: PublishIntentResponse, suffix: Bytes)
    requires m.messageType == 7
    ensures var ns := Remasked(m.ns);
      var r := ClientStep(s, lim, Turn(Received(Parse(EncodePublishIntentResponse(m) + suffix)), w));
      && r.state == s && r.sent == []
      && r.reports == if ns.name in s.pubDelegates && s.pubDelegates[ns.name].value in w.alive
           then [OnIntentResponse(ns.name, s.pubDelegates[ns.name].value, ns, m.response)] else []
  {
    PublishIntentResponseReceived(m, suffix);
  }

  /** What cannot be read is as if it had not come. */
  lemma UnreadableIgnored(s: ClientState, lim: Limits, w: World, msg: Bytes)
    requires Parse(msg) == Nothing
    ensures ClientStep(s, lim, Turn(Received(Parse(msg)), w)) == Change(s, [], [])
  {}

  // Objects that travel whole.

  /** A delegate told before that of `key` takes the bytes of the object away. */
  ghost predicate TakenBefore(delegates: NsMap<nat>, todo: set<Name>, w: World, name: Name, key: Name) {
    exists a :: a in todo && a.Num() < key.Num() && Matches(delegates, w, name, a) && delegates[a].value in w.takers
  }

  /** The report of an object to the delegate of `key`. */
  ghost predicate IsOffer(r: Report, delegates: NsMap<nat>, todo: set<Name>, w: World, name: Name, data: Bytes) {
    && r.OnObject? && r.key in todo && Matches(delegates, w, name, r.key)
    && r == OnObject(r.key, delegates[r.key].value, name,
         if TakenBefore(delegates, todo, w, name, r.key) then [] else data)
  }

  ghost predicate AscendingKeys(reports: seq<Report>) {
    forall i, j :: 0 <= i < j < |reports| ==> reports[i].key.Num() < reports[j].key.Num()
  }

  lemma {:induction false} OffersExactly(delegates: NsMap<nat>, todo: set<Name>, w: World, name: Name, data: Bytes)
    requires todo <= delegates.Keys
    ensures var reports := DeliverShared(delegates, todo, w, name, data);
      && (forall r :: r in reports <==> IsOffer(r, delegates, todo, w, name, data))
      && AscendingKeys(reports)
    decreases |todo|
  {
    if todo == {} {
    } else {
      var n := LeastName(todo);
      var taken := Matches(delegates, w, name, n) && delegates[n].value in w.takers;
      var left := if taken then [] else data;
      NumIsInjective();
      OffersExactly(delegates, todo - {n}, w, name, left);
      OffersJoin(delegates, todo, w, name, data, n, DeliverShared(delegates, todo - {n}, w, name, left));
    }
  }

  lemma OffersJoin(delegates: NsMap<nat>, todo: set<Name>, w: World, name: Name, data: Bytes, n: Name,
      rest: seq<Report>)
    requires n in todo && forall x :: x in todo && x != n ==> n.Num() < x.Num()
    requires AscendingKeys(rest)
    requires var taken := Matches(delegates, w, name, n) && delegates[n].value in w.takers;
      forall r :: r in rest <==> IsOffer(r, delegates, todo - {n}, w, name, if taken then [] else data)
    ensures var reports :=
        (if Matches(delegates, w, name, n) then [OnObject(n, delegates[n].value, name, data)] else []) + rest;
      (forall r :: r in reports <==> IsOffer(r, delegates, todo, w, name, data)) && AscendingKeys(reports)
  {
    var reports :=
      (if Matches(delegates, w, name, n) then [OnObject(n, delegates[n].value, name, data)] else []) + rest;
    forall r
      ensures r in reports <==> IsOffer(r, delegates, todo, w, name, data)
    {
      OfferAfter(r, delegates, todo, w, name, data, n);
    }
    forall j | 0 <= j < |rest|
      ensures n.Num() < rest[j].key.Num()
    {
      assert rest[j] in rest;
    }
  }

  lemma OfferAfter(r: Report, delegates: NsMap<nat>, todo: set<Name>, w: World, name: Name, data: Bytes, n: Name)
    requires n in todo && forall x :: x in todo && x != n ==> n.Num() < x.Num()
    ensures var taken := Matches(delegates, w, name, n) && delegates[n].value in w.takers;
      IsOffer(r, delegates, todo, w, name, data) <==>
        IsOffer(r, delegates, todo - {n}, w, name, if taken then [] else data)
        || (Matches(delegates, w, name, n) && r == OnObject(n, delegates[n].value, name, data))
  {
    assert !TakenBefore(delegates, todo, w, name, n);
    if r.OnObject? && r.key in todo - {n} {
      var taken := Matches(delegates, w, name, n) && delegates[n].value in w.takers;
      if taken {
        assert TakenBefore(delegates, todo, w, name, r.key);
      } else {
        assert TakenBefore(delegates, todo, w, name, r.key) <==> TakenBefore(delegates, todo - {n}, w, name, r.key);
      }
    }
  }

  /** From the publisher to the delegates, for an object that travels whole: its
      message leaves the client as it was, and tells exactly the live delegates whose
      namespace contains the name, each once, of the object; unaltered, unless one
      told before took its bytes. */
  lemma WholeObjectReachesDelegates(s: ClientState, lim: Limits, w: World, name: Name, streamId: UintVar, data: Bytes)
    requires |data| <= 1200
    ensures var turns := [Turn(Received(Parse(WholeMessage(name, streamId, data))), w)];
      && ClientRun(s, lim, turns) == s && Sent(s, lim, turns) == []
      && (forall r :: r in Reports(s, lim, turns) <==>
            IsOffer(r, s.subDelegates, s.subDelegates.Keys, w, name, data))
      && AscendingKeys(Reports(s, lim, turns))
  {
    var turn := Turn(Received(Parse(WholeMessage(name, streamId, data))), w);
    WholeOnWire(name, streamId, data);
    var d := PublishDatagram(Header(Low60(streamId), name, 0, 0, 1, 0), 3, |data|, data);
    ParsePublish(WholeMessage(name, streamId, data), d);
    OffersExactly(s.subDelegates, s.subDelegates.Keys, w, name, data);
    OneTurn(s, lim, turn);
  }

  lemma OneTurn(s: ClientState, lim: Limits, turn: Turn)
    ensures var r := ClientStep(s, lim, turn);
      && ClientRun(s, lim, [turn]) == r.state && Sent(s, lim, [turn]) == r.sent && Reports(s, lim, [turn]) == r.reports
  {
    assert [turn][1..] == [];
  }

  /** So each of them gets the object itself exactly when it is empty or no delegate
      but the last takes it. */
  lemma WholeObjectIntactIff(s: ClientState, lim: Limits, w: World, name: Name, streamId: UintVar, data: Bytes)
    requires |data| <= 1200
    ensures var reports := Reports(s, lim, [Turn(Received(Parse(WholeMessage(name, streamId, data))), w)]);
      (forall key :: Matches(s.subDelegates, w, name, key) ==>
         OnObject(key, s.subDelegates[key].value, name, data) in reports)
      <==> data == [] || TakenLast(s.subDelegates, s.subDelegates.Keys, w, name)
  {
    WholeObjectReachesDelegates(s, lim, w, name, streamId, data);
    var delegates, keys := s.subDelegates, s.subDelegates.Keys;
    forall key | Matches(delegates, w, name, key)
      ensures IsOffer(OnObject(key, delegates[key].value, name, data), delegates, keys, w, name, data)
        <==> data == [] || !TakenBefore(delegates, keys, w, name, key)
    {}
    if TakenLast(delegates, keys, w, name) {
      forall key | Matches(delegates, w, name, key)
        ensures !TakenBefore(delegates, keys, w, name, key)
      {}
    } else {
      var a, b :| a in keys && b in keys && a.Num() < b.Num()
        && Matches(delegates, w, name, a) && Matches(delegates, w, name, b) && delegates[a].value in w.takers;
      assert TakenBefore(delegates, keys, w, name, b);
    }
  }

  // Whole objects and fragments in one run.

  lemma {:induction false} OneObjectFor(reports: seq<Report>, name: Name, r: Report)
    requires AscendingKeys(reports) && r in reports
    requires forall x :: x in reports ==> x.OnObject? && x.name == name
    ensures ObjectsFor(reports, name, r.key) == [r]
    decreases |reports|
  {
    var rest := reports[1..];
    assert reports == [reports[0]] + rest && reports[0] in reports;
    forall j | 0 <= j < |rest|
      ensures reports[0].key.Num() < rest[j].key.Num()
    {
      assert rest[j] == reports[j + 1];
    }
    if r == reports[0] {
      NoObjectsFor(rest, name, r.key);
    } else {
      assert r in rest;
      OneObjectFor(rest, name, r);
    }
  }

  /** What a turn that brings a whole object hands to the delegate of a key. */
  ghost function WholeHands(s: ClientState, w: World, name: Name, data: Bytes, key: Name): seq<Report> {
    if Matches(s.subDelegates, w, name, key)
    then [OnObject(key, s.subDelegates[key].value, name,
            if TakenBefore(s.subDelegates, s.subDelegates.Keys, w, name, key) then [] else data)]
    else []
  }

  lemma WholeObjectsFor(s: ClientState, lim: Limits, t: Turn, name: Name, key: Name)
    requires IsWhole(t, name)
    ensures ObjectsFor(ClientStep(s, lim, t).reports, name, key)
         == WholeHands(s, t.world, name, t.event.msg.datagram.mediaData, key)
  {
    var delegates, data := s.subDelegates, t.event.msg.datagram.mediaData;
    var reports := DeliverShared(delegates, delegates.Keys, t.world, name, data);
    OffersExactly(delegates, delegates.Keys, t.world, name, data);
    assert ClientStep(s, lim, t).reports == reports;
    if Matches(delegates, t.world, name, key) {
      var taken := TakenBefore(delegates, delegates.Keys, t.world, name, key);
      var r := OnObject(key, delegates[key].value, name, if taken then [] else data);
      assert IsOffer(r, delegates, delegates.Keys, t.world, name, data);
      OneObjectFor(reports, name, r);
    } else {
      NoObjectsFor(reports, name, key);
    }
  }

  /** What a run hands to the delegate of a key, turn by turn: whole objects as they
      are offered, and what the cache completes. */
  ghost function AllHanded(s: ClientState, lim: Limits, turns: seq<Turn>, name: Name, key: Name): seq<Report>
    requires Registered(s, lim, turns, key)
    decreases |turns|
  {
    if turns == [] then []
    else
      (if IsWhole(turns[0], name)
       then WholeHands(s, turns[0].world, name, turns[0].event.msg.datagram.mediaData, key)
       else TurnHands(s, lim, turns[0], name, key))
      + AllHanded(ClientStep(s, lim, turns[0]).state, lim, turns[1..], name, key)
  }

  /** In any run, whatever comes in, a delegate that stays registered is handed this
      and nothing else of a name. */
  lemma {:induction false} AllObjectsHandedOver(s: ClientState, lim: Limits, turns: seq<Turn>, name: Name, key: Name)
    requires HasDelegates(s) && Registered(s, lim, turns, key)
    ensures ObjectsFor(Reports(s, lim, turns), name, key) == AllHanded(s, lim, turns, name, key)
    decreases |turns|
  {
    if turns == [] {
    } else {
      var r, rest := ClientStep(s, lim, turns[0]), turns[1..];
      StepHasDelegates(s, lim, turns[0]);
      AllObjectsHandedOver(r.state, lim, rest, name, key);
      ObjectsForConcat(r.reports, Reports(r.state, lim, rest), name, key);
      if IsWhole(turns[0], name) {
        WholeObjectsFor(s, lim, turns[0], name, key);
      } else {
        StepObjectsFor(s, lim, turns[0], name, key);
      }
    }
  }
}
