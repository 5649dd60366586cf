/** Properties of the client over whole runs: the lifetime of its subscriptions
    and what its delegates are handed. */
module ClientRuns {
  import opened Bits
  import opened ByteOrder
  import opened CacheRuns
  import opened Client
  import opened EndToEnd
  import opened Fragmentation
  import opened MessageBuffers
  import opened Messages
  import opened NamespaceMaps
  import opened Names
  import opened Namespaces
  import opened Reassembly
  import opened Wrappers

  /** A payload whose length the message can carry. */
  type Payload = p: Bytes | |p| < TWO_61

  datatype ClientEvent =
    | Subscribed(delegate: nat, ns: Namespace, intent: uint8, transactionId: uint64)
    | Unsubscribed(ns: Namespace)
    | Announced(delegate: nat, ns: Namespace, payload: Payload, transactionId: uint64, streamId: UintVar)
    | Withdrawn(ns: Namespace)
    | Removed(all: bool, ns: Namespace, reason: uint8)
    | Received(msg: Incoming)

  /** An event, and which delegates are alive or take what they are handed. */
  datatype Turn = Turn(event: ClientEvent, world: World)

  /** The event is a call by the application. */
  predicate IsCall(e: ClientEvent) {
    e.Subscribed? || e.Unsubscribed? || e.Announced? || e.Withdrawn?
  }

  ghost function CallStep(s: ClientState, e: ClientEvent): Change
    requires IsCall(e)
  {
    match e
    case Subscribed(delegate, ns, intent, id) => Subscribing(s, delegate, ns, intent, id)
    case Unsubscribed(ns) => Unsubscribing(s, ns)
    case Announced(delegate, ns, payload, id, streamId) => Announcing(s, delegate, ns, payload, id, streamId)
    case Withdrawn(ns) => Withdrawing(s, ns)
  }

  ghost function ClientStep(s: ClientState, lim: Limits, t: Turn): Change {
    match t.event
    case Removed(all, ns, reason) =>
      if all then RemoveAll(s, t.world, reason) else RemoveOne(s, t.world, ns, reason)
    case Received(m) => Client.Receive(s, t.world, lim, m)
    case _ => CallStep(s, t.event)
  }

  ghost function ClientRun(s: ClientState, lim: Limits, turns: seq<Turn>): ClientState
    decreases |turns|
  {
    if turns == [] then s else ClientRun(ClientStep(s, lim, turns[0]).state, lim, turns[1..])
  }

  ghost function Reports(s: ClientState, lim: Limits, turns: seq<Turn>): seq<Report>
    decreases |turns|
  {
    if turns == [] then []
    else
      var r := ClientStep(s, lim, turns[0]);
      r.reports + Reports(r.state, lim, turns[1..])
  }

  // Lifetime.

  /** Every subscription in progress has a delegate. */
  ghost predicate HasDelegates(s: ClientState) {
    && Keyed(s.subscribeState) && Keyed(s.subDelegates)
    && s.subscribeState.Keys <= s.subDelegates.Keys
  }

  lemma {:induction false} RemoveEachState(s: ClientState, w: World, entries: NsMap<SubscriptionState>,
      todo: set<Name>, reason: uint8)
    requires todo <= entries.Keys && Keyed(entries)
    ensures var r := RemoveEach(s, w, entries, todo, reason).state;
      && r.subscribeState == s.subscribeState - todo && r.subDelegates == s.subDelegates - todo
      && r.cache == s.cache && r.pubDelegates == s.pubDelegates
    decreases |todo|
  {
    if todo == {} {
      assert s.subscribeState - todo == s.subscribeState && s.subDelegates - todo == s.subDelegates;
    } else {
      var n := LeastName(todo);
      var one := RemoveOne(s, w, entries[n].key, reason);
      RemoveEachState(one.state, w, entries, todo - {n}, reason);
      assert s.subscribeState - {n} - (todo - {n}) == s.subscribeState - todo;
      assert s.subDelegates - {n} - (todo - {n}) == s.subDelegates - todo;
    }
  }

  /** A call reports nothing, leaves the cache alone and keeps the delegates there. */
  lemma CallKeeps(s: ClientState, e: ClientEvent)
    requires IsCall(e)
    ensures var r := CallStep(s, e);
      && r.reports == [] && r.state.cache == s.cache
      && (HasDelegates(s) ==> HasDelegates(r.state))
      && (forall key :: key in s.subDelegates ==>
            key in r.state.subDelegates && r.state.subDelegates[key] == s.subDelegates[key])
      && (forall key :: key in r.state.subDelegates ==> key in s.subDelegates || Registers(e, key))
  {}

  lemma StepHasDelegates(s: ClientState, lim: Limits, t: Turn)
    requires HasDelegates(s)
    ensures HasDelegates(ClientStep(s, lim, t).state)
  {
    if IsCall(t.event) {
      CallKeeps(s, t.event);
    } else if t.event.Removed? && t.event.all {
      RemoveEachState(s, t.world, s.subscribeState, s.subscribeState.Keys, t.event.reason);
    }
  }

  lemma {:induction false} RunHasDelegates(s: ClientState, lim: Limits, turns: seq<Turn>)
    requires HasDelegates(s)
    ensures HasDelegates(ClientRun(s, lim, turns))
    decreases |turns|
  {
    if turns == [] {
    } else {
      StepHasDelegates(s, lim, turns[0]);
      RunHasDelegates(ClientStep(s, lim, turns[0]).state, lim, turns[1..]);
    }
  }

  /** In every state reachable from the start. */
  lemma ReachableHasDelegates(lim: Limits, turns: seq<Turn>)
    ensures HasDelegates(ClientRun(START, lim, turns))
  {
    RunHasDelegates(START, lim, turns);
  }

  ghost predicate Quiet(reports: seq<Report>, key: Name) {
    forall r :: r in reports ==> !ToSubscriber(r, key)
  }

  /** After the report of an end nothing goes to the same registration. */
  ghost predicate EndIsLast(reports: seq<Report>, key: Name) {
    forall i, j :: 0 <= i < j < |reports| && reports[i].OnEnded? && reports[i].key == key ==>
      !ToSubscriber(reports[j], key)
  }

  ghost predicate HasEnd(reports: seq<Report>, key: Name) {
    exists r :: r in reports && r.OnEnded? && r.key == key
  }

  lemma {:induction false} DeliverKeys(delegates: NsMap<nat>, todo: set<Name>, w: World, name: Name, data: Bytes)
    requires todo <= delegates.Keys
    ensures forall r :: r in Deliver(delegates, todo, w, name, data) ==> r.OnObject? && r.key in todo
    decreases |todo|
  {
    if todo == {} {
    } else {
      DeliverKeys(delegates, todo - {LeastName(todo)}, w, name, data);
    }
  }

  lemma {:induction false} DeliverSharedKeys(delegates: NsMap<nat>, todo: set<Name>, w: World, name: Name, data: Bytes)
    requires todo <= delegates.Keys
    ensures forall r :: r in DeliverShared(delegates, todo, w, name, data) ==> r.OnObject? && r.key in todo
    decreases |todo|
  {
    if todo == {} {
    } else {
      var n := LeastName(todo);
      DeliverSharedKeys(delegates, todo - {n}, w, name, data);
      DeliverSharedKeys(delegates, todo - {n}, w, name, []);
    }
  }

  lemma HasEndConcat(a: seq<Report>, b: seq<Report>, key: Name)
    ensures HasEnd(a + b, key) <==> HasEnd(a, key) || HasEnd(b, key)
  {
    assert forall r :: r in a + b <==> r in a || r in b;
  }

  /** Removal reports ends only, of different keys. */
  lemma {:induction false} RemoveEachKeys(s: ClientState, w: World, entries: NsMap<SubscriptionState>,
      todo: set<Name>, reason: uint8)
    requires todo <= entries.Keys && Keyed(entries)
    ensures var reports := RemoveEach(s, w, entries, todo, reason).reports;
      && (forall r :: r in reports ==> r.OnEnded? && r.key in todo)
      && (forall i, j :: 0 <= i < j < |reports| ==> reports[i].key.Num() < reports[j].key.Num())
    decreases |todo|
  {
    if todo == {} {
    } else {
      var n := LeastName(todo);
      var one := RemoveOne(s, w, entries[n].key, reason);
      RemoveEachKeys(one.state, w, entries, todo - {n}, reason);
      NumIsInjective();
      EndsJoin(one.reports, RemoveEach(one.state, w, entries, todo - {n}, reason).reports, n, todo);
    }
  }

  lemma EndsJoin(a: seq<Report>, b: seq<Report>, n: Name, todo: set<Name>)
    requires |a| <= 1 && (forall r :: r in a ==> r.OnEnded? && r.key == n) && n in todo
    requires forall r :: r in b ==> r.OnEnded? && r.key in todo && n.Num() < r.key.Num()
    requires forall i, j :: 0 <= i < j < |b| ==> b[i].key.Num() < b[j].key.Num()
    ensures forall r :: r in a + b ==> r.OnEnded? && r.key in todo
    ensures forall i, j :: 0 <= i < j < |a + b| ==> (a + b)[i].key.Num() < (a + b)[j].key.Num()
  {}

  /** Removal reports one end for each live delegate among the keys. */
  lemma {:induction false} RemoveEachReports(s: ClientState, w: World, entries: NsMap<SubscriptionState>,
      todo: set<Name>, reason: uint8, key: Name)
    requires todo <= entries.Keys && Keyed(entries)
    ensures var reports := RemoveEach(s, w, entries, todo, reason).reports;
      && (forall r :: r in reports ==> r.OnEnded? && r.key in todo)
      && (forall i, j :: 0 <= i < j < |reports| ==> reports[i].key.Num() < reports[j].key.Num())
      && (key in todo ==> (HasEnd(reports, key) <==> key in s.subDelegates && s.subDelegates[key].value in w.alive))
    decreases |todo|
  {
    RemoveEachKeys(s, w, entries, todo, reason);
    if todo == {} {
    } else {
      var n := LeastName(todo);
      var one := RemoveOne(s, w, entries[n].key, reason);
      var rest := RemoveEach(one.state, w, entries, todo - {n}, reason).reports;
      RemoveEachReports(one.state, w, entries, todo - {n}, reason, key);
      HasEndConcat(one.reports, rest, key);
      RemoveOneEnds(s, w, entries[n].key, reason);
    }
  }

  lemma RemoveOneEnds(s: ClientState, w: World, ns: Namespace, reason: uint8)
    ensures var one := RemoveOne(s, w, ns, reason);
      && (HasEnd(one.reports, ns.name) <==> Count(s.subDelegates, ns) && Get(s.subDelegates, ns) in w.alive)
      && forall key :: key != ns.name ==> !HasEnd(one.reports, key)
  {
    var one := RemoveOne(s, w, ns, reason);
    assert one.reports != [] ==> one.reports[0] in one.reports;
  }

  /** Removing everything ends exactly the subscriptions in progress: each live
      delegate among them is told once, and only delegates whose subscription was
      already given up stay. */
  lemma RemoveAllEnds(s: ClientState, w: World, reason: uint8, key: Name)
    requires HasDelegates(s)
    ensures var r := RemoveAll(s, w, reason);
      && r.state.subscribeState == map[]
      && r.state.subDelegates == s.subDelegates - s.subscribeState.Keys
      && (forall i, j :: 0 <= i < j < |r.reports| ==> r.reports[i].key != r.reports[j].key)
      && (HasEnd(r.reports, key) <==> key in s.subscribeState && s.subDelegates[key].value in w.alive)
      && (forall x :: x in r.reports ==> x.OnEnded? && x.key in s.subscribeState)
  {
    RemoveEachState(s, w, s.subscribeState, s.subscribeState.Keys, reason);
    RemoveEachReports(s, w, s.subscribeState, s.subscribeState.Keys, reason, key);
  }

  ghost predicate Registers(e: ClientEvent, key: Name) {
    e.Subscribed? && e.ns.name == key
  }

  /** Without a delegate a key hears nothing. */
  lemma StepQuiet(s: ClientState, lim: Limits, t: Turn, key: Name)
    requires HasDelegates(s) && key !in s.subDelegates && !Registers(t.event, key)
    ensures var r := ClientStep(s, lim, t);
      Quiet(r.reports, key) && key !in r.state.subDelegates
  {
    ReceivedKeys(s, lim, t);
    if IsCall(t.event) {
      CallKeeps(s, t.event);
    } else if t.event.Removed? && t.event.all {
      RemoveEachState(s, t.world, s.subscribeState, s.subscribeState.Keys, t.event.reason);
      RemoveEachReports(s, t.world, s.subscribeState, s.subscribeState.Keys, t.event.reason, key);
    }
  }

  /** Publications are reported under registered keys, as objects. */
  lemma ReceivedKeys(s: ClientState, lim: Limits, t: Turn)
    ensures t.event.Received? && t.event.msg.Publication? ==>
      forall r :: r in ClientStep(s, lim, t).reports ==> r.OnObject? && r.key in s.subDelegates
  {
    if t.event.Received? && t.event.msg.Publication? {
      PublicationKeys(s, lim, t.world, t.event.msg.datagram);
    }
  }

  lemma PublicationKeys(s: ClientState, lim: Limits, w: World, d: PublishDatagram)
    ensures forall r :: r in ReceivePublication(s, w, lim, d).reports ==> r.OnObject? && r.key in s.subDelegates
  {
    DeliverSharedKeys(s.subDelegates, s.subDelegates.Keys, w, d.header.name, d.mediaData);
    var done := Reassembly.Step(s.cache, lim, PieceOf(d)).1;
    if done.Some? {
      DeliverKeys(s.subDelegates, s.subDelegates.Keys, w, d.header.name, done.value);
    }
  }

  /** A step that reports an end does so last for that key, and the key is gone. */
  lemma StepEndIsLast(s: ClientState, lim: Limits, t: Turn, key: Name)
    requires HasDelegates(s)
    ensures var r := ClientStep(s, lim, t);
      EndIsLast(r.reports, key) && (HasEnd(r.reports, key) ==> key !in r.state.subDelegates)
  {
    ReceivedKeys(s, lim, t);
    if IsCall(t.event) {
      CallKeeps(s, t.event);
    } else if t.event.Removed? && t.event.all {
      RemoveEachState(s, t.world, s.subscribeState, s.subscribeState.Keys, t.event.reason);
      RemoveEachReports(s, t.world, s.subscribeState, s.subscribeState.Keys, t.event.reason, key);
    }
  }

  lemma {:induction false} RunQuiet(s: ClientState, lim: Limits, turns: seq<Turn>, key: Name)
    requires HasDelegates(s) && key !in s.subDelegates
    requires forall t :: t in turns ==> !Registers(t.event, key)
    ensures Quiet(Reports(s, lim, turns), key)
    decreases |turns|
  {
    if turns == [] {
    } else {
      var next := ClientStep(s, lim, turns[0]).state;
      assert turns[0] in turns;
      StepQuiet(s, lim, turns[0], key);
      StepHasDelegates(s, lim, turns[0]);
      RunQuiet(next, lim, turns[1..], key);
    }
  }

  /** In a run that does not register a key anew, the key is told of at most one
      end, and of nothing after it. */
  lemma {:induction false} EndedOnce(s: ClientState, lim: Limits, turns: seq<Turn>, key: Name)
    requires HasDelegates(s)
    requires forall t :: t in turns ==> !Registers(t.event, key)
    ensures EndIsLast(Reports(s, lim, turns), key)
    decreases |turns|
  {
    if turns == [] {
    } else {
      var r := ClientStep(s, lim, turns[0]);
      assert turns[0] in turns;
      StepEndIsLast(s, lim, turns[0], key);
      StepHasDelegates(s, lim, turns[0]);
      EndedOnce(r.state, lim, turns[1..], key);
      if HasEnd(r.reports, key) {
        RunQuiet(r.state, lim, turns[1..], key);
      }
      JoinEnds(r.reports, Reports(r.state, lim, turns[1..]), key);
    }
  }

  lemma JoinEnds(a: seq<Report>, b: seq<Report>, key: Name)
    requires EndIsLast(a, key) && EndIsLast(b, key)
    requires HasEnd(a, key) ==> Quiet(b, key)
    ensures EndIsLast(a + b, key)
  {
    var all := a + b;
    forall i, j | 0 <= i < j < |all| && all[i].OnEnded? && all[i].key == key
      ensures !ToSubscriber(all[j], key)
    {
      if i < |a| {
        assert a[i] in a;
        if j >= |a| {
          assert all[j] in b;
        }
      }
    }
  }

  // What delegates are handed.

  ghost predicate Matches(delegates: NsMap<nat>, w: World, name: Name, key: Name) {
    key in delegates && Contains(delegates[key].key, name) && delegates[key].value in w.alive
  }

  /** A completed object goes to every live delegate whose namespace contains its
      name, to each once, unaltered. */
  lemma {:induction false} DeliverExactly(delegates: NsMap<nat>, todo: set<Name>, w: World, name: Name, data: Bytes)
    requires todo <= delegates.Keys
    ensures var reports := Deliver(delegates, todo, w, name, data);
      && (forall r :: r in reports <==>
            r.OnObject? && r.key in todo && Matches(delegates, w, name, r.key)
            && r == OnObject(r.key, delegates[r.key].value, name, data))
      && (forall i, j :: 0 <= i < j < |reports| ==> reports[i].key.Num() < reports[j].key.Num())
    decreases |todo|
  {
    if todo == {} {
    } else {
      var n := LeastName(todo);
      DeliverExactly(delegates, todo - {n}, w, name, data);
      NumIsInjective();
    }
  }

  /** The delegate stored under the name of `ns` gets every object of `ns`. */
  ghost predicate ServedByStored(s: ClientState, ns: Namespace)
    requires Count(s.subDelegates, ns)
  {
    forall w: World, x: Name, data: Bytes ::
      Contains(ns, x) && Get(s.subDelegates, ns) in w.alive ==>
        OnObject(ns.name, Get(s.subDelegates, ns), x, data) in Deliver(s.subDelegates, s.subDelegates.Keys, w, x, data)
  }

  /** A later subscription to a namespace of the same name keeps the stored key and
      delegate, and its objects all reach that delegate exactly when the stored
      namespace is no longer than the new one. */
  lemma StoredKeyServesIff(s: ClientState, delegate: nat, ns: Namespace, intent: uint8, transactionId: uint64)
    requires Keyed(s.subDelegates) && Count(s.subDelegates, ns)
    requires var key := s.subDelegates[ns.name].key;
      Masked(key) && Masked(ns) && key.sigBits < 128 && ns.sigBits < 128
    ensures var t := Subscribing(s, delegate, ns, intent, transactionId).state;
      && t.subDelegates == s.subDelegates
      && (ServedByStored(t, ns) <==> s.subDelegates[ns.name].key.sigBits <= ns.sigBits)
  {
    var t := Subscribing(s, delegate, ns, intent, transactionId).state;
    var entry := s.subDelegates[ns.name];
    ContainsOwnName(ns);
    ContainsOwnName(entry.key);
    ContainsNamespaceIffCovers(entry.key, ns);
    StoredKeyServes(t, ns);
  }

  /** With the first 64 bits stored, an object in the first 32 is missed. */
  lemma StoredKeyMissesWitness(s: ClientState)
    requires Keyed(s.subDelegates)
    requires Name(0, 0) in s.subDelegates && s.subDelegates[Name(0, 0)].key == MakeNamespace(Name(0, 0), 64)
    ensures !ServedByStored(s, MakeNamespace(Name(0, 0), 32))
  {
    var key, ns := MakeNamespace(Name(0, 0), 64), MakeNamespace(Name(0, 0), 32);
    assert key.name == Name(0, 0) == ns.name;
    ContainsOwnName(ns);
    ContainsNamespaceIffCovers(key, ns);
    StoredKeyServes(s, ns);
  }

  lemma StoredKeyServes(s: ClientState, ns: Namespace)
    requires Keyed(s.subDelegates) && Count(s.subDelegates, ns)
    ensures ServedByStored(s, ns) <==> Covers(s.subDelegates[ns.name].key, ns)
  {
    var entry := s.subDelegates[ns.name];
    forall w: World, x: Name, data: Bytes
      ensures OnObject(ns.name, entry.value, x, data) in Deliver(s.subDelegates, s.subDelegates.Keys, w, x, data)
        <==> Contains(entry.key, x) && entry.value in w.alive
    {
      DeliverExactly(s.subDelegates, s.subDelegates.Keys, w, x, data);
    }
    if ServedByStored(s, ns) {
      forall x | Contains(ns, x)
        ensures Contains(entry.key, x)
      {
        var w := World({entry.value}, {});
        assert OnObject(ns.name, entry.value, x, []) in Deliver(s.subDelegates, s.subDelegates.Keys, w, x, []);
      }
    }
  }

  /** No delegate but the last takes the bytes of the object away. */
  ghost predicate TakenLast(delegates: NsMap<nat>, todo: set<Name>, w: World, name: Name) {
    forall a, b ::
      (a in todo && b in todo && a.Num() < b.Num()
       && Matches(delegates, w, name, a) && Matches(delegates, w, name, b)) ==> delegates[a].value !in w.takers
  }

  /** An unfragmented object reaches all delegates unaltered exactly when none that
      takes its bytes away comes before another that should get it. */
  lemma {:induction false} SharedDeliveryIff(delegates: NsMap<nat>, todo: set<Name>, w: World, name: Name, data: Bytes)
    requires todo <= delegates.Keys && data != []
    ensures DeliverShared(delegates, todo, w, name, data) == Deliver(delegates, todo, w, name, data)
      <==> TakenLast(delegates, todo, w, name)
    decreases |todo|
  {
    if todo == {} {
    } else {
      var n := LeastName(todo);
      var rest := todo - {n};
      NumIsInjective();
      SharedDeliveryIff(delegates, rest, w, name, data);
      DeliverExactly(delegates, rest, w, name, data);
      if Matches(delegates, w, name, n) {
        var first := [OnObject(n, delegates[n].value, name, data)];
        var shared := DeliverShared(delegates, rest, w, name, if delegates[n].value in w.takers then [] else data);
        var copies := Deliver(delegates, rest, w, name, data);
        assert first + shared == first + copies <==> shared == copies by {
          assert (first + shared)[1..] == shared && (first + copies)[1..] == copies;
        }
        if delegates[n].value in w.takers {
          EmptiedDelivery(delegates, rest, w, name, data);
        }
      }
    }
  }

  /** Two live delegates whose namespaces contain the name, of which the one told
      first takes the bytes: the other is handed nothing of the object. */
  lemma TakenWitness(data: Bytes)
    requires data != []
    ensures var all, some := MakeNamespace(Name(0, 0), 0), MakeNamespace(Name(1, 0), 64);
      var delegates: NsMap<nat> := map[Name(0, 0) := Entry(all, 0), Name(1, 0) := Entry(some, 1)];
      var w := World({0, 1}, {0});
      && Matches(delegates, w, Name(1, 0), Name(0, 0)) && Matches(delegates, w, Name(1, 0), Name(1, 0))
      && DeliverShared(delegates, delegates.Keys, w, Name(1, 0), data)
         == [OnObject(Name(0, 0), 0, Name(1, 0), data), OnObject(Name(1, 0), 1, Name(1, 0), [])]
  {
    var x, zero := Name(1, 0), Name(0, 0);
    var all, some := MakeNamespace(zero, 0), MakeNamespace(x, 64);
    var delegates: NsMap<nat> := map[zero := Entry(all, 0), x := Entry(some, 1)];
    var w := World({0, 1}, {0});
    WitnessNamespaces(x);
    assert delegates.Keys == {zero, x};
    assert LeastName({zero, x}) == zero;
    assert {zero, x} - {zero} == {x} && LeastName({x}) == x && {x} - {x} == {};
    assert DeliverShared(delegates, {}, w, x, []) == [];
    assert DeliverShared(delegates, {x}, w, x, []) == [OnObject(x, 1, x, [])];
  }

  lemma WitnessNamespaces(x: Name)
    requires x == Name(1, 0)
    ensures Contains(MakeNamespace(Name(0, 0), 0), x) && Contains(MakeNamespace(x, 64), x)
  {
    var all := MakeNamespace(Name(0, 0), 0);
    ContainsOwnName(all);
    MaskRoundsDown(Name(0, 0), 0);
    ContainsIffInterval(all, x);
    Pow2Name();
    MaskRoundsDown(x, 64);
    ContainsIffInterval(MakeNamespace(x, 64), x);
    Pow2Limb();
  }

  /** An emptied object is the original only for no delegate at all. */
  lemma {:induction false} EmptiedDelivery(delegates: NsMap<nat>, todo: set<Name>, w: World, name: Name, data: Bytes)
    requires todo <= delegates.Keys && data != []
    ensures DeliverShared(delegates, todo, w, name, []) == Deliver(delegates, todo, w, name, data)
      <==> forall b :: b in todo ==> !Matches(delegates, w, name, b)
    decreases |todo|
  {
    if todo == {} {
    } else {
      var n := LeastName(todo);
      EmptiedDelivery(delegates, todo - {n}, w, name, data);
      if Matches(delegates, w, name, n) {
        var shared := DeliverShared(delegates, todo, w, name, []);
        assert shared[0] == OnObject(n, delegates[n].value, name, []);
        assert Deliver(delegates, todo, w, name, data)[0] == OnObject(n, delegates[n].value, name, data);
      }
    }
  }

  // From the publisher to the delegates.

  /** The objects of one name among the reports. */
  ghost function Objects(reports: seq<Report>, name: Name): seq<Report> {
    if reports == [] then []
    else
      (if reports[0].OnObject? && reports[0].name == name then [reports[0]] else [])
      + Objects(reports[1..], name)
  }

  lemma {:induction false} ObjectsConcat(a: seq<Report>, b: seq<Report>, name: Name)
    ensures Objects(a + b, name) == Objects(a, name) + Objects(b, name)
  {
    if a == [] {
      assert a + b == b;
    } else {
      assert (a + b)[1..] == a[1..] + b;
      ObjectsConcat(a[1..], b, name);
    }
  }

  lemma {:induction false} ObjectsOfOne(reports: seq<Report>, about: Name, name: Name)
    requires forall r :: r in reports ==> r.OnObject? && r.name == about
    ensures Objects(reports, name) == if about == name then reports else []
  {
    if reports == [] {
    } else {
      assert reports[0] in reports && forall r :: r in reports[1..] ==> r in reports;
      ObjectsOfOne(reports[1..], about, name);
      assert reports == [reports[0]] + reports[1..];
    }
  }

  lemma {:induction false} SharedNames(delegates: NsMap<nat>, todo: set<Name>, w: World, name: Name, data: Bytes)
    requires todo <= delegates.Keys
    ensures forall r :: r in DeliverShared(delegates, todo, w, name, data) ==> r.OnObject? && r.name == name
    decreases |todo|
  {
    if todo == {} {
    } else {
      var n := LeastName(todo);
      SharedNames(delegates, todo - {n}, w, name, data);
      SharedNames(delegates, todo - {n}, w, name, []);
    }
  }

  /** What the delegates get for the deliveries of a name. */
  ghost function HandedOut(deliveries: seq<Option<Bytes>>, delegates: NsMap<nat>, w: World, name: Name): seq<Report>
    decreases |deliveries|
  {
    if deliveries == [] then []
    else
      (match deliveries[0]
       case Some(data) => Deliver(delegates, delegates.Keys, w, name, data)
       case None => [])
      + HandedOut(deliveries[1..], delegates, w, name)
  }

  ghost function Turns(parse: Bytes -> Incoming, w: World, msgs: seq<Bytes>): seq<Turn>
    decreases |msgs|
  {
    if msgs == [] then [] else [Turn(Received(parse(msgs[0])), w)] + Turns(parse, w, msgs[1..])
  }

  /** The message is a publication, of which `f` gives the fragment it carries; one
      of `name` is a fragment. */
  ghost predicate IsPublication(parse: Bytes -> Incoming, f: Bytes -> Option<Piece>, msg: Bytes, name: Name) {
    && parse(msg).Publication?
    && var d := parse(msg).datagram;
       && f(msg) == (if d.header.offsetAndFin == 1 then None else Some(PieceOf(d)))
       && (d.header.name == name ==> d.header.offsetAndFin != 1)
  }

  lemma PublicationObjects(s: ClientState, lim: Limits, w: World, d: PublishDatagram, name: Name)
    requires d.header.name == name ==> d.header.offsetAndFin != 1
    ensures var r := ReceivePublication(s, w, lim, d);
      && r.state.subDelegates == s.subDelegates
      && (d.header.offsetAndFin == 1 ==> r.state.cache == s.cache && Objects(r.reports, name) == [])
      && (d.header.offsetAndFin != 1 ==>
            var (cache, done) := Reassembly.Step(s.cache, lim, PieceOf(d));
            && r.state.cache == cache
            && Objects(r.reports, name) ==
               if d.header.name == name then HandedOut([done], s.subDelegates, w, name) else [])
  {
    var r := ReceivePublication(s, w, lim, d);
    if d.header.offsetAndFin == 1 {
      SharedNames(s.subDelegates, s.subDelegates.Keys, w, d.header.name, d.mediaData);
      ObjectsOfOne(r.reports, d.header.name, name);
    } else {
      var done := Reassembly.Step(s.cache, lim, PieceOf(d)).1;
      if done.Some? {
        DeliverExactly(s.subDelegates, s.subDelegates.Keys, w, d.header.name, done.value);
        ObjectsOfOne(r.reports, d.header.name, name);
      }
      assert [done][1..] == [];
      assert HandedOut([], s.subDelegates, w, name) == [];
    }
  }

  lemma HandedOutFirst(done: Option<Bytes>, rest: seq<Option<Bytes>>, delegates: NsMap<nat>, w: World, name: Name)
    ensures HandedOut([done] + rest, delegates, w, name)
         == HandedOut([done], delegates, w, name) + HandedOut(rest, delegates, w, name)
  {
    assert ([done] + rest)[1..] == rest && [done][1..] == [];
    assert HandedOut([], delegates, w, name) == [];
  }

  /** A turn's objects, then those of the turns after it. */
  lemma ReportsFirst(s: ClientState, lim: Limits, turn: Turn, rest: seq<Turn>, name: Name)
    ensures var r := ClientStep(s, lim, turn);
      Objects(Reports(s, lim, [turn] + rest), name)
        == Objects(r.reports, name) + Objects(Reports(r.state, lim, rest), name)
  {
    var turns := [turn] + rest;
    assert turns[0] == turn && turns[1..] == rest;
    var r := ClientStep(s, lim, turn);
    ObjectsConcat(r.reports, Reports(r.state, lim, rest), name);
  }

  /** The objects of a publication, then what the cache delivers later. */
  lemma PublicationThenLater(
    s: ClientState, lim: Limits, w: World, f: Bytes -> Option<Piece>,
    msgs: seq<Bytes>, d: PublishDatagram, name: Name)
    requires msgs != [] && (d.header.name == name ==> d.header.offsetAndFin != 1)
    requires f(msgs[0]) == if d.header.offsetAndFin == 1 then None else Some(PieceOf(d))
    ensures var r := ReceivePublication(s, w, lim, d);
      && r.state.subDelegates == s.subDelegates
      && HandedOut(Deliveries(s.cache, lim, Pieces(f, msgs), name), s.subDelegates, w, name)
         == Objects(r.reports, name)
          + HandedOut(Deliveries(r.state.cache, lim, Pieces(f, msgs[1..]), name), s.subDelegates, w, name)
  {
    PublicationObjects(s, lim, w, d, name);
    if d.header.offsetAndFin == 1 {
      assert Pieces(f, msgs) == Pieces(f, msgs[1..]);
    } else {
      FirstDelivery(s, lim, f, msgs, PieceOf(d), name, w);
    }
  }

  /** Over a run of publications the delegates get exactly what the cache delivers. */
  lemma {:induction false} ObjectsAreDeliveries(
    s: ClientState, lim: Limits, w: World, parse: Bytes -> Incoming, f: Bytes -> Option<Piece>,
    msgs: seq<Bytes>, name: Name)
    requires forall i :: 0 <= i < |msgs| ==> IsPublication(parse, f, msgs[i], name)
    ensures Objects(Reports(s, lim, Turns(parse, w, msgs)), name)
         == HandedOut(Deliveries(s.cache, lim, Pieces(f, msgs), name), s.subDelegates, w, name)
    decreases |msgs|
  {
    if msgs == [] {
      assert Pieces(f, msgs) == [];
    } else {
      assert IsPublication(parse, f, msgs[0], name);
      var d := parse(msgs[0]).datagram;
      FirstTurn(s, lim, w, parse, msgs, d, name);
      PublicationThenLater(s, lim, w, f, msgs, d, name);
      ObjectsAreDeliveries(ReceivePublication(s, w, lim, d).state, lim, w, parse, f, msgs[1..], name);
    }
  }

  lemma FirstTurn(
    s: ClientState, lim: Limits, w: World, parse: Bytes -> Incoming, msgs: seq<Bytes>, d: PublishDatagram, name: Name)
    requires msgs != [] && parse(msgs[0]) == Publication(d)
    ensures var next := ReceivePublication(s, w, lim, d);
      Objects(Reports(s, lim, Turns(parse, w, msgs)), name)
        == Objects(next.reports, name) + Objects(Reports(next.state, lim, Turns(parse, w, msgs[1..])), name)
  {
    var turn := Turn(Received(Publication(d)), w);
    assert ClientStep(s, lim, turn) == ReceivePublication(s, w, lim, d);
    assert Turns(parse, w, msgs) == [turn] + Turns(parse, w, msgs[1..]);
    ReportsFirst(s, lim, turn, Turns(parse, w, msgs[1..]), name);
  }

  lemma FirstDelivery(
    s: ClientState, lim: Limits, f: Bytes -> Option<Piece>, msgs: seq<Bytes>,
    e: Piece, name: Name, w: World)
    requires msgs != [] && f(msgs[0]) == Some(e)
    ensures var (cache, done) := Reassembly.Step(s.cache, lim, e);
      HandedOut(Deliveries(s.cache, lim, Pieces(f, msgs), name), s.subDelegates, w, name)
        == (if e.name == name then HandedOut([done], s.subDelegates, w, name) else [])
         + HandedOut(Deliveries(cache, lim, Pieces(f, msgs[1..]), name), s.subDelegates, w, name)
  {
    var (cache, done) := Reassembly.Step(s.cache, lim, e);
    var es, rest := Pieces(f, msgs), Pieces(f, msgs[1..]);
    assert es == [e] + rest && es[1..] == rest;
    var later := Deliveries(cache, lim, rest, name);
    if e.name == name {
      HandedOutFirst(done, later, s.subDelegates, w, name);
    } else {
      assert Deliveries(s.cache, lim, es, name) == [] + later == later;
    }
  }

  lemma {:induction false} HandedOutOnce(quiet: nat, data: Bytes, delegates: NsMap<nat>, w: World, name: Name)
    ensures HandedOut(OnceAtEnd(quiet, data), delegates, w, name) == Deliver(delegates, delegates.Keys, w, name, data)
  {
    if quiet == 0 {
    } else {
      HandedOutOnce(quiet - 1, data, delegates, w, name);
      HandedOutFirst(None, OnceAtEnd(quiet - 1, data), delegates, w, name);
      assert HandedOut([None], delegates, w, name) == [];
    }
  }

  /** End to end, to the delegates, in a run of publications: when every block of an
      object arrives and only the last to arrive completes it, the objects of its
      name that are handed out are one for each live delegate whose namespace
      contains the name, intact. */
  lemma PublicationsReachDelegates(
    s: ClientState, lim: Limits, w: World, msgs: seq<Bytes>,
    name: Name, streamId: UintVar, data: Bytes, arrivals: seq<nat>)
    requires forall i :: 0 <= i < |msgs| ==> IsPublication(Parse, PieceRead, msgs[i], name)
    requires Inv(s.cache, lim) && Find(s.cache, name) == None
    requires MAX_TRANSPORT_DATA_SIZE < |data| && BlockCount(|data|) <= BLOCK_LIMIT && ArrivalsOf(data, arrivals)
    requires About(PieceRead, msgs, name) == Transmitted(FragmentMessages(name, streamId, data), arrivals)
    requires FreshCount(s.cache, lim, Pieces(PieceRead, msgs)) <= (lim.buffers - 1) * lim.names
    requires |arrivals| > 0 && Seen(arrivals) == AllBlocks(data)
    requires Seen(arrivals[..|arrivals| - 1]) != AllBlocks(data)
    ensures Objects(Reports(s, lim, Turns(Parse, w, msgs)), name)
         == Deliver(s.subDelegates, s.subDelegates.Keys, w, name, data)
  {
    ObjectDeliveredOnce(s.cache, lim, msgs, name, streamId, data, arrivals);
    DeliveredToDelegates(s, lim, w, Parse, PieceRead, msgs, name, data, |arrivals| - 1);
  }

  lemma FragmentIsPublication(name: Name, streamId: UintVar, data: Bytes, i: nat)
    requires MAX_TRANSPORT_DATA_SIZE < |data| && i < BlockCount(|data|) && i < BLOCK_LIMIT
    ensures IsPublication(Parse, PieceRead, FragmentBytes(name, streamId, data, i), name)
  {
    FragmentOnWire(name, streamId, data, i);
    ParsePublish(FragmentBytes(name, streamId, data, i), Fragment(name, Low60(streamId), data, i));
    NotWholeObject(data, i);
  }

  lemma ParsePublish(msg: Bytes, d: PublishDatagram)
    requires DecodePublish(msg) == Got(d, [])
    ensures Parse(msg) == Publication(d)
  {}

  lemma {:induction false} TransmittedAt(messages: seq<Bytes>, arrivals: seq<nat>)
    requires forall j :: 0 <= j < |arrivals| ==> arrivals[j] < |messages|
    ensures |Transmitted(messages, arrivals)| == |arrivals|
    ensures forall i :: 0 <= i < |arrivals| ==> Transmitted(messages, arrivals)[i] == messages[arrivals[i]]
    decreases |arrivals|
  {
    if arrivals == [] {
    } else {
      TransmittedAt(messages, arrivals[1..]);
    }
  }

  lemma TransmittedArePublications(
    parse: Bytes -> Incoming, f: Bytes -> Option<Piece>, messages: seq<Bytes>, arrivals: seq<nat>, name: Name)
    requires forall j :: 0 <= j < |arrivals| ==> arrivals[j] < |messages|
    requires forall i :: 0 <= i < |messages| ==> IsPublication(parse, f, messages[i], name)
    ensures var msgs := Transmitted(messages, arrivals);
      forall i :: 0 <= i < |msgs| ==> IsPublication(parse, f, msgs[i], name)
  {
    TransmittedAt(messages, arrivals);
    var msgs := Transmitted(messages, arrivals);
    forall i | 0 <= i < |msgs|
      ensures IsPublication(parse, f, msgs[i], name)
    {
      assert msgs[i] == messages[arrivals[i]];
    }
  }

  lemma FragmentsArePublications(name: Name, streamId: UintVar, data: Bytes, messages: seq<Bytes>)
    requires MAX_TRANSPORT_DATA_SIZE < |data| && BlockCount(|data|) <= BLOCK_LIMIT
    requires |messages| == SendableCount(|data|) && IsFragmentMessages(messages, name, streamId, data)
    ensures forall i :: 0 <= i < |messages| ==> IsPublication(Parse, PieceRead, messages[i], name)
  {
    forall i | 0 <= i < |messages|
      ensures IsPublication(Parse, PieceRead, messages[i], name)
    {
      assert messages[i] == FragmentBytes(name, streamId, data, i);
      FragmentIsPublication(name, streamId, data, i);
    }
  }

  /** The messages of one object in any order, duplicates allowed before the one
      that completes it, hand the object once, intact, to each live delegate whose
      namespace contains its name. */
  lemma ObjectReachesDelegatesAlone(
    s: ClientState, lim: Limits, w: World, name: Name, streamId: UintVar, data: Bytes, arrivals: seq<nat>)
    requires Inv(s.cache, lim) && 2 <= lim.buffers && Find(s.cache, name) == None
    requires MAX_TRANSPORT_DATA_SIZE < |data| && BlockCount(|data|) <= BLOCK_LIMIT && ArrivalsOf(data, arrivals)
    requires |arrivals| > 0 && Seen(arrivals) == AllBlocks(data)
    requires Seen(arrivals[..|arrivals| - 1]) != AllBlocks(data)
    ensures var msgs := Transmitted(FragmentMessages(name, streamId, data), arrivals);
      Objects(Reports(s, lim, Turns(Parse, w, msgs)), name)
        == Deliver(s.subDelegates, s.subDelegates.Keys, w, name, data)
  {
    var messages := FragmentMessages(name, streamId, data);
    FragmentsArePublications(name, streamId, data, messages);
    TransmittedArePublications(Parse, PieceRead, messages, arrivals, name);
    ObjectDeliveredAlone(s.cache, lim, name, streamId, data, arrivals);
    CompletedOnce(data, arrivals);
    DeliveredToDelegates(s, lim, w, Parse, PieceRead, Transmitted(messages, arrivals), name, data, |arrivals| - 1);
  }

  lemma DeliveredToDelegates(
    s: ClientState, lim: Limits, w: World, parse: Bytes -> Incoming, f: Bytes -> Option<Piece>,
    msgs: seq<Bytes>, name: Name, data: Bytes, quiet: nat)
    requires forall i :: 0 <= i < |msgs| ==> IsPublication(parse, f, msgs[i], name)
    requires Deliveries(s.cache, lim, Pieces(f, msgs), name) == OnceAtEnd(quiet, data)
    ensures Objects(Reports(s, lim, Turns(parse, w, msgs)), name)
         == Deliver(s.subDelegates, s.subDelegates.Keys, w, name, data)
  {
    ObjectsAreDeliveries(s, lim, w, parse, f, msgs, name);
    HandedOutOnce(quiet, data, s.subDelegates, w, name);
  }
}
