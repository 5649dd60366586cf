/** What a delegate is handed in any run of the client, whatever else it receives
    and is asked to do, for as long as the delegate stays registered. */
module ClientTraffic {
  import opened ByteOrder
  import opened CacheRuns
  import opened Client
  import opened ClientRuns
  import opened EndToEnd
  import opened Fragmentation
  import opened MessageBuffers
  import opened Messages
  import opened NamespaceMaps
  import opened Names
  import opened Namespaces
  import opened Reassembly
  import opened Wrappers

  /** The fragment a turn gives to the cache. */
  ghost function FragmentIn(t: Turn): Option<Piece> {
    if t.event.Received? && t.event.msg.Publication? && t.event.msg.datagram.header.offsetAndFin != 1
    then Some(PieceOf(t.event.msg.datagram)) else None
  }

  ghost function Fragments(turns: seq<Turn>): seq<Piece> {
    if turns == [] then []
    else (match FragmentIn(turns[0]) case Some(e) => [e] case None => []) + Fragments(turns[1..])
  }

  /** The turn is an unfragmented object of the name. */
  ghost predicate IsWhole(t: Turn, name: Name) {
    && t.event.Received? && t.event.msg.Publication?
    && t.event.msg.datagram.header.offsetAndFin == 1 && t.event.msg.datagram.header.name == name
  }

  /** A message gives the cache the fragment that can be read off it. */
  lemma FragmentInMessage(msg: Bytes, w: World)
    ensures FragmentIn(Turn(Received(Parse(msg)), w)) == PieceRead(msg)
  {}

  /** The key has a delegate in every state of the run. */
  ghost predicate Registered(s: ClientState, lim: Limits, turns: seq<Turn>, key: Name)
    decreases |turns|
  {
    && key in s.subDelegates
    && (turns == [] || Registered(ClientStep(s, lim, turns[0]).state, lim, turns[1..], key))
  }

  /** The objects of one name reported to one key. */
  ghost function ObjectsFor(reports: seq<Report>, name: Name, key: Name): seq<Report> {
    if reports == [] then []
    else
      (if reports[0].OnObject? && reports[0].name == name && reports[0].key == key then [reports[0]] else [])
      + ObjectsFor(reports[1..], name, key)
  }

  lemma {:induction false} ObjectsForConcat(a: seq<Report>, b: seq<Report>, name: Name, key: Name)
    ensures ObjectsFor(a + b, name, key) == ObjectsFor(a, name, key) + ObjectsFor(b, name, key)
  {
    if a == [] {
      assert a + b == b;
    } else {
      assert (a + b)[1..] == a[1..] + b;
      ObjectsForConcat(a[1..], b, name, key);
    }
  }

  lemma {:induction false} NoObjectsFor(reports: seq<Report>, name: Name, key: Name)
    requires forall r :: r in reports ==> !(r.OnObject? && r.name == name && r.key == key)
    ensures ObjectsFor(reports, name, key) == []
  {
    if reports == [] {
    } else {
      assert reports[0] in reports && forall r :: r in reports[1..] ==> r in reports;
      NoObjectsFor(reports[1..], name, key);
    }
  }

  /** What a delegate gets of a completed object. */
  ghost function Handed(key: Name, entry: Entry<nat>, w: World, name: Name, done: Option<Bytes>): seq<Report> {
    if done.Some? && Contains(entry.key, name) && entry.value in w.alive
    then [OnObject(key, entry.value, name, done.value)] else []
  }

  lemma {:induction false} DeliverFor(delegates: NsMap<nat>, todo: set<Name>, w: World, name: Name,
      data: Bytes, key: Name)
    requires todo <= delegates.Keys
    ensures ObjectsFor(Deliver(delegates, todo, w, name, data), name, key)
         == if key in todo then Handed(key, delegates[key], w, name, Some(data)) else []
    decreases |todo|
  {
    if todo == {} {
    } else {
      var n := LeastName(todo);
      var rest := Deliver(delegates, todo - {n}, w, name, data);
      DeliverFor(delegates, todo - {n}, w, name, data, key);
      if Contains(delegates[n].key, name) && delegates[n].value in w.alive {
        var first := OnObject(n, delegates[n].value, name, data);
        assert ([first] + rest)[1..] == rest;
      }
    }
  }

  /** The effect of a step on the cache. */
  lemma StepCache(s: ClientState, lim: Limits, t: Turn)
    requires HasDelegates(s)
    ensures ClientStep(s, lim, t).state.cache
         == match FragmentIn(t) case Some(e) => Reassembly.Step(s.cache, lim, e).0 case None => s.cache
  {
    if IsCall(t.event) {
      CallKeeps(s, t.event);
    } else if t.event.Removed? && t.event.all {
      RemoveEachState(s, t.world, s.subscribeState, s.subscribeState.Keys, t.event.reason);
    }
  }

  lemma {:induction false} RunCacheInv(s: ClientState, lim: Limits, turns: seq<Turn>)
    requires HasDelegates(s) && Inv(s.cache, lim)
    ensures HasDelegates(ClientRun(s, lim, turns)) && Inv(ClientRun(s, lim, turns).cache, lim)
    decreases |turns|
  {
    if turns == [] {
    } else {
      var t := turns[0];
      StepHasDelegates(s, lim, t);
      StepCache(s, lim, t);
      if FragmentIn(t).Some? {
        StepInv(s.cache, lim, FragmentIn(t).value);
      }
      RunCacheInv(ClientStep(s, lim, t).state, lim, turns[1..]);
    }
  }

  /** Every state a client reaches from the start has what delivery asks of it: a
      delegate for each subscription, and a sound cache. */
  lemma ReachableSound(lim: Limits, turns: seq<Turn>)
    requires 1 <= lim.names && 1 <= lim.buffers
    ensures HasDelegates(ClientRun(START, lim, turns)) && Inv(ClientRun(START, lim, turns).cache, lim)
  {
    InitInv(lim);
    RunCacheInv(START, lim, turns);
  }

  /** A key that stays keeps its entry. */
  lemma StepEntry(s: ClientState, lim: Limits, t: Turn, key: Name)
    requires HasDelegates(s) && key in s.subDelegates && key in ClientStep(s, lim, t).state.subDelegates
    ensures ClientStep(s, lim, t).state.subDelegates[key] == s.subDelegates[key]
  {
    if IsCall(t.event) {
      CallKeeps(s, t.event);
    } else if t.event.Removed? && t.event.all {
      RemoveEachState(s, t.world, s.subscribeState, s.subscribeState.Keys, t.event.reason);
    }
  }

  /** What a turn hands to the delegate of a key. */
  ghost function TurnHands(s: ClientState, lim: Limits, t: Turn, name: Name, key: Name): seq<Report>
    requires key in s.subDelegates
  {
    match FragmentIn(t)
    case Some(e) =>
      if e.name == name then Handed(key, s.subDelegates[key], t.world, name, Reassembly.Step(s.cache, lim, e).1) else []
    case None => []
  }

  /** The objects of the name a step reports to the key. */
  lemma StepObjectsFor(s: ClientState, lim: Limits, t: Turn, name: Name, key: Name)
    requires HasDelegates(s) && key in s.subDelegates && !IsWhole(t, name)
    ensures ObjectsFor(ClientStep(s, lim, t).reports, name, key)
         == TurnHands(s, lim, t, name, key)
  {
    if t.event.Received? && t.event.msg.Publication? {
      PublicationTurn(s, lim, t, t.event.msg.datagram);
      PublicationObjectsFor(s, lim, t.world, t.event.msg.datagram, name, key);
    } else {
      OtherObjectsFor(s, lim, t, name, key);
    }
  }

  lemma PublicationTurn(s: ClientState, lim: Limits, t: Turn, d: PublishDatagram)
    requires t.event == Received(Publication(d))
    ensures ClientStep(s, lim, t) == ReceivePublication(s, t.world, lim, d)
    ensures FragmentIn(t) == if d.header.offsetAndFin == 1 then None else Some(PieceOf(d))
  {}

  lemma OtherObjectsFor(s: ClientState, lim: Limits, t: Turn, name: Name, key: Name)
    requires HasDelegates(s) && !(t.event.Received? && t.event.msg.Publication?)
    ensures ObjectsFor(ClientStep(s, lim, t).reports, name, key) == [] && FragmentIn(t) == None
  {
    OtherTurnsReport(s, lim, t);
    NoObjectsFor(ClientStep(s, lim, t).reports, name, key);
  }

  /** Only publications are reported as objects. */
  lemma OtherTurnsReport(s: ClientState, lim: Limits, t: Turn)
    requires HasDelegates(s) && !(t.event.Received? && t.event.msg.Publication?)
    ensures forall r :: r in ClientStep(s, lim, t).reports ==> !r.OnObject?
  {
    if IsCall(t.event) {
      CallKeeps(s, t.event);
    } else if t.event.Removed? && t.event.all {
      RemoveEachKeys(s, t.world, s.subscribeState, s.subscribeState.Keys, t.event.reason);
    }
  }

  lemma PublicationObjectsFor(s: ClientState, lim: Limits, w: World, d: PublishDatagram, name: Name, key: Name)
    requires key in s.subDelegates && !(d.header.offsetAndFin == 1 && d.header.name == name)
    ensures ObjectsFor(ReceivePublication(s, w, lim, d).reports, name, key)
         == if d.header.offsetAndFin == 1 || d.header.name != name then []
            else Handed(key, s.subDelegates[key], w, name, Reassembly.Step(s.cache, lim, PieceOf(d)).1)
  {
    var reports := ReceivePublication(s, w, lim, d).reports;
    if d.header.offsetAndFin == 1 {
      SharedNames(s.subDelegates, s.subDelegates.Keys, w, d.header.name, d.mediaData);
      NoObjectsFor(reports, name, key);
    } else {
      var done := Reassembly.Step(s.cache, lim, PieceOf(d)).1;
      if done.Some? {
        if d.header.name == name {
          DeliverFor(s.subDelegates, s.subDelegates.Keys, w, name, done.value, key);
        } else {
          DeliverExactly(s.subDelegates, s.subDelegates.Keys, w, d.header.name, done.value);
          NoObjectsFor(reports, name, key);
        }
      }
    }
  }

  /** Which delegates are alive when the fragments of the name arrive. */
  ghost function Worlds(turns: seq<Turn>, name: Name): seq<World> {
    if turns == [] then []
    else
      (match FragmentIn(turns[0])
       case Some(e) => if e.name == name then [turns[0].world] else []
       case None => [])
      + Worlds(turns[1..], name)
  }

  /** What deliveries, each under a world, hand to a delegate. */
  ghost function HandedOver(deliveries: seq<Option<Bytes>>, worlds: seq<World>, name: Name, key: Name,
      entry: Entry<nat>): seq<Report>
    requires |deliveries| == |worlds|
    decreases |deliveries|
  {
    if deliveries == [] then []
    else Handed(key, entry, worlds[0], name, deliveries[0]) + HandedOver(deliveries[1..], worlds[1..], name, key, entry)
  }

  lemma WorldsFirst(turns: seq<Turn>, e: Piece, name: Name)
    requires turns != [] && FragmentIn(turns[0]) == Some(e)
    ensures Worlds(turns, name) == (if e.name == name then [turns[0].world] else []) + Worlds(turns[1..], name)
  {}

  lemma NoFragmentFirst(c: Cache, lim: Limits, turns: seq<Turn>, name: Name)
    requires turns != [] && FragmentIn(turns[0]) == None
    ensures Deliveries(c, lim, Fragments(turns), name) == Deliveries(c, lim, Fragments(turns[1..]), name)
    ensures Worlds(turns, name) == Worlds(turns[1..], name)
  {
    assert Fragments(turns) == Fragments(turns[1..]);
  }

  lemma {:induction false} WorldsCount(c: Cache, lim: Limits, turns: seq<Turn>, name: Name)
    ensures |Deliveries(c, lim, Fragments(turns), name)| == |Worlds(turns, name)|
    decreases |turns|
  {
    if turns == [] {
    } else {
      match FragmentIn(turns[0])
      case None =>
        NoFragmentFirst(c, lim, turns, name);
        WorldsCount(c, lim, turns[1..], name);
      case Some(e) =>
        WorldsFirst(turns, e, name);
        DeliveriesFirst(c, lim, turns, e, name);
        WorldsCount(Reassembly.Step(c, lim, e).0, lim, turns[1..], name);
    }
  }

  lemma DeliveriesFirst(c: Cache, lim: Limits, turns: seq<Turn>, e: Piece, name: Name)
    requires turns != [] && FragmentIn(turns[0]) == Some(e)
    ensures var (next, done) := Reassembly.Step(c, lim, e);
      Deliveries(c, lim, Fragments(turns), name)
        == (if e.name == name then [done] else []) + Deliveries(next, lim, Fragments(turns[1..]), name)
  {
    assert Fragments(turns)[1..] == Fragments(turns[1..]);
  }

  /** In any run, a delegate that stays registered is handed exactly what the cache
      delivers of a name, when it is alive then. */
  lemma {:induction false} ObjectsAreHandedOver(s: ClientState, lim: Limits, turns: seq<Turn>, name: Name, key: Name)
    requires HasDelegates(s) && Registered(s, lim, turns, key)
    requires forall i :: 0 <= i < |turns| ==> !IsWhole(turns[i], name)
    ensures |Deliveries(s.cache, lim, Fragments(turns), name)| == |Worlds(turns, name)|
    ensures ObjectsFor(Reports(s, lim, turns), name, key)
         == HandedOver(Deliveries(s.cache, lim, Fragments(turns), name), Worlds(turns, name), name, key,
           s.subDelegates[key])
    decreases |turns|
  {
    WorldsCount(s.cache, lim, turns, name);
    if turns == [] {
    } else {
      var r, rest := ClientStep(s, lim, turns[0]), turns[1..];
      StepHasDelegates(s, lim, turns[0]);
      StepCache(s, lim, turns[0]);
      StepEntry(s, lim, turns[0], key);
      StepObjectsFor(s, lim, turns[0], name, key);
      ObjectsAreHandedOver(r.state, lim, rest, name, key);
      ObjectsForConcat(r.reports, Reports(r.state, lim, rest), name, key);
      HandedOverTurn(s.cache, lim, turns, name, key, s.subDelegates[key]);
    }
  }

  lemma HandedOverTurn(c: Cache, lim: Limits, turns: seq<Turn>, name: Name, key: Name, entry: Entry<nat>)
    requires turns != []
    requires |Deliveries(c, lim, Fragments(turns), name)| == |Worlds(turns, name)|
    ensures var rest := turns[1..];
      match FragmentIn(turns[0])
      case None =>
        && Deliveries(c, lim, Fragments(turns), name) == Deliveries(c, lim, Fragments(rest), name)
        && Worlds(turns, name) == Worlds(rest, name)
      case Some(e) =>
        var (next, done) := Reassembly.Step(c, lim, e);
        && |Deliveries(next, lim, Fragments(rest), name)| == |Worlds(rest, name)|
        && HandedOver(Deliveries(c, lim, Fragments(turns), name), Worlds(turns, name), name, key, entry)
           == (if e.name == name then Handed(key, entry, turns[0].world, name, done) else [])
            + HandedOver(Deliveries(next, lim, Fragments(rest), name), Worlds(rest, name), name, key, entry)
  {
    match FragmentIn(turns[0])
    case None => NoFragmentFirst(c, lim, turns, name);
    case Some(e) =>
      var (next, done) := Reassembly.Step(c, lim, e);
      WorldsFirst(turns, e, name);
      DeliveriesFirst(c, lim, turns, e, name);
      WorldsCount(next, lim, turns[1..], name);
      HandedOverFirst(done, Deliveries(next, lim, Fragments(turns[1..]), name),
        turns[0].world, Worlds(turns[1..], name), e.name == name, name, key, entry);
  }

  lemma HandedOverFirst(done: Option<Bytes>, ds: seq<Option<Bytes>>, w: World, ws: seq<World>, there: bool,
      name: Name, key: Name, entry: Entry<nat>)
    requires |ds| == |ws|
    ensures HandedOver((if there then [done] else []) + ds, (if there then [w] else []) + ws, name, key, entry)
         == (if there then Handed(key, entry, w, name, done) else []) + HandedOver(ds, ws, name, key, entry)
  {
    if there {
      assert ([done] + ds)[1..] == ds && ([w] + ws)[1..] == ws;
    } else {
      assert [] + ds == ds && [] + ws == ws;
    }
  }

  /** When only the last delivery gives an object, that is what is handed over, to a
      delegate alive then. */
  lemma {:induction false} HandedOverOnce(
    quiet: nat, worlds: seq<World>, data: Bytes, name: Name, key: Name, entry: Entry<nat>)
    requires |worlds| == |OnceAtEnd(quiet, data)|
    ensures |worlds| == quiet + 1
    ensures HandedOver(OnceAtEnd(quiet, data), worlds, name, key, entry)
      == Handed(key, entry, worlds[quiet], name, Some(data))
  {
    if quiet == 0 {
      assert HandedOver(OnceAtEnd(0, data)[1..], worlds[1..], name, key, entry) == [];
    } else {
      assert OnceAtEnd(quiet, data)[1..] == OnceAtEnd(quiet - 1, data);
      HandedOverOnce(quiet - 1, worlds[1..], data, name, key, entry);
    }
  }

  /** End to end, to the delegates, in any run: when the fragments of a name that
      arrive are read off the messages a publisher makes of an object, in any order,
      and only the last to arrive completes it, each delegate that stays registered,
      whose namespace contains the name and that is alive when the last arrives, is
      handed the object once, intact. Whatever else the client receives or is asked
      to do makes no difference, as long as not too many other names come in. */
  lemma ObjectReachesDelegates(
    s: ClientState, lim: Limits, turns: seq<Turn>, key: Name,
    name: Name, streamId: UintVar, data: Bytes, arrivals: seq<nat>)
    requires HasDelegates(s) && Registered(s, lim, turns, key)
    requires forall i :: 0 <= i < |turns| ==> !IsWhole(turns[i], name)
    requires Inv(s.cache, lim) && Find(s.cache, name) == None
    requires MAX_TRANSPORT_DATA_SIZE < |data| && BlockCount(|data|) <= BLOCK_LIMIT && ArrivalsOf(data, arrivals)
    requires Only(Fragments(turns), name)
      == Pieces(PieceRead, Transmitted(FragmentMessages(name, streamId, data), arrivals))
    requires FreshCount(s.cache, lim, Fragments(turns)) <= (lim.buffers - 1) * lim.names
    requires |arrivals| > 0 && Seen(arrivals) == AllBlocks(data)
    requires Seen(arrivals[..|arrivals| - 1]) != AllBlocks(data)
    ensures |Worlds(turns, name)| == |arrivals|
    ensures ObjectsFor(Reports(s, lim, turns), name, key)
         == Handed(key, s.subDelegates[key], Worlds(turns, name)[|arrivals| - 1], name, Some(data))
  {
    FragmentMessagesCarry(name, streamId, data);
    TransmittedPieces(PieceRead, FragmentMessages(name, streamId, data), name, data, arrivals);
    BlocksDelivered(s.cache, lim, Fragments(turns), name, data, arrivals);
    CompletedOnce(data, arrivals);
    ObjectsAreHandedOver(s, lim, turns, name, key);
    HandedOverOnce(|arrivals| - 1, Worlds(turns, name), data, name, key, s.subDelegates[key]);
  }
}
