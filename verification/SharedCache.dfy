/** Several clients in one program: the cache of fragments is static in the source,
    so they share it. */
module SharedCache {
  import opened ByteOrder
  import opened CacheRuns
  import opened Client
  import opened ClientRuns
  import opened EndToEnd
  import opened Fragmentation
  import opened MessageBuffers
  import opened Messages
  import opened NamespaceMaps
  import opened Names
  import opened Reassembly
  import opened Wrappers

  /** A publication that arrives at one of the clients. */
  datatype Arrival = Arrival(client: nat, world: World, datagram: PublishDatagram)

  ghost predicate AtClients(clients: seq<ClientState>, arrivals: seq<Arrival>) {
    forall j :: 0 <= j < |arrivals| ==> arrivals[j].client < |clients|
  }

  /** A client receives a publication with the cache as the others left it. */
  ghost function Received(clients: seq<ClientState>, cache: Cache, lim: Limits, a: Arrival): Change
    requires a.client < |clients|
  {
    ReceivePublication(clients[a.client].(cache := cache), a.world, lim, a.datagram)
  }

  /** What the delegates of client `i` are told in a run. */
  ghost function SharedReports(clients: seq<ClientState>, cache: Cache, lim: Limits, arrivals: seq<Arrival>,
      i: nat): seq<Report>
    requires AtClients(clients, arrivals)
    decreases |arrivals|
  {
    if arrivals == [] then []
    else
      var a := arrivals[0];
      var r := Received(clients, cache, lim, a);
      (if a.client == i then r.reports else [])
      + SharedReports(clients[a.client := r.state], r.state.cache, lim, arrivals[1..], i)
  }

  /** What the one cache completes at the arrivals of client `i`, for its delegates. */
  ghost function CompletedAt(cache: Cache, lim: Limits, arrivals: seq<Arrival>, i: nat, delegates: NsMap<nat>,
      name: Name): seq<Report>
    decreases |arrivals|
  {
    if arrivals == [] then []
    else
      var a := arrivals[0];
      if a.datagram.header.offsetAndFin == 1 then CompletedAt(cache, lim, arrivals[1..], i, delegates, name)
      else
        var (next, done) := Reassembly.Step(cache, lim, PieceOf(a.datagram));
        (if a.client == i && a.datagram.header.name == name then HandedOut([done], delegates, a.world, name) else [])
        + CompletedAt(next, lim, arrivals[1..], i, delegates, name)
  }

  ghost predicate NoWhole(arrivals: seq<Arrival>, name: Name) {
    forall j :: 0 <= j < |arrivals| && arrivals[j].datagram.header.name == name ==>
      arrivals[j].datagram.header.offsetAndFin != 1
  }

  /** A completed object goes to the delegates of the client whose arrival completed
      it, and to those of no other client. */
  lemma {:induction false} OwnCompletionsOnly(
    clients: seq<ClientState>, cache: Cache, lim: Limits, arrivals: seq<Arrival>, i: nat, name: Name)
    requires i < |clients| && AtClients(clients, arrivals) && NoWhole(arrivals, name)
    ensures Objects(SharedReports(clients, cache, lim, arrivals, i), name)
         == CompletedAt(cache, lim, arrivals, i, clients[i].subDelegates, name)
    decreases |arrivals|
  {
    if arrivals == [] {
    } else {
      var a := arrivals[0];
      var r := Received(clients, cache, lim, a);
      OwnFirst(clients, cache, lim, arrivals, i, name);
      OwnCompletionsOnly(clients[a.client := r.state], r.state.cache, lim, arrivals[1..], i, name);
      ObjectsWhen(a.client == i, r.reports,
        SharedReports(clients[a.client := r.state], r.state.cache, lim, arrivals[1..], i), name);
    }
  }

  lemma OwnFirst(clients: seq<ClientState>, cache: Cache, lim: Limits, arrivals: seq<Arrival>, i: nat, name: Name)
    requires arrivals != [] && i < |clients| && AtClients(clients, arrivals) && NoWhole(arrivals, name)
    ensures var a := arrivals[0];
      var r := Received(clients, cache, lim, a);
      && clients[a.client := r.state][i].subDelegates == clients[i].subDelegates
      && CompletedAt(cache, lim, arrivals, i, clients[i].subDelegates, name)
         == (if a.client == i then Objects(r.reports, name) else [])
          + CompletedAt(r.state.cache, lim, arrivals[1..], i, clients[i].subDelegates, name)
  {
    var a := arrivals[0];
    PublicationObjects(clients[a.client].(cache := cache), lim, a.world, a.datagram, name);
    var r := Received(clients, cache, lim, a);
    CompletedNext(cache, lim, arrivals, i, clients[i].subDelegates, name, r.state.cache, Objects(r.reports, name),
      clients[a.client].subDelegates);
  }

  /** What the first arrival adds; `objects` is what its client reports. */
  lemma CompletedNext(
    cache: Cache, lim: Limits, arrivals: seq<Arrival>, i: nat, delegates: NsMap<nat>, name: Name,
    after: Cache, objects: seq<Report>, receivers: NsMap<nat>)
    requires arrivals != [] && (arrivals[0].client == i ==> receivers == delegates)
    requires arrivals[0].datagram.header.offsetAndFin == 1 ==> after == cache && objects == []
    requires arrivals[0].datagram.header.offsetAndFin != 1 ==>
      var (next, done) := Reassembly.Step(cache, lim, PieceOf(arrivals[0].datagram));
      && after == next
      && objects == if arrivals[0].datagram.header.name == name
                    then HandedOut([done], receivers, arrivals[0].world, name) else []
    ensures CompletedAt(cache, lim, arrivals, i, delegates, name)
         == (if arrivals[0].client == i then objects else [])
          + CompletedAt(after, lim, arrivals[1..], i, delegates, name)
  {}

  lemma ObjectsWhen(own: bool, reports: seq<Report>, rest: seq<Report>, name: Name)
    ensures Objects((if own then reports else []) + rest, name)
         == (if own then Objects(reports, name) else []) + Objects(rest, name)
  {
    if own {
      ObjectsConcat(reports, rest, name);
    } else {
      assert [] + rest == rest;
    }
  }

  // One object whose blocks are spread over the clients.

  ghost function PiecesOf(arrivals: seq<Arrival>): seq<Piece> {
    if arrivals == [] then []
    else
      (if arrivals[0].datagram.header.offsetAndFin == 1 then [] else [PieceOf(arrivals[0].datagram)])
      + PiecesOf(arrivals[1..])
  }

  /** The arrivals with a fragment of the name. */
  ghost function FragmentsOf(arrivals: seq<Arrival>, name: Name): seq<Arrival> {
    if arrivals == [] then []
    else
      var h := arrivals[0].datagram.header;
      (if h.offsetAndFin != 1 && h.name == name then [arrivals[0]] else []) + FragmentsOf(arrivals[1..], name)
  }

  /** What deliveries, each at an arrival, make client `i` hand on. */
  ghost function HandedOn(
    ds: seq<Option<Bytes>>, at: seq<Arrival>, i: nat, delegates: NsMap<nat>, name: Name): seq<Report>
    requires |ds| == |at|
    decreases |ds|
  {
    if ds == [] then []
    else
      (if at[0].client == i && ds[0].Some?
       then Deliver(delegates, delegates.Keys, at[0].world, name, ds[0].value) else [])
      + HandedOn(ds[1..], at[1..], i, delegates, name)
  }

  lemma HandedOnFirst(there: bool, d: Option<Bytes>, ds: seq<Option<Bytes>>, a: Arrival, at: seq<Arrival>,
      i: nat, delegates: NsMap<nat>, name: Name)
    requires |ds| == |at|
    ensures HandedOn((if there then [d] else []) + ds, (if there then [a] else []) + at, i, delegates, name)
         == (if there && a.client == i && d.Some?
           then Deliver(delegates, delegates.Keys, a.world, name, d.value) else [])
          + HandedOn(ds, at, i, delegates, name)
  {
    if there {
      assert ([d] + ds)[1..] == ds && ([a] + at)[1..] == at;
    } else {
      assert [] + ds == ds && [] + at == at;
    }
  }

  lemma DeliveriesAtFirst(cache: Cache, lim: Limits, a: Arrival, rest: seq<Arrival>, name: Name)
    requires a.datagram.header.offsetAndFin != 1
    ensures var (next, done) := Reassembly.Step(cache, lim, PieceOf(a.datagram));
      var there := a.datagram.header.name == name;
      && Deliveries(cache, lim, PiecesOf([a] + rest), name)
         == (if there then [done] else []) + Deliveries(next, lim, PiecesOf(rest), name)
      && FragmentsOf([a] + rest, name) == (if there then [a] else []) + FragmentsOf(rest, name)
  {
    assert ([a] + rest)[1..] == rest;
    var pieces := PiecesOf([a] + rest);
    assert pieces == [PieceOf(a.datagram)] + PiecesOf(rest) && pieces[1..] == PiecesOf(rest);
  }

  lemma WholeFirst(cache: Cache, lim: Limits, a: Arrival, rest: seq<Arrival>, i: nat, delegates: NsMap<nat>, name: Name)
    requires a.datagram.header.offsetAndFin == 1
    ensures PiecesOf([a] + rest) == PiecesOf(rest) && FragmentsOf([a] + rest, name) == FragmentsOf(rest, name)
    ensures CompletedAt(cache, lim, [a] + rest, i, delegates, name) == CompletedAt(cache, lim, rest, i, delegates, name)
  {
    assert ([a] + rest)[1..] == rest;
  }

  lemma {:induction false} CompletedIsHandedOn(
    cache: Cache, lim: Limits, arrivals: seq<Arrival>, i: nat, delegates: NsMap<nat>, name: Name)
    ensures var ds, at := Deliveries(cache, lim, PiecesOf(arrivals), name), FragmentsOf(arrivals, name);
      |ds| == |at| && CompletedAt(cache, lim, arrivals, i, delegates, name) == HandedOn(ds, at, i, delegates, name)
    decreases |arrivals|
  {
    if arrivals == [] {
    } else {
      var a, rest := arrivals[0], arrivals[1..];
      assert arrivals == [a] + rest;
      if a.datagram.header.offsetAndFin == 1 {
        WholeFirst(cache, lim, a, rest, i, delegates, name);
        CompletedIsHandedOn(cache, lim, rest, i, delegates, name);
      } else {
        var (next, done) := Reassembly.Step(cache, lim, PieceOf(a.datagram));
        CompletedIsHandedOn(next, lim, rest, i, delegates, name);
        CompletedFirst(cache, lim, a, rest, i, delegates, name);
        DeliveriesAtFirst(cache, lim, a, rest, name);
        HandedOnFirst(a.datagram.header.name == name, done, Deliveries(next, lim, PiecesOf(rest), name),
          a, FragmentsOf(rest, name), i, delegates, name);
      }
    }
  }

  /** When the fragments of a name are the blocks of one object, spread over the
      clients in any way among any other traffic, and the name is not purged, client
      `i` hands the object on at exactly those of its own arrivals that complete the
      blocks received by all clients together since the last delivery. */
  lemma SpreadObject(
    clients: seq<ClientState>, cache: Cache, lim: Limits, arrivals: seq<Arrival>, i: nat,
    name: Name, data: Bytes, blocks: seq<nat>)
    requires i < |clients| && AtClients(clients, arrivals) && NoWhole(arrivals, name)
    requires Inv(cache, lim) && Find(cache, name) == None && NeverPurged(cache, lim, PiecesOf(arrivals), name)
    requires MAX_TRANSPORT_DATA_SIZE < |data| && ArrivalsOf(data, blocks)
    requires Only(PiecesOf(arrivals), name) == BlockPieces(name, data, blocks)
    ensures |Expected(data, {}, blocks)| == |FragmentsOf(arrivals, name)|
    ensures Objects(SharedReports(clients, cache, lim, arrivals, i), name)
         == HandedOn(Expected(data, {}, blocks), FragmentsOf(arrivals, name), i, clients[i].subDelegates, name)
  {
    OwnCompletionsOnly(clients, cache, lim, arrivals, i, name);
    CompletedIsHandedOn(cache, lim, arrivals, i, clients[i].subDelegates, name);
    HeldBlocksDelivered(cache, lim, PiecesOf(arrivals), name, data, blocks);
  }

  // Two clients that receive the same messages.

  /** Each block from `b` on arrives at the first client and then at the second. */
  ghost function LockStep(name: Name, streamId: UintVar, data: Bytes, w: World, b: nat): seq<Arrival>
    requires b <= BlockCount(|data|) <= BLOCK_LIMIT
    decreases BlockCount(|data|) - b
  {
    if b == BlockCount(|data|) then []
    else
      var d := Fragment(name, streamId, data, b);
      [Arrival(0, w, d), Arrival(1, w, d)] + LockStep(name, streamId, data, w, b + 1)
  }

  lemma {:induction false} LockStepArrivals(name: Name, streamId: UintVar, data: Bytes, w: World, b: nat)
    requires b <= BlockCount(|data|) <= BLOCK_LIMIT && MAX_TRANSPORT_DATA_SIZE < |data|
    ensures forall a :: a in LockStep(name, streamId, data, w, b) ==>
      a.client < 2 && a.datagram.header.name == name && a.datagram.header.offsetAndFin != 1
    decreases BlockCount(|data|) - b
  {
    if b == BlockCount(|data|) {
    } else {
      NotWholeObject(data, b);
      LockStepArrivals(name, streamId, data, w, b + 1);
    }
  }

  /** What one block does to a cache that holds the blocks in `seen`. */
  lemma BlockStep(c: Cache, lim: Limits, name: Name, streamId: UintVar, data: Bytes, seen: set<nat>, b: nat)
    returns (next: Cache, done: Option<Bytes>)
    requires Inv(c, lim) && 2 <= lim.buffers && MAX_TRANSPORT_DATA_SIZE < |data|
    requires b < BlockCount(|data|) <= BLOCK_LIMIT && BlocksOf(data, seen) && Holds(View(c, name), data, seen)
    ensures (next, done) == Reassembly.Step(c, lim, PieceOf(Fragment(name, streamId, data, b))) && Inv(next, lim)
    ensures done == if seen + {b} == AllBlocks(data) then Some(data) else None
    ensures Holds(View(next, name), data, if done.Some? then {} else seen + {b})
  {
    var e := PieceOf(Fragment(name, streamId, data, b));
    StepView(c, lim, e);
    var m, d := ObjectStep(View(c, name), data, seen, b);
    var r := Reassembly.Step(c, lim, e);
    next, done := r.0, r.1;
  }

  /** Both arrivals of one block. */
  lemma PairStep(c: Cache, lim: Limits, name: Name, streamId: UintVar, data: Bytes, b: nat)
    returns (next: Cache, last: Cache, first: Option<Bytes>)
    requires Inv(c, lim) && 2 <= lim.buffers && MAX_TRANSPORT_DATA_SIZE < |data|
    requires b < BlockCount(|data|) <= BLOCK_LIMIT && Holds(View(c, name), data, Range(0, b))
    ensures var e := PieceOf(Fragment(name, streamId, data, b));
      (next, first) == Reassembly.Step(c, lim, e) && (last, None) == Reassembly.Step(next, lim, e)
    ensures first == if b + 1 == BlockCount(|data|) then Some(data) else None
    ensures Inv(last, lim) && (b + 1 < BlockCount(|data|) ==> Holds(View(last, name), data, Range(0, b + 1)))
  {
    RangeLast(b);
    RangeWholeIff(b, BlockCount(|data|));
    next, first := BlockStep(c, lim, name, streamId, data, Range(0, b), b);
    last := DuplicateStep(next, lim, name, streamId, data, b);
  }

  /** The second arrival of a block completes nothing. */
  lemma DuplicateStep(c: Cache, lim: Limits, name: Name, streamId: UintVar, data: Bytes, b: nat) returns (last: Cache)
    requires Inv(c, lim) && 2 <= lim.buffers && MAX_TRANSPORT_DATA_SIZE < |data|
    requires b < BlockCount(|data|) <= BLOCK_LIMIT
    requires Holds(View(c, name), data, if b + 1 == BlockCount(|data|) then {} else Range(0, b + 1))
    ensures (last, None) == Reassembly.Step(c, lim, PieceOf(Fragment(name, streamId, data, b))) && Inv(last, lim)
    ensures b + 1 < BlockCount(|data|) ==> Holds(View(last, name), data, Range(0, b + 1))
  {
    var seen := if b + 1 == BlockCount(|data|) then {} else Range(0, b + 1);
    var done: Option<Bytes>;
    DuplicateSeen(seen, b, BlockCount(|data|));
    last, done := BlockStep(c, lim, name, streamId, data, seen, b);
  }

  lemma DuplicateSeen(seen: set<nat>, b: nat, k: nat)
    requires b < k && 2 <= k && seen == if b + 1 == k then {} else Range(0, b + 1)
    ensures seen + {b} != Range(0, k)
    ensures b + 1 < k ==> seen + {b} == Range(0, b + 1)
  {
    RangeWholeIff(b, k);
    if b + 1 == k {
      assert 0 in Range(0, k) && 0 !in seen + {b};
    } else {
      assert seen + {b} == seen;
    }
  }

  lemma RangeLast(b: nat)
    ensures Range(0, b) + {b} == Range(0, b + 1)
  {}

  lemma RangeWholeIff(b: nat, k: nat)
    requires b < k
    ensures Range(0, b + 1) == Range(0, k) <==> b + 1 == k
  {
    if b + 1 < k {
      assert b + 1 in Range(0, k) && b + 1 !in Range(0, b + 1);
    }
  }

  lemma {:induction false} LockStepCompletions(
    c: Cache, lim: Limits, name: Name, streamId: UintVar, data: Bytes, w: World, b: nat, i: nat, delegates: NsMap<nat>)
    requires Inv(c, lim) && 2 <= lim.buffers && MAX_TRANSPORT_DATA_SIZE < |data|
    requires b < BlockCount(|data|) <= BLOCK_LIMIT && Holds(View(c, name), data, Range(0, b)) && i < 2
    ensures CompletedAt(c, lim, LockStep(name, streamId, data, w, b), i, delegates, name)
         == if i == 0 then Deliver(delegates, delegates.Keys, w, name, data) else []
    decreases BlockCount(|data|) - b
  {
    var next, last, first := PairStep(c, lim, name, streamId, data, b);
    PairCompletions(c, lim, name, streamId, data, w, b, i, delegates, next, last, first);
    if b + 1 == BlockCount(|data|) {
      assert LockStep(name, streamId, data, w, b + 1) == [];
    } else {
      LockStepCompletions(last, lim, name, streamId, data, w, b + 1, i, delegates);
    }
  }

  lemma PairCompletions(
    c: Cache, lim: Limits, name: Name, streamId: UintVar, data: Bytes, w: World, b: nat, i: nat, delegates: NsMap<nat>,
    next: Cache, last: Cache, first: Option<Bytes>)
    requires MAX_TRANSPORT_DATA_SIZE < |data| && b < BlockCount(|data|) <= BLOCK_LIMIT && i < 2
    requires var e := PieceOf(Fragment(name, streamId, data, b));
      (next, first) == Reassembly.Step(c, lim, e) && (last, None) == Reassembly.Step(next, lim, e)
    ensures CompletedAt(c, lim, LockStep(name, streamId, data, w, b), i, delegates, name)
         == (if i == 0 && first.Some? then Deliver(delegates, delegates.Keys, w, name, first.value) else [])
          + CompletedAt(last, lim, LockStep(name, streamId, data, w, b + 1), i, delegates, name)
  {
    NotWholeObject(data, b);
    LockStepFirst(name, streamId, data, w, b);
    PairOf(c, lim, Fragment(name, streamId, data, b), w, LockStep(name, streamId, data, w, b + 1), i, delegates,
      next, last, first);
  }

  lemma LockStepFirst(name: Name, streamId: UintVar, data: Bytes, w: World, b: nat)
    requires b < BlockCount(|data|) <= BLOCK_LIMIT
    ensures var d, rest := Fragment(name, streamId, data, b), LockStep(name, streamId, data, w, b + 1);
      LockStep(name, streamId, data, w, b) == [Arrival(0, w, d)] + ([Arrival(1, w, d)] + rest)
  {}

  lemma PairOf(
    c: Cache, lim: Limits, d: PublishDatagram, w: World, rest: seq<Arrival>, i: nat, delegates: NsMap<nat>,
    next: Cache, last: Cache, first: Option<Bytes>)
    requires d.header.offsetAndFin != 1 && i < 2
    requires (next, first) == Reassembly.Step(c, lim, PieceOf(d))
    requires (last, None) == Reassembly.Step(next, lim, PieceOf(d))
    ensures CompletedAt(c, lim, [Arrival(0, w, d)] + ([Arrival(1, w, d)] + rest), i, delegates, d.header.name)
         == (if i == 0 && first.Some? then Deliver(delegates, delegates.Keys, w, d.header.name, first.value) else [])
          + CompletedAt(last, lim, rest, i, delegates, d.header.name)
  {
    CompletedFirst(c, lim, Arrival(0, w, d), [Arrival(1, w, d)] + rest, i, delegates, d.header.name);
    CompletedFirst(next, lim, Arrival(1, w, d), rest, i, delegates, d.header.name);
  }

  lemma CompletedFirst(cache: Cache, lim: Limits, a: Arrival, rest: seq<Arrival>, i: nat,
      delegates: NsMap<nat>, name: Name)
    requires a.datagram.header.offsetAndFin != 1
    ensures var (next, done) := Reassembly.Step(cache, lim, PieceOf(a.datagram));
      CompletedAt(cache, lim, [a] + rest, i, delegates, name)
        == (if a.client == i && a.datagram.header.name == name && done.Some?
            then Deliver(delegates, delegates.Keys, a.world, name, done.value) else [])
         + CompletedAt(next, lim, rest, i, delegates, name)
  {
    assert ([a] + rest)[1..] == rest;
    HandedOutOne(Reassembly.Step(cache, lim, PieceOf(a.datagram)).1, delegates, a.world, name);
  }

  lemma HandedOutOne(done: Option<Bytes>, delegates: NsMap<nat>, w: World, name: Name)
    ensures HandedOut([done], delegates, w, name)
         == if done.Some? then Deliver(delegates, delegates.Keys, w, name, done.value) else []
  {
    var none: seq<Option<Bytes>> := [];
    assert [done][1..] == none && HandedOut(none, delegates, w, name) == [];
  }

  /** When two clients receive every block of an object in turn, the first hands the
      object to its delegates and the second hands its own delegates nothing. */
  lemma SecondClientGetsNothing(
    clients: seq<ClientState>, cache: Cache, lim: Limits, w: World, name: Name, streamId: UintVar, data: Bytes)
    requires |clients| == 2 && Inv(cache, lim) && 2 <= lim.buffers && Find(cache, name) == None
    requires MAX_TRANSPORT_DATA_SIZE < |data| && BlockCount(|data|) <= BLOCK_LIMIT
    ensures var arrivals := LockStep(name, streamId, data, w, 0);
      && AtClients(clients, arrivals)
      && Objects(SharedReports(clients, cache, lim, arrivals, 0), name)
         == Deliver(clients[0].subDelegates, clients[0].subDelegates.Keys, w, name, data)
      && Objects(SharedReports(clients, cache, lim, arrivals, 1), name) == []
  {
    var arrivals := LockStep(name, streamId, data, w, 0);
    LockStepArrivals(name, streamId, data, w, 0);
    assert Range(0, 0) == {} && Tags(data, {}) == {} && View(cache, name) == map[];
    forall i: nat | i < 2
      ensures Objects(SharedReports(clients, cache, lim, arrivals, i), name)
           == CompletedAt(cache, lim, arrivals, i, clients[i].subDelegates, name)
    {
      OwnCompletionsOnly(clients, cache, lim, arrivals, i, name);
    }
    LockStepCompletions(cache, lim, name, streamId, data, w, 0, 0, clients[0].subDelegates);
    LockStepCompletions(cache, lim, name, streamId, data, w, 0, 1, clients[1].subDelegates);
  }
}
