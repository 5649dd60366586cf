/** From publishing to delivery: the fragments of an object, sent over the wire
    and received in any order among other traffic, give the object back. */
module EndToEnd {
  import opened Bits
  import opened ByteOrder
  import opened CacheRuns
  import opened Fragmentation
  import opened MessageBuffers
  import opened Messages
  import opened Names
  import opened Ordered
  import opened Reassembly
  import opened Wrappers

  /** The block numbers from `j` up to `k`. */
  ghost function Range(j: nat, k: nat): (r: set<nat>)
    ensures forall x: nat :: x in r <==> j <= x < k
    decreases k - j
  {
    if j >= k then {} else {j} + Range(j + 1, k)
  }

  ghost function AllBlocks(data: Bytes): set<nat> {
    Range(0, BlockCount(|data|))
  }

  ghost predicate BlocksOf(data: Bytes, s: set<nat>) {
    forall i :: i in s ==> i < BlockCount(|data|)
  }

  ghost function Tags(data: Bytes, s: set<nat>): set<int>
    requires BlocksOf(data, s)
  {
    set i | i in s :: BlockTag(data, i)
  }

  /** `m` holds exactly the blocks in `s`. */
  ghost predicate Holds(m: FragMap, data: Bytes, s: set<nat>)
    requires BlocksOf(data, s)
  {
    m.Keys == Tags(data, s) && forall i :: i in s ==> m[BlockTag(data, i)] == Block(data, i)
  }

  /** `m` holds at least the blocks in `s`. */
  ghost predicate Has(m: FragMap, data: Bytes, s: set<nat>)
    requires BlocksOf(data, s)
  {
    Tags(data, s) <= m.Keys && forall i :: i in s ==> m[BlockTag(data, i)] == Block(data, i)
  }

  /** Where block `j` starts, or the end of the object after the last. */
  ghost function Position(data: Bytes, j: nat): nat {
    if j < BlockCount(|data|) then BlockStart(j) else |data|
  }

  // Completeness.

  /** The pass over the fragments from block `j` on succeeds exactly when none is
      missing. */
  ghost predicate Joins(m: FragMap, data: Bytes, todo: set<nat>, j: nat)
    requires BlocksOf(data, todo) && Tags(data, todo) <= m.Keys && j <= BlockCount(|data|)
  {
    Join(m, Tags(data, todo), Position(data, j))
      == if todo == Range(j, BlockCount(|data|)) then Some(JoinBlocks(data, j)) else None
  }

  lemma {:induction false} JoinExact(m: FragMap, data: Bytes, todo: set<nat>, j: nat)
    requires MAX_TRANSPORT_DATA_SIZE < |data| && BlocksOf(data, todo) && Has(m, data, todo)
    requires (forall i :: i in todo ==> j <= i) && j <= BlockCount(|data|)
    requires j < BlockCount(|data|) ==> BlockCount(|data|) - 1 in todo
    ensures Joins(m, data, todo, j)
    decreases BlockCount(|data|) - j
  {
    if j == BlockCount(|data|) {
      JoinEnd(m, data, todo);
    } else {
      HasLess(m, data, todo, j);
      if j in todo {
        JoinExact(m, data, todo - {j}, j + 1);
      }
      JoinFrom(m, data, todo, j);
    }
  }

  lemma JoinFrom(m: FragMap, data: Bytes, todo: set<nat>, j: nat)
    requires MAX_TRANSPORT_DATA_SIZE < |data| && BlocksOf(data, todo) && Has(m, data, todo)
    requires (forall i :: i in todo ==> j <= i) && j < BlockCount(|data|) && BlockCount(|data|) - 1 in todo
    requires Has(m, data, todo - {j}) && (j in todo ==> Joins(m, data, todo - {j}, j + 1))
    ensures Joins(m, data, todo, j)
  {
    var i := LeastOf(data, todo);
    if j in todo {
      LeastIsFirst(data, todo, j, i);
      TagsWithout(data, todo, j);
      JoinPresent(m, data, todo, todo - {j}, Tags(data, todo), j);
    } else {
      JoinMissing(m, data, todo, j, i);
    }
  }

  lemma LeastIsFirst(data: Bytes, todo: set<nat>, j: nat, i: nat)
    requires MAX_TRANSPORT_DATA_SIZE < |data| && BlocksOf(data, todo) && j in todo && i in todo && j <= i
    requires Tags(data, todo) != {} && MinOf(Tags(data, todo)) == BlockTag(data, i)
    ensures i == j
  {
    TagIn(data, todo, j);
    if j < i {
      BlockTags(data, j, i);
    }
  }

  lemma JoinEnd(m: FragMap, data: Bytes, todo: set<nat>)
    requires BlocksOf(data, todo) && forall i :: i in todo ==> BlockCount(|data|) <= i
    ensures Tags(data, todo) == {} && Join(m, Tags(data, todo), Position(data, BlockCount(|data|))) == Some([])
    ensures todo == Range(BlockCount(|data|), BlockCount(|data|)) && JoinBlocks(data, BlockCount(|data|)) == []
  {
    assert todo == {};
  }

  lemma HasLess(m: FragMap, data: Bytes, todo: set<nat>, j: nat)
    requires BlocksOf(data, todo) && Has(m, data, todo)
    ensures Has(m, data, todo - {j})
  {
    assert Tags(data, todo - {j}) <= Tags(data, todo);
  }

  /** The block whose tag is the least. */
  lemma LeastOf(data: Bytes, todo: set<nat>) returns (i: nat)
    requires BlocksOf(data, todo) && BlockCount(|data|) - 1 in todo
    ensures i in todo && Tags(data, todo) != {} && MinOf(Tags(data, todo)) == BlockTag(data, i)
  {
    TagIn(data, todo, BlockCount(|data|) - 1);
    i :| i in todo && MinOf(Tags(data, todo)) == BlockTag(data, i);
  }

  lemma JoinMissing(m: FragMap, data: Bytes, todo: set<nat>, j: nat, i: nat)
    requires MAX_TRANSPORT_DATA_SIZE < |data| && BlocksOf(data, todo) && Has(m, data, todo)
    requires (forall x :: x in todo ==> j <= x) && i in todo && i != j
    requires Tags(data, todo) != {} && MinOf(Tags(data, todo)) == BlockTag(data, i)
    ensures Join(m, Tags(data, todo), Position(data, j)) == None && todo != Range(j, BlockCount(|data|))
  {
    LeastBlock(data, todo, j, i);
    JoinStep(m, Tags(data, todo), BlockTag(data, i), Position(data, j));
  }

  lemma JoinPresent(m: FragMap, data: Bytes, todo: set<nat>, rest: set<nat>, tags: set<int>, j: nat)
    requires j in todo && rest == todo - {j} && (forall i :: i in todo ==> j <= i)
    requires j < BlockCount(|data|) && tags <= m.Keys && tags != {} && MinOf(tags) == BlockTag(data, j)
    requires m[BlockTag(data, j)] == Block(data, j)
    requires Join(m, tags - {BlockTag(data, j)}, Position(data, j + 1))
      == if rest == Range(j + 1, BlockCount(|data|)) then Some(JoinBlocks(data, j + 1)) else None
    ensures Join(m, tags, Position(data, j))
      == if todo == Range(j, BlockCount(|data|)) then Some(JoinBlocks(data, j)) else None
  {
    var k := BlockCount(|data|);
    BlockEndsAtNext(data, j);
    JoinStep(m, tags, BlockTag(data, j), Position(data, j));
    RangeFirst(todo, rest, j, k);
  }

  lemma RangeFirst(todo: set<nat>, rest: set<nat>, j: nat, k: nat)
    requires j in todo && rest == todo - {j} && j < k
    ensures rest == Range(j + 1, k) <==> todo == Range(j, k)
  {
    assert rest == Range(j + 1, k) ==> todo == Range(j, k);
    assert todo == Range(j, k) ==> rest == Range(j + 1, k);
  }

  lemma JoinStep(m: FragMap, todo: set<int>, tag: int, seqBytes: nat)
    requires todo <= m.Keys && todo != {} && tag == MinOf(todo)
    ensures tag / 2 != seqBytes ==> Join(m, todo, seqBytes) == None
    ensures tag / 2 == seqBytes ==>
      Join(m, todo, seqBytes) == match Join(m, todo - {tag}, seqBytes + |m[tag]|) {
        case None => None
        case Some(rest) => Some(m[tag] + rest)
      }
  {}

  lemma BlockEndsAtNext(data: Bytes, j: nat)
    requires j < BlockCount(|data|)
    ensures BlockTag(data, j) / 2 == Position(data, j)
    ensures Position(data, j) + |Block(data, j)| == Position(data, j + 1)
  {}

  /** When the least block present is not block `j`, block `j` is missing. */
  lemma LeastBlock(data: Bytes, todo: set<nat>, j: nat, i: nat)
    requires BlocksOf(data, todo) && (forall x :: x in todo ==> j <= x)
    requires i in todo && i != j && Tags(data, todo) != {} && BlockTag(data, i) == MinOf(Tags(data, todo))
    requires MAX_TRANSPORT_DATA_SIZE < |data|
    ensures BlockTag(data, i) / 2 != Position(data, j)
    ensures todo != Range(j, BlockCount(|data|))
  {
    if j in todo {
      TagIn(data, todo, j);
      BlockTags(data, j, i);
    }
    assert j in Range(j, BlockCount(|data|));
  }

  lemma TagIn(data: Bytes, s: set<nat>, i: nat)
    requires BlocksOf(data, s) && i in s
    ensures BlockTag(data, i) in Tags(data, s)
    ensures MinOf(Tags(data, s)) <= BlockTag(data, i) <= MaxOf(Tags(data, s))
  {
    assert BlockTag(data, i) in Tags(data, s);
  }

  lemma TagsWithout(data: Bytes, s: set<nat>, j: nat)
    requires MAX_TRANSPORT_DATA_SIZE < |data| && BlocksOf(data, s) && j in s
    ensures Tags(data, s - {j}) == Tags(data, s) - {BlockTag(data, j)}
  {
    forall i | i in s && i != j
      ensures BlockTag(data, i) != BlockTag(data, j)
    {
      DistinctTags(data, i, j);
    }
  }

  lemma DistinctTags(data: Bytes, i: nat, j: nat)
    requires MAX_TRANSPORT_DATA_SIZE < |data|
    requires i < BlockCount(|data|) && j < BlockCount(|data|) && i != j
    ensures BlockTag(data, i) != BlockTag(data, j)
  {
    if i < j {
      BlockTags(data, i, j);
    } else {
      BlockTags(data, j, i);
    }
  }

  /** The test is exact: a non-empty part of an object is found complete if and
      only if it is the whole, and then it gives the object. */
  lemma CompleteExact(m: FragMap, data: Bytes, s: set<nat>)
    requires MAX_TRANSPORT_DATA_SIZE < |data| && BlocksOf(data, s) && Holds(m, data, s) && s != {}
    ensures m != map[]
    ensures Complete(m) == if s == AllBlocks(data) then Some(data) else None
  {
    var some: nat :| some in s;
    TagIn(data, s, some);
    if BlockCount(|data|) - 1 in s {
      CompleteWithLast(m, data, s);
    } else {
      IncompleteWithoutLast(m, data, s);
    }
  }

  lemma CompleteWithLast(m: FragMap, data: Bytes, s: set<nat>)
    requires MAX_TRANSPORT_DATA_SIZE < |data| && BlocksOf(data, s) && Holds(m, data, s)
    requires BlockCount(|data|) - 1 in s && m != map[]
    ensures Complete(m) == if s == AllBlocks(data) then Some(data) else None
  {
    var k := BlockCount(|data|);
    TagIn(data, s, k - 1);
    var i :| i in s && MaxOf(m.Keys) == BlockTag(data, i);
    assert i == k - 1;
    BlockTags(data, 0, k - 1);
    JoinExact(m, data, s, 0);
    BlocksPartition(data, 0);
    assert data[0..] == data;
  }

  lemma IncompleteWithoutLast(m: FragMap, data: Bytes, s: set<nat>)
    requires MAX_TRANSPORT_DATA_SIZE < |data| && BlocksOf(data, s) && Holds(m, data, s)
    requires BlockCount(|data|) - 1 !in s && m != map[]
    ensures Complete(m) == None && s != AllBlocks(data)
  {
    var k := BlockCount(|data|);
    var i :| i in s && MaxOf(m.Keys) == BlockTag(data, i);
    BlockTags(data, i, k - 1);
    assert k - 1 in AllBlocks(data);
  }

  lemma TagsWith(data: Bytes, s: set<nat>, i: nat)
    requires BlocksOf(data, s) && i < BlockCount(|data|)
    ensures Tags(data, s + {i}) == Tags(data, s) + {BlockTag(data, i)}
  {}

  lemma EmplaceHolds(m: FragMap, data: Bytes, s: set<nat>, i: nat)
    requires MAX_TRANSPORT_DATA_SIZE < |data| && BlocksOf(data, s) && Holds(m, data, s)
    requires i < BlockCount(|data|)
    ensures Holds(Emplace(m, BlockTag(data, i), Block(data, i)), data, s + {i})
  {
    TagsWith(data, s, i);
    forall x | x in s && x != i
      ensures BlockTag(data, x) != BlockTag(data, i)
    {
      DistinctTags(data, x, i);
    }
  }

  // One object.

  /** What the arrivals of an object's blocks should deliver: the object at each
      arrival that completes the set since the last delivery, and nothing else. */
  ghost function Expected(data: Bytes, seen: set<nat>, arrivals: seq<nat>): seq<Option<Bytes>>
    decreases |arrivals|
  {
    if arrivals == [] then []
    else
      var now := seen + {arrivals[0]};
      if now == AllBlocks(data) then [Some(data)] + Expected(data, {}, arrivals[1..])
      else [None] + Expected(data, now, arrivals[1..])
  }

  ghost predicate ArrivalsOf(data: Bytes, arrivals: seq<nat>) {
    forall j :: 0 <= j < |arrivals| ==> arrivals[j] < BlockCount(|data|)
  }

  ghost function BlockPieces(name: Name, data: Bytes, arrivals: seq<nat>): seq<Piece>
    requires ArrivalsOf(data, arrivals)
    decreases |arrivals|
  {
    if arrivals == [] then []
    else
      [Piece(name, BlockTag(data, arrivals[0]), Block(data, arrivals[0]))]
      + BlockPieces(name, data, arrivals[1..])
  }

  lemma {:induction false} ObjectAlone(m: FragMap, name: Name, data: Bytes, seen: set<nat>, arrivals: seq<nat>)
    requires MAX_TRANSPORT_DATA_SIZE < |data| && ArrivalsOf(data, arrivals)
    requires BlocksOf(data, seen) && Holds(m, data, seen)
    ensures Alone(m, BlockPieces(name, data, arrivals)) == Expected(data, seen, arrivals)
    decreases |arrivals|
  {
    if arrivals == [] {
    } else {
      var i := arrivals[0];
      var es := BlockPieces(name, data, arrivals);
      var next, done := ObjectStep(m, data, seen, i);
      assert es[1..] == BlockPieces(name, data, arrivals[1..]);
      ObjectAlone(next, name, data, if done.Some? then {} else seen + {i}, arrivals[1..]);
    }
  }

  lemma ObjectStep(m: FragMap, data: Bytes, seen: set<nat>, i: nat) returns (next: FragMap, done: Option<Bytes>)
    requires MAX_TRANSPORT_DATA_SIZE < |data| && i < BlockCount(|data|)
    requires BlocksOf(data, seen) && Holds(m, data, seen)
    ensures (next, done) == TakeIn(m, BlockTag(data, i), Block(data, i))
    ensures done == if seen + {i} == AllBlocks(data) then Some(data) else None
    ensures Holds(next, data, if done.Some? then {} else seen + {i})
  {
    EmplaceHolds(m, data, seen, i);
    CompleteExact(Emplace(m, BlockTag(data, i), Block(data, i)), data, seen + {i});
    assert Tags(data, {}) == {};
    NotWholeObject(data, i);
    TestedDiffersIff(m, BlockTag(data, i), Block(data, i));
    var r := TakeIn(m, BlockTag(data, i), Block(data, i));
    next, done := r.0, r.1;
  }

  ghost function Seen(arrivals: seq<nat>): set<nat> {
    set i | i in arrivals
  }

  lemma SeenCons(i: nat, rest: seq<nat>)
    ensures Seen([i] + rest) == {i} + Seen(rest)
  {
    forall x: nat
      ensures x in [i] + rest <==> x == i || x in rest
    {}
  }

  /** Deliveries of which only the last, after `quiet` others, gives an object. */
  ghost function OnceAtEnd(quiet: nat, data: Bytes): seq<Option<Bytes>> {
    if quiet == 0 then [Some(data)] else [None] + OnceAtEnd(quiet - 1, data)
  }

  /** When only the last arrival completes the set, duplicates or not, there is one
      delivery and it comes last. */
  lemma {:induction false} ExpectedOnce(data: Bytes, seen: set<nat>, arrivals: seq<nat>)
    requires |arrivals| > 0
    requires seen + Seen(arrivals) == AllBlocks(data)
    requires seen + Seen(arrivals[..|arrivals| - 1]) != AllBlocks(data)
    ensures Expected(data, seen, arrivals) == OnceAtEnd(|arrivals| - 1, data)
    decreases |arrivals|
  {
    var i, rest := arrivals[0], arrivals[1..];
    assert arrivals == [i] + rest;
    SeenCons(i, rest);
    if |arrivals| == 1 {
      assert Seen(rest) == {} && seen + {i} == AllBlocks(data);
      assert Expected(data, {}, rest) == [];
    } else {
      ExpectedStep(data, seen, arrivals);
      ExpectedOnce(data, seen + {i}, rest);
    }
  }

  /** An arrival before the last completes nothing. */
  lemma ExpectedStep(data: Bytes, seen: set<nat>, arrivals: seq<nat>)
    requires |arrivals| > 1
    requires seen + Seen(arrivals) == AllBlocks(data)
    requires seen + Seen(arrivals[..|arrivals| - 1]) != AllBlocks(data)
    ensures var now, rest := seen + {arrivals[0]}, arrivals[1..];
      && now != AllBlocks(data) && now + Seen(rest) == AllBlocks(data)
      && now + Seen(rest[..|rest| - 1]) != AllBlocks(data)
  {
    var i, rest := arrivals[0], arrivals[1..];
    var front := rest[..|rest| - 1];
    assert arrivals == [i] + rest && arrivals[..|arrivals| - 1] == [i] + front;
    SeenCons(i, rest);
    SeenCons(i, front);
    SeenFront(rest);
    NotYetAll(seen, {i}, Seen(front), Seen(rest), AllBlocks(data));
  }

  lemma SeenFront(arrivals: seq<nat>)
    requires arrivals != []
    ensures Seen(arrivals[..|arrivals| - 1]) <= Seen(arrivals)
  {
    assert forall x :: x in arrivals[..|arrivals| - 1] ==> x in arrivals;
  }

  lemma NotYetAll(seen: set<nat>, one: set<nat>, front: set<nat>, rest: set<nat>, all: set<nat>)
    requires seen + (one + rest) == all && seen + (one + front) != all && front <= rest
    ensures seen + one != all && seen + one + rest == all && seen + one + front != all
  {
    assert seen + one + rest == seen + (one + rest);
    assert seen + one + front == seen + (one + front);
    assert seen + one == all ==> seen + one + front == all;
  }

  lemma CompletedOnce(data: Bytes, arrivals: seq<nat>)
    requires |arrivals| > 0 && Seen(arrivals) == AllBlocks(data)
    requires Seen(arrivals[..|arrivals| - 1]) != AllBlocks(data)
    ensures Expected(data, {}, arrivals) == OnceAtEnd(|arrivals| - 1, data)
  {
    var front := arrivals[..|arrivals| - 1];
    assert {} + Seen(arrivals) == Seen(arrivals) && {} + Seen(front) == Seen(front);
    ExpectedOnce(data, {}, arrivals);
  }

  // Messages.

  /** The datagram a message carries; one that cannot be read is dropped. */
  function ReadDatagram(msg: Bytes): Option<PublishDatagram> {
    match DecodePublish(msg)
    case Got(d, _) => Some(d)
    case Threw(_, _) => None
  }

  /** How the client takes a fragment: the tag is narrowed to `int`. */
  function PieceOf(d: PublishDatagram): Piece {
    Piece(d.header.name, ToInt32(d.header.offsetAndFin), d.mediaData)
  }

  /** The fragment a message carries. An unfragmented object goes another way. */
  function PieceRead(msg: Bytes): Option<Piece> {
    match ReadDatagram(msg)
    case Some(d) => if d.header.offsetAndFin == 1 then None else Some(PieceOf(d))
    case None => None
  }

  /** The fragments among messages, where `f` tells what each message carries. */
  ghost function Pieces(f: Bytes -> Option<Piece>, msgs: seq<Bytes>): seq<Piece> {
    if msgs == [] then []
    else (match f(msgs[0]) case Some(e) => [e] case None => []) + Pieces(f, msgs[1..])
  }

  ghost predicate IsAbout(f: Bytes -> Option<Piece>, msg: Bytes, name: Name) {
    f(msg).Some? && f(msg).value.name == name
  }

  /** The messages that carry fragments of `name`. */
  ghost function About(f: Bytes -> Option<Piece>, msgs: seq<Bytes>, name: Name): seq<Bytes> {
    if msgs == [] then []
    else (if IsAbout(f, msgs[0], name) then [msgs[0]] else []) + About(f, msgs[1..], name)
  }

  lemma {:induction false} OnlyPieces(f: Bytes -> Option<Piece>, msgs: seq<Bytes>, name: Name)
    ensures Only(Pieces(f, msgs), name) == Pieces(f, About(f, msgs, name))
  {
    if msgs == [] {
    } else {
      OnlyPieces(f, msgs[1..], name);
      var rest := About(f, msgs[1..], name);
      match f(msgs[0])
      case Some(e) =>
        var es := Pieces(f, msgs);
        assert es[1..] == Pieces(f, msgs[1..]);
        if e.name == name {
          var some := [msgs[0]] + rest;
          assert some[1..] == rest && About(f, msgs, name) == some;
          assert Pieces(f, some) == [e] + Pieces(f, rest);
        } else {
          assert About(f, msgs, name) == rest;
        }
      case None =>
        assert Pieces(f, msgs) == Pieces(f, msgs[1..]);
        assert About(f, msgs, name) == rest;
    }
  }

  /** Messages of a publisher, each picked by its block number. */
  ghost function Transmitted(messages: seq<Bytes>, arrivals: seq<nat>): seq<Bytes>
    requires forall j :: 0 <= j < |arrivals| ==> arrivals[j] < |messages|
    decreases |arrivals|
  {
    if arrivals == [] then []
    else [messages[arrivals[0]]] + Transmitted(messages, arrivals[1..])
  }

  /** Each message carries the block of its number. */
  ghost predicate Carry(f: Bytes -> Option<Piece>, messages: seq<Bytes>, name: Name, data: Bytes) {
    && |messages| == BlockCount(|data|)
    && forall i :: 0 <= i < |messages| ==>
         f(messages[i]) == Some(Piece(name, BlockTag(data, i), Block(data, i)))
  }

  lemma FragmentArrives(name: Name, streamId: UintVar, data: Bytes, i: nat)
    requires MAX_TRANSPORT_DATA_SIZE < |data| && i < BlockCount(|data|) && i < BLOCK_LIMIT
    ensures PieceRead(FragmentBytes(name, streamId, data, i))
         == Some(Piece(name, BlockTag(data, i), Block(data, i)))
  {
    FragmentOnWire(name, streamId, data, i);
  }

  lemma FragmentMessagesCarry(name: Name, streamId: UintVar, data: Bytes)
    requires MAX_TRANSPORT_DATA_SIZE < |data| && BlockCount(|data|) <= BLOCK_LIMIT
    ensures Carry(PieceRead, FragmentMessages(name, streamId, data), name, data)
  {
    var messages := FragmentMessages(name, streamId, data);
    forall i | 0 <= i < |messages|
      ensures PieceRead(messages[i]) == Some(Piece(name, BlockTag(data, i), Block(data, i)))
    {
      assert messages[i] == FragmentBytes(name, streamId, data, i);
      FragmentArrives(name, streamId, data, i);
    }
  }

  lemma {:induction false} TransmittedPieces(
    f: Bytes -> Option<Piece>, messages: seq<Bytes>, name: Name, data: Bytes, arrivals: seq<nat>)
    requires MAX_TRANSPORT_DATA_SIZE < |data| && ArrivalsOf(data, arrivals)
    requires Carry(f, messages, name, data)
    ensures Pieces(f, Transmitted(messages, arrivals)) == BlockPieces(name, data, arrivals)
    decreases |arrivals|
  {
    if arrivals == [] {
    } else {
      TransmittedPieces(f, messages, name, data, arrivals[1..]);
      var msgs := Transmitted(messages, arrivals);
      assert msgs[1..] == Transmitted(messages, arrivals[1..]);
    }
  }

  lemma NotWholeObject(data: Bytes, i: nat)
    requires MAX_TRANSPORT_DATA_SIZE < |data| && i < BlockCount(|data|)
    ensures BlockTag(data, i) != 1
  {}

  /** Fragments reach a cache, among them those of one object's blocks in any order
      and number. As long as the name is not purged, what the calls for this object
      deliver is the object, at exactly the arrivals that complete it. */
  lemma HeldBlocksDelivered(c: Cache, lim: Limits, es: seq<Piece>, name: Name, data: Bytes, arrivals: seq<nat>)
    requires Inv(c, lim) && Find(c, name) == None && NeverPurged(c, lim, es, name)
    requires MAX_TRANSPORT_DATA_SIZE < |data| && ArrivalsOf(data, arrivals)
    requires Only(es, name) == BlockPieces(name, data, arrivals)
    ensures Deliveries(c, lim, es, name) == Expected(data, {}, arrivals)
  {
    ActsAlone(c, lim, es, name);
    assert Tags(data, {}) == {};
    ObjectAlone(map[], name, data, {}, arrivals);
  }

  /** The same as long as not too many other names come in. */
  lemma BlocksDelivered(c: Cache, lim: Limits, es: seq<Piece>, name: Name, data: Bytes, arrivals: seq<nat>)
    requires Inv(c, lim) && Find(c, name) == None
    requires MAX_TRANSPORT_DATA_SIZE < |data| && ArrivalsOf(data, arrivals)
    requires Only(es, name) == BlockPieces(name, data, arrivals)
    requires FreshCount(c, lim, es) <= (lim.buffers - 1) * lim.names
    ensures Deliveries(c, lim, es, name) == Expected(data, {}, arrivals)
  {
    Retention(c, lim, es, name);
    HeldBlocksDelivered(c, lim, es, name, data, arrivals);
  }

  /** The same for messages that carry fragments. */
  lemma CarriedObjectDelivered(
    c: Cache, lim: Limits, f: Bytes -> Option<Piece>, msgs: seq<Bytes>,
    messages: seq<Bytes>, name: Name, data: Bytes, arrivals: seq<nat>)
    requires Inv(c, lim) && Find(c, name) == None
    requires MAX_TRANSPORT_DATA_SIZE < |data| && ArrivalsOf(data, arrivals)
    requires Carry(f, messages, name, data) && About(f, msgs, name) == Transmitted(messages, arrivals)
    requires FreshCount(c, lim, Pieces(f, msgs)) <= (lim.buffers - 1) * lim.names
    ensures Deliveries(c, lim, Pieces(f, msgs), name) == Expected(data, {}, arrivals)
  {
    OnlyPieces(f, msgs, name);
    TransmittedPieces(f, messages, name, data, arrivals);
    BlocksDelivered(c, lim, Pieces(f, msgs), name, data, arrivals);
  }

  /** End to end: the messages are those the publisher makes of the object and the
      receiver reads off the wire. */
  lemma ObjectDelivered(
    c: Cache, lim: Limits, msgs: seq<Bytes>,
    name: Name, streamId: UintVar, data: Bytes, arrivals: seq<nat>)
    requires Inv(c, lim) && Find(c, name) == None
    requires MAX_TRANSPORT_DATA_SIZE < |data| && BlockCount(|data|) <= BLOCK_LIMIT && ArrivalsOf(data, arrivals)
    requires About(PieceRead, msgs, name) == Transmitted(FragmentMessages(name, streamId, data), arrivals)
    requires FreshCount(c, lim, Pieces(PieceRead, msgs)) <= (lim.buffers - 1) * lim.names
    ensures Deliveries(c, lim, Pieces(PieceRead, msgs), name) == Expected(data, {}, arrivals)
  {
    FragmentMessagesCarry(name, streamId, data);
    CarriedObjectDelivered(c, lim, PieceRead, msgs,
      FragmentMessages(name, streamId, data), name, data, arrivals);
  }

  /** The same when every block arrives and the last to arrive is the one that
      completes the set, duplicates or not: the object is delivered once, intact,
      at that arrival. */
  lemma ObjectDeliveredOnce(
    c: Cache, lim: Limits, msgs: seq<Bytes>,
    name: Name, streamId: UintVar, data: Bytes, arrivals: seq<nat>)
    requires Inv(c, lim) && Find(c, name) == None
    requires MAX_TRANSPORT_DATA_SIZE < |data| && BlockCount(|data|) <= BLOCK_LIMIT && ArrivalsOf(data, arrivals)
    requires About(PieceRead, msgs, name) == Transmitted(FragmentMessages(name, streamId, data), arrivals)
    requires FreshCount(c, lim, Pieces(PieceRead, msgs)) <= (lim.buffers - 1) * lim.names
    requires |arrivals| > 0 && Seen(arrivals) == AllBlocks(data)
    requires Seen(arrivals[..|arrivals| - 1]) != AllBlocks(data)
    ensures Deliveries(c, lim, Pieces(PieceRead, msgs), name)
         == OnceAtEnd(|arrivals| - 1, data)
  {
    ObjectDelivered(c, lim, msgs, name, streamId, data, arrivals);
    CompletedOnce(data, arrivals);
  }

  lemma {:induction false} OnlyOwn(es: seq<Piece>, name: Name)
    requires forall j :: 0 <= j < |es| ==> es[j].name == name
    ensures Only(es, name) == es
  {
    if es == [] {
    } else {
      OnlyOwn(es[1..], name);
    }
  }

  lemma {:induction false} BlockEventsOwn(name: Name, data: Bytes, arrivals: seq<nat>)
    requires ArrivalsOf(data, arrivals)
    ensures forall j ::
      0 <= j < |BlockPieces(name, data, arrivals)| ==> BlockPieces(name, data, arrivals)[j].name == name
    decreases |arrivals|
  {
    if arrivals == [] {
    } else {
      BlockEventsOwn(name, data, arrivals[1..]);
    }
  }

  /** End to end without other traffic: the messages of an object, in any order
      and number, deliver it at exactly the arrivals that complete it. */
  lemma ObjectDeliveredAlone(
    c: Cache, lim: Limits, name: Name, streamId: UintVar, data: Bytes, arrivals: seq<nat>)
    requires Inv(c, lim) && 2 <= lim.buffers && Find(c, name) == None
    requires MAX_TRANSPORT_DATA_SIZE < |data| && BlockCount(|data|) <= BLOCK_LIMIT && ArrivalsOf(data, arrivals)
    ensures var msgs := Transmitted(FragmentMessages(name, streamId, data), arrivals);
      Deliveries(c, lim, Pieces(PieceRead, msgs), name) == Expected(data, {}, arrivals)
  {
    FragmentMessagesCarry(name, streamId, data);
    TransmittedPieces(PieceRead, FragmentMessages(name, streamId, data), name, data, arrivals);
    BlocksDeliveredAlone(c, lim, name, data, arrivals);
  }

  lemma BlocksDeliveredAlone(c: Cache, lim: Limits, name: Name, data: Bytes, arrivals: seq<nat>)
    requires Inv(c, lim) && 2 <= lim.buffers && Find(c, name) == None
    requires MAX_TRANSPORT_DATA_SIZE < |data| && ArrivalsOf(data, arrivals)
    ensures Deliveries(c, lim, BlockPieces(name, data, arrivals), name) == Expected(data, {}, arrivals)
  {
    var es := BlockPieces(name, data, arrivals);
    BlockEventsOwn(name, data, arrivals);
    OwnNeverPurged(c, lim, es, name);
    OnlyOwn(es, name);
    HeldBlocksDelivered(c, lim, es, name, data, arrivals);
  }

  // A whole object that is mistaken for a fragment.

  /** The client treats a datagram as a whole object when its unnarrowed tag is 1.
      Among the datagrams it does give to the cache, not testing a first fragment
      loses a delivery for exactly those whose tag narrows to 1. */
  lemma FirstCheckLosesIff(c: Cache, d: PublishDatagram)
    requires HeldOnce(c) && NoneEmpty(c) && IsFresh(c, PieceOf(d)) && d.header.offsetAndFin != 1
    ensures Insert(Touch(c), PieceOf(d)).1 == None
    ensures Tested(map[], PieceOf(d).tag, d.mediaData).1 == Some(d.mediaData) <==> d.header.offsetAndFin % TWO_32 == 1
  {
    FirstFragmentUnchecked(c, PieceOf(d));
    TestedSingle(PieceOf(d).tag, d.mediaData);
  }

  /** A message with such a tag: its object is complete, and an empty cache stores
      it and does not deliver it. */
  lemma WrappedTagLost(msg: Bytes, d: PublishDatagram, lim: Limits)
    requires DecodePublish(msg) == Got(d, []) && d.header.offsetAndFin != 1 && d.header.offsetAndFin % TWO_32 == 1
    requires 1 <= lim.names && 1 <= lim.buffers
    ensures Deliveries(Cache(map[], 1), lim, Pieces(PieceRead, [msg]), d.header.name) == [None]
    ensures Tested(map[], PieceOf(d).tag, d.mediaData).1 == Some(d.mediaData)
  {
    FragmentOf(msg, d);
    WrappedTagStored(PieceRead, msg, lim, PieceOf(d));
  }

  /** The least such tag, 2^32 + 1, arrives as it was sent. */
  lemma WrappedTagArrives(m: PublishDatagram)
    requires m.header.offsetAndFin == TWO_32 + 1 && m.mediaDataLength == |m.mediaData| < 0x1_0000
    ensures DecodePublish(EncodePublish(m)) == Got(m.(header := ReadBack(m.header)), [])
    ensures ReadBack(m.header).offsetAndFin == TWO_32 + 1
  {
    assert EncodePublish(m) + [] == EncodePublish(m);
    SmallMod(TWO_32 + 1, TWO_60);
    SmallMod(|m.mediaData|, TWO_60);
    PublishRoundTrip(m, []);
  }

  lemma FragmentOf(msg: Bytes, d: PublishDatagram)
    requires DecodePublish(msg) == Got(d, [])
    ensures PieceRead(msg) == if d.header.offsetAndFin == 1 then None else Some(PieceOf(d))
  {}

  lemma WrappedTagStored(f: Bytes -> Option<Piece>, msg: Bytes, lim: Limits, e: Piece)
    requires f(msg) == Some(e) && e.tag == 1 && 1 <= lim.names && 1 <= lim.buffers
    ensures Deliveries(Cache(map[], 1), lim, Pieces(f, [msg]), e.name) == [None]
    ensures Tested(map[], 1, e.data).1 == Some(e.data)
  {
    var c, none: seq<Piece> := Cache(map[], 1), [];
    InitInv(lim);
    assert Pieces(f, [msg][1..]) == none && Pieces(f, [msg]) == [e];
    assert [e][1..] == none && Deliveries(Step(c, lim, e).0, lim, none, e.name) == [];
    FirstFragmentUnchecked(c, e);
    TestedSingle(1, e.data);
  }
}
