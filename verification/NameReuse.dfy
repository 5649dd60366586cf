/** What the cache makes of a name that is used for more than one object: it keeps
    the first fragment of each tag, whichever object it comes from. */
module NameReuse {
  import opened ByteOrder
  import opened CacheRuns
  import opened EndToEnd
  import opened Fragmentation
  import opened Names
  import opened Ordered
  import opened Reassembly
  import opened Wrappers

  // Any mixture of blocks.

  const SLOT := 2 * MAX_TRANSPORT_DATA_SIZE

  /** A fragment as a publisher makes it: an even tag for a full block, or an odd one
      for a last block. */
  ghost predicate IsBlock(tag: int, data: Bytes) {
    && 0 <= tag && (tag % SLOT == 0 || tag % SLOT == 1) && 1 <= |data| <= MAX_TRANSPORT_DATA_SIZE
    && (tag % SLOT == 0 ==> |data| == MAX_TRANSPORT_DATA_SIZE)
  }

  /** Fragments of any number of objects. */
  ghost predicate BlockMap(m: FragMap) {
    forall tag :: tag in m ==> IsBlock(tag, m[tag])
  }

  ghost function SlotCount(m: FragMap): int
    requires m != map[]
  {
    MaxOf(m.Keys) / SLOT + 1
  }

  ghost predicate ExactlyOne(m: FragMap, i: int) {
    (SLOT * i in m) != (SLOT * i + 1 in m)
  }

  ghost function SlotTag(m: FragMap, i: int): int {
    if SLOT * i in m then SLOT * i else SLOT * i + 1
  }

  /** From offset `i` on every offset has one fragment, full but for the last. */
  ghost predicate FilledFrom(m: FragMap, i: int)
    requires m != map[]
  {
    forall j :: i <= j < SlotCount(m) ==>
      ExactlyOne(m, j) && (j < SlotCount(m) - 1 ==> |m[SlotTag(m, j)]| == MAX_TRANSPORT_DATA_SIZE)
  }

  ghost function JoinSlots(m: FragMap, i: int): Bytes
    requires m != map[] && FilledFrom(m, i)
    decreases SlotCount(m) - i
  {
    if i >= SlotCount(m) then []
    else
      assert ExactlyOne(m, i);
      m[SlotTag(m, i)] + JoinSlots(m, i + 1)
  }

  ghost function From(m: FragMap, i: int): set<int> {
    set tag | tag in m.Keys && SLOT * i <= tag
  }

  ghost function JoinedFrom(m: FragMap, i: int): Option<Bytes>
    requires m != map[]
  {
    if FilledFrom(m, i) then Some(JoinSlots(m, i)) else None
  }

  /** The pass over the fragments from offset `i` on. */
  lemma {:induction false} JoinFromSlot(m: FragMap, i: int)
    requires m != map[] && BlockMap(m) && 0 <= i <= SlotCount(m)
    ensures Join(m, From(m, i), MAX_TRANSPORT_DATA_SIZE * i) == JoinedFrom(m, i)
    decreases SlotCount(m) - i
  {
    if i == SlotCount(m) {
      NothingBeyond(m);
    } else {
      JoinFromSlot(m, i + 1);
      SlotsFrom(m, i);
      if SLOT * i in m {
        if SLOT * i + 1 in m {
          BothInSlot(m, i);
        } else {
          EvenInSlot(m, i);
        }
      } else if SLOT * i + 1 in m {
        OddInSlot(m, i);
      } else {
        EmptySlot(m, i);
      }
    }
  }

  lemma NothingBeyond(m: FragMap)
    requires m != map[]
    ensures From(m, SlotCount(m)) == {} && FilledFrom(m, SlotCount(m)) && JoinSlots(m, SlotCount(m)) == []
  {}

  /** The fragments at offset `i` and those after it. */
  lemma SlotsFrom(m: FragMap, i: int)
    requires m != map[] && BlockMap(m) && 0 <= i < SlotCount(m)
    ensures From(m, i) == From(m, i + 1)
      + (if SLOT * i in m then {SLOT * i} else {}) + (if SLOT * i + 1 in m then {SLOT * i + 1} else {})
    ensures From(m, i) != {}
  {
    assert MaxOf(m.Keys) in From(m, i);
    forall tag | tag in From(m, i) && tag !in From(m, i + 1)
      ensures tag == SLOT * i || tag == SLOT * i + 1
    {
      assert IsBlock(tag, m[tag]);
    }
  }

  lemma Least(s: set<int>, t: int)
    requires t in s && forall x :: x in s ==> t <= x
    ensures s != {} && MinOf(s) == t
  {}

  lemma NotFilled(m: FragMap, i: int)
    requires m != map[] && i < SlotCount(m) && !ExactlyOne(m, i)
    ensures JoinedFrom(m, i) == None
  {}

  /** Neither tag: the next fragment starts too late. */
  lemma EmptySlot(m: FragMap, i: int)
    requires m != map[] && BlockMap(m) && 0 <= i < SlotCount(m) && SLOT * i !in m && SLOT * i + 1 !in m
    requires From(m, i) == From(m, i + 1) && From(m, i) != {}
    ensures Join(m, From(m, i), MAX_TRANSPORT_DATA_SIZE * i) == JoinedFrom(m, i)
  {
    NotFilled(m, i);
    var t := MinOf(From(m, i));
    assert t in From(m, i + 1);
    JoinStep(m, From(m, i), t, MAX_TRANSPORT_DATA_SIZE * i);
  }

  /** Both tags: the second fragment starts where the first does. */
  lemma BothInSlot(m: FragMap, i: int)
    requires m != map[] && BlockMap(m) && 0 <= i < SlotCount(m) && SLOT * i in m && SLOT * i + 1 in m
    ensures Join(m, From(m, i), MAX_TRANSPORT_DATA_SIZE * i) == JoinedFrom(m, i)
  {
    NotFilled(m, i);
    var todo := From(m, i);
    assert SLOT * i in todo && IsBlock(SLOT * i, m[SLOT * i]);
    Least(todo, SLOT * i);
    JoinStep(m, todo, SLOT * i, MAX_TRANSPORT_DATA_SIZE * i);
    var rest := todo - {SLOT * i};
    assert SLOT * i + 1 in rest;
    Least(rest, SLOT * i + 1);
    JoinStep(m, rest, SLOT * i + 1, MAX_TRANSPORT_DATA_SIZE * (i + 1));
  }

  /** A full block: the pass goes on at the next offset. */
  lemma EvenInSlot(m: FragMap, i: int)
    requires m != map[] && BlockMap(m) && 0 <= i < SlotCount(m) && SLOT * i in m && SLOT * i + 1 !in m
    requires From(m, i) == From(m, i + 1) + {SLOT * i}
    requires Join(m, From(m, i + 1), MAX_TRANSPORT_DATA_SIZE * (i + 1)) == JoinedFrom(m, i + 1)
    ensures Join(m, From(m, i), MAX_TRANSPORT_DATA_SIZE * i) == JoinedFrom(m, i)
  {
    var todo := From(m, i);
    assert IsBlock(SLOT * i, m[SLOT * i]);
    Least(todo, SLOT * i);
    JoinStep(m, todo, SLOT * i, MAX_TRANSPORT_DATA_SIZE * i);
    assert todo - {SLOT * i} == From(m, i + 1);
    FilledNext(m, i);
  }

  lemma FilledNext(m: FragMap, i: int)
    requires m != map[] && 0 <= i < SlotCount(m) && ExactlyOne(m, i)
    requires |m[SlotTag(m, i)]| == MAX_TRANSPORT_DATA_SIZE
    ensures FilledFrom(m, i) <==> FilledFrom(m, i + 1)
    ensures FilledFrom(m, i) ==> JoinSlots(m, i) == m[SlotTag(m, i)] + JoinSlots(m, i + 1)
  {
    if FilledFrom(m, i + 1) {
      forall j | i <= j < SlotCount(m)
        ensures ExactlyOne(m, j) && (j < SlotCount(m) - 1 ==> |m[SlotTag(m, j)]| == MAX_TRANSPORT_DATA_SIZE)
      {
        if j != i {
          assert i + 1 <= j;
        }
      }
    }
  }

  /** A last block: the pass goes on only if it is full or nothing follows. */
  lemma OddInSlot(m: FragMap, i: int)
    requires m != map[] && BlockMap(m) && 0 <= i < SlotCount(m) && SLOT * i !in m && SLOT * i + 1 in m
    requires From(m, i) == From(m, i + 1) + {SLOT * i + 1}
    requires Join(m, From(m, i + 1), MAX_TRANSPORT_DATA_SIZE * (i + 1)) == JoinedFrom(m, i + 1)
    ensures Join(m, From(m, i), MAX_TRANSPORT_DATA_SIZE * i) == JoinedFrom(m, i)
  {
    var todo, tag := From(m, i), SLOT * i + 1;
    assert IsBlock(tag, m[tag]);
    Least(todo, tag);
    JoinStep(m, todo, tag, MAX_TRANSPORT_DATA_SIZE * i);
    assert todo - {tag} == From(m, i + 1);
    if |m[tag]| == MAX_TRANSPORT_DATA_SIZE {
      FilledNext(m, i);
    } else if i == SlotCount(m) - 1 {
      NothingBeyond(m);
      LastSlot(m);
    } else {
      assert MaxOf(m.Keys) in From(m, i + 1);
      LateStart(m, i, MAX_TRANSPORT_DATA_SIZE * i + |m[tag]|);
      ShortBetween(m, i);
    }
  }

  /** After a shorter block the next one starts too late. */
  lemma LateStart(m: FragMap, i: int, at: nat)
    requires BlockMap(m) && 0 <= i && From(m, i + 1) != {} && at < MAX_TRANSPORT_DATA_SIZE * (i + 1)
    ensures Join(m, From(m, i + 1), at) == None
  {
    var t := MinOf(From(m, i + 1));
    assert IsBlock(t, m[t]);
    JoinStep(m, From(m, i + 1), t, at);
  }

  lemma ShortBetween(m: FragMap, i: int)
    requires m != map[] && 0 <= i < SlotCount(m) - 1
    requires ExactlyOne(m, i) && |m[SlotTag(m, i)]| != MAX_TRANSPORT_DATA_SIZE
    ensures JoinedFrom(m, i) == None
  {}

  lemma LastSlot(m: FragMap)
    requires m != map[] && ExactlyOne(m, SlotCount(m) - 1)
    ensures FilledFrom(m, SlotCount(m) - 1)
    ensures JoinSlots(m, SlotCount(m) - 1) == m[SlotTag(m, SlotCount(m) - 1)]
  {
    NothingBeyond(m);
    assert JoinSlots(m, SlotCount(m)) == [];
  }

  /** Any mixture of blocks is found complete exactly when it ends with a last block,
      no offset up to it is missing or there twice, and no shorter block is in
      between; then it gives the blocks in order, whatever they come from. */
  lemma MixtureComplete(m: FragMap)
    requires m != map[] && BlockMap(m)
    ensures Complete(m) == if MaxOf(m.Keys) % 2 == 1 then JoinedFrom(m, 0) else None
  {
    assert IsBlock(MaxOf(m.Keys), m[MaxOf(m.Keys)]);
    JoinFromSlot(m, 0);
    assert From(m, 0) == m.Keys by {
      forall tag | tag in m.Keys
        ensures 0 <= tag
      {
        assert IsBlock(tag, m[tag]);
      }
    }
  }

  /** Once two fragments start at one offset the name is stuck: no further block
      completes it. */
  lemma {:induction false} StuckForGood(m: FragMap, es: seq<Piece>, i: int)
    requires BlockMap(m) && 0 <= i && SLOT * i in m && SLOT * i + 1 in m
    requires forall j :: 0 <= j < |es| ==> IsBlock(es[j].tag, es[j].data)
    ensures forall j :: 0 <= j < |Alone(m, es)| ==> Alone(m, es)[j] == None
    decreases |es|
  {
    if es == [] {
    } else {
      var next := Emplace(m, es[0].tag, es[0].data);
      Stuck(next, i);
      StuckForGood(next, es[1..], i);
    }
  }

  lemma Stuck(m: FragMap, i: int)
    requires BlockMap(m) && 0 <= i && SLOT * i in m && SLOT * i + 1 in m
    ensures m != map[] && Complete(m) == None
  {
    MixtureComplete(m);
    assert SLOT * i + 1 <= MaxOf(m.Keys);
    NotFilledBefore(m, i);
  }

  lemma NotFilledBefore(m: FragMap, i: int)
    requires m != map[] && 0 <= i < SlotCount(m) && !ExactlyOne(m, i)
    ensures JoinedFrom(m, 0) == None
  {}

  /** Objects of different numbers of blocks meet in such a way. */
  lemma DifferentCountsCollide(a: Bytes, b: Bytes)
    requires 0 < BlockCount(|a|) < BlockCount(|b|)
    ensures var last := BlockCount(|a|) - 1;
      BlockTag(a, last) == SLOT * last + 1 && BlockTag(b, last) == SLOT * last
  {}

  // Two objects of as many blocks.

  /** A block of the first or of the second object. */
  datatype Pick = Pick(second: bool, block: nat)

  ghost function Chosen(a: Bytes, b: Bytes, second: bool): Bytes {
    if second then b else a
  }

  ghost predicate PicksOf(a: Bytes, picks: seq<Pick>) {
    forall j :: 0 <= j < |picks| ==> picks[j].block < BlockCount(|a|)
  }

  ghost function PickPieces(name: Name, a: Bytes, b: Bytes, picks: seq<Pick>): seq<Piece>
    requires BlockCount(|a|) == BlockCount(|b|) && PicksOf(a, picks)
    decreases |picks|
  {
    if picks == [] then []
    else
      var x := picks[0];
      [Piece(name, BlockTag(a, x.block), Block(Chosen(a, b, x.second), x.block))] + PickPieces(name, a, b, picks[1..])
  }

  /** Which object the block kept of each number comes from: the first to arrive. */
  type Kept = map<nat, bool>

  ghost predicate KeptOf(a: Bytes, kept: Kept) {
    BlocksOf(a, kept.Keys)
  }

  ghost function Keep(kept: Kept, x: Pick): Kept {
    if x.block in kept then kept else kept[x.block := x.second]
  }

  /** The blocks kept, joined from block `i` on. */
  ghost function Assembled(a: Bytes, b: Bytes, kept: Kept, i: nat): Bytes
    requires BlockCount(|a|) == BlockCount(|b|) && kept.Keys == AllBlocks(a) && i <= BlockCount(|a|)
    decreases BlockCount(|a|) - i
  {
    if i == BlockCount(|a|) then []
    else Block(Chosen(a, b, kept[i]), i) + Assembled(a, b, kept, i + 1)
  }

  ghost predicate HoldsKept(m: FragMap, a: Bytes, b: Bytes, kept: Kept)
    requires BlockCount(|a|) == BlockCount(|b|) && KeptOf(a, kept)
  {
    && m.Keys == Tags(a, kept.Keys)
    && forall i :: i in kept ==> m[BlockTag(a, i)] == Block(Chosen(a, b, kept[i]), i)
  }

  /** The offset and the parity of a block's tag. */
  lemma TagShape(a: Bytes, i: nat)
    requires i < BlockCount(|a|)
    ensures BlockTag(a, i) == SLOT * i + (if i + 1 == BlockCount(|a|) then 1 else 0)
    ensures BlockTag(a, i) / SLOT == i
  {}

  lemma KeptIsBlock(a: Bytes, b: Bytes, second: bool, i: nat)
    requires BlockCount(|a|) == BlockCount(|b|) && i < BlockCount(|a|)
    ensures IsBlock(BlockTag(a, i), Block(Chosen(a, b, second), i))
  {
    TagShape(a, i);
    BlockBounds(Chosen(a, b, second), i);
  }

  lemma TagKept(a: Bytes, kept: Kept, i: nat)
    requires KeptOf(a, kept) && i < BlockCount(|a|)
    ensures BlockTag(a, i) in Tags(a, kept.Keys) <==> i in kept
  {
    if BlockTag(a, i) in Tags(a, kept.Keys) {
      var j :| j in kept.Keys && BlockTag(a, j) == BlockTag(a, i);
      TagShape(a, i);
      TagShape(a, j);
    }
  }

  /** Of the two tags of an offset only the block's own is used. */
  lemma OtherTag(a: Bytes, kept: Kept, i: nat, tag: int)
    requires KeptOf(a, kept) && i < BlockCount(|a|)
    requires (tag == SLOT * i || tag == SLOT * i + 1) && tag != BlockTag(a, i)
    ensures tag !in Tags(a, kept.Keys)
  {
    if tag in Tags(a, kept.Keys) {
      var j :| j in kept.Keys && BlockTag(a, j) == tag;
      TagShape(a, i);
      TagShape(a, j);
    }
  }

  lemma KeptBlocks(m: FragMap, a: Bytes, b: Bytes, kept: Kept)
    requires BlockCount(|a|) == BlockCount(|b|) && KeptOf(a, kept) && HoldsKept(m, a, b, kept)
    ensures BlockMap(m)
  {
    forall tag | tag in m
      ensures IsBlock(tag, m[tag])
    {
      var i :| i in kept.Keys && tag == BlockTag(a, i);
      KeptIsBlock(a, b, kept[i], i);
    }
  }

  /** Only one of the two tags of an offset is used by objects of as many blocks. */
  lemma KeptSlot(m: FragMap, a: Bytes, b: Bytes, kept: Kept, i: nat)
    requires BlockCount(|a|) == BlockCount(|b|) && KeptOf(a, kept) && HoldsKept(m, a, b, kept) && i < BlockCount(|a|)
    ensures ExactlyOne(m, i) <==> i in kept
    ensures i in kept ==> SlotTag(m, i) == BlockTag(a, i) && m[SlotTag(m, i)] == Block(Chosen(a, b, kept[i]), i)
  {
    TagShape(a, i);
    TagKept(a, kept, i);
    OtherTag(a, kept, i, if BlockTag(a, i) == SLOT * i then SLOT * i + 1 else SLOT * i);
  }

  lemma {:induction false} SlotsAssembled(m: FragMap, a: Bytes, b: Bytes, kept: Kept, i: nat)
    requires BlockCount(|a|) == BlockCount(|b|) && KeptOf(a, kept) && HoldsKept(m, a, b, kept)
    requires kept.Keys == AllBlocks(a) && i <= BlockCount(|a|) && m != map[] && SlotCount(m) == BlockCount(|a|)
    ensures FilledFrom(m, i) && JoinSlots(m, i) == Assembled(a, b, kept, i)
    decreases BlockCount(|a|) - i
  {
    if i == BlockCount(|a|) {
      NothingBeyond(m);
    } else {
      SlotsAssembled(m, a, b, kept, i + 1);
      KeptSlot(m, a, b, kept, i);
      SlotBefore(m, i, Chosen(a, b, kept[i]), BlockCount(|a|));
      assert Assembled(a, b, kept, i) == Block(Chosen(a, b, kept[i]), i) + Assembled(a, b, kept, i + 1);
    }
  }

  lemma SlotBefore(m: FragMap, i: nat, data: Bytes, k: nat)
    requires m != map[] && i < SlotCount(m) == k == BlockCount(|data|)
    requires ExactlyOne(m, i) && m[SlotTag(m, i)] == Block(data, i) && FilledFrom(m, i + 1)
    ensures FilledFrom(m, i) && JoinSlots(m, i) == Block(data, i) + JoinSlots(m, i + 1)
  {
    BlockBounds(data, i);
    if i + 1 < k {
      FilledNext(m, i);
    } else {
      LastSlot(m);
      NothingBeyond(m);
    }
  }

  /** The blocks kept of two objects are found complete exactly when there is one of
      each number. */
  lemma KeptComplete(m: FragMap, a: Bytes, b: Bytes, kept: Kept)
    requires BlockCount(|a|) == BlockCount(|b|) && KeptOf(a, kept) && HoldsKept(m, a, b, kept) && kept != map[]
    ensures m != map[]
    ensures Complete(m) == if kept.Keys == AllBlocks(a) then Some(Assembled(a, b, kept, 0)) else None
  {
    var some: nat :| some in kept;
    TagKept(a, kept, some);
    KeptBlocks(m, a, b, kept);
    MixtureComplete(m);
    if BlockCount(|a|) - 1 in kept {
      LastKept(m, a, kept);
      if kept.Keys == AllBlocks(a) {
        SlotsAssembled(m, a, b, kept, 0);
      } else {
        var missing: nat :| missing in AllBlocks(a) && missing !in kept;
        KeptSlot(m, a, b, kept, missing);
        NotFilledBefore(m, missing);
      }
    } else {
      LastNotKept(m, a, kept);
      assert BlockCount(|a|) - 1 in AllBlocks(a);
    }
  }

  lemma LastKept(m: FragMap, a: Bytes, kept: Kept)
    requires KeptOf(a, kept) && m.Keys == Tags(a, kept.Keys) && BlockCount(|a|) - 1 in kept && m != map[]
    ensures SlotCount(m) == BlockCount(|a|) && MaxOf(m.Keys) % 2 == 1
  {
    var last := BlockCount(|a|) - 1;
    TagKept(a, kept, last);
    var i :| i in kept.Keys && MaxOf(m.Keys) == BlockTag(a, i);
    TagsAscend(a, i, last);
    TagShape(a, last);
  }

  lemma TagsAscend(a: Bytes, i: nat, j: nat)
    requires i < j + 1 <= BlockCount(|a|)
    ensures BlockTag(a, i) <= BlockTag(a, j) && (i < j ==> BlockTag(a, i) < BlockTag(a, j))
  {
    TagShape(a, i);
    TagShape(a, j);
  }

  lemma LastNotKept(m: FragMap, a: Bytes, kept: Kept)
    requires KeptOf(a, kept) && m.Keys == Tags(a, kept.Keys) && BlockCount(|a|) - 1 !in kept && m != map[]
    ensures MaxOf(m.Keys) % 2 == 0
  {
    var i :| i in kept.Keys && MaxOf(m.Keys) == BlockTag(a, i);
    TagShape(a, i);
  }

  lemma KeepHolds(m: FragMap, a: Bytes, b: Bytes, kept: Kept, x: Pick)
    requires BlockCount(|a|) == BlockCount(|b|) && KeptOf(a, kept) && HoldsKept(m, a, b, kept)
    requires x.block < BlockCount(|a|)
    ensures KeptOf(a, Keep(kept, x))
    ensures HoldsKept(Emplace(m, BlockTag(a, x.block), Block(Chosen(a, b, x.second), x.block)), a, b, Keep(kept, x))
  {
    TagKept(a, kept, x.block);
    if x.block !in kept {
      KeepNew(m, a, b, kept, x.block, x.second);
    }
  }

  lemma KeepNew(m: FragMap, a: Bytes, b: Bytes, kept: Kept, i: nat, second: bool)
    requires BlockCount(|a|) == BlockCount(|b|) && KeptOf(a, kept) && HoldsKept(m, a, b, kept)
    requires i < BlockCount(|a|) && i !in kept && BlockTag(a, i) !in m
    ensures KeptOf(a, kept[i := second])
    ensures HoldsKept(m[BlockTag(a, i) := Block(Chosen(a, b, second), i)], a, b, kept[i := second])
  {
    var more := kept[i := second];
    var tag, block := BlockTag(a, i), Block(Chosen(a, b, second), i);
    TagsWith(a, kept.Keys, i);
    assert more.Keys == kept.Keys + {i};
    forall j | j in more
      ensures m[tag := block][BlockTag(a, j)] == Block(Chosen(a, b, more[j]), j)
    {
      if j != i {
        KeptTag(m, a, b, kept, j);
      }
    }
  }

  lemma KeptTag(m: FragMap, a: Bytes, b: Bytes, kept: Kept, j: nat)
    requires BlockCount(|a|) == BlockCount(|b|) && KeptOf(a, kept) && HoldsKept(m, a, b, kept) && j in kept
    ensures BlockTag(a, j) in m && m[BlockTag(a, j)] == Block(Chosen(a, b, kept[j]), j)
  {
    assert BlockTag(a, j) in Tags(a, kept.Keys);
  }

  /** What arrivals of blocks of either object should deliver: at each arrival that
      completes the block numbers since the last delivery, the blocks kept. */
  ghost function ExpectedOf(a: Bytes, b: Bytes, kept: Kept, picks: seq<Pick>): seq<Option<Bytes>>
    requires BlockCount(|a|) == BlockCount(|b|)
    decreases |picks|
  {
    if picks == [] then []
    else
      var now := Keep(kept, picks[0]);
      if now.Keys == AllBlocks(a) then [Some(Assembled(a, b, now, 0))] + ExpectedOf(a, b, map[], picks[1..])
      else [None] + ExpectedOf(a, b, now, picks[1..])
  }

  lemma PickStep(m: FragMap, a: Bytes, b: Bytes, kept: Kept, x: Pick) returns (next: FragMap, done: Option<Bytes>)
    requires MAX_TRANSPORT_DATA_SIZE < |a| && BlockCount(|a|) == BlockCount(|b|) && x.block < BlockCount(|a|)
    requires KeptOf(a, kept) && HoldsKept(m, a, b, kept)
    ensures KeptOf(a, Keep(kept, x))
    ensures (next, done) == TakeIn(m, BlockTag(a, x.block), Block(Chosen(a, b, x.second), x.block))
    ensures done == if Keep(kept, x).Keys == AllBlocks(a) then Some(Assembled(a, b, Keep(kept, x), 0)) else None
    ensures HoldsKept(next, a, b, if done.Some? then map[] else Keep(kept, x))
  {
    var tag, data := BlockTag(a, x.block), Block(Chosen(a, b, x.second), x.block);
    KeepHolds(m, a, b, kept, x);
    KeptComplete(Emplace(m, tag, data), a, b, Keep(kept, x));
    TakenIsTested(m, a, x.block, data);
    NothingKept(a, b);
    done := Complete(Emplace(m, tag, data));
    next := if done.Some? then map[] else Emplace(m, tag, data);
  }

  lemma NothingKept(a: Bytes, b: Bytes)
    requires BlockCount(|a|) == BlockCount(|b|)
    ensures KeptOf(a, map[]) && HoldsKept(map[], a, b, map[])
  {
    assert Tags(a, {}) == {};
  }

  lemma TakenIsTested(m: FragMap, a: Bytes, i: nat, data: Bytes)
    requires MAX_TRANSPORT_DATA_SIZE < |a| && i < BlockCount(|a|)
    ensures TakeIn(m, BlockTag(a, i), data) == Tested(m, BlockTag(a, i), data)
  {
    NotWholeObject(a, i);
    TestedDiffersIff(m, BlockTag(a, i), data);
  }

  lemma {:induction false} PicksAlone(m: FragMap, name: Name, a: Bytes, b: Bytes, kept: Kept, picks: seq<Pick>)
    requires MAX_TRANSPORT_DATA_SIZE < |a| && BlockCount(|a|) == BlockCount(|b|) && PicksOf(a, picks)
    requires KeptOf(a, kept) && HoldsKept(m, a, b, kept)
    ensures Alone(m, PickPieces(name, a, b, picks)) == ExpectedOf(a, b, kept, picks)
    decreases |picks|
  {
    if picks == [] {
    } else {
      var es := PickPieces(name, a, b, picks);
      var next, done := PickStep(m, a, b, kept, picks[0]);
      assert es[1..] == PickPieces(name, a, b, picks[1..]);
      PicksAlone(next, name, a, b, if done.Some? then map[] else Keep(kept, picks[0]), picks[1..]);
    }
  }

  /** A name used for two objects of as many blocks, whose blocks arrive mixed in any
      way among any other traffic: as long as it is not purged, exactly the arrivals
      that complete the block numbers deliver, and they deliver of each number the
      block that arrived first. */
  lemma ReusedName(c: Cache, lim: Limits, es: seq<Piece>, name: Name, a: Bytes, b: Bytes, picks: seq<Pick>)
    requires Inv(c, lim) && Find(c, name) == None && NeverPurged(c, lim, es, name)
    requires MAX_TRANSPORT_DATA_SIZE < |a| && BlockCount(|a|) == BlockCount(|b|) && PicksOf(a, picks)
    requires Only(es, name) == PickPieces(name, a, b, picks)
    ensures Deliveries(c, lim, es, name) == ExpectedOf(a, b, map[], picks)
  {
    ActsAlone(c, lim, es, name);
    assert Tags(a, {}) == {};
    PicksAlone(map[], name, a, b, map[], picks);
  }

  /** The blocks kept are, from block `i` on, those of one object. */
  ghost predicate SameFrom(a: Bytes, b: Bytes, kept: Kept, whole: bool, i: nat)
    requires BlockCount(|a|) == BlockCount(|b|) && kept.Keys == AllBlocks(a)
  {
    forall j: nat :: i <= j < BlockCount(|a|) ==>
      Block(Chosen(a, b, kept[j]), j) == Block(Chosen(a, b, whole), j)
  }

  lemma SameFromNext(a: Bytes, b: Bytes, kept: Kept, whole: bool, i: nat)
    requires BlockCount(|a|) == BlockCount(|b|) && kept.Keys == AllBlocks(a) && i < BlockCount(|a|)
    ensures SameFrom(a, b, kept, whole, i) <==>
      Block(Chosen(a, b, kept[i]), i) == Block(Chosen(a, b, whole), i) && SameFrom(a, b, kept, whole, i + 1)
  {}

  /** What is delivered is an object exactly when its blocks all are. */
  lemma {:induction false} AssembledIff(a: Bytes, b: Bytes, kept: Kept, whole: bool, i: nat)
    requires BlockCount(|a|) == BlockCount(|b|) && kept.Keys == AllBlocks(a) && i <= BlockCount(|a|)
    ensures Assembled(a, b, kept, i) == JoinBlocks(Chosen(a, b, whole), i) <==> SameFrom(a, b, kept, whole, i)
    decreases BlockCount(|a|) - i
  {
    if i == BlockCount(|a|) {
      AssembledEnd(a, b, kept, whole);
    } else {
      AssembledIff(a, b, kept, whole, i + 1);
      SameFromNext(a, b, kept, whole, i);
      AssembledStep(a, b, kept, whole, i);
    }
  }

  lemma AssembledEnd(a: Bytes, b: Bytes, kept: Kept, whole: bool)
    requires BlockCount(|a|) == BlockCount(|b|) && kept.Keys == AllBlocks(a)
    ensures Assembled(a, b, kept, BlockCount(|a|)) == [] == JoinBlocks(Chosen(a, b, whole), BlockCount(|a|))
    ensures SameFrom(a, b, kept, whole, BlockCount(|a|))
  {}

  lemma AssembledStep(a: Bytes, b: Bytes, kept: Kept, whole: bool, i: nat)
    requires BlockCount(|a|) == BlockCount(|b|) && kept.Keys == AllBlocks(a) && i < BlockCount(|a|)
    ensures Assembled(a, b, kept, i) == JoinBlocks(Chosen(a, b, whole), i) <==>
      && Block(Chosen(a, b, kept[i]), i) == Block(Chosen(a, b, whole), i)
      && Assembled(a, b, kept, i + 1) == JoinBlocks(Chosen(a, b, whole), i + 1)
  {
    var goal := Chosen(a, b, whole);
    var kb, ob := Block(Chosen(a, b, kept[i]), i), Block(goal, i);
    BlockBounds(Chosen(a, b, kept[i]), i);
    BlockBounds(goal, i);
    if i + 1 < BlockCount(|a|) {
      SamePartsIff(kb, Assembled(a, b, kept, i + 1), ob, JoinBlocks(goal, i + 1));
    } else {
      assert Assembled(a, b, kept, i + 1) == [] && JoinBlocks(goal, i + 1) == [];
      assert kb + [] == kb && ob + [] == ob;
    }
  }

  lemma SamePartsIff(a: Bytes, b: Bytes, c: Bytes, d: Bytes)
    requires |a| == |c|
    ensures a + b == c + d <==> a == c && b == d
  {
    if a + b == c + d {
      assert a == (a + b)[..|a|] && c == (c + d)[..|a|] && b == (a + b)[|a|..] && d == (c + d)[|a|..];
    }
  }

  /** A reused name rebuilds something that was never published exactly when it keeps
      a block of each object that the other does not have. */
  lemma NeverPublishedIff(a: Bytes, b: Bytes, kept: Kept)
    requires MAX_TRANSPORT_DATA_SIZE < |a| && BlockCount(|a|) == BlockCount(|b|) && kept.Keys == AllBlocks(a)
    ensures Assembled(a, b, kept, 0) != a && Assembled(a, b, kept, 0) != b <==>
      && (exists i: nat :: i < BlockCount(|a|) && kept[i] && Block(a, i) != Block(b, i))
      && (exists j: nat :: j < BlockCount(|a|) && !kept[j] && Block(a, j) != Block(b, j))
  {
    AssembledIff(a, b, kept, false, 0);
    AssembledIff(a, b, kept, true, 0);
    BlocksPartition(a, 0);
    BlocksPartition(b, 0);
    assert a[0..] == a && b[0..] == b;
  }
}
