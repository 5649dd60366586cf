/** Reassembly of fragments on the receiving side (src/quicr_client.cpp:
    notify_pub_fragment, handle_pub_fragment): a circular set of buffers, each
    mapping names to the fragments received so far. */
module Reassembly {
  import opened ByteOrder
  import opened Names
  import opened Ordered
  import opened Wrappers

  /** The fragments of one name, by tag. */
  type FragMap = map<int, Bytes>

  type Buffer = map<Name, FragMap>

  /** The static `fragments` and `cindex`. */
  datatype Cache = Cache(buffers: map<int, Buffer>, cindex: int)

  /** MAX_FRAGMENT_NAMES_PENDING_PER_BUFFER and MAX_FRAGMENT_BUFFERS. */
  datatype Limits = Limits(names: nat, buffers: nat)

  /** A fragment as the cache receives it; the tag has been narrowed to `int`. */
  datatype Piece = Piece(name: Name, tag: int, data: Bytes)

  // What one call does.

  /** `emplace` keeps an entry that is already there. */
  function Emplace(m: FragMap, tag: int, data: Bytes): (r: FragMap)
    ensures tag in r
  {
    if tag in m then m else m[tag := data]
  }

  /** The pass over the fragments in ascending tag order: each must start where
      the ones before it end. */
  function Join(m: FragMap, todo: set<int>, seqBytes: nat): Option<Bytes>
    requires todo <= m.Keys
    decreases |todo|
  {
    if todo == {} then Some([])
    else
      var tag := MinOf(todo);
      if tag / 2 != seqBytes then None
      else
        match Join(m, todo - {tag}, seqBytes + |m[tag]|)
        case None => None
        case Some(rest) => Some(m[tag] + rest)
  }

  /** The object, once the last fragment is there and no gap is left. */
  function Complete(m: FragMap): Option<Bytes>
    requires m != map[]
  {
    if MaxOf(m.Keys) % 2 != 1 then None else Join(m, m.Keys, 0)
  }

  /** The buffer that holds a name: the current one if it does, otherwise the
      first in index order. */
  function FindFrom(buffers: map<int, Buffer>, todo: set<int>, name: Name): Option<int>
    requires todo <= buffers.Keys
    decreases |todo|
  {
    if todo == {} then None
    else
      var i := MinOf(todo);
      if name in buffers[i] then Some(i) else FindFrom(buffers, todo - {i}, name)
  }

  function Find(c: Cache, name: Name): Option<int> {
    if c.cindex in c.buffers && name in c.buffers[c.cindex] then Some(c.cindex)
    else FindFrom(c.buffers, c.buffers.Keys, name)
  }

  /** Indexing `fragments` creates the buffer when there is none. */
  function Touch(c: Cache): Cache {
    if c.cindex in c.buffers then c else c.(buffers := c.buffers[c.cindex := map[]])
  }

  /** A fragment for the name held in buffer `i`. A completed object is taken out
      of the buffer it was found in. */
  function Extend(c: Cache, i: int, e: Piece): (Cache, Option<Bytes>)
    requires i in c.buffers && e.name in c.buffers[i]
  {
    var m := Emplace(c.buffers[i][e.name], e.tag, e.data);
    var done := Complete(m);
    var buffer := if done.Some? then c.buffers[i] - {e.name} else c.buffers[i][e.name := m];
    (c.(buffers := c.buffers[i := buffer]), done)
  }

  function Insert(c: Cache, e: Piece): (Cache, Option<Bytes>) {
    match Find(c, e.name)
    case Some(i) =>
      FindHolds(c, e.name);
      Extend(c, i, e)
    case None =>
      var t := Touch(c);
      (t.(buffers := t.buffers[c.cindex := t.buffers[c.cindex][e.name := map[e.tag := e.data]]]), None)
  }

  function BufferAt(c: Cache, i: int): Buffer {
    if i in c.buffers then c.buffers[i] else map[]
  }

  predicate IsFull(c: Cache, lim: Limits) {
    |BufferAt(c, c.cindex)| >= lim.names
  }

  function NextIndex(c: Cache, lim: Limits): int {
    if c.cindex < lim.buffers then c.cindex + 1 else 1
  }

  /** Once the current buffer is full the next one is purged and made current. */
  function Rotate(c: Cache, lim: Limits): Cache {
    if IsFull(c, lim) then Cache(c.buffers - {NextIndex(c, lim)}, NextIndex(c, lim)) else c
  }

  function Step(c: Cache, lim: Limits, e: Piece): (Cache, Option<Bytes>) {
    var (inserted, done) := Insert(Touch(c), e);
    (Rotate(inserted, lim), done)
  }

  lemma FindFromHolds(buffers: map<int, Buffer>, todo: set<int>, name: Name)
    requires todo <= buffers.Keys
    ensures match FindFrom(buffers, todo, name)
      case Some(i) => i in todo && name in buffers[i]
      case None => forall i :: i in todo ==> name !in buffers[i]
    decreases |todo|
  {
    if todo == {} {
    } else {
      var i := MinOf(todo);
      if name !in buffers[i] {
        FindFromHolds(buffers, todo - {i}, name);
      }
    }
  }

  lemma FindHolds(c: Cache, name: Name)
    ensures match Find(c, name)
      case Some(i) => i in c.buffers && name in c.buffers[i]
      case None => forall i :: i in c.buffers ==> name !in c.buffers[i]
  {
    FindFromHolds(c.buffers, c.buffers.Keys, name);
  }

  // The cache as an object that is updated in place.

  /** The reassembly part of notify_pub_fragment: None when the fragments are not
      yet complete. */
  method ReassembleFragments(m: FragMap) returns (done: Option<Bytes>)
    requires m != map[]
    ensures done == Complete(m)
  {
    if MaxOf(m.Keys) % 2 != 1 {
      return None;
    }
    var reassembled := [];
    var seqBytes: nat := 0;
    ghost var total := Join(m, m.Keys, 0);
    assert total.Some? ==> [] + total.value == total.value;
    var todo := m.Keys;
    while todo != {}
      invariant todo <= m.Keys
      invariant match Join(m, todo, seqBytes)
        case None => total == None
        case Some(rest) => total == Some(reassembled + rest)
      decreases |todo|
    {
      var tag := MinOf(todo);
      if tag / 2 - seqBytes != 0 {
        return None;
      }
      ghost var rest := Join(m, todo - {tag}, seqBytes + |m[tag]|);
      assert rest.Some? ==> reassembled + (m[tag] + rest.value) == (reassembled + m[tag]) + rest.value;
      reassembled := reassembled + m[tag];
      seqBytes := seqBytes + |m[tag]|;
      todo := todo - {tag};
    }
    assert reassembled + [] == reassembled;
    done := Some(reassembled);
  }

  class FragmentCache {
    var fragments: map<int, Buffer>
    var cindex: int

    constructor ()
      ensures Value() == Cache(map[], 1)
    {
      fragments, cindex := map[], 1;
    }

    ghost function Value(): Cache
      reads this
    {
      Cache(fragments, cindex)
    }

    /** One fragment: the object, when this fragment completes it. */
    method HandlePubFragment(e: Piece, lim: Limits) returns (done: Option<Bytes>)
      modifies this
      ensures (Value(), done) == Step(old(Value()), lim, e)
    {
      done := None;
      if cindex !in fragments {
        fragments := fragments[cindex := map[]];
      }
      ghost var start := Value();
      if e.name in fragments[cindex] {
        done := ExtendAt(cindex, e);
      } else {
        var found := false;
        var todo := fragments.Keys;
        while todo != {} && !found
          invariant todo <= fragments.Keys
          invariant !found ==> Value() == start && done == None
          invariant !found ==> Find(start, e.name) == FindFrom(fragments, todo, e.name)
          invariant found ==> (Value(), done) == Insert(start, e)
          decreases |todo|, !found
        {
          var i := MinOf(todo);
          if e.name in fragments[i] {
            done := ExtendAt(i, e);
            found := true;
            break;
          }
          todo := todo - {i};
        }
        if !found {
          fragments := fragments[cindex := fragments[cindex][e.name := map[e.tag := e.data]]];
        }
      }
      RotateIfFull(lim);
    }

    method ExtendAt(i: int, e: Piece) returns (done: Option<Bytes>)
      requires i in fragments && e.name in fragments[i]
      modifies this`fragments
      ensures (Value(), done) == Extend(old(Value()), i, e)
    {
      var m := Emplace(fragments[i][e.name], e.tag, e.data);
      done := ReassembleFragments(m);
      if done.Some? {
        fragments := fragments[i := fragments[i] - {e.name}];
      } else {
        fragments := fragments[i := fragments[i][e.name := m]];
      }
    }

    method RotateIfFull(lim: Limits)
      requires cindex in fragments
      modifies this
      ensures Value() == Rotate(old(Value()), lim)
    {
      ghost var c := Value();
      assert IsFull(c, lim) <==> |fragments[cindex]| >= lim.names;
      if |fragments[cindex]| >= lim.names {
        if cindex < lim.buffers {
          cindex := cindex + 1;
        } else {
          cindex := 1;
        }
        assert cindex == NextIndex(c, lim);
        fragments := fragments - {cindex};
        assert Value() == Rotate(c, lim);
      }
    }
  }
}
