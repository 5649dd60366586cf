/** Properties of the fragment cache over whole runs: what every step keeps, how
    long a pending name is kept, and that for each name the cache behaves as an
    unbounded reassembler of its own. */
module CacheRuns {
  import opened ByteOrder
  import opened Names
  import opened Ordered
  import opened Reassembly
  import opened Wrappers

  // The invariant.

  ghost predicate HeldOnce(c: Cache) {
    forall i, j, n :: i in c.buffers && j in c.buffers && n in c.buffers[i] && n in c.buffers[j] ==> i == j
  }

  ghost predicate NoneEmpty(c: Cache) {
    forall i, n :: i in c.buffers && n in c.buffers[i] ==> c.buffers[i][n] != map[]
  }

  ghost predicate Bounded(c: Cache, lim: Limits) {
    && 1 <= c.cindex <= lim.buffers
    && (forall i :: i in c.buffers ==> 1 <= i <= lim.buffers && |c.buffers[i]| <= lim.names)
    && |BufferAt(c, c.cindex)| < lim.names
  }

  /** Indices stay in range, a name is held by one buffer, the current buffer is
      not full and no other is over-full, and every pending name has a fragment,
      so that looking at its greatest tag is safe. */
  ghost predicate Inv(c: Cache, lim: Limits) {
    HeldOnce(c) && NoneEmpty(c) && Bounded(c, lim)
  }

  lemma InitInv(lim: Limits)
    requires 1 <= lim.names && 1 <= lim.buffers
    ensures Inv(Cache(map[], 1), lim)
  {}

  /** The fragments pending for a name. */
  function View(c: Cache, name: Name): FragMap {
    match Find(c, name)
    case Some(i) =>
      FindHolds(c, name);
      c.buffers[i][name]
    case None => map[]
  }

  /** Under the invariant the buffer found is the only one that holds the name. */
  lemma ViewAt(c: Cache, i: int, name: Name)
    requires HeldOnce(c) && i in c.buffers && name in c.buffers[i]
    ensures Find(c, name) == Some(i) && View(c, name) == c.buffers[i][name]
  {
    FindHolds(c, name);
  }

  lemma ViewNowhere(c: Cache, name: Name)
    requires forall i :: i in c.buffers ==> name !in c.buffers[i]
    ensures Find(c, name) == None && View(c, name) == map[]
  {
    FindHolds(c, name);
  }

  /** The view is not empty exactly for the names held. */
  lemma ViewEmptyIff(c: Cache, name: Name)
    requires NoneEmpty(c)
    ensures View(c, name) == map[] <==> Find(c, name) == None
  {
    FindHolds(c, name);
  }

  // One step.

  ghost predicate IsFresh(c: Cache, e: Piece) {
    Find(c, e.name) == None
  }

  /** The names the rotation after this step throws away. */
  ghost function Purged(c: Cache, lim: Limits): set<Name> {
    if IsFull(c, lim) then BufferAt(c, NextIndex(c, lim)).Keys else {}
  }

  /** A fragment taken in and tested for completeness. */
  function Tested(pending: FragMap, tag: int, data: Bytes): (FragMap, Option<Bytes>) {
    var m := Emplace(pending, tag, data);
    if Complete(m).Some? then (map[], Complete(m)) else (m, None)
  }

  /** What a reassembler for a single name does with its fragments. The first one
      is not tested. */
  function TakeIn(pending: FragMap, tag: int, data: Bytes): (FragMap, Option<Bytes>) {
    if pending == map[] then (map[tag := data], None) else Tested(pending, tag, data)
  }

  lemma TouchSame(c: Cache, name: Name)
    requires HeldOnce(c) && NoneEmpty(c)
    ensures HeldOnce(Touch(c)) && NoneEmpty(Touch(c)) && Find(Touch(c), name) == Find(c, name)
    ensures View(Touch(c), name) == View(c, name)
    ensures forall i :: BufferAt(Touch(c), i) == BufferAt(c, i)
  {
    var t := Touch(c);
    FindHolds(c, name);
    match Find(c, name)
    case Some(i) => ViewAt(t, i, name);
    case None => ViewNowhere(t, name);
  }

  /** Two buffers that agree on every name but one. */
  ghost predicate SameExcept(a: Buffer, b: Buffer, name: Name) {
    forall k :: k != name ==> (k in a <==> k in b) && (k in a ==> a[k] == b[k])
  }

  /** `c` with the entry of one name changed, in the only buffer that may hold it. */
  ghost predicate EntryChanged(c: Cache, r: Cache, i: int, name: Name) {
    && i in c.buffers && r.buffers.Keys == c.buffers.Keys && r.cindex == c.cindex
    && (forall j :: j in c.buffers && j != i ==> r.buffers[j] == c.buffers[j] && name !in c.buffers[j])
    && SameExcept(r.buffers[i], c.buffers[i], name)
    && (name in r.buffers[i] ==> r.buffers[i][name] != map[])
  }

  lemma ChangedInv(c: Cache, r: Cache, i: int, name: Name)
    requires HeldOnce(c) && NoneEmpty(c) && EntryChanged(c, r, i, name)
    ensures HeldOnce(r) && NoneEmpty(r)
  {}

  lemma ChangedView(c: Cache, r: Cache, i: int, name: Name, n: Name)
    requires HeldOnce(c) && NoneEmpty(c) && EntryChanged(c, r, i, name)
    ensures n != name ==> View(r, n) == View(c, n)
    ensures View(r, name) == if name in r.buffers[i] then r.buffers[i][name] else map[]
  {
    ChangedInv(c, r, i, name);
    if name in r.buffers[i] {
      ViewAt(r, i, name);
    } else {
      ViewNowhere(r, name);
    }
    if n != name {
      FindHolds(c, n);
      match Find(c, n)
      case Some(j) => ViewAt(r, j, n);
      case None => ViewNowhere(r, n);
    }
  }

  /** Taking in a fragment changes the entry of its name, which grows the current
      buffer by one if the name is fresh, and no buffer otherwise. */
  lemma InsertShape(c: Cache, e: Piece) returns (i: int)
    requires HeldOnce(c) && NoneEmpty(c)
    ensures var t := Touch(c);
      var r := Insert(t, e).0;
      && EntryChanged(t, r, i, e.name)
      && (IsFresh(c, e) ==> i == c.cindex && |r.buffers[i]| == |t.buffers[i]| + 1)
      && (!IsFresh(c, e) ==> |r.buffers[i]| <= |t.buffers[i]|)
  {
    var t := Touch(c);
    TouchSame(c, e.name);
    FindHolds(t, e.name);
    match Find(t, e.name)
    case Some(k) =>
      i := k;
      ExtendShape(t, i, e);
    case None =>
      i := c.cindex;
      FreshShape(t, e);
  }

  lemma ExtendShape(t: Cache, i: int, e: Piece)
    requires HeldOnce(t) && NoneEmpty(t) && i in t.buffers && e.name in t.buffers[i]
    ensures var r := Extend(t, i, e).0;
      EntryChanged(t, r, i, e.name) && |r.buffers[i]| <= |t.buffers[i]|
  {
    SmallerWithout(t.buffers[i], e.name, Emplace(t.buffers[i][e.name], e.tag, e.data));
  }

  lemma FreshShape(t: Cache, e: Piece)
    requires t.cindex in t.buffers && Find(t, e.name) == None
    ensures var r := Insert(t, e).0;
      EntryChanged(t, r, t.cindex, e.name) && |r.buffers[t.cindex]| == |t.buffers[t.cindex]| + 1
  {
    FindHolds(t, e.name);
    var b := t.buffers[t.cindex];
    var single: FragMap := map[e.tag := e.data];
    var held := b[e.name := single];
    assert held.Keys == b.Keys + {e.name};
    assert Touch(t) == t;
    assert e.tag in single;
    var r := t.(buffers := t.buffers[t.cindex := held]);
    assert Insert(t, e).0 == r;
    assert SameExcept(held, b, e.name);
    assert r.buffers.Keys == t.buffers.Keys;
  }

  lemma SmallerWithout(b: Buffer, name: Name, m: FragMap)
    requires name in b
    ensures |b - {name}| == |b| - 1
    ensures |b[name := m]| == |b|
  {
    assert (b - {name}).Keys == b.Keys - {name};
    assert b[name := m].Keys == b.Keys;
  }

  /** Taking in a fragment changes the view of its own name only, and that as a
      reassembler of this name alone would. */
  lemma InsertView(c: Cache, e: Piece, n: Name)
    requires HeldOnce(c) && NoneEmpty(c)
    ensures var (r, done) := Insert(Touch(c), e);
      && HeldOnce(r) && NoneEmpty(r) && r.cindex == c.cindex
      && (n != e.name ==> View(r, n) == View(c, n))
      && (n == e.name ==> (View(r, n), done) == TakeIn(View(c, n), e.tag, e.data))
  {
    var t := Touch(c);
    TouchSame(c, n);
    TouchSame(c, e.name);
    var i := InsertShape(c, e);
    var r := Insert(t, e).0;
    ChangedInv(t, r, i, e.name);
    ChangedView(t, r, i, e.name, n);
    ViewEmptyIff(c, e.name);
    FindHolds(t, e.name);
  }

  lemma TestedSingle(tag: int, data: Bytes)
    ensures Tested(map[], tag, data) ==
      if tag == 1 then (map[], Some(data)) else (map[tag := data], None)
  {
    var m := Emplace(map[], tag, data);
    assert m == map[tag := data] && m.Keys == {tag};
    assert MaxOf(m.Keys) == tag && MinOf(m.Keys) == tag;
    if tag == 1 {
      assert m.Keys - {1} == {};
      assert Join(m, {}, |data|) == Some([]);
      assert Complete(m) == Some(data + []) && data + [] == data;
    }
  }

  /** Only a first fragment with tag 1 would be complete by itself, so testing all
      fragments differs for no other. */
  lemma TestedDiffersIff(pending: FragMap, tag: int, data: Bytes)
    ensures TakeIn(pending, tag, data) == Tested(pending, tag, data) <==> !(pending == map[] && tag == 1)
    ensures TakeIn(pending, tag, data).1 == Tested(pending, tag, data).1 <==> !(pending == map[] && tag == 1)
  {
    if pending == map[] {
      TestedSingle(tag, data);
    }
  }

  /** Not testing the first fragment of a name for completeness delivers the same
      as testing it, except for tag 1. */
  lemma FirstFragmentUnchecked(c: Cache, e: Piece)
    requires HeldOnce(c) && NoneEmpty(c) && IsFresh(c, e)
    ensures Insert(Touch(c), e).1 == None
    ensures Insert(Touch(c), e).1 == Tested(map[], e.tag, e.data).1 <==> e.tag != 1
  {
    TouchSame(c, e.name);
    TestedDiffersIff(map[], e.tag, e.data);
  }

  /** Rotation empties the view of the purged names and leaves the others. */
  lemma RotateView(c: Cache, lim: Limits, n: Name)
    requires HeldOnce(c) && NoneEmpty(c)
    ensures HeldOnce(Rotate(c, lim)) && NoneEmpty(Rotate(c, lim))
    ensures View(Rotate(c, lim), n) == if n in Purged(c, lim) then map[] else View(c, n)
  {
    var r := Rotate(c, lim);
    FindHolds(c, n);
    FindHolds(r, n);
    match Find(c, n)
    case Some(i) =>
      if n in Purged(c, lim) {
        ViewNowhere(r, n);
      } else {
        assert i in r.buffers;
        ViewAt(r, i, n);
      }
    case None =>
      ViewNowhere(r, n);
  }

  /** Rotation restores the bound on the current buffer. */
  lemma RotateBounded(r: Cache, lim: Limits)
    requires 1 <= lim.names && 1 <= r.cindex <= lim.buffers
    requires forall i :: i in r.buffers ==> 1 <= i <= lim.buffers && |r.buffers[i]| <= lim.names
    ensures Bounded(Rotate(r, lim), lim)
  {}

  /** The invariant is kept by every step. */
  lemma StepInv(c: Cache, lim: Limits, e: Piece)
    requires Inv(c, lim)
    ensures Inv(Step(c, lim, e).0, lim)
  {
    var r := Insert(Touch(c), e).0;
    InsertView(c, e, e.name);
    RotateView(r, lim, e.name);
    InsertBounded(c, lim, e);
    RotateBounded(r, lim);
  }

  lemma InsertBounded(c: Cache, lim: Limits, e: Piece)
    requires Inv(c, lim)
    ensures var r := Insert(Touch(c), e).0;
      && r.cindex == c.cindex
      && (forall i :: i in r.buffers ==> 1 <= i <= lim.buffers && |r.buffers[i]| <= lim.names)
      && |BufferAt(r, c.cindex)| <= |BufferAt(c, c.cindex)| + (if IsFresh(c, e) then 1 else 0)
      && (IsFresh(c, e) ==> |BufferAt(r, c.cindex)| == |BufferAt(c, c.cindex)| + 1)
  {
    TouchSame(c, e.name);
    var i := InsertShape(c, e);
    GrowsOne(c, Touch(c), Insert(Touch(c), e).0, i, e.name, if IsFresh(c, e) then 1 else 0, lim);
  }

  /** What a changed entry does to the sizes of the buffers. */
  lemma GrowsOne(c: Cache, t: Cache, r: Cache, i: int, name: Name, more: nat, lim: Limits)
    requires Bounded(c, lim) && t == Touch(c) && EntryChanged(t, r, i, name) && more <= 1
    requires more == 0 ==> |r.buffers[i]| <= |t.buffers[i]|
    requires more == 1 ==> i == c.cindex && |r.buffers[i]| == |t.buffers[i]| + 1
    ensures r.cindex == c.cindex
    ensures forall j :: j in r.buffers ==> 1 <= j <= lim.buffers && |r.buffers[j]| <= lim.names
    ensures |BufferAt(r, c.cindex)| <= |BufferAt(c, c.cindex)| + more
    ensures more == 1 ==> |BufferAt(r, c.cindex)| == |BufferAt(c, c.cindex)| + 1
  {
    assert forall j :: j in t.buffers ==> t.buffers[j] == BufferAt(c, j);
  }

  // The size of the whole cache.

  ghost function NamesUpTo(c: Cache, k: nat): nat {
    if k == 0 then 0 else NamesUpTo(c, k - 1) + |BufferAt(c, k)|
  }

  /** All buffers together hold fewer names than their capacity. */
  lemma TotalBelowCapacity(c: Cache, lim: Limits)
    requires Inv(c, lim)
    ensures NamesUpTo(c, lim.buffers) < lim.buffers * lim.names
  {
    NamesBelow(c, lim, lim.buffers);
  }

  lemma OneMore(k: nat, names: nat)
    requires 0 < k
    ensures k * names == (k - 1) * names + names
  {}

  lemma {:induction false} NamesBelow(c: Cache, lim: Limits, k: nat)
    requires Bounded(c, lim) && k <= lim.buffers
    ensures NamesUpTo(c, k) <= k * lim.names
    ensures c.cindex <= k ==> NamesUpTo(c, k) < k * lim.names
  {
    if k == 0 {
    } else {
      NamesBelow(c, lim, k - 1);
      BufferAtBound(c, lim, k);
      OneMore(k, lim.names);
    }
  }

  lemma BufferAtBound(c: Cache, lim: Limits, k: nat)
    requires Bounded(c, lim)
    ensures |BufferAt(c, k)| <= lim.names && (k == c.cindex ==> |BufferAt(c, k)| < lim.names)
  {}

  // Retention.

  /** How many rotations away the purge of buffer `i` is. */
  ghost function Rotations(c: Cache, lim: Limits, i: int): int {
    if i > c.cindex then i - c.cindex else i + lim.buffers - c.cindex
  }

  /** How many fresh names it takes at least before buffer `i` is purged. */
  ghost function Slack(c: Cache, lim: Limits, i: int): int {
    (Rotations(c, lim, i) - 1) * lim.names + (lim.names - |BufferAt(c, c.cindex)|)
  }

  ghost predicate PurgesIndex(c: Cache, lim: Limits, e: Piece, i: int) {
    var r := Insert(Touch(c), e).0;
    IsFull(r, lim) && NextIndex(r, lim) == i
  }

  /** Only a fresh name uses up slack, one unit, and a buffer is purged only when
      its last unit is used. */
  lemma StepSlack(c: Cache, lim: Limits, e: Piece, i: int)
    requires Inv(c, lim) && 1 <= i <= lim.buffers
    ensures PurgesIndex(c, lim, e, i) ==> IsFresh(c, e) && Slack(c, lim, i) <= 1
    ensures !PurgesIndex(c, lim, e, i) ==>
      Slack(Step(c, lim, e).0, lim, i) >= Slack(c, lim, i) - (if IsFresh(c, e) then 1 else 0)
  {
    var r := Insert(Touch(c), e).0;
    InsertBounded(c, lim, e);
    InsertSlack(c, r, lim, i);
    if IsFull(r, lim) {
      RotateSlack(r, lim, i);
    }
  }

  /** Without rotation the slack changes with the size of the current buffer. */
  lemma InsertSlack(c: Cache, r: Cache, lim: Limits, i: int)
    requires r.cindex == c.cindex
    ensures Slack(r, lim, i) == Slack(c, lim, i) + |BufferAt(c, c.cindex)| - |BufferAt(r, c.cindex)|
    ensures Rotations(r, lim, i) == Rotations(c, lim, i)
    ensures Rotations(c, lim, i) == 1 ==> Slack(c, lim, i) == lim.names - |BufferAt(c, c.cindex)|
    ensures Slack(r, lim, i) == (Rotations(r, lim, i) - 1) * lim.names + (lim.names - |BufferAt(r, r.cindex)|)
  {}

  lemma RotateSlack(r: Cache, lim: Limits, i: int)
    requires 1 <= r.cindex <= lim.buffers && 1 <= i <= lim.buffers && IsFull(r, lim)
    ensures NextIndex(r, lim) == i <==> Rotations(r, lim, i) == 1
    ensures NextIndex(r, lim) != i ==>
      Slack(Rotate(r, lim), lim, i) == (Rotations(r, lim, i) - 1) * lim.names
  {
    var k := Rotations(r, lim, i);
    RotateCounts(r, lim, i);
    RotationUsesSlack(k, lim.names);
    if NextIndex(r, lim) != i {
      EmptySlack(Rotate(r, lim), lim, i, (k - 2) * lim.names);
    }
  }

  /** Rotation brings every other buffer one closer and empties the current one. */
  lemma RotateCounts(r: Cache, lim: Limits, i: int)
    requires 1 <= r.cindex <= lim.buffers && 1 <= i <= lim.buffers && IsFull(r, lim)
    ensures NextIndex(r, lim) == i <==> Rotations(r, lim, i) == 1
    ensures NextIndex(r, lim) != i ==> Rotations(Rotate(r, lim), lim, i) == Rotations(r, lim, i) - 1
    ensures BufferAt(Rotate(r, lim), NextIndex(r, lim)) == map[] && Rotate(r, lim).cindex == NextIndex(r, lim)
  {}

  /** The slack when the current buffer is empty; `p` is the product in it. */
  lemma EmptySlack(c: Cache, lim: Limits, i: int, p: int)
    requires BufferAt(c, c.cindex) == map[] && p == (Rotations(c, lim, i) - 1) * lim.names
    ensures Slack(c, lim, i) == p + lim.names
  {}

  lemma RotationUsesSlack(k: int, names: nat)
    ensures (k - 1) * names == (k - 2) * names + names
  {}

  ghost function FreshCount(c: Cache, lim: Limits, es: seq<Piece>): nat
    decreases |es|
  {
    if es == [] then 0
    else (if IsFresh(c, es[0]) then 1 else 0) + FreshCount(Step(c, lim, es[0]).0, lim, es[1..])
  }

  ghost predicate NeverPurged(c: Cache, lim: Limits, es: seq<Piece>, n: Name)
    decreases |es|
  {
    es == [] ||
    (n !in Purged(Insert(Touch(c), es[0]).0, lim) && NeverPurged(Step(c, lim, es[0]).0, lim, es[1..], n))
  }

  /** `count` more fresh names do not reach the purge of the buffer of `n`. */
  ghost predicate Safe(c: Cache, lim: Limits, n: Name, count: nat) {
    && count <= (lim.buffers - 1) * lim.names
    && (Find(c, n).Some? ==> count < Slack(c, lim, Find(c, n).value))
  }

  /** A name taken in as fresh goes to the current buffer, as far from being
      purged as can be. */
  lemma FreshSlack(c: Cache, lim: Limits, e: Piece)
    requires Inv(c, lim) && IsFresh(c, e) && 2 <= lim.buffers
    ensures !PurgesIndex(c, lim, e, c.cindex)
    ensures Slack(Step(c, lim, e).0, lim, c.cindex) >= (lim.buffers - 1) * lim.names
  {
    InsertBounded(c, lim, e);
    RotationUsesSlack(lim.buffers, lim.names);
    RotationUsesSlack(lim.buffers + 1, lim.names);
  }

  /** A name stays in the buffer it is in until it is delivered or purged. */
  lemma StepFind(c: Cache, lim: Limits, e: Piece, n: Name)
    requires Inv(c, lim)
    ensures var r := Insert(Touch(c), e).0;
      var after := Find(Step(c, lim, e).0, n);
      after.Some? ==>
        && n !in Purged(r, lim)
        && after == (if Find(c, n).Some? then Find(c, n) else Some(c.cindex))
        && (Find(c, n).None? ==> n == e.name)
    ensures var r := Insert(Touch(c), e).0;
      n in Purged(r, lim) ==>
        PurgesIndex(c, lim, e, if Find(c, n).Some? then Find(c, n).value else c.cindex)
        && (Find(c, n).None? ==> n == e.name)
  {
    var t := Touch(c);
    var r := Insert(t, e).0;
    var i := InsertShape(c, e);
    TouchSame(c, n);
    ChangedInv(t, r, i, e.name);
    RotateView(r, lim, n);
    FindHolds(t, n);
    FindHolds(r, n);
    FindHolds(Rotate(r, lim), n);
  }

  lemma StepSafe(c: Cache, lim: Limits, e: Piece, n: Name, count: nat)
    requires Inv(c, lim)
    requires Safe(c, lim, n, count + (if IsFresh(c, e) then 1 else 0))
    ensures n !in Purged(Insert(Touch(c), e).0, lim)
    ensures Safe(Step(c, lim, e).0, lim, n, count)
  {
    StepFind(c, lim, e, n);
    if Find(c, n).Some? {
      FindHolds(c, n);
      StepSlack(c, lim, e, Find(c, n).value);
    } else if n == e.name {
      FreshSlack(c, lim, e);
    }
  }

  /** A name is not purged in a run that brings too few fresh names. */
  lemma {:induction false} Retention(c: Cache, lim: Limits, es: seq<Piece>, n: Name)
    requires Inv(c, lim) && Safe(c, lim, n, FreshCount(c, lim, es))
    ensures NeverPurged(c, lim, es, n)
    decreases |es|
  {
    if es == [] {
    } else {
      var next := Step(c, lim, es[0]).0;
      StepInv(c, lim, es[0]);
      StepSafe(c, lim, es[0], n, FreshCount(next, lim, es[1..]));
      Retention(next, lim, es[1..], n);
    }
  }

  /** A name taken in as fresh is not purged before the (buffers-1)*names-th
      later call that introduces a new name. */
  lemma RetentionBound(c: Cache, lim: Limits, e: Piece, later: seq<Piece>)
    requires Inv(c, lim) && IsFresh(c, e)
    requires FreshCount(Step(c, lim, e).0, lim, later) < (lim.buffers - 1) * lim.names
    ensures NeverPurged(c, lim, [e] + later, e.name)
  {
    var es := [e] + later;
    assert es[1..] == later;
    Retention(c, lim, es, e.name);
  }

  /** With two buffers a call never purges the name it is about. */
  lemma OwnNotPurged(c: Cache, lim: Limits, e: Piece)
    requires Inv(c, lim) && 2 <= lim.buffers
    ensures e.name !in Purged(Insert(Touch(c), e).0, lim)
  {
    StepFind(c, lim, e, e.name);
    if Find(c, e.name).Some? {
      FindHolds(c, e.name);
      StepSlack(c, lim, e, Find(c, e.name).value);
    } else {
      FreshSlack(c, lim, e);
    }
  }

  /** So it treats that name as a reassembler of its own does. */
  lemma StepView(c: Cache, lim: Limits, e: Piece)
    requires Inv(c, lim) && 2 <= lim.buffers
    ensures var (next, done) := Step(c, lim, e);
      Inv(next, lim) && (View(next, e.name), done) == TakeIn(View(c, e.name), e.tag, e.data)
  {
    OwnNotPurged(c, lim, e);
    StepInv(c, lim, e);
    InsertView(c, e, e.name);
    RotateView(Insert(Touch(c), e).0, lim, e.name);
  }

  /** Fragments of one name alone never get that name purged, given two buffers. */
  lemma {:induction false} OwnNeverPurged(c: Cache, lim: Limits, es: seq<Piece>, n: Name)
    requires Inv(c, lim) && 2 <= lim.buffers && forall j :: 0 <= j < |es| ==> es[j].name == n
    ensures NeverPurged(c, lim, es, n)
    decreases |es|
  {
    if es == [] {
    } else {
      var e := es[0];
      OwnNotPurged(c, lim, e);
      StepInv(c, lim, e);
      OwnNeverPurged(Step(c, lim, e).0, lim, es[1..], n);
    }
  }

  // Each name by itself.

  /** What the calls with fragments of `n` deliver, in order. */
  ghost function Deliveries(c: Cache, lim: Limits, es: seq<Piece>, n: Name): seq<Option<Bytes>>
    decreases |es|
  {
    if es == [] then []
    else
      var (next, done) := Step(c, lim, es[0]);
      (if es[0].name == n then [done] else []) + Deliveries(next, lim, es[1..], n)
  }

  ghost function CacheAfter(c: Cache, lim: Limits, es: seq<Piece>): Cache
    decreases |es|
  {
    if es == [] then c else CacheAfter(Step(c, lim, es[0]).0, lim, es[1..])
  }

  ghost function Only(es: seq<Piece>, n: Name): seq<Piece> {
    if es == [] then []
    else (if es[0].name == n then [es[0]] else []) + Only(es[1..], n)
  }

  /** The deliveries of a reassembler that receives these fragments alone. */
  ghost function Alone(pending: FragMap, es: seq<Piece>): seq<Option<Bytes>>
    decreases |es|
  {
    if es == [] then []
    else
      var (next, done) := TakeIn(pending, es[0].tag, es[0].data);
      [done] + Alone(next, es[1..])
  }

  ghost function AlonePending(pending: FragMap, es: seq<Piece>): FragMap
    decreases |es|
  {
    if es == [] then pending
    else AlonePending(TakeIn(pending, es[0].tag, es[0].data).0, es[1..])
  }

  /** The invariant holds after every run. */
  lemma {:induction false} RunInv(c: Cache, lim: Limits, es: seq<Piece>)
    requires Inv(c, lim)
    ensures Inv(CacheAfter(c, lim, es), lim)
    decreases |es|
  {
    if es == [] {
    } else {
      StepInv(c, lim, es[0]);
      RunInv(Step(c, lim, es[0]).0, lim, es[1..]);
    }
  }

  /** Under any interleaving with other names, and as long as it is not purged, a
      name is treated as by a reassembler of its own. */
  lemma {:induction false} ActsAlone(c: Cache, lim: Limits, es: seq<Piece>, n: Name)
    requires Inv(c, lim) && NeverPurged(c, lim, es, n)
    ensures Deliveries(c, lim, es, n) == Alone(View(c, n), Only(es, n))
    ensures View(CacheAfter(c, lim, es), n) == AlonePending(View(c, n), Only(es, n))
    decreases |es|
  {
    if es == [] {
    } else {
      var e := es[0];
      var (r, done) := Insert(Touch(c), e);
      assert e in es;
      InsertView(c, e, n);
      RotateView(r, lim, n);
      StepInv(c, lim, e);
      ActsAlone(Step(c, lim, e).0, lim, es[1..], n);
      if e.name == n {
        var own := [e] + Only(es[1..], n);
        assert own[1..] == Only(es[1..], n);
      } else {
        assert Only(es, n) == Only(es[1..], n);
      }
    }
  }
}
