/** How long exactly an incomplete object is kept, when only new names come in. */
module RetentionLimits {
  import opened Bits
  import opened CacheRuns
  import opened Names
  import opened Reassembly
  import opened Wrappers

  /** Every fragment introduces a new name. */
  ghost predicate AllFresh(c: Cache, lim: Limits, es: seq<Piece>)
    decreases |es|
  {
    es == [] || (IsFresh(c, es[0]) && AllFresh(Step(c, lim, es[0]).0, lim, es[1..]))
  }

  /** A new name uses up exactly one unit of slack, and purges exactly the buffer
      whose last unit it uses. */
  lemma FreshUsesOne(c: Cache, lim: Limits, e: Piece, i: int)
    requires Inv(c, lim) && 1 <= i <= lim.buffers && IsFresh(c, e)
    ensures PurgesIndex(c, lim, e, i) <==> Slack(c, lim, i) <= 1
    ensures !PurgesIndex(c, lim, e, i) ==> Slack(Step(c, lim, e).0, lim, i) == Slack(c, lim, i) - 1
  {
    var r := Insert(Touch(c), e).0;
    InsertBounded(c, lim, e);
    InsertSlack(c, r, lim, i);
    SlackAtLeast(c, lim, i);
    if IsFull(r, lim) {
      RotateSlack(r, lim, i);
      FullSlack(c, lim, i);
    }
  }

  lemma SlackAtLeast(c: Cache, lim: Limits, i: int)
    requires Inv(c, lim) && 1 <= i <= lim.buffers
    ensures Slack(c, lim, i) >= lim.names - |BufferAt(c, c.cindex)| >= 1
  {
    ProductAtLeast(Rotations(c, lim, i) - 1, lim.names);
  }

  lemma ProductAtLeast(k: int, names: nat)
    requires 0 <= k
    ensures k * names >= 0
  {}

  lemma FullSlack(c: Cache, lim: Limits, i: int)
    requires Inv(c, lim) && 1 <= i <= lim.buffers && |BufferAt(c, c.cindex)| == lim.names - 1
    ensures Slack(c, lim, i) == (Rotations(c, lim, i) - 1) * lim.names + 1
    ensures Slack(c, lim, i) <= 1 <==> Rotations(c, lim, i) == 1
  {
    if Rotations(c, lim, i) > 1 {
      MulMono(1, Rotations(c, lim, i) - 1, lim.names);
    }
  }

  /** A call about another name keeps a name in its buffer unless it purges it. */
  lemma HeldStep(c: Cache, lim: Limits, e: Piece, n: Name, i: int)
    requires Inv(c, lim) && Find(c, n) == Some(i) && e.name != n
    ensures n in Purged(Insert(Touch(c), e).0, lim) <==> PurgesIndex(c, lim, e, i)
    ensures n !in Purged(Insert(Touch(c), e).0, lim) ==> Find(Step(c, lim, e).0, n) == Some(i)
  {
    var r := Insert(Touch(c), e).0;
    HeldInsert(c, e, n, i);
    HeldRotate(r, lim, n, i);
  }

  lemma HeldInsert(c: Cache, e: Piece, n: Name, i: int)
    requires HeldOnce(c) && NoneEmpty(c) && Find(c, n) == Some(i) && e.name != n
    ensures var r := Insert(Touch(c), e).0;
      HeldOnce(r) && i in r.buffers && n in r.buffers[i]
  {
    var t := Touch(c);
    TouchSame(c, n);
    FindHolds(t, n);
    InsertView(c, e, n);
    var k := InsertShape(c, e);
  }

  lemma HeldRotate(r: Cache, lim: Limits, n: Name, i: int)
    requires HeldOnce(r) && i in r.buffers && n in r.buffers[i]
    ensures n in Purged(r, lim) <==> IsFull(r, lim) && NextIndex(r, lim) == i
    ensures n !in Purged(r, lim) ==> Find(Rotate(r, lim), n) == Some(i)
  {
    FindHolds(Rotate(r, lim), n);
    if IsFull(r, lim) && NextIndex(r, lim) == i {
      assert BufferAt(r, i) == r.buffers[i];
    } else {
      assert i in Rotate(r, lim).buffers && Rotate(r, lim).buffers[i] == r.buffers[i];
    }
  }

  /** While only new names come in, a pending name is purged exactly when they have
      used up the slack of its buffer. */
  lemma {:induction false} PurgedIff(c: Cache, lim: Limits, es: seq<Piece>, n: Name, i: int)
    requires Inv(c, lim) && Find(c, n) == Some(i) && AllFresh(c, lim, es)
    requires forall j :: 0 <= j < |es| ==> es[j].name != n
    ensures 1 <= i <= lim.buffers
    ensures NeverPurged(c, lim, es, n) <==> |es| < Slack(c, lim, i)
    decreases |es|
  {
    FindHolds(c, n);
    SlackAtLeast(c, lim, i);
    if es == [] {
    } else {
      FreshUsesOne(c, lim, es[0], i);
      HeldStep(c, lim, es[0], n, i);
      StepInv(c, lim, es[0]);
      if n !in Purged(Insert(Touch(c), es[0]).0, lim) {
        PurgedIff(Step(c, lim, es[0]).0, lim, es[1..], n, i);
      }
    }
  }

  /** The retention bound is met exactly by a name that fills its buffer: the
      (buffers-1)*names-th later new name purges it, and none before does. */
  lemma RetentionTight(c: Cache, lim: Limits, e: Piece, later: seq<Piece>)
    requires Inv(c, lim) && IsFresh(c, e) && 2 <= lim.buffers && |BufferAt(c, c.cindex)| == lim.names - 1
    requires AllFresh(Step(c, lim, e).0, lim, later) && forall j :: 0 <= j < |later| ==> later[j].name != e.name
    ensures NeverPurged(c, lim, [e] + later, e.name) <==> |later| < (lim.buffers - 1) * lim.names
  {
    var next := Step(c, lim, e).0;
    NeverPurgedFirst(c, lim, e, later, e.name);
    OwnNotPurged(c, lim, e);
    StepInv(c, lim, e);
    FilledSlack(c, lim, e);
    PurgedIff(next, lim, later, e.name, c.cindex);
  }

  lemma FilledSlack(c: Cache, lim: Limits, e: Piece)
    requires Inv(c, lim) && IsFresh(c, e) && 2 <= lim.buffers && |BufferAt(c, c.cindex)| == lim.names - 1
    ensures var next := Step(c, lim, e).0;
      Find(next, e.name) == Some(c.cindex) && Slack(next, lim, c.cindex) == (lim.buffers - 1) * lim.names
  {
    var r := Insert(Touch(c), e).0;
    InsertBounded(c, lim, e);
    RotateSlack(r, lim, c.cindex);
    FreshHeld(c, lim, e);
  }

  lemma FreshHeld(c: Cache, lim: Limits, e: Piece)
    requires Inv(c, lim) && IsFresh(c, e) && 2 <= lim.buffers
    ensures Find(Step(c, lim, e).0, e.name) == Some(c.cindex)
  {
    OwnNotPurged(c, lim, e);
    StepView(c, lim, e);
    ViewEmptyIff(c, e.name);
    ViewEmptyIff(Step(c, lim, e).0, e.name);
    StepFind(c, lim, e, e.name);
  }

  // A run that shows it.

  /** One fragment for each of the names numbered from `k` on. */
  ghost function Numbered(k: nat, count: nat): (es: seq<Piece>)
    requires k + count <= TWO_128
    ensures |es| == count && forall j :: 0 <= j < count ==> es[j].name.Num() == k + j
    decreases count
  {
    if count == 0 then [] else [Piece(OfNum(k), 0, [])] + Numbered(k + 1, count - 1)
  }

  lemma NumberedFirst(k: nat, count: nat) returns (e: Piece)
    requires 0 < count && k + count <= TWO_128
    ensures e.name == OfNum(k) && e.name.Num() == k && Numbered(k, count) == [e] + Numbered(k + 1, count - 1)
  {
    e := Piece(OfNum(k), 0, []);
  }

  lemma NeverPurgedFirst(c: Cache, lim: Limits, e: Piece, rest: seq<Piece>, n: Name)
    ensures NeverPurged(c, lim, [e] + rest, n)
      <==> n !in Purged(Insert(Touch(c), e).0, lim) && NeverPurged(Step(c, lim, e).0, lim, rest, n)
  {
    assert ([e] + rest)[1..] == rest;
  }

  ghost predicate HeldBelow(c: Cache, k: nat) {
    forall n :: Find(c, n).Some? ==> n.Num() < k
  }

  lemma FreshAbove(c: Cache, e: Piece, k: nat)
    requires HeldBelow(c, k) && e.name.Num() == k
    ensures IsFresh(c, e)
  {}

  lemma HeldBelowStep(c: Cache, lim: Limits, e: Piece, k: nat)
    requires Inv(c, lim) && HeldBelow(c, k) && e.name.Num() == k
    ensures HeldBelow(Step(c, lim, e).0, k + 1)
  {
    forall n | Find(Step(c, lim, e).0, n).Some?
      ensures n.Num() < k + 1
    {
      StepFind(c, lim, e, n);
    }
  }

  lemma {:induction false} NumberedFresh(c: Cache, lim: Limits, es: seq<Piece>, k: nat)
    requires Inv(c, lim) && HeldBelow(c, k) && forall j :: 0 <= j < |es| ==> es[j].name.Num() == k + j
    ensures AllFresh(c, lim, es)
    decreases |es|
  {
    if es == [] {
    } else {
      FreshAbove(c, es[0], k);
      HeldBelowStep(c, lim, es[0], k);
      StepInv(c, lim, es[0]);
      NumberedFresh(Step(c, lim, es[0]).0, lim, es[1..], k + 1);
    }
  }

  /** From a buffer with `k` names on, the name that fills it is kept for exactly
      fewer than (buffers-1)*names more. */
  lemma {:induction false} NumberedRetention(c: Cache, lim: Limits, k: nat, more: nat)
    requires Inv(c, lim) && 2 <= lim.buffers && HeldBelow(c, k) && |BufferAt(c, c.cindex)| == k <= lim.names - 1
    requires lim.names + more <= TWO_128
    ensures NeverPurged(c, lim, Numbered(k, lim.names - k + more), OfNum(lim.names - 1))
      <==> more < (lim.buffers - 1) * lim.names
    decreases lim.names - k
  {
    var count := lim.names - k + more;
    var e := NumberedFirst(k, count);
    FreshAbove(c, e, k);
    HeldBelowStep(c, lim, e, k);
    StepInv(c, lim, e);
    if k == lim.names - 1 {
      NumberedLast(c, lim, e, k, more);
    } else {
      NumberedNext(c, lim, e, Numbered(k + 1, count - 1), OfNum(lim.names - 1));
      NumberedRetention(Step(c, lim, e).0, lim, k + 1, more);
    }
  }

  /** A name that does not fill the buffer purges nothing. */
  lemma NumberedNext(c: Cache, lim: Limits, e: Piece, rest: seq<Piece>, n: Name)
    requires Inv(c, lim) && IsFresh(c, e) && |BufferAt(c, c.cindex)| + 1 < lim.names
    ensures NeverPurged(c, lim, [e] + rest, n) <==> NeverPurged(Step(c, lim, e).0, lim, rest, n)
    ensures var next := Step(c, lim, e).0; |BufferAt(next, next.cindex)| == |BufferAt(c, c.cindex)| + 1
  {
    NotYetFull(c, lim, e);
    NeverPurgedFirst(c, lim, e, rest, n);
  }

  /** The name that fills the buffer, and those after it. */
  lemma NumberedLast(c: Cache, lim: Limits, e: Piece, k: nat, more: nat)
    requires Inv(c, lim) && 2 <= lim.buffers && |BufferAt(c, c.cindex)| == k == lim.names - 1
    requires lim.names + more <= TWO_128 && IsFresh(c, e) && e.name.Num() == k
    requires Inv(Step(c, lim, e).0, lim) && HeldBelow(Step(c, lim, e).0, k + 1)
    ensures NeverPurged(c, lim, [e] + Numbered(k + 1, more), e.name) <==> more < (lim.buffers - 1) * lim.names
  {
    NumberedFresh(Step(c, lim, e).0, lim, Numbered(k + 1, more), k + 1);
    RetentionTight(c, lim, e, Numbered(k + 1, more));
  }

  lemma NotYetFull(c: Cache, lim: Limits, e: Piece)
    requires Inv(c, lim) && IsFresh(c, e) && |BufferAt(c, c.cindex)| + 1 < lim.names
    ensures Purged(Insert(Touch(c), e).0, lim) == {}
    ensures var next := Step(c, lim, e).0; |BufferAt(next, next.cindex)| == |BufferAt(c, c.cindex)| + 1
  {
    InsertBounded(c, lim, e);
  }

  /** From the start, with names introduced one after the other, the one that fills
      the first buffer is purged by the (buffers-1)*names-th after it. */
  lemma RetentionTightRun(lim: Limits, more: nat)
    requires 1 <= lim.names && 2 <= lim.buffers && lim.names + more <= TWO_128
    ensures NeverPurged(Cache(map[], 1), lim, Numbered(0, lim.names + more), OfNum(lim.names - 1))
      <==> more < (lim.buffers - 1) * lim.names
  {
    var c := Cache(map[], 1);
    InitInv(lim);
    forall n
      ensures Find(c, n) == None
    {
      FindHolds(c, n);
    }
    NumberedRetention(c, lim, 0, more);
  }
}
