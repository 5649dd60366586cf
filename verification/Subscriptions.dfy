/** The relay's subscription index (cmd/really/subscription.cpp): one map per
    prefix length, which must agree with scanning a flat list of subscriptions. */
module Subscriptions {
  import opened Bits
  import opened Names
  import opened Namespaces

  datatype Remote = Remote(subscribeId: nat, contextId: nat, streamId: nat)

  /** Lexicographic order. */
  predicate RemoteLess(a: Remote, b: Remote) {
    if a.subscribeId != b.subscribeId then a.subscribeId < b.subscribeId
    else if a.contextId != b.contextId then a.contextId < b.contextId
    else a.streamId < b.streamId
  }

  /** The greatest length the index has a map for. */
  const MAX_LENGTH := 128

  type PrefixLength = n: int | 0 <= n <= MAX_LENGTH

  type Index = s: seq<map<Name, set<Remote>>> | |s| == MAX_LENGTH + 1
    witness seq(MAX_LENGTH + 1, _ => map[])

  // The index as a value.

  function At(m: map<Name, set<Remote>>, prefix: Name): set<Remote> {
    if prefix in m then m[prefix] else {}
  }

  function Add(index: Index, name: Name, len: PrefixLength, remote: Remote): Index {
    var prefix := MakeNamespace(name, len).name;
    index[len := index[len][prefix := At(index[len], prefix) + {remote}]]
  }

  /** Removal as the source means it; what it does is stated by Remove below. */
  function Removed(index: Index, name: Name, len: PrefixLength, remote: Remote): Index {
    var prefix := MakeNamespace(name, len).name;
    if prefix in index[len] then index[len := index[len][prefix := index[len][prefix] - {remote}]]
    else index
  }

  datatype Hit = Hit(len: int, remote: Remote)

  /** What `find` comes across from length `len` on. */
  function Hits(index: Index, name: Name, len: nat): seq<Hit>
    decreases |index| - len
  {
    if len > MAX_LENGTH then []
    else HitsAt(At(index[len], MakeNamespace(name, len).name), len) + Hits(index, name, len + 1)
  }

  function HitsAt(remotes: set<Remote>, len: nat): seq<Hit>
    decreases |remotes|
  {
    if remotes == {} then []
    else
      var least := LeastRemote(remotes);
      [Hit(len, least)] + HitsAt(remotes - {least}, len)
  }

  function Destinations(hits: seq<Hit>): seq<Remote> {
    if hits == [] then [] else [hits[0].remote] + Destinations(hits[1..])
  }

  /** Iteration over a set of remotes starts at the least. */
  function LeastRemote(s: set<Remote>): (r: Remote)
    requires s != {}
    ensures r in s && forall x :: x in s && x != r ==> RemoteLess(r, x)
  {
    LeastExists(s);
    var r :| r in s && forall x :: x in s && x != r ==> RemoteLess(r, x);
    r
  }

  lemma LeastExists(s: set<Remote>)
    requires s != {}
    ensures exists r :: r in s && forall x :: x in s && x != r ==> RemoteLess(r, x)
  {
    var e :| e in s;
    var rest := s - {e};
    if rest == {} {
      assert s == {e};
    } else {
      LeastExists(rest);
      var r :| r in rest && forall x :: x in rest && x != r ==> RemoteLess(r, x);
      var least := if RemoteLess(r, e) then r else e;
      assert s == rest + {e};
      assert least in s && forall x :: x in s && x != least ==> RemoteLess(least, x);
    }
  }

  // The index updated in place.

  class SubscriptionIndex {
    var subscriptions: Index

    constructor ()
      ensures forall len :: 0 <= len <= MAX_LENGTH ==> subscriptions[len] == map[]
    {
      subscriptions := seq(MAX_LENGTH + 1, _ => map[]);
    }

    method AddRemote(name: Name, len: PrefixLength, remote: Remote)
      modifies this
      ensures subscriptions == Add(old(subscriptions), name, len, remote)
    {
      var prefix := MakeNamespace(name, len);
      if prefix.name !in subscriptions[len] {
        assert {remote} == {} + {remote};
        subscriptions := subscriptions[len := subscriptions[len][prefix.name := {remote}]];
      } else {
        var list := subscriptions[len][prefix.name];
        if remote !in list {
          subscriptions := subscriptions[len := subscriptions[len][prefix.name := list + {remote}]];
        } else {
          assert list + {remote} == list;
          assert subscriptions[len][prefix.name := list] == subscriptions[len];
        }
      }
    }

    /** Removal as written: the guard asks for a remote that is not listed before
        erasing it, so the index never changes. */
    method Remove(name: Name, len: PrefixLength, remote: Remote)
      modifies this
      ensures subscriptions == old(subscriptions)
    {
      var prefix := MakeNamespace(name, len);
      if prefix.name in subscriptions[len] {
        var list := subscriptions[len][prefix.name];
        if remote !in list {
          list := list - {remote};
          assert list == subscriptions[len][prefix.name];
          assert subscriptions[len][prefix.name := list] == subscriptions[len];
          subscriptions := subscriptions[len := subscriptions[len][prefix.name := list]];
        }
      }
    }

    method FindRemotes(name: Name) returns (ret: seq<Remote>)
      ensures ret == Destinations(Hits(subscriptions, name, 0))
    {
      ret := [];
      ghost var all := Destinations(Hits(subscriptions, name, 0));
      assert [] + all == all;
      for len := 0 to MAX_LENGTH + 1
        invariant all == ret + Destinations(Hits(subscriptions, name, len))
      {
        var prefix := MakeNamespace(name, len);
        var list := At(subscriptions[len], prefix.name);
        ghost var here, rest := HitsAt(list, len), Hits(subscriptions, name, len + 1);
        assert Hits(subscriptions, name, len) == here + rest;
        DestinationsConcat(here, rest);
        Associate(ret, Destinations(here), Destinations(rest));
        ret := AppendRemotes(ret, list, len);
      }
    }
  }

  /** The inner loop: the remotes of one set, in order. */
  method AppendRemotes(before: seq<Remote>, list: set<Remote>, ghost len: nat) returns (ret: seq<Remote>)
    ensures ret == before + Destinations(HitsAt(list, len))
  {
    ret := before;
    var todo := list;
    while todo != {}
      invariant before + Destinations(HitsAt(list, len)) == ret + Destinations(HitsAt(todo, len))
      decreases |todo|
    {
      var remote := LeastRemote(todo);
      ghost var rest := HitsAt(todo - {remote}, len);
      DestinationsConcat([Hit(len, remote)], rest);
      assert Destinations([Hit(len, remote)]) == [remote];
      Associate(ret, [remote], Destinations(rest));
      ret := ret + [remote];
      todo := todo - {remote};
    }
  }

  /** The removal as written does what is meant exactly when there is nothing to
      remove. */
  lemma RemoveMeetsMeaningIff(index: Index, name: Name, len: PrefixLength, remote: Remote)
    ensures Removed(index, name, len, remote) == index <==>
      remote !in At(index[len], MakeNamespace(name, len).name)
  {
    var prefix := MakeNamespace(name, len).name;
    if prefix in index[len] {
      if remote in index[len][prefix] {
        assert remote !in Removed(index, name, len, remote)[len][prefix];
      } else {
        assert index[len][prefix] - {remote} == index[len][prefix];
        assert index[len][prefix := index[len][prefix]] == index[len];
      }
    }
  }

  lemma Associate<T>(a: seq<T>, b: seq<T>, c: seq<T>)
    ensures a + (b + c) == (a + b) + c
  {}

  lemma {:induction false} DestinationsConcat(a: seq<Hit>, b: seq<Hit>)
    ensures Destinations(a + b) == Destinations(a) + Destinations(b)
  {
    if a == [] {
      assert a + b == b;
    } else {
      assert (a + b)[1..] == a[1..] + b;
      DestinationsConcat(a[1..], b);
    }
  }

  // The flat list the index stands for.

  datatype Subscription = Subscription(ns: Namespace, remote: Remote)

  datatype Op =
    | Subscribed(name: Name, len: PrefixLength, remote: Remote)
    | Unsubscribed(name: Name, len: PrefixLength, remote: Remote)

  function FlatStep(flat: set<Subscription>, op: Op): set<Subscription> {
    match op
    case Subscribed(name, len, remote) => flat + {Subscription(MakeNamespace(name, len), remote)}
    case Unsubscribed(name, len, remote) => flat - {Subscription(MakeNamespace(name, len), remote)}
  }

  function IndexStep(index: Index, op: Op): Index {
    match op
    case Subscribed(name, len, remote) => Add(index, name, len, remote)
    case Unsubscribed(name, len, remote) => Removed(index, name, len, remote)
  }

  function FlatRun(flat: set<Subscription>, ops: seq<Op>): set<Subscription>
    decreases |ops|
  {
    if ops == [] then flat else FlatRun(FlatStep(flat, ops[0]), ops[1..])
  }

  function IndexRun(index: Index, ops: seq<Op>): Index
    decreases |ops|
  {
    if ops == [] then index else IndexRun(IndexStep(index, ops[0]), ops[1..])
  }

  /** The index lists a remote under a prefix exactly when the flat list does. */
  ghost predicate Agrees(index: Index, flat: set<Subscription>) {
    && (forall s :: s in flat ==> Masked(s.ns) && s.ns.sigBits <= MAX_LENGTH)
    && (forall len: uint8, prefix, r ::
         len <= MAX_LENGTH && Masked(Namespace(prefix, len)) ==>
           (r in At(index[len], prefix) <==> Subscription(Namespace(prefix, len), r) in flat))
  }

  lemma StepAgrees(index: Index, flat: set<Subscription>, op: Op)
    requires Agrees(index, flat)
    ensures Agrees(IndexStep(index, op), FlatStep(flat, op))
  {}

  lemma {:induction false} RunAgrees(index: Index, flat: set<Subscription>, ops: seq<Op>)
    requires Agrees(index, flat)
    ensures Agrees(IndexRun(index, ops), FlatRun(flat, ops))
    decreases |ops|
  {
    if ops == [] {
    } else {
      StepAgrees(index, flat, ops[0]);
      RunAgrees(IndexStep(index, ops[0]), FlatStep(flat, ops[0]), ops[1..]);
    }
  }

  // What `find` returns.

  predicate HitLess(a: Hit, b: Hit) {
    a.len < b.len || (a.len == b.len && RemoteLess(a.remote, b.remote))
  }

  ghost predicate Ascending(hits: seq<Hit>) {
    forall i, j :: 0 <= i < j < |hits| ==> HitLess(hits[i], hits[j])
  }

  lemma {:induction false} HitsAtExact(remotes: set<Remote>, len: nat)
    ensures forall h :: h in HitsAt(remotes, len) <==> h.len == len && h.remote in remotes
    ensures Ascending(HitsAt(remotes, len))
    decreases |remotes|
  {
    if remotes == {} {
    } else {
      var least := LeastRemote(remotes);
      HitsAtExact(remotes - {least}, len);
    }
  }

  lemma {:induction false} HitsExact(index: Index, name: Name, len: nat)
    ensures forall h :: h in Hits(index, name, len) <==>
      len <= h.len <= MAX_LENGTH && h.remote in At(index[h.len], MakeNamespace(name, h.len).name)
    ensures Ascending(Hits(index, name, len))
    decreases |index| - len
  {
    if len > MAX_LENGTH {
    } else {
      var here := At(index[len], MakeNamespace(name, len).name);
      HitsAtExact(here, len);
      HitsExact(index, name, len + 1);
      AscendingJoin(HitsAt(here, len), Hits(index, name, len + 1), len);
    }
  }

  lemma AscendingJoin(a: seq<Hit>, b: seq<Hit>, len: nat)
    requires Ascending(a) && Ascending(b)
    requires (forall h :: h in a ==> h.len == len) && (forall h :: h in b ==> len < h.len)
    ensures Ascending(a + b)
  {}

  /** The lengths at which a remote was come across. */
  ghost function LengthsOf(hits: seq<Hit>, remote: Remote): set<int> {
    set h | h in hits && h.remote == remote :: h.len
  }

  /** A remote is returned once for each such length. */
  lemma {:induction false} CountDestinations(hits: seq<Hit>, remote: Remote)
    requires Ascending(hits)
    ensures multiset(Destinations(hits))[remote] == |LengthsOf(hits, remote)|
  {
    if hits == [] {
      assert LengthsOf(hits, remote) == {};
    } else {
      var first, rest := hits[0], hits[1..];
      assert hits == [first] + rest;
      CountDestinations(rest, remote);
      LengthsFirst(first, rest, remote);
      assert Destinations(hits) == [first.remote] + Destinations(rest);
    }
  }

  lemma LengthsFirst(first: Hit, rest: seq<Hit>, remote: Remote)
    requires Ascending([first] + rest)
    ensures LengthsOf([first] + rest, remote)
         == LengthsOf(rest, remote) + (if first.remote == remote then {first.len} else {})
    ensures first.remote == remote ==> first.len !in LengthsOf(rest, remote)
  {
    var all := [first] + rest;
    assert forall h :: h in all <==> h == first || h in rest;
    forall h | h in rest && h.remote == first.remote
      ensures first.len < h.len
    {
      var j :| 0 <= j < |rest| && rest[j] == h;
      assert all[0] == first && all[j + 1] == h && HitLess(all[0], all[j + 1]);
    }
  }

  lemma ContainsIsPrefix(ns: Namespace, name: Name)
    requires Masked(ns)
    ensures Contains(ns, name) <==> ns == MakeNamespace(name, ns.sigBits)
  {}

  /** After any history of additions and meant removals `find` lists exactly the
      remotes of the subscriptions whose namespace contains the name, once for each
      length, in ascending order of length and then of remote. */
  lemma FindIsFlatScan(ops: seq<Op>, name: Name)
    ensures var hits := Hits(IndexRun(seq(MAX_LENGTH + 1, _ => map[]), ops), name, 0);
      var flat := FlatRun({}, ops);
      && Ascending(hits)
      && forall h :: h in hits <==>
           exists s :: s in flat && Contains(s.ns, name) && h == Hit(s.ns.sigBits, s.remote)
    ensures var hits := Hits(IndexRun(seq(MAX_LENGTH + 1, _ => map[]), ops), name, 0);
      forall i, j :: 0 <= i < j < |hits| && hits[i].len >= hits[j].len ==>
        hits[i].len == hits[j].len && hits[i].remote.subscribeId <= hits[j].remote.subscribeId
  {
    var empty: Index := seq(MAX_LENGTH + 1, _ => map[]);
    var index, flat := IndexRun(empty, ops), FlatRun({}, ops);
    RunAgrees(empty, {}, ops);
    HitsExact(index, name, 0);
    forall h
      ensures h in Hits(index, name, 0) <==>
        exists s :: s in flat && Contains(s.ns, name) && h == Hit(s.ns.sigBits, s.remote)
    {
      HitIffSubscribed(index, flat, name, h);
    }
  }

  lemma HitIffSubscribed(index: Index, flat: set<Subscription>, name: Name, h: Hit)
    requires Agrees(index, flat)
    ensures 0 <= h.len <= MAX_LENGTH && h.remote in At(index[h.len], MakeNamespace(name, h.len).name) <==>
      exists s :: s in flat && Contains(s.ns, name) && h == Hit(s.ns.sigBits, s.remote)
  {
    if 0 <= h.len <= MAX_LENGTH {
      var ns := MakeNamespace(name, h.len);
      ContainsIsPrefix(ns, name);
      assert h.remote in At(index[h.len], ns.name) <==> Subscription(ns, h.remote) in flat;
    }
    forall s | s in flat && Contains(s.ns, name) && h == Hit(s.ns.sigBits, s.remote)
      ensures s == Subscription(MakeNamespace(name, h.len), h.remote)
    {
      ContainsIsPrefix(s.ns, name);
    }
  }
}
