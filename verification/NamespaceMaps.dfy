/** `std::map` keyed by namespaces. Their order compares the names alone
    (src/quicr_namespace.cpp, operator<), so two namespaces of one name and
    different lengths are the same key, and the map keeps the one inserted first. */
module NamespaceMaps {
  import opened Names
  import opened Namespaces
  import opened Ordered

  datatype Entry<+V> = Entry(key: Namespace, value: V)

  type NsMap<+V> = map<Name, Entry<V>>

  predicate Count<V>(m: NsMap<V>, ns: Namespace) {
    ns.name in m
  }

  function Get<V>(m: NsMap<V>, ns: Namespace): V
    requires Count(m, ns)
  {
    m[ns.name].value
  }

  function Put<V>(m: NsMap<V>, ns: Namespace, value: V): NsMap<V> {
    m[ns.name := Entry(if Count(m, ns) then m[ns.name].key else ns, value)]
  }

  function Erase<V>(m: NsMap<V>, ns: Namespace): NsMap<V> {
    m - {ns.name}
  }

  /** Each entry is stored under the name of its key. */
  ghost predicate Keyed<V>(m: NsMap<V>) {
    forall n :: n in m ==> m[n].key.name == n
  }

  /** Iteration over a map starts at the least name. */
  function LeastName(s: set<Name>): (n: Name)
    requires s != {}
    ensures n in s && forall x :: x in s ==> n.Num() <= x.Num()
  {
    LeastNameExists(s);
    var n :| n in s && forall x :: x in s ==> n.Num() <= x.Num();
    NumIsInjective();
    n
  }

  lemma LeastNameExists(s: set<Name>)
    requires s != {}
    ensures exists n :: n in s && forall x :: x in s ==> n.Num() <= x.Num()
  {
    var e :| e in s;
    var nums := set n | n in s :: n.Num();
    assert e.Num() in nums;
    var least := MinOf(nums);
    var n :| n in s && n.Num() == least;
    assert forall x :: x in s ==> x.Num() in nums;
  }
}
