/** Iteration over the source's ordered containers: the least and the greatest
    key of a set, and its elements in ascending order of a numeric key. */
module Ordered {

  lemma HasElement(s: set<int>)
    requires s != {}
    ensures exists e: int :: e in s
  {
    assert (forall e: int :: e !in s) ==> s == {};
  }

  lemma HasMin(s: set<int>)
    requires s != {}
    ensures exists m :: m in s && forall x :: x in s ==> m <= x
  {
    HasElement(s);
    var e :| e in s;
    if s == {e} {
      assert e in s;
    } else {
      var rest := s - {e};
      HasMin(rest);
      var m :| m in rest && forall x :: x in rest ==> m <= x;
      assert s == rest + {e};
      var least := if m <= e then m else e;
      assert least in s && forall x :: x in s ==> least <= x;
    }
  }

  function MinOf(s: set<int>): (m: int)
    requires s != {}
    ensures m in s && forall x :: x in s ==> m <= x
  {
    HasMin(s);
    var m :| m in s && forall x :: x in s ==> m <= x;
    m
  }

  lemma HasMax(s: set<int>)
    requires s != {}
    ensures exists m :: m in s && forall x :: x in s ==> x <= m
  {
    var negated := set x | x in s :: -x;
    HasElement(s);
    var e :| e in s;
    assert -e in negated;
    HasMin(negated);
    var m :| m in negated && forall x :: x in negated ==> m <= x;
    assert -m in s;
    forall x | x in s
      ensures x <= -m
    {
      assert -x in negated;
    }
  }

  function MaxOf(s: set<int>): (m: int)
    requires s != {}
    ensures m in s && forall x :: x in s ==> x <= m
  {
    HasMax(s);
    var m :| m in s && forall x :: x in s ==> x <= m;
    m
  }
}
