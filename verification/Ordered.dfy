/** Iteration over the keys of an ordered map, smallest first. */
module Ordered {
  import opened Base

  predicate IsLeast(m: U64, s: set<U64>) {
    m in s && forall x | x in s :: m <= x
  }

  lemma {:induction false} LeastExists(s: set<U64>)
    requires s != {}
    ensures exists m :: IsLeast(m, s)
    decreases |s|
  {
    var k :| k in s;
    var rest := s - {k};
    assert forall x | x in s :: x == k || x in rest;
    if rest == {} {
      assert IsLeast(k, s);
    } else {
      LeastExists(rest);
      var m :| IsLeast(m, rest);
      assert IsLeast(if k <= m then k else m, s);
    }
  }

  function Least(s: set<U64>): (m: U64)
    requires s != {}
    ensures IsLeast(m, s)
  {
    LeastExists(s);
    var m :| IsLeast(m, s);
    m
  }

  function Ascending(s: set<U64>): (r: seq<U64>)
    ensures forall x :: x in r <==> x in s
    ensures forall i, j | 0 <= i < j < |r| :: r[i] < r[j]
    decreases |s|
  {
    if s == {} then [] else [Least(s)] + Ascending(s - {Least(s)})
  }
}
