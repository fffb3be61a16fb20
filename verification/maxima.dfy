/** Extreme elements of finite sets of keys: the largest count for the ranking, the smallest key for the chart. */
module Maxima {
  lemma SomeElement(s: set<int>) returns (x: int)
    requires s != {}
    ensures x in s
  {
    if forall y :: y !in s {
      assert false;
    }
    x :| x in s;
  }

  /** A key of `s` whose count is as large as any in `s`. */
  lemma MaxCountKey(s: set<int>, counts: map<int, nat>) returns (b: int)
    requires s != {} && s <= counts.Keys
    ensures b in s && forall id :: id in s ==> counts[id] <= counts[b]
  {
    var x := SomeElement(s);
    if s == {x} {
      b := x;
    } else {
      var b0 := MaxCountKey(s - {x}, counts);
      b := if counts[x] > counts[b0] then x else b0;
    }
  }

  /** The smallest element of a non-empty finite set. */
  lemma MinElement(s: set<int>) returns (m: int)
    requires s != {}
    ensures m in s && forall x :: x in s ==> m <= x
  {
    var x := SomeElement(s);
    if s == {x} {
      m := x;
    } else {
      var m0 := MinElement(s - {x});
      assert forall y :: y in s ==> y == x || y in s - {x};
      m := if x < m0 then x else m0;
    }
  }
}
