// Lists without repetition, and taking an element out of one
module Sequences {
  ghost predicate NoDup(q: seq<int>)
  { forall i, j :: 0 <= i < j < |q| ==> q[i] != q[j] }

  function Without(q: seq<int>, x: int): (r: seq<int>)
    ensures forall y :: y in r ==> y in q
  {
    if q == [] then [] else if q[0] == x then q[1..] else [q[0]] + Without(q[1..], x)
  }

  lemma {:induction false} WithoutIs(q: seq<int>, x: int)
    requires NoDup(q)
    ensures NoDup(Without(q, x)) && forall y :: y in Without(q, x) <==> y in q && y != x
  {
    if q != [] && q[0] != x {
      WithoutIs(q[1..], x);
      assert q[0] !in q[1..];
    }
  }

  lemma {:induction false} WithoutCut(q: seq<int>, x: int) returns (k: int)
    requires x in q
    ensures 0 <= k < |q| && q[k] == x && Without(q, x) == q[..k] + q[k + 1..]
  {
    if q[0] == x {
      k := 0;
    } else {
      k := WithoutCut(q[1..], x);
      k := k + 1;
    }
  }

  lemma CutQueue(q: seq<int>, k: int)
    requires NoDup(q) && 0 <= k < |q|
    ensures NoDup(q[..k] + q[k + 1..])
    ensures forall y :: y in q[..k] + q[k + 1..] <==> y in q && y != q[k]
  {
    var r := q[..k] + q[k + 1..];
    forall y | y in q && y != q[k] ensures y in r {
      var i :| 0 <= i < |q| && q[i] == y;
      assert r[if i < k then i else i - 1] == y;
    }
  }
}
