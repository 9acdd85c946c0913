/** Finite sets of ordered names as sorted sequences. */
module Ordering {

  lemma {:induction false} HasMinimum(s: set<nat>, k: nat)
    requires k in s
    ensures exists m :: m in s && forall x :: x in s ==> m <= x
    decreases k
  {
    if x :| x in s && x < k {
      HasMinimum(s, x);
    }
  }

  function Minimum(s: set<nat>): (m: nat)
    requires s != {}
    ensures m in s && forall x :: x in s ==> m <= x
  {
    assert exists k :: k in s;
    ghost var k :| k in s;
    HasMinimum(s, k);
    var m :| m in s && forall x :: x in s ==> m <= x;
    m
  }

  function SortedKeys(s: set<nat>): (keys: seq<nat>)
    ensures forall x :: x in keys <==> x in s
    ensures forall i, j :: 0 <= i < j < |keys| ==> keys[i] < keys[j]
  {
    if s == {} then []
    else
      var m := Minimum(s);
      var rest := SortedKeys(s - {m});
      assert forall x :: x in s <==> x == m || x in s - {m};
      [m] + rest
  }
}
