/**
 Splitting a sequence into maximal runs of neighbours that belong together.

 Failover tiers (same channel), correlation episodes and authentication bursts (gap within the
 window) are all such partitions. The partition is characterised declaratively, the
 characterisation is shown to have exactly one solution, and the left-to-right scan computes it.
 */
module MaximalRuns {
  import opened Common

  function Flatten<T>(groups: seq<seq<T>>): seq<T> {
    if groups == [] then [] else groups[0] + Flatten(groups[1..])
  }

  lemma {:induction false} FlattenAppend<T>(a: seq<seq<T>>, b: seq<seq<T>>)
    ensures Flatten(a + b) == Flatten(a) + Flatten(b)
  {
    if a == [] {
      assert a + b == b;
    } else {
      calc {
        Flatten(a + b);
        { assert (a + b)[1..] == a[1..] + b; }
        a[0] + Flatten(a[1..] + b);
        { FlattenAppend(a[1..], b); }
        a[0] + (Flatten(a[1..]) + Flatten(b));
        a[0] + Flatten(a[1..]) + Flatten(b);
      }
    }
  }

  lemma FlattenSnoc<T>(groups: seq<seq<T>>, g: seq<T>)
    ensures Flatten(groups + [g]) == Flatten(groups) + g
  {
    FlattenAppend(groups, [g]);
    assert Flatten([g]) == g + Flatten<T>([]);
  }

  ghost predicate IsRun<T>(group: seq<T>, joins: (T, T) -> bool) {
    group != [] && forall i, j :: 0 <= i < j < |group| && j == i + 1 ==> joins(group[i], group[j])
  }

  /** `groups` cuts `items` exactly at the neighbours that do not join. */
  ghost predicate IsMaximalPartition<T>(groups: seq<seq<T>>, items: seq<T>, joins: (T, T) -> bool) {
    && Flatten(groups) == items
    && (forall i :: 0 <= i < |groups| ==> IsRun(groups[i], joins))
    && (forall i, j :: 0 <= i < j < |groups| && j == i + 1 ==> !joins(Last(groups[i]), groups[j][0]))
  }

  /** The scan: extend the last run when the next item joins it, otherwise open a new one. */
  function Runs<T>(items: seq<T>, joins: (T, T) -> bool): (groups: seq<seq<T>>)
    ensures IsMaximalPartition(groups, items, joins)
  {
    if items == [] then
      []
    else
      var before := Runs(items[..|items| - 1], joins);
      Grow(before, Last(items), joins, items[..|items| - 1]);
      assert items == items[..|items| - 1] + [Last(items)];
      Place(before, Last(items), joins)
  }

  function Place<T>(groups: seq<seq<T>>, x: T, joins: (T, T) -> bool): seq<seq<T>>
    requires forall i :: 0 <= i < |groups| ==> groups[i] != []
  {
    if groups != [] && joins(Last(Last(groups)), x)
    then groups[..|groups| - 1] + [Last(groups) + [x]]
    else groups + [[x]]
  }

  lemma Grow<T>(groups: seq<seq<T>>, x: T, joins: (T, T) -> bool, items: seq<T>)
    requires IsMaximalPartition(groups, items, joins)
    ensures IsMaximalPartition(Place(groups, x, joins), items + [x], joins)
  {
    if groups != [] && joins(Last(Last(groups)), x) {
      var front, last := groups[..|groups| - 1], Last(groups);
      assert groups == front + [last];
      FlattenSnoc(front, last);
      FlattenSnoc(front, last + [x]);
      assert IsRun(last + [x], joins) by { assert IsRun(last, joins); }
      var grown := Place(groups, x, joins);
      assert forall i :: 0 <= i < |groups| ==> grown[i][0] == groups[i][0];
      assert forall i :: 0 <= i < |front| ==> grown[i] == groups[i];
    } else {
      FlattenSnoc(groups, [x]);
    }
  }

  /** There is only one partition into maximal runs. */
  lemma {:induction false} PartitionUnique<T>(a: seq<seq<T>>, b: seq<seq<T>>, items: seq<T>, joins: (T, T) -> bool)
    requires IsMaximalPartition(a, items, joins) && IsMaximalPartition(b, items, joins)
    ensures a == b
    decreases |a|
  {
    if a != [] && b != [] {
      FirstRunNoShorter(a, b, items, joins);
      FirstRunNoShorter(b, a, items, joins);
      assert a[0] == items[..|a[0]|] && b[0] == items[..|b[0]|];
      assert Flatten(a[1..]) == items[|a[0]|..] && Flatten(b[1..]) == items[|b[0]|..];
      PartitionUnique(a[1..], b[1..], items[|a[0]|..], joins);
    }
  }

  lemma FirstRunNoShorter<T>(a: seq<seq<T>>, b: seq<seq<T>>, items: seq<T>, joins: (T, T) -> bool)
    requires IsMaximalPartition(a, items, joins) && IsMaximalPartition(b, items, joins)
    requires a != [] && b != []
    ensures |a[0]| >= |b[0]|
  {
    assert items == a[0] + Flatten(a[1..]) && items == b[0] + Flatten(b[1..]);
    assert forall i, j :: 0 <= i < j < |b[0]| && j == i + 1 ==> joins(items[i], items[j]) by {
      assert IsRun(b[0], joins);
    }
    if |a| > 1 {
      FirstCut(a, items, joins);
    } else {
      assert a[1..] == [];
    }
  }

  /** Right after the first run, the neighbours do not join. */
  lemma FirstCut<T>(groups: seq<seq<T>>, items: seq<T>, joins: (T, T) -> bool)
    requires IsMaximalPartition(groups, items, joins) && |groups| > 1
    ensures |groups[0]| < |items| && !joins(items[|groups[0]| - 1], items[|groups[0]|])
  {
    assert IsRun(groups[1], joins);
    assert Flatten(groups[1..]) == groups[1] + Flatten(groups[1..][1..]);
    assert items[|groups[0]|] == groups[1][0];
    assert items[|groups[0]| - 1] == Last(groups[0]);
  }

  /** Which group holds position `p` of the flattened sequence. */
  function GroupOf<T>(groups: seq<seq<T>>, p: nat): nat
    requires p < |Flatten(groups)|
  {
    if p < |groups[0]| then 0 else 1 + GroupOf(groups[1..], p - |groups[0]|)
  }

  ghost predicate AllJoin<T>(items: seq<T>, joins: (T, T) -> bool, p: nat, q: nat)
    requires q < |items|
  {
    forall i, j :: p <= i < j <= q && j == i + 1 ==> joins(items[i], items[j])
  }

  /** Two positions share a run exactly when every neighbouring pair between them joins. */
  lemma {:induction false} SharesRunIff<T>(groups: seq<seq<T>>, items: seq<T>, joins: (T, T) -> bool, p: nat, q: nat)
    requires IsMaximalPartition(groups, items, joins)
    requires p <= q < |items|
    ensures GroupOf(groups, p) == GroupOf(groups, q) <==> AllJoin(items, joins, p, q)
    decreases |groups|
  {
    var n := |groups[0]|;
    var tail := Flatten(groups[1..]);
    assert items == groups[0] + tail;
    if q >= n {
      if p < n {
        FirstCut(groups, items, joins);
      } else {
        SharesRunIff(groups[1..], tail, joins, p - n, q - n);
        assert forall k :: n <= k < |items| ==> items[k] == tail[k - n];
        assert AllJoin(items, joins, p, q) ==> AllJoin(tail, joins, p - n, q - n) by {
          assert forall k :: 0 <= k < |tail| ==> tail[k] == items[k + n];
        }
      }
    }
  }

  lemma {:induction false} RunFromSameGroup<T>(groups: seq<seq<T>>, p: nat, n: nat) returns (g: nat)
    requires n >= 1 && p + n <= |Flatten(groups)| && GroupOf(groups, p) == GroupOf(groups, p + n - 1)
    ensures g < |groups| && |groups[g]| >= n
    decreases |groups|
  {
    if p < |groups[0]| {
      g := 0;
    } else {
      var h := RunFromSameGroup(groups[1..], p - |groups[0]|, n);
      g := h + 1;
    }
  }

  lemma {:induction false} LongGroupStart<T>(groups: seq<seq<T>>, g: nat, n: nat) returns (p: nat)
    requires g < |groups| && 1 <= n <= |groups[g]|
    ensures p + n <= |Flatten(groups)| && GroupOf(groups, p) == GroupOf(groups, p + n - 1)
    decreases |groups|
  {
    if g == 0 {
      p := 0;
    } else {
      var q := LongGroupStart(groups[1..], g - 1, n);
      p := q + |groups[0]|;
    }
  }

  /** The `n` items from position `p` on all join. */
  ghost predicate ChainAt<T>(items: seq<T>, joins: (T, T) -> bool, p: nat, n: nat) {
    1 <= n && p + n <= |items| && AllJoin(items, joins, p, p + n - 1)
  }

  /** Some run has at least `n` items exactly when some `n` consecutive items all join. */
  lemma LongRunIff<T>(groups: seq<seq<T>>, items: seq<T>, joins: (T, T) -> bool, n: nat)
    requires IsMaximalPartition(groups, items, joins) && n >= 1
    ensures (exists g :: 0 <= g < |groups| && |groups[g]| >= n) <==> (exists p: nat :: ChainAt(items, joins, p, n))
  {
    if g :| 0 <= g < |groups| && |groups[g]| >= n {
      var p := LongGroupStart(groups, g, n);
      SharesRunIff(groups, items, joins, p, p + n - 1);
      assert ChainAt(items, joins, p, n);
    }
    if p: nat :| ChainAt(items, joins, p, n) {
      SharesRunIff(groups, items, joins, p, p + n - 1);
      var g := RunFromSameGroup(groups, p, n);
      assert |groups[g]| >= n;
    }
  }
}
