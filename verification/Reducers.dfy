/**
 The reducers that merge node updates into the investigation state. A list update extends the list,
 a mapping update is merged under each of its keys, and any other update replaces what was there.
 */
module Reducers {
  import opened Common

  type Name = nat

  /** A JSON-like value. List items and scalars are opaque. */
  datatype Value = Scalar(id: nat) | Items(items: seq<nat>) | Fields(fields: map<Name, Value>)

  function Merge(current: Value, incoming: Value): Value
    decreases incoming
  {
    if current.Items? && incoming.Items? then Items(current.items + incoming.items)
    else if current.Fields? && incoming.Fields? then
      Fields(map k | k in current.fields.Keys + incoming.fields.Keys ::
        if k !in incoming.fields then current.fields[k]
        else if k in current.fields then Merge(current.fields[k], incoming.fields[k])
        else incoming.fields[k])
    else incoming
  }

  /** A sub-state update, as the loop over the incoming keys performs it; either side may be missing. */
  method MergeSubstate(current: Option<map<Name, Value>>, incoming: Option<map<Name, Value>>)
    returns (result: map<Name, Value>)
    ensures Fields(result) == Merge(Fields(if current.Some? then current.value else map[]),
                                    Fields(if incoming.Some? then incoming.value else map[]))
  {
    var base := if current.Some? then current.value else map[];
    var updates := if incoming.Some? then incoming.value else map[];
    result := base;
    var todo := updates.Keys;
    while todo != {}
      invariant todo <= updates.Keys
      invariant result.Keys == base.Keys + (updates.Keys - todo)
      invariant forall k :: k in result ==>
                  result[k] == if k !in updates || k in todo then base[k]
                               else if k in base then Merge(base[k], updates[k]) else updates[k]
    {
      var k :| k in todo;
      result := result[k := if k in result then Merge(result[k], updates[k]) else updates[k]];
      todo := todo - {k};
    }
  }

  // ----- Associativity

  /** Merging `a` under `c` leaves `c` as it is. */
  predicate Absorbed(a: Value, c: Value)
    decreases c
  {
    if a.Items? && c.Items? then a.items == []
    else if a.Fields? && c.Fields? then
      forall k :: k in a.fields ==> k in c.fields && Absorbed(a.fields[k], c.fields[k])
    else true
  }

  lemma {:induction false} AbsorbedIff(a: Value, c: Value)
    ensures Merge(a, c) == c <==> Absorbed(a, c)
    decreases c
  {
    if a.Fields? && c.Fields? {
      forall k | k in a.fields && k in c.fields
        ensures Merge(a.fields[k], c.fields[k]) == c.fields[k] <==> Absorbed(a.fields[k], c.fields[k])
      {
        AbsorbedIff(a.fields[k], c.fields[k]);
      }
      if Absorbed(a, c) {
        assert Merge(a, c).fields == c.fields;
      } else {
        var k :| k in a.fields && !(k in c.fields && Absorbed(a.fields[k], c.fields[k]));
        assert k in Merge(a, c).fields;
      }
    } else if a.Items? && c.Items? {
      assert |a.items + c.items| == |a.items| + |c.items|;
      assert a.items == [] ==> a.items + c.items == c.items;
    }
  }

  /**
   When batching two updates changes nothing: wherever the second update replaces the first
   instead of extending it, the older value must have nothing to add to the newest.
   */
  predicate BatchSafe(a: Value, b: Value, c: Value)
    decreases c
  {
    if b.Items? && c.Items? then true
    else if b.Fields? && c.Fields? then
      a.Fields? ==> forall k :: k in a.fields && k in b.fields && k in c.fields ==>
        BatchSafe(a.fields[k], b.fields[k], c.fields[k])
    else Absorbed(a, c)
  }

  /** Merging is associative exactly on the batch-safe triples. */
  lemma {:induction false} AssociativeIff(a: Value, b: Value, c: Value)
    ensures Merge(Merge(a, b), c) == Merge(a, Merge(b, c)) <==> BatchSafe(a, b, c)
    decreases c
  {
    if b.Items? && c.Items? {
    } else if b.Fields? && c.Fields? {
      if a.Fields? {
        AssociativeFields(a, b, c);
      }
    } else {
      AbsorbedIff(a, c);
    }
  }

  lemma {:induction false} AssociativeFields(a: Value, b: Value, c: Value)
    requires a.Fields? && b.Fields? && c.Fields?
    ensures Merge(Merge(a, b), c) == Merge(a, Merge(b, c)) <==> BatchSafe(a, b, c)
    decreases c, 0
  {
    var left, right := Merge(Merge(a, b), c).fields, Merge(a, Merge(b, c)).fields;
    forall k | k in a.fields && k in b.fields && k in c.fields
      ensures left[k] == right[k] <==> BatchSafe(a.fields[k], b.fields[k], c.fields[k])
    {
      AssociativeIff(a.fields[k], b.fields[k], c.fields[k]);
    }
    assert left.Keys == right.Keys;
    assert forall k :: k in left && !(k in a.fields && k in b.fields && k in c.fields) ==> left[k] == right[k];
    if BatchSafe(a, b, c) {
      assert left == right;
    } else {
      var k :| k in a.fields && k in b.fields && k in c.fields && !BatchSafe(a.fields[k], b.fields[k], c.fields[k]);
      assert left[k] != right[k];
    }
  }

  /** Both values give every shared key the same kind: list, mapping or scalar. */
  predicate SameKinds(a: Value, b: Value)
    decreases b
  {
    && (a.Items? <==> b.Items?)
    && (a.Fields? <==> b.Fields?)
    && (a.Fields? ==> forall k :: k in a.fields && k in b.fields ==> SameKinds(a.fields[k], b.fields[k]))
  }

  /** With fixed kinds, applying updates one by one or batched is the same. */
  lemma {:induction false} AssociativeOnFixedKinds(a: Value, b: Value, c: Value)
    requires SameKinds(a, b) && SameKinds(b, c) && SameKinds(a, c)
    ensures Merge(Merge(a, b), c) == Merge(a, Merge(b, c))
  {
    FixedKindsAreSafe(a, b, c);
    AssociativeIff(a, b, c);
  }

  lemma {:induction false} FixedKindsAreSafe(a: Value, b: Value, c: Value)
    requires SameKinds(a, b) && SameKinds(b, c) && SameKinds(a, c)
    ensures BatchSafe(a, b, c)
    decreases c
  {
    if c.Fields? {
      forall k | k in a.fields && k in b.fields && k in c.fields
        ensures BatchSafe(a.fields[k], b.fields[k], c.fields[k])
      {
        FixedKindsAreSafe(a.fields[k], b.fields[k], c.fields[k]);
      }
    }
  }

  /**
   Kinds that change break batching: a list overwritten by a scalar and set again keeps its old
   items only when batched.
   */
  lemma KindChangeBreaksBatching()
    ensures var a, b, c := Items([1]), Scalar(2), Items([3]);
            Merge(Merge(a, b), c) == Items([3]) && Merge(a, Merge(b, c)) == Items([1, 3])
  {
  }

  // ----- Commuting writers

  /**
   Equal scalars, lists whose items can be swapped, and mappings that agree in this sense on every
   shared key. Values of different kinds never do.
   */
  predicate Commuting(a: Value, b: Value)
    decreases b
  {
    match (a, b)
    case (Scalar(x), Scalar(y)) => x == y
    case (Items(x), Items(y)) => x + y == y + x
    case (Fields(x), Fields(y)) => forall k :: k in x && k in y ==> Commuting(x[k], y[k])
    case _ => false
  }

  lemma {:induction false} SymmetricIff(a: Value, b: Value)
    ensures Merge(a, b) == Merge(b, a) <==> Commuting(a, b)
    decreases b
  {
    if a.Fields? && b.Fields? {
      forall k | k in a.fields && k in b.fields
        ensures Merge(a.fields[k], b.fields[k]) == Merge(b.fields[k], a.fields[k])
                <==> Commuting(a.fields[k], b.fields[k])
      {
        SymmetricIff(a.fields[k], b.fields[k]);
      }
      var left, right := Merge(a, b).fields, Merge(b, a).fields;
      assert left.Keys == right.Keys;
      if Commuting(a, b) {
        assert left == right;
      } else {
        var k :| k in a.fields && k in b.fields && !Commuting(a.fields[k], b.fields[k]);
        assert left[k] != right[k];
      }
    }
  }

  ghost predicate SameEitherWay(s: Value, a: Value, b: Value) { Merge(Merge(s, a), b) == Merge(Merge(s, b), a) }

  lemma {:induction false} CommutingSuffices(s: Value, a: Value, b: Value)
    requires Commuting(a, b)
    ensures SameEitherWay(s, a, b)
    decreases b
  {
    SymmetricIff(a, b);
    if s.Fields? && a.Fields? {
      var left, right := Merge(Merge(s, a), b), Merge(Merge(s, b), a);
      assert left.fields.Keys == right.fields.Keys;
      forall k | k in left.fields ensures left.fields[k] == right.fields[k] {
        if k in a.fields && k in b.fields {
          SymmetricIff(a.fields[k], b.fields[k]);
          if k in s.fields {
            CommutingSuffices(s.fields[k], a.fields[k], b.fields[k]);
          }
        }
      }
    } else if s.Items? && a.Items? {
      assert s.items + a.items + b.items == s.items + (a.items + b.items);
      assert s.items + b.items + a.items == s.items + (b.items + a.items);
    }
  }

  /** Two updates give the same state in either order, from every state, exactly when they commute as values. */
  lemma CommuteIff(a: Value, b: Value)
    ensures (forall s :: SameEitherWay(s, a, b)) <==> Commuting(a, b)
  {
    if Commuting(a, b) {
      forall s ensures SameEitherWay(s, a, b) {
        CommutingSuffices(s, a, b);
      }
    }
    if forall s :: SameEitherWay(s, a, b) {
      assert SameEitherWay(Scalar(0), a, b);
      SymmetricIff(a, b);
    }
  }

  /** Two updates that meet only in nested mappings, and write different keys there. */
  predicate Isolated(a: Value, b: Value)
    decreases b
  {
    a.Fields? && b.Fields? && forall k :: k in a.fields && k in b.fields ==> Isolated(a.fields[k], b.fields[k])
  }

  lemma {:induction false} IsolatedCommute(a: Value, b: Value)
    requires Isolated(a, b)
    ensures Commuting(a, b)
    decreases b
  {
    forall k | k in a.fields && k in b.fields ensures Commuting(a.fields[k], b.fields[k]) {
      IsolatedCommute(a.fields[k], b.fields[k]);
    }
  }

  /** Isolated writers never contend: from every state, either order of their updates gives the same state. */
  lemma IsolatedWritersCommute(s: Value, a: Value, b: Value)
    requires Isolated(a, b)
    ensures Merge(Merge(s, a), b) == Merge(Merge(s, b), a)
  {
    IsolatedCommute(a, b);
    CommuteIff(a, b);
    assert SameEitherWay(s, a, b);
  }

  // ----- Lists only grow

  function At(v: Value, path: seq<Name>): Option<Value>
    decreases |path|
  {
    if path == [] then Some(v)
    else if v.Fields? && path[0] in v.fields then At(v.fields[path[0]], path[1..])
    else None
  }

  /** What an update appends to the list at `path`. */
  function Appends(update: Value, path: seq<Name>): seq<nat> {
    var at := At(update, path);
    if at.Some? && at.value.Items? then at.value.items else []
  }

  /** The update leaves the list at `path` a list: along the path it has mappings, at its end a list, or nothing. */
  predicate Respects(update: Value, path: seq<Name>)
    decreases |path|
  {
    if path == [] then update.Items?
    else update.Fields? && (path[0] in update.fields ==> Respects(update.fields[path[0]], path[1..]))
  }

  /** A list survives an update exactly when the update respects it, and then the update's items are appended. */
  lemma {:induction false} ListGrows(s: Value, update: Value, path: seq<Name>)
    requires At(s, path).Some? && At(s, path).value.Items?
    ensures At(Merge(s, update), path).Some? && At(Merge(s, update), path).value.Items? <==> Respects(update, path)
    ensures Respects(update, path) ==>
              At(Merge(s, update), path) == Some(Items(At(s, path).value.items + Appends(update, path)))
    decreases |path|
  {
    if path != [] && update.Fields? {
      var k := path[0];
      if k in update.fields {
        ListGrows(s.fields[k], update.fields[k], path[1..]);
      } else {
        assert Merge(s, update).fields[k] == s.fields[k];
        assert Appends(update, path) == [];
        assert At(s, path).value.items + [] == At(s, path).value.items;
      }
    }
  }

  function MergeAll(s: Value, updates: seq<Value>): Value {
    if updates == [] then s else Merge(MergeAll(s, updates[..|updates| - 1]), Last(updates))
  }

  function AppendsAll(updates: seq<Value>, path: seq<Name>): seq<nat> {
    if updates == [] then [] else AppendsAll(updates[..|updates| - 1], path) + Appends(Last(updates), path)
  }

  /**
   Along any sequence of respectful updates a list keeps everything it had, in order, followed by
   exactly what was appended.
   */
  lemma {:induction false} ListHistoryPreserved(s: Value, updates: seq<Value>, path: seq<Name>)
    requires At(s, path).Some? && At(s, path).value.Items?
    requires forall i :: 0 <= i < |updates| ==> Respects(updates[i], path)
    ensures At(MergeAll(s, updates), path) == Some(Items(At(s, path).value.items + AppendsAll(updates, path)))
  {
    if updates != [] {
      ListHistoryPreserved(s, updates[..|updates| - 1], path);
      ListGrows(MergeAll(s, updates[..|updates| - 1]), Last(updates), path);
      var before := At(s, path).value.items;
      assert before + AppendsAll(updates, path)
             == before + AppendsAll(updates[..|updates| - 1], path) + Appends(Last(updates), path);
    } else {
      assert At(s, path).value.items + AppendsAll(updates, path) == At(s, path).value.items;
    }
  }

  // ----- The transition log

  datatype Transition<N> = Transition(sequence: int, node: N)

  function Stamp<N>(incoming: seq<Transition<N>>, offset: nat): seq<Transition<N>> {
    seq(|incoming|, i requires 0 <= i < |incoming| => incoming[i].(sequence := offset + i))
  }

  /** Append transitions, stamping each with its position in the log. */
  method ExtendHistory<N>(current: seq<Transition<N>>, incoming: seq<Transition<N>>) returns (base: seq<Transition<N>>)
    ensures base == current + Stamp(incoming, |current|)
  {
    base := current;
    var offset := |base|;
    for i := 0 to |incoming|
      invariant base == current + Stamp(incoming, |current|)[..i]
    {
      base := base + [incoming[i].(sequence := offset + i)];
    }
  }
}
