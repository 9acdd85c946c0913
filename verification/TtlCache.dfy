/**
 The bounded, expiring cache. After any sequence of calls it holds exactly the most recently
 touched distinct keys, and every entry is the last value set for its key.
 */
module TtlCaching {
  import opened Common

  // ----- Recency, independent of the cache

  function Head<K(==)>(x: K, k: K): seq<K> { if x == k then [] else [x] }

  function Without<K(==)>(s: seq<K>, k: K): seq<K> {
    if s == [] then [] else Head(s[0], k) + Without(s[1..], k)
  }

  /** The distinct keys of a touch history, least recently touched first. */
  function Recency<K(==)>(touches: seq<K>): seq<K> {
    if touches == [] then []
    else Without(Recency(touches[..|touches| - 1]), Last(touches)) + [Last(touches)]
  }

  function Tail<T>(s: seq<T>, n: nat): seq<T> { if |s| <= n then s else s[|s| - n..] }

  ghost predicate NoRepeats<K>(s: seq<K>) { forall i, j :: 0 <= i < j < |s| ==> s[i] != s[j] }

  ghost function Elements<K>(s: seq<K>): set<K> { set x | x in s }

  lemma {:induction false} WithoutFacts<K>(s: seq<K>, k: K)
    ensures forall x :: x in Without(s, k) <==> x in s && x != k
    ensures NoRepeats(s) ==> NoRepeats(Without(s, k)) && |Without(s, k)| == |s| - (if k in s then 1 else 0)
    ensures k !in s ==> Without(s, k) == s
  {
    if s != [] {
      WithoutFacts(s[1..], k);
      assert s == [s[0]] + s[1..];
      if NoRepeats(s) {
        assert NoRepeats(s[1..]);
        assert s[0] !in s[1..];
      }
    }
  }

  lemma Assoc<K>(a: seq<K>, b: seq<K>, c: seq<K>)
    ensures a + (b + c) == a + b + c
  {
  }

  lemma {:induction false} WithoutAppend<K>(a: seq<K>, b: seq<K>, k: K)
    ensures Without(a + b, k) == Without(a, k) + Without(b, k)
  {
    if a == [] {
      assert a + b == b;
    } else {
      var rest := Without(a[1..], k);
      calc {
        Without(a + b, k);
        { assert a + b == [a[0]] + (a[1..] + b); }
        Head(a[0], k) + Without(a[1..] + b, k);
        { WithoutAppend(a[1..], b, k); }
        Head(a[0], k) + (rest + Without(b, k));
        { Assoc(Head(a[0], k), rest, Without(b, k)); }
        Head(a[0], k) + rest + Without(b, k);
        { assert Without(a, k) == Head(a[0], k) + rest; }
        Without(a, k) + Without(b, k);
      }
    }
  }

  lemma {:induction false} RecencyFacts<K>(touches: seq<K>)
    ensures NoRepeats(Recency(touches))
    ensures forall x :: x in Recency(touches) <==> x in touches
  {
    if touches != [] {
      var front := touches[..|touches| - 1];
      RecencyFacts(front);
      WithoutFacts(Recency(front), Last(touches));
      assert touches == front + [Last(touches)];
    }
  }

  lemma TailOfLong<T>(a: seq<T>, b: seq<T>, n: nat)
    requires |b| >= n
    ensures Tail(a + b, n) == Tail(b, n)
  {
  }

  lemma TouchFull<K>(dropped: seq<K>, kept: seq<K>, k: K)
    requires NoRepeats(kept)
    ensures Tail(Without(kept, k) + [k], |kept|) == Tail(Without(dropped + kept, k) + [k], |kept|)
  {
    WithoutFacts(kept, k);
    WithoutAppend(dropped, kept, k);
    assert Without(dropped + kept, k) + [k] == Without(dropped, k) + (Without(kept, k) + [k]);
    TailOfLong(Without(dropped, k), Without(kept, k) + [k], |kept|);
  }

  /** Moving a key to the end and trimming commutes with looking only at the last `n` keys. */
  lemma TouchTail<K>(d: seq<K>, k: K, n: nat)
    requires NoRepeats(d)
    ensures Tail(Without(Tail(d, n), k) + [k], n) == Tail(Without(d, k) + [k], n)
    ensures k in Tail(d, n) ==> |Without(Tail(d, n), k) + [k]| <= n
  {
    assert NoRepeats(Tail(d, n));
    WithoutFacts(Tail(d, n), k);
    if |d| > n {
      assert d == d[..|d| - n] + Tail(d, n);
      TouchFull(d[..|d| - n], Tail(d, n), k);
    }
  }

  lemma {:induction false} CountDistinct<K>(s: seq<K>)
    requires NoRepeats(s)
    ensures |Elements(s)| == |s|
  {
    if s != [] {
      CountDistinct(s[1..]);
      assert NoRepeats(s[1..]);
      assert Elements(s) == {s[0]} + Elements(s[1..]);
      assert s[0] !in Elements(s[1..]);
    }
  }

  lemma WithoutMiddle<K>(a: seq<K>, y: K, b: seq<K>, x: K)
    requires y != x
    ensures Without(a + ([y] + b), x) == Without(a, x) + ([y] + Without(b, x))
  {
    WithoutAppend(a, [y] + b, x);
    assert ([y] + b)[1..] == b;
  }

  lemma WithoutSplit<K>(s: seq<K>, p: nat, x: K) returns (q: nat)
    requires p < |s| && s[p] != x
    ensures q < |Without(s, x)| && Without(s, x)[q] == s[p]
    ensures Elements(Without(s, x)[q + 1..]) == Elements(s[p + 1..]) - {x}
  {
    var a, b := s[..p], s[p + 1..];
    assert s == a + ([s[p]] + b);
    WithoutMiddle(a, s[p], b, x);
    q := |Without(a, x)|;
    WithoutFacts(b, x);
    assert Without(s, x)[q + 1..] == Without(b, x);
    assert Elements(Without(b, x)) == Elements(b) - {x};
  }

  lemma ElementsSnoc<K>(s: seq<K>, p: nat, x: K)
    requires p < |s|
    ensures (s + [x])[p] == s[p] && Elements((s + [x])[p + 1..]) == Elements(s[p + 1..]) + {x}
  {
    assert (s + [x])[p + 1..] == s[p + 1..] + [x];
    assert Elements([x]) == {x};
  }

  /** One more touch of another key moves that key, and only that key, behind everything. */
  lemma StillFollowed<K>(front: seq<K>, x: K, i: nat, q: nat) returns (p: nat)
    requires i < |front| && front[i] != x
    requires q < |Recency(front)| && Recency(front)[q] == front[i]
    requires Elements(Recency(front)[q + 1..]) == Elements(front[i + 1..])
    ensures p < |Recency(front + [x])| && Recency(front + [x])[p] == front[i]
    ensures Elements(Recency(front + [x])[p + 1..]) == Elements((front + [x])[i + 1..])
  {
    p := WithoutSplit(Recency(front), q, x);
    var kept := Without(Recency(front), x);
    assert (front + [x])[..|front + [x]| - 1] == front;
    assert Recency(front + [x]) == kept + [x];
    ElementsSnoc(kept, p, x);
    ElementsSnoc(front, i, x);
  }

  /** In the recency order a key is followed by exactly the keys touched after its last touch. */
  lemma {:induction false} FollowedByLaterTouches<K>(touches: seq<K>, i: nat) returns (p: nat)
    requires i < |touches| && touches[i] !in touches[i + 1..]
    ensures p < |Recency(touches)| && Recency(touches)[p] == touches[i]
    ensures Elements(Recency(touches)[p + 1..]) == Elements(touches[i + 1..])
    decreases |touches|
  {
    var front, x := touches[..|touches| - 1], Last(touches);
    assert touches == front + [x];
    if i == |touches| - 1 {
      p := |Without(Recency(front), x)|;
      assert Recency(touches)[p + 1..] == [] == touches[i + 1..];
    } else {
      assert touches[i + 1..] == front[i + 1..] + [x];
      assert x in touches[i + 1..];
      var q := FollowedByLaterTouches(front, i);
      p := StillFollowed(front, x, i, q);
    }
  }

  /**
   A key is among the last `n` of the recency order exactly when fewer than `n` distinct keys were
   touched after it.
   */
  lemma RecentIff<K>(touches: seq<K>, i: nat, n: nat)
    requires i < |touches| && touches[i] !in touches[i + 1..]
    ensures touches[i] in Tail(Recency(touches), n) <==> |Elements(touches[i + 1..])| < n
  {
    var r := Recency(touches);
    RecencyFacts(touches);
    var p := FollowedByLaterTouches(touches, i);
    assert NoRepeats(r[p + 1..]);
    CountDistinct(r[p + 1..]);
  }

  // ----- The cache

  datatype Entry<K, V> = Entry(key: K, value: V, expiresAt: real)

  function Keys<K, V>(entries: seq<Entry<K, V>>): seq<K> {
    seq(|entries|, i requires 0 <= i < |entries| => entries[i].key)
  }

  function Drop<K(==), V>(entries: seq<Entry<K, V>>, k: K): seq<Entry<K, V>> {
    if entries == [] then [] else (if entries[0].key == k then [] else [entries[0]]) + Drop(entries[1..], k)
  }

  function Lookup<K(==), V>(entries: seq<Entry<K, V>>, k: K): (found: Option<Entry<K, V>>)
    ensures found.Some? ==> found.value in entries && found.value.key == k
    ensures found.Some? <==> k in Keys(entries)
  {
    if entries == [] then None
    else if entries[0].key == k then
      assert Keys(entries)[0] == k;
      Some(entries[0])
    else
      assert Keys(entries) == [entries[0].key] + Keys(entries[1..]);
      Lookup(entries[1..], k)
  }

  lemma {:induction false} DropFacts<K, V>(entries: seq<Entry<K, V>>, k: K)
    ensures Keys(Drop(entries, k)) == Without(Keys(entries), k)
    ensures forall e :: e in Drop(entries, k) ==> e in entries && e.key != k
  {
    if entries != [] {
      DropFacts(entries[1..], k);
      assert Keys(entries)[1..] == Keys(entries[1..]);
      assert entries[0].key != k ==>
             Keys([entries[0]] + Drop(entries[1..], k)) == [entries[0].key] + Keys(Drop(entries[1..], k));
    }
  }

  lemma KeysOfTail<K, V>(entries: seq<Entry<K, V>>, n: nat)
    ensures Keys(Tail(entries, n)) == Tail(Keys(entries), n)
  {
  }

  /** Every entry is the last value set for its key. */
  ghost predicate Current<K, V>(entries: seq<Entry<K, V>>, lastSet: map<K, (V, real)>) {
    forall i :: 0 <= i < |entries| ==>
      entries[i].key in lastSet && lastSet[entries[i].key] == (entries[i].value, entries[i].expiresAt)
  }

  lemma DropKeepsCurrent<K, V>(entries: seq<Entry<K, V>>, lastSet: map<K, (V, real)>, e: Entry<K, V>)
    requires Current(entries, lastSet)
    ensures Current(Drop(entries, e.key) + [e], lastSet[e.key := (e.value, e.expiresAt)])
  {
    DropFacts(entries, e.key);
    var dropped := Drop(entries, e.key);
    forall i | 0 <= i < |dropped|
      ensures dropped[i].key in lastSet && dropped[i].key != e.key
      ensures lastSet[dropped[i].key] == (dropped[i].value, dropped[i].expiresAt)
    {
      assert dropped[i] in entries;
    }
  }

  ghost predicate Exact<K(!new), V(!new)>(entries: seq<Entry<K, V>>, touches: seq<K>, lastSet: map<K, (V, real)>,
                                          n: nat) {
    Keys(entries) == Tail(Recency(touches), n) && Current(entries, lastSet)
  }

  lemma SetKeepsExact<K(!new), V(!new)>(entries: seq<Entry<K, V>>, touches: seq<K>, lastSet: map<K, (V, real)>,
                                        n: nat, e: Entry<K, V>)
    requires Exact(entries, touches, lastSet, n)
    ensures Exact(Tail(Drop(entries, e.key) + [e], n), touches + [e.key], lastSet[e.key := (e.value, e.expiresAt)], n)
    ensures e.key in Keys(entries) ==> |Drop(entries, e.key) + [e]| <= n
  {
    var wanted := Drop(entries, e.key) + [e];
    DropFacts(entries, e.key);
    assert Keys(wanted) == Without(Keys(entries), e.key) + [e.key];
    RecencyFacts(touches);
    TouchTail(Recency(touches), e.key, n);
    assert (touches + [e.key])[..|touches|] == touches;
    KeysOfTail(wanted, n);
    DropKeepsCurrent(entries, lastSet, e);
    assert |Keys(wanted)| == |wanted|;
  }

  class TtlCache<K(==, !new), V(!new)> {
    const ttl: real
    const maxEntries: nat
    /** Insertion-ordered: the front is evicted first. */
    var entries: seq<Entry<K, V>>
    ghost var touches: seq<K>
    ghost var lastSet: map<K, (V, real)>

    ghost predicate Valid()
      reads this
    {
      Exact(entries, touches, lastSet, maxEntries)
    }

    constructor (ttl: real, maxEntries: nat)
      ensures Valid() && this.ttl == ttl && this.maxEntries == maxEntries && touches == [] && lastSet == map[]
    {
      this.ttl, this.maxEntries := ttl, maxEntries;
      entries, touches, lastSet := [], [], map[];
    }

    predicate Holds(key: K)
      reads this
    {
      key in Keys(entries)
    }

    /** A live value is returned and touched; an absent or expired one is neither. */
    method Get(key: K, now: real) returns (value: Option<V>)
      requires Valid()
      modifies this
      ensures Valid() && lastSet == old(lastSet)
      ensures old(Holds(key)) ==> key in lastSet
      ensures old(Holds(key)) && now < lastSet[key].1 ==>
              value == Some(lastSet[key].0) && touches == old(touches) + [key]
      ensures !(old(Holds(key)) && now < lastSet[key].1) ==>
              value.None? && touches == old(touches) && entries == old(entries)
    {
      var entry := Lookup(entries, key);
      if entry.None? {
        return None;
      }
      if now >= entry.value.expiresAt {
        return None;
      }
      MoveToEnd(entry.value);
      return Some(entry.value.value);
    }

    /** Put an entry last, replacing any other entry for its key, and record the touch. */
    method MoveToEnd(entry: Entry<K, V>)
      requires Valid() && Holds(entry.key)
      requires entry.key in lastSet && lastSet[entry.key] == (entry.value, entry.expiresAt)
      modifies this`entries, this`touches
      ensures Valid() && touches == old(touches) + [entry.key]
    {
      SetKeepsExact(entries, touches, lastSet, maxEntries, entry);
      assert lastSet == lastSet[entry.key := (entry.value, entry.expiresAt)];
      entries := Drop(entries, entry.key) + [entry];
      touches := touches + [entry.key];
    }

    /** Expired or not, a held value is the last one set. */
    method GetStale(key: K) returns (value: Option<V>)
      requires Valid()
      ensures value.Some? <==> Holds(key)
      ensures Holds(key) ==> key in lastSet && value == Some(lastSet[key].0)
    {
      var entry := Lookup(entries, key);
      value := if entry.Some? then Some(entry.value.value) else None;
    }

    method Set(key: K, value: V, now: real)
      requires Valid()
      modifies this
      ensures Valid()
      ensures ttl <= 0.0 ==> touches == old(touches) && lastSet == old(lastSet) && entries == old(entries)
      ensures ttl > 0.0 ==> touches == old(touches) + [key] && lastSet == old(lastSet)[key := (value, now + ttl)]
    {
      if ttl <= 0.0 {
        return;
      }
      var entry := Entry(key, value, now + ttl);
      var next := Drop(entries, key) + [entry];
      SetKeepsExact(entries, touches, lastSet, maxEntries, entry);
      assert Exact(Tail(next, maxEntries), touches + [key], lastSet[key := (value, now + ttl)], maxEntries);
      lastSet, touches, entries := lastSet[key := (value, now + ttl)], touches + [key], next;
      EvictOldest();
    }

    /** Evict from the front until the bound is met. */
    method EvictOldest()
      modifies this`entries
      ensures entries == Tail(old(entries), maxEntries)
    {
      while |entries| > maxEntries
        invariant |entries| <= |old(entries)| && entries == old(entries)[|old(entries)| - |entries|..]
        invariant |entries| >= maxEntries || entries == old(entries)
      {
        entries := entries[1..];
      }
    }

    method Clear()
      modifies this
      ensures Valid() && entries == [] && touches == [] && lastSet == map[]
    {
      entries, touches, lastSet := [], [], map[];
    }
  }
}
