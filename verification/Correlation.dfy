/**
 Time-window correlation: events that share a key and follow one another within the window.
 Keys are numbered in reporting order (kind, then value).
 */
module Correlations {
  import opened Common
  import opened Ordering
  import opened MaximalRuns
  import opened Detection

  datatype Correlation = Correlation(key: nat, ids: seq<nat>, start: int, end: int)

  // ----- Buckets

  /** One copy of the event for each time it carries the key. */
  function Copies(e: Event, keys: seq<nat>, key: nat): seq<Event> {
    if keys == [] then []
    else Copies(e, keys[..|keys| - 1], key) + (if Last(keys) == key then [e] else [])
  }

  function Bucket(events: seq<Event>, key: nat): seq<Event> {
    if events == [] then []
    else Bucket(events[..|events| - 1], key) + Copies(Last(events), Last(events).keys, key)
  }

  function Lookup(buckets: map<nat, seq<Event>>, key: nat): seq<Event> { if key in buckets then buckets[key] else [] }

  /** The buckets hold the events so far, plus this event's copies for the keys seen so far. */
  ghost predicate Filled(buckets: map<nat, seq<Event>>, events: seq<Event>, e: Event, keys: seq<nat>) {
    forall k: nat :: Lookup(buckets, k) == Bucket(events, k) + Copies(e, keys, k)
  }

  method FillBuckets(events: seq<Event>) returns (buckets: map<nat, seq<Event>>)
    ensures forall k: nat :: Lookup(buckets, k) == Bucket(events, k)
  {
    buckets := map[];
    for i := 0 to |events|
      invariant forall k: nat :: Lookup(buckets, k) == Bucket(events[..i], k)
    {
      var e := events[i];
      assert events[..i + 1][..i] == events[..i];
      assert Filled(buckets, events[..i], e, []);
      for n := 0 to |e.keys|
        invariant Filled(buckets, events[..i], e, e.keys[..n])
      {
        buckets := AddCopy(buckets, events[..i], e, e.keys, n);
      }
      assert e.keys[..|e.keys|] == e.keys;
    }
    assert events[..|events|] == events;
  }

  method AddCopy(before: map<nat, seq<Event>>, ghost events: seq<Event>, e: Event, keys: seq<nat>, n: nat)
    returns (buckets: map<nat, seq<Event>>)
    requires n < |keys| && Filled(before, events, e, keys[..n])
    ensures Filled(buckets, events, e, keys[..n + 1])
  {
    buckets := before[keys[n] := Lookup(before, keys[n]) + [e]];
    forall k: nat ensures Lookup(buckets, k) == Bucket(events, k) + Copies(e, keys[..n + 1], k) {
      OneMoreKey(before, Bucket(events, k), e, keys, n, k);
    }
  }

  lemma OneMoreKey(before: map<nat, seq<Event>>, bucket: seq<Event>, e: Event, keys: seq<nat>, n: nat, k: nat)
    requires n < |keys| && Lookup(before, k) == bucket + Copies(e, keys[..n], k)
    ensures Lookup(before[keys[n] := Lookup(before, keys[n]) + [e]], k) == bucket + Copies(e, keys[..n + 1], k)
  {
    var last := if keys[n] == k then [e] else [];
    assert keys[..n + 1][..n] == keys[..n];
    assert Copies(e, keys[..n + 1], k) == Copies(e, keys[..n], k) + last;
    assert bucket + (Copies(e, keys[..n], k) + last) == bucket + Copies(e, keys[..n], k) + last;
    assert Lookup(before[keys[n] := Lookup(before, keys[n]) + [e]], k) == Lookup(before, k) + last;
  }

  lemma {:induction false} CopiesFacts(e: Event, keys: seq<nat>, key: nat)
    ensures forall x :: x in Copies(e, keys, key) ==> x == e && key in keys
  {
    if keys != [] {
      CopiesFacts(e, keys[..|keys| - 1], key);
    }
  }

  lemma {:induction false} BucketFacts(events: seq<Event>, key: nat)
    ensures forall e :: e in Bucket(events, key) ==> e in events && key in e.keys
  {
    if events != [] {
      BucketFacts(events[..|events| - 1], key);
      CopiesFacts(Last(events), Last(events).keys, key);
    }
  }

  // ----- Distinct ids

  /** First occurrences, in order. */
  function Distinct(ids: seq<nat>): seq<nat> {
    if ids == [] then []
    else
      var front := Distinct(ids[..|ids| - 1]);
      if Last(ids) in front then front else front + [Last(ids)]
  }

  method UniqueEventIds(events: seq<Event>) returns (ordered: seq<nat>)
    ensures ordered == Distinct(Ids(events))
  {
    var seen: set<nat> := {};
    ordered := [];
    for i := 0 to |events|
      invariant ordered == Distinct(Ids(events)[..i])
      invariant forall x :: x in seen <==> x in ordered
    {
      assert Ids(events)[..i + 1][..i] == Ids(events)[..i];
      if events[i].id in seen {
        continue;
      }
      seen := seen + {events[i].id};
      ordered := ordered + [events[i].id];
    }
    assert Ids(events)[..|events|] == Ids(events);
  }

  lemma {:induction false} DistinctFacts(ids: seq<nat>)
    ensures forall i, j :: 0 <= i < j < |Distinct(ids)| ==> Distinct(ids)[i] != Distinct(ids)[j]
    ensures forall x :: x in Distinct(ids) <==> x in ids
  {
    if ids != [] {
      DistinctFacts(ids[..|ids| - 1]);
      assert ids == ids[..|ids| - 1] + [Last(ids)];
    }
  }

  /** The first position of an id. */
  function FirstAt(ids: seq<nat>, x: nat): nat { if ids == [] || ids[0] == x then 0 else 1 + FirstAt(ids[1..], x) }

  lemma {:induction false} FirstAtSnoc(ids: seq<nat>, last: nat, x: nat)
    ensures x in ids ==> FirstAt(ids + [last], x) == FirstAt(ids, x) < |ids|
    ensures x !in ids && x == last ==> FirstAt(ids + [last], x) == |ids|
  {
    if ids == [] {
      assert ids + [last] == [last];
    } else {
      FirstAtSnoc(ids[1..], last, x);
      assert (ids + [last])[1..] == ids[1..] + [last];
      assert x in ids <==> x == ids[0] || x in ids[1..];
    }
  }

  /** The distinct ids come in the order of their first occurrences. */
  lemma {:induction false} DistinctInOrder(ids: seq<nat>)
    ensures forall i, j :: 0 <= i < j < |Distinct(ids)| ==>
            FirstAt(ids, Distinct(ids)[i]) < FirstAt(ids, Distinct(ids)[j])
  {
    if ids != [] {
      var front, last := ids[..|ids| - 1], Last(ids);
      assert ids == front + [last];
      DistinctInOrder(front);
      DistinctFacts(front);
      var was, now := Distinct(front), Distinct(ids);
      forall i | 0 <= i < |was| ensures FirstAt(ids, was[i]) == FirstAt(front, was[i]) < |front| {
        assert was[i] in was;
        FirstAtSnoc(front, last, was[i]);
      }
      FirstAtSnoc(front, last, last);
    }
  }

  // ----- Correlations

  function Describe(key: nat, episode: seq<Event>): Correlation
    requires episode != []
  {
    Correlation(key, Distinct(Ids(episode)), episode[0].time, Last(episode).time)
  }

  function Episodes(bucket: seq<Event>, window: int): seq<seq<Event>> { Runs(Sort(bucket), Near(window)) }

  /** The episode has enough distinct ids, and `c` describes it. */
  ghost predicate Qualifies(c: Correlation, episode: seq<Event>, minimum: int) {
    episode != [] && |Distinct(Ids(episode))| >= minimum && c == Describe(c.key, episode)
  }

  /** `c` describes one of the key's maximal episodes. */
  ghost predicate Correlates(bucket: seq<Event>, window: int, minimum: int, c: Correlation) {
    exists episode :: episode in Episodes(bucket, window) && Qualifies(c, episode, minimum)
  }

  /** The correlations of one key's episodes, in order. */
  function Qualifying(key: nat, episodes: seq<seq<Event>>, minimum: int): seq<Correlation> {
    if episodes == [] then []
    else
      var front, episode := Qualifying(key, episodes[..|episodes| - 1], minimum), Last(episodes);
      if episode != [] && |Distinct(Ids(episode))| >= minimum then front + [Describe(key, episode)] else front
  }

  lemma {:induction false} QualifyingExact(key: nat, episodes: seq<seq<Event>>, minimum: int, c: Correlation)
    ensures c in Qualifying(key, episodes, minimum) <==>
            c.key == key && exists e :: e in episodes && Qualifies(c, e, minimum)
  {
    if episodes != [] {
      var front, last := episodes[..|episodes| - 1], Last(episodes);
      QualifyingExact(key, front, minimum, c);
      assert forall e :: e in episodes <==> e in front || e == last;
      assert Qualifies(c, last, minimum) && c.key == key <==>
             last != [] && |Distinct(Ids(last))| >= minimum && c == Describe(key, last);
    }
  }

  /** Each qualifying episode is described once, in order. */
  lemma {:induction false} QualifyingInOrder(key: nat, a: seq<seq<Event>>, b: seq<seq<Event>>, minimum: int)
    ensures Qualifying(key, a + b, minimum) == Qualifying(key, a, minimum) + Qualifying(key, b, minimum)
    ensures forall e :: |Qualifying(key, [e], minimum)| <= 1
    decreases |b|
  {
    forall e ensures |Qualifying(key, [e], minimum)| <= 1 {
      assert [e][..0] == [];
    }
    if b == [] {
      assert a + b == a;
    } else {
      QualifyingInOrder(key, a, b[..|b| - 1], minimum);
      assert (a + b)[..|a + b| - 1] == a + b[..|b| - 1];
    }
  }

  /** The correlations of the listed keys, one key after the other. */
  function Listing(events: seq<Event>, keys: seq<nat>, window: int, minimum: int): seq<Correlation> {
    if keys == [] then []
    else
      Listing(events, keys[..|keys| - 1], window, minimum)
      + Qualifying(Last(keys), Episodes(Bucket(events, Last(keys)), window), minimum)
  }

  lemma ListingNext(events: seq<Event>, keys: seq<nat>, i: nat, window: int, minimum: int)
    requires i < |keys|
    ensures Listing(events, keys[..i + 1], window, minimum)
         == Listing(events, keys[..i], window, minimum)
           + Qualifying(keys[i], Episodes(Bucket(events, keys[i]), window), minimum)
  {
    assert keys[..i + 1][..i] == keys[..i];
  }

  lemma {:induction false} ListingExact(events: seq<Event>, keys: seq<nat>, window: int, minimum: int, c: Correlation)
    ensures c in Listing(events, keys, window, minimum) <==>
            c.key in keys && Correlates(Bucket(events, c.key), window, minimum, c)
  {
    if keys != [] {
      var front, key := keys[..|keys| - 1], Last(keys);
      var more := Qualifying(key, Episodes(Bucket(events, key), window), minimum);
      ListingExact(events, front, window, minimum, c);
      QualifyingExact(key, Episodes(Bucket(events, key), window), minimum, c);
      assert c in Listing(events, keys, window, minimum) <==> c in Listing(events, front, window, minimum) || c in more;
      assert c.key in keys <==> c.key in front || c.key == key by {
        assert keys == front + [key];
      }
      assert c in more <==> c.key == key && Correlates(Bucket(events, key), window, minimum, c);
    }
  }

  method CorrelateBucket(key: nat, bucket: seq<Event>, window: int, minimum: int) returns (found: seq<Correlation>)
    ensures found == Qualifying(key, Episodes(bucket, window), minimum)
  {
    found := [];
    var episodes := SplitByGap(Sort(bucket), window);
    for i := 0 to |episodes|
      invariant found == Qualifying(key, episodes[..i], minimum)
    {
      var episode := episodes[i];
      assert IsRun(episode, Near(window));
      assert episodes[..i + 1][..i] == episodes[..i];
      var ids := UniqueEventIds(episode);
      if |ids| < minimum {
        continue;
      }
      found := found + [Correlation(key, ids, episode[0].time, episode[|episode| - 1].time)];
    }
    assert episodes[..|episodes|] == episodes;
  }

  /** The keys in order, with every key that some event carries. */
  ghost predicate AllKeys(keys: seq<nat>, events: seq<Event>) {
    && (forall k :: Bucket(events, k) != [] ==> k in keys)
    && (forall i, j :: 0 <= i < j < |keys| ==> keys[i] < keys[j])
  }

  /**
   A correlation is reported exactly when some key's events form such an episode, once each, by key
   and then by time.
   */
  method CorrelateEvents(events: seq<Event>, window: int, minimum: int)
    returns (found: seq<Correlation>, ghost keys: seq<nat>)
    ensures forall c :: c in found <==> Correlates(Bucket(events, c.key), window, minimum, c)
    ensures AllKeys(keys, events) && found == Listing(events, keys, window, minimum)
  {
    var buckets := FillBuckets(events);
    var ordered := SortedKeys(buckets.Keys);
    keys := ordered;
    found := [];
    for i := 0 to |ordered|
      invariant found == Listing(events, ordered[..i], window, minimum)
    {
      var key := ordered[i];
      assert key in ordered;
      var more := CorrelateBucket(key, Lookup(buckets, key), window, minimum);
      ListingNext(events, ordered, i, window, minimum);
      found := found + more;
    }
    assert ordered[..|ordered|] == ordered;
    assert AllKeys(ordered, events) by {
      assert forall k :: Lookup(buckets, k) == Bucket(events, k);
    }
    forall c: Correlation ensures c in found <==> Correlates(Bucket(events, c.key), window, minimum, c) {
      AllListed(events, ordered, window, minimum, c);
    }
  }

  lemma AllListed(events: seq<Event>, keys: seq<nat>, window: int, minimum: int, c: Correlation)
    requires AllKeys(keys, events)
    ensures c in Listing(events, keys, window, minimum) <==> Correlates(Bucket(events, c.key), window, minimum, c)
  {
    ListingExact(events, keys, window, minimum, c);
    if Bucket(events, c.key) == [] {
      assert Episodes([], window) == [];
    }
  }

  /**
   Every correlation names at least `minimum` distinct events, all carrying its key, and spans them
   from first to last.
   */
  lemma CorrelationsAreReal(events: seq<Event>, window: int, minimum: int, c: Correlation)
    requires Correlates(Bucket(events, c.key), window, minimum, c)
    ensures |c.ids| >= minimum
    ensures forall i, j :: 0 <= i < j < |c.ids| ==> c.ids[i] != c.ids[j]
    ensures forall id :: id in c.ids ==> exists e :: e in events && e.id == id && c.key in e.keys
  {
    var episode :| episode in Episodes(Bucket(events, c.key), window) && Qualifies(c, episode, minimum);
    DistinctFacts(Ids(episode));
    forall id | id in c.ids ensures exists e :: e in events && e.id == id && c.key in e.keys {
      var i :| 0 <= i < |episode| && Ids(episode)[i] == id;
      EpisodeMember(events, c.key, Episodes(Bucket(events, c.key), window), window, episode, i);
    }
  }

  /** An event is in a bucket once for each time it carries the key, in the order of the events. */
  lemma {:induction false} BucketInOrder(a: seq<Event>, b: seq<Event>, key: nat)
    ensures Bucket(a + b, key) == Bucket(a, key) + Bucket(b, key)
    ensures forall e: Event :: |Bucket([e], key)| == multiset(e.keys)[key]
    decreases |b|
  {
    forall e: Event ensures |Bucket([e], key)| == multiset(e.keys)[key] {
      assert [e][..0] == [];
      CountCopies(e, e.keys, key);
    }
    if b == [] {
      assert a + b == a;
    } else {
      BucketInOrder(a, b[..|b| - 1], key);
      assert (a + b)[..|a + b| - 1] == a + b[..|b| - 1];
    }
  }

  lemma {:induction false} CountCopies(e: Event, keys: seq<nat>, key: nat)
    ensures |Copies(e, keys, key)| == multiset(keys)[key]
  {
    if keys != [] {
      CountCopies(e, keys[..|keys| - 1], key);
      assert keys == keys[..|keys| - 1] + [Last(keys)];
    }
  }

  /** A key's bucket holds exactly the events that carry it. */
  lemma {:induction false} BucketExact(events: seq<Event>, key: nat, e: Event)
    ensures e in Bucket(events, key) <==> e in events && key in e.keys
  {
    if events != [] {
      BucketExact(events[..|events| - 1], key, e);
      var last := Last(events);
      var copies := Copies(last, last.keys, key);
      CopiesExact(last, last.keys, key);
      assert copies != [] ==> copies[0] in copies;
      assert e in copies <==> e == last && copies != [];
      assert events == events[..|events| - 1] + [last];
    }
  }

  lemma {:induction false} CopiesExact(e: Event, keys: seq<nat>, key: nat)
    ensures Copies(e, keys, key) != [] <==> key in keys
    ensures forall x :: x in Copies(e, keys, key) ==> x == e
  {
    if keys != [] {
      CopiesExact(e, keys[..|keys| - 1], key);
      assert keys == keys[..|keys| - 1] + [Last(keys)];
    }
  }

  /**
   What a correlation says about its episode: it starts with the earliest event and ends with the
   latest, neighbours are within the window, and its ids are those of the episode.
   */
  lemma CorrelationSpans(events: seq<Event>, window: int, minimum: int, c: Correlation) returns (episode: seq<Event>)
    requires Correlates(Bucket(events, c.key), window, minimum, c)
    ensures episode in Episodes(Bucket(events, c.key), window) && Spans(c, episode, window)
  {
    episode :| episode in Episodes(Bucket(events, c.key), window) && Qualifies(c, episode, minimum);
    EpisodeInOrder(Sort(Bucket(events, c.key)), Episodes(Bucket(events, c.key), window), window, episode, events,
      c.key);
    DescribedSpans(c, episode, window);
  }

  ghost predicate Spans(c: Correlation, episode: seq<Event>, window: int) {
    && episode != []
    && c.start == episode[0].time && c.end == episode[|episode| - 1].time
    && (forall i :: 0 <= i < |episode| ==> c.start <= episode[i].time <= c.end && episode[i].id in c.ids)
    && (forall i, j :: 0 <= i < j < |episode| && j == i + 1 ==> episode[j].time - episode[i].time <= window)
    && (forall id :: id in c.ids ==> exists i :: 0 <= i < |episode| && episode[i].id == id)
  }

  lemma DescribedSpans(c: Correlation, episode: seq<Event>, window: int)
    requires episode != [] && c == Describe(c.key, episode) && Ordered(episode) && IsRun(episode, Near(window))
    ensures Spans(c, episode, window)
  {
    DistinctFacts(Ids(episode));
    forall i | 0 <= i < |episode| ensures c.start <= episode[i].time <= c.end && episode[i].id in c.ids {
      assert Ids(episode)[i] == episode[i].id;
      assert i > 0 ==> Precedes(episode[0], episode[i]);
      assert i < |episode| - 1 ==> Precedes(episode[i], episode[|episode| - 1]);
    }
    forall id | id in c.ids ensures exists i :: 0 <= i < |episode| && episode[i].id == id {
      var i :| 0 <= i < |Ids(episode)| && Ids(episode)[i] == id;
      assert episode[i].id == id;
    }
  }

  lemma EpisodeInOrder(sorted: seq<Event>, episodes: seq<seq<Event>>, window: int, episode: seq<Event>,
                       events: seq<Event>, key: nat)
    requires sorted == Sort(Bucket(events, key)) && episodes == Runs(sorted, Near(window)) && episode in episodes
    ensures Ordered(episode) && IsRun(episode, Near(window))
  {
    SortFacts(Bucket(events, key));
    GroupInOrder(episodes, episode);
  }

  lemma {:induction false} GroupInOrder(groups: seq<seq<Event>>, g: seq<Event>)
    requires Ordered(Flatten(groups)) && g in groups
    ensures Ordered(g)
  {
    var all, rest := Flatten(groups), Flatten(groups[1..]);
    assert all == groups[0] + rest;
    if g == groups[0] {
      assert forall i :: 0 <= i < |g| ==> g[i] == all[i];
    } else {
      assert forall i :: 0 <= i < |rest| ==> rest[i] == all[|groups[0]| + i];
      GroupInOrder(groups[1..], g);
    }
  }

  lemma EpisodeMember(events: seq<Event>, key: nat, episodes: seq<seq<Event>>, window: int, episode: seq<Event>, i: nat)
    requires episodes == Episodes(Bucket(events, key), window) && episode in episodes && i < |episode|
    ensures episode[i] in events && key in episode[i].keys
  {
    SortFacts(Bucket(events, key));
    BucketFacts(events, key);
    MemberOfFlatten(episodes, episode, episode[i]);
    assert episode[i] in multiset(Sort(Bucket(events, key)));
  }

  lemma {:induction false} MemberOfFlatten<T>(groups: seq<seq<T>>, g: seq<T>, x: T)
    requires g in groups && x in g
    ensures x in Flatten(groups)
  {
    if g != groups[0] {
      MemberOfFlatten(groups[1..], g, x);
    }
  }
}
