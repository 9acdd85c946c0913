/**
 Scanning authentication events: bursts of failures, successes that follow them, and episodes of
 correlated events. Each scanner is proved to report exactly what its declarative reading says.
 */
module Detection {
  import opened Common
  import opened Ordering
  import opened MaximalRuns

  const BRUTE_FORCE_THRESHOLD := 5
  const BREAKTHROUGH_THRESHOLD := 3

  datatype Kind = AuthFailure | AuthSuccess | OtherKind

  /**
   `principal` is the lower-cased actor, or host when unattributed; `keys` are the correlation keys
   the event carries, with repetitions.
   */
  datatype Event = Event(id: nat, time: int, kind: Kind, principal: Option<nat>, keys: seq<nat>)

  // ----- Time order

  predicate Precedes(a: Event, b: Event) { a.time < b.time || (a.time == b.time && a.id <= b.id) }

  function Insert(e: Event, sorted: seq<Event>): seq<Event> {
    if sorted == [] then [e]
    else if Precedes(e, sorted[0]) then [e] + sorted
    else [sorted[0]] + Insert(e, sorted[1..])
  }

  function Sort(events: seq<Event>): seq<Event> {
    if events == [] then [] else Insert(events[0], Sort(events[1..]))
  }

  ghost predicate Ordered(events: seq<Event>) {
    forall i, j :: 0 <= i < j < |events| ==> Precedes(events[i], events[j])
  }

  lemma {:induction false} InsertElements(e: Event, sorted: seq<Event>)
    ensures multiset(Insert(e, sorted)) == multiset(sorted) + multiset{e}
    ensures forall x :: x in Insert(e, sorted) ==> x == e || x in sorted
  {
    if sorted != [] && !Precedes(e, sorted[0]) {
      InsertElements(e, sorted[1..]);
      assert sorted == [sorted[0]] + sorted[1..];
    }
  }

  lemma {:induction false} InsertOrdered(e: Event, sorted: seq<Event>)
    requires Ordered(sorted)
    ensures Ordered(Insert(e, sorted))
  {
    if sorted != [] && !Precedes(e, sorted[0]) {
      var rest := Insert(e, sorted[1..]);
      InsertOrdered(e, sorted[1..]);
      InsertElements(e, sorted[1..]);
      forall i | 0 <= i < |rest| ensures Precedes(sorted[0], rest[i]) {
        assert rest[i] in rest;
      }
    }
  }

  lemma {:induction false} SortFacts(events: seq<Event>)
    ensures Ordered(Sort(events)) && multiset(Sort(events)) == multiset(events)
    ensures forall i, j :: 0 <= i < j < |Sort(events)| ==>
              var a, b := Sort(events)[i], Sort(events)[j];
              a.time < b.time || (a.time == b.time && a.id <= b.id)
  {
    if events != [] {
      SortFacts(events[1..]);
      InsertOrdered(events[0], Sort(events[1..]));
      InsertElements(events[0], Sort(events[1..]));
      assert events == [events[0]] + events[1..];
    }
  }

  // ----- Grouping

  function Relevant(events: seq<Event>, kinds: set<Kind>, p: nat): seq<Event> {
    if events == [] then []
    else
      var front := Relevant(events[..|events| - 1], kinds, p);
      if Last(events).kind in kinds && Last(events).principal == Some(p) then front + [Last(events)] else front
  }

  /** Every event of the principal and the wanted kinds is there as often as it occurred, and no other. */
  lemma {:induction false} RelevantExact(events: seq<Event>, kinds: set<Kind>, p: nat, e: Event)
    ensures multiset(Relevant(events, kinds, p))[e]
         == if e.kind in kinds && e.principal == Some(p) then multiset(events)[e] else 0
  {
    if events != [] {
      RelevantExact(events[..|events| - 1], kinds, p, e);
      assert events == events[..|events| - 1] + [Last(events)];
    }
  }

  /** The groups hold each principal's relevant events so far. */
  ghost predicate Grouped(raw: map<nat, seq<Event>>, events: seq<Event>, kinds: set<Kind>) {
    && (forall p :: p in raw <==> Relevant(events, kinds, p) != [])
    && (forall p :: p in raw ==> raw[p] == Relevant(events, kinds, p))
  }

  lemma GroupedNext(raw: map<nat, seq<Event>>, events: seq<Event>, i: nat, kinds: set<Kind>)
    requires i < |events| && Grouped(raw, events[..i], kinds)
    ensures var e := events[i];
            var p := if e.principal.Some? then e.principal.value else 0;
            var grown := raw[p := (if p in raw then raw[p] else []) + [e]];
            Grouped(if e.kind in kinds && e.principal.Some? then grown else raw, events[..i + 1], kinds)
  {
    assert events[..i + 1][..i] == events[..i];
  }

  method GroupByPrincipal(events: seq<Event>, kinds: set<Kind>) returns (groups: map<nat, seq<Event>>)
    ensures forall p :: p in groups <==> Relevant(events, kinds, p) != []
    ensures forall p :: p in groups ==> groups[p] == Sort(Relevant(events, kinds, p))
  {
    var raw: map<nat, seq<Event>> := map[];
    for i := 0 to |events|
      invariant Grouped(raw, events[..i], kinds)
    {
      GroupedNext(raw, events, i, kinds);
      var e := events[i];
      if e.kind in kinds && e.principal.Some? {
        var p := e.principal.value;
        raw := raw[p := (if p in raw then raw[p] else []) + [e]];
      }
    }
    assert events[..|events|] == events;
    groups := map p | p in raw :: Sort(raw[p]);
  }

  function Ids(events: seq<Event>): seq<nat> { seq(|events|, i requires 0 <= i < |events| => events[i].id) }

  // ----- Successes after a run of failures

  /**
   The maximal block of failures that ends right before position `j`: consecutive, each within the
   window of the one before.
   */
  ghost predicate Block(es: seq<Event>, window: int, i: nat, j: nat) {
    && i <= j <= |es|
    && (forall k :: i <= k < j ==> es[k].kind == AuthFailure)
    && (forall k, n :: i <= k < n < j && n == k + 1 ==> es[n].time - es[k].time <= window)
    && (i > 0 ==> es[i - 1].kind != AuthFailure || (i < j && es[i].time - es[i - 1].time > window))
  }

  lemma BlockUnique(es: seq<Event>, window: int, a: nat, b: nat, j: nat)
    requires Block(es, window, a, j) && Block(es, window, b, j)
    ensures a == b
  {
  }

  /** A further failure joins the block, or starts a new one when it comes too late. */
  lemma BlockGrows(es: seq<Event>, window: int, i: nat, j: nat)
    requires Block(es, window, i, j) && j < |es| && es[j].kind == AuthFailure
    ensures if i < j && es[j].time - es[j - 1].time > window
            then Block(es, window, j, j + 1) else Block(es, window, i, j + 1)
  {
  }

  /** A success at `j` close behind its maximal block of at least three failures. */
  ghost predicate Breakthrough(es: seq<Event>, window: int, i: nat, j: nat) {
    && Block(es, window, i, j) && j < |es| && es[j].kind != AuthFailure
    && j - i >= 3 && es[j].time - es[j - 1].time <= window
  }

  /** Where a match lies: its failures from `first`, its success at `success`. */
  datatype Span = Span(first: nat, success: nat)

  /** The spans are exactly the breakthroughs before `limit`, in order. */
  ghost predicate AllBreakthroughs(es: seq<Event>, window: int, spans: seq<Span>, limit: nat) {
    && (forall k :: 0 <= k < |spans| ==>
       Breakthrough(es, window, spans[k].first, spans[k].success) && spans[k].success < limit)
    && (forall i: nat, j: nat :: j < limit && Breakthrough(es, window, i, j) ==> Span(i, j) in spans)
    && (forall k, n :: 0 <= k < n < |spans| ==> spans[k].success < spans[n].success)
  }

  ghost predicate Reports(es: seq<Event>, spans: seq<Span>, matches: seq<seq<nat>>) {
    && |matches| == |spans|
    && forall k :: 0 <= k < |spans| ==>
         spans[k].first <= spans[k].success < |es| && matches[k] == Ids(es[spans[k].first..spans[k].success + 1])
  }

  /** One pass over a principal's ordered events. */
  method ScanBreakthroughs(es: seq<Event>, window: int) returns (matches: seq<seq<nat>>, ghost spans: seq<Span>)
    ensures AllBreakthroughs(es, window, spans, |es|)
    ensures Reports(es, spans, matches)
  {
    matches, spans := [], [];
    var run: seq<Event> := [];
    for i := 0 to |es|
      invariant Scanned(es, window, run, spans, matches, i)
    {
      var event := es[i];
      if event.kind == AuthFailure {
        run := ExtendRun(es, window, run, i, spans, matches);
        continue;
      }
      if |run| >= BREAKTHROUGH_THRESHOLD && event.time - run[|run| - 1].time <= window {
        ScanMatch(es, window, run, spans, matches, i);
        matches, spans := matches + [Ids(run + [event])], spans + [Span(i - |run|, i)];
      } else {
        ScanMiss(es, window, run, spans, matches, i);
      }
      run := [];
    }
  }

  /** A failure restarts the run if it comes too late, and joins it in any case. */
  method ExtendRun(es: seq<Event>, window: int, before: seq<Event>, i: nat, ghost spans: seq<Span>,
                   ghost matches: seq<seq<nat>>)
    returns (run: seq<Event>)
    requires i < |es| && Scanned(es, window, before, spans, matches, i) && es[i].kind == AuthFailure
    ensures Scanned(es, window, run, spans, matches, i + 1)
  {
    run := before;
    if run != [] && es[i].time - run[|run| - 1].time > window {
      ScanRestart(es, window, run, spans, matches, i);
      run := [];
      assert run + [es[i]] == [es[i]];
    } else {
      ScanExtend(es, window, run, spans, matches, i);
    }
    run := run + [es[i]];
  }

  /** After `i` events: the current run is the block that ends here, and everything before is reported. */
  ghost predicate Scanned(es: seq<Event>, window: int, run: seq<Event>, spans: seq<Span>, matches: seq<seq<nat>>,
                          i: nat) {
    && |run| <= i <= |es| && run == es[i - |run|..i] && Block(es, window, i - |run|, i)
    && AllBreakthroughs(es, window, spans, i) && Reports(es, spans, matches)
  }

  lemma ScanExtend(es: seq<Event>, window: int, run: seq<Event>, spans: seq<Span>, matches: seq<seq<nat>>, i: nat)
    requires i < |es| && Scanned(es, window, run, spans, matches, i) && es[i].kind == AuthFailure
    requires run == [] || es[i].time - Last(run).time <= window
    ensures Scanned(es, window, run + [es[i]], spans, matches, i + 1)
  {
    NoBreakthroughAt(es, window, spans, i);
    BlockGrows(es, window, i - |run|, i);
  }

  lemma ScanRestart(es: seq<Event>, window: int, run: seq<Event>, spans: seq<Span>, matches: seq<seq<nat>>, i: nat)
    requires i < |es| && Scanned(es, window, run, spans, matches, i) && es[i].kind == AuthFailure
    requires run != [] && es[i].time - Last(run).time > window
    ensures Scanned(es, window, [es[i]], spans, matches, i + 1)
  {
    NoBreakthroughAt(es, window, spans, i);
    BlockGrows(es, window, i - |run|, i);
  }

  lemma ScanMatch(es: seq<Event>, window: int, run: seq<Event>, spans: seq<Span>, matches: seq<seq<nat>>, i: nat)
    requires i < |es| && Scanned(es, window, run, spans, matches, i) && es[i].kind != AuthFailure
    requires |run| >= BREAKTHROUGH_THRESHOLD && es[i].time - Last(run).time <= window
    ensures |run| <= i
    ensures Scanned(es, window, [], spans + [Span(i - |run|, i)], matches + [Ids(run + [es[i]])], i + 1)
  {
    var first := i - |run|;
    assert Block(es, window, i + 1, i + 1);
    assert Breakthrough(es, window, first, i);
    AddBreakthrough(es, window, spans, first, i);
    AddReport(es, spans, matches, first, i, run + [es[i]]);
  }

  lemma ScanMiss(es: seq<Event>, window: int, run: seq<Event>, spans: seq<Span>, matches: seq<seq<nat>>, i: nat)
    requires i < |es| && Scanned(es, window, run, spans, matches, i) && es[i].kind != AuthFailure
    requires |run| < BREAKTHROUGH_THRESHOLD || es[i].time - Last(run).time > window
    ensures Scanned(es, window, [], spans, matches, i + 1)
  {
    assert Block(es, window, i + 1, i + 1);
    SkipSuccess(es, window, spans, i - |run|, i);
  }

  lemma AddReport(es: seq<Event>, spans: seq<Span>, matches: seq<seq<nat>>, first: nat, i: nat, members: seq<Event>)
    requires Reports(es, spans, matches) && first <= i < |es| && members == es[first..i] + [es[i]]
    ensures Reports(es, spans + [Span(first, i)], matches + [Ids(members)])
  {
  }

  lemma NoBreakthroughAt(es: seq<Event>, window: int, spans: seq<Span>, i: nat)
    requires AllBreakthroughs(es, window, spans, i) && i < |es| && es[i].kind == AuthFailure
    ensures AllBreakthroughs(es, window, spans, i + 1)
  {
  }

  lemma AddBreakthrough(es: seq<Event>, window: int, spans: seq<Span>, first: nat, i: nat)
    requires AllBreakthroughs(es, window, spans, i) && Breakthrough(es, window, first, i)
    ensures AllBreakthroughs(es, window, spans + [Span(first, i)], i + 1)
  {
    var all := spans + [Span(first, i)];
    forall a: nat, j: nat | j < i + 1 && Breakthrough(es, window, a, j) ensures Span(a, j) in all {
      if j == i {
        BlockUnique(es, window, a, first, i);
        assert all[|spans|] == Span(a, j);
      } else {
        assert Span(a, j) in spans;
      }
    }
  }

  lemma SkipSuccess(es: seq<Event>, window: int, spans: seq<Span>, first: nat, i: nat)
    requires AllBreakthroughs(es, window, spans, i) && i < |es|
    requires Block(es, window, first, i) && !Breakthrough(es, window, first, i)
    ensures AllBreakthroughs(es, window, spans, i + 1)
  {
  }

  /** Matches never share an event. */
  lemma BreakthroughsDisjoint(es: seq<Event>, window: int, a: Span, b: Span)
    requires Breakthrough(es, window, a.first, a.success) && Breakthrough(es, window, b.first, b.success)
    requires a.success < b.success
    ensures a.success < b.first
  {
    assert es[a.success].kind != AuthFailure;
  }

  // ----- Bursts and episodes

  function Near(window: int): (Event, Event) -> bool { (a: Event, b: Event) => b.time - a.time <= window }

  /** The finished runs and the one being filled are the runs of the first `i` events. */
  ghost predicate SplitSoFar(events: seq<Event>, i: nat, episodes: seq<seq<Event>>, current: seq<Event>, window: int) {
    && i <= |events|
    && (current == [] <==> i == 0) && (i == 0 ==> episodes == [])
    && (i > 0 ==> Runs(events[..i], Near(window)) == episodes + [current])
  }

  /** A run is extended by an event that is near its last one. */
  lemma SplitExtends(events: seq<Event>, i: nat, episodes: seq<seq<Event>>, current: seq<Event>, window: int)
    requires i < |events| && SplitSoFar(events, i, episodes, current, window)
    requires current == [] || events[i].time - Last(current).time <= window
    ensures SplitSoFar(events, i + 1, episodes, current + [events[i]], window)
  {
    assert events[..i + 1][..i] == events[..i];
    if i == 0 {
      assert current + [events[i]] == [events[i]];
    } else {
      var before := episodes + [current];
      assert before[..|before| - 1] == episodes && Last(before) == current;
    }
  }

  lemma SplitOpens(events: seq<Event>, i: nat, episodes: seq<seq<Event>>, current: seq<Event>, window: int)
    requires i < |events| && SplitSoFar(events, i, episodes, current, window)
    requires current != [] && events[i].time - Last(current).time > window
    ensures SplitSoFar(events, i + 1, episodes + [current], [events[i]], window)
  {
    assert events[..i + 1][..i] == events[..i];
    assert Last(episodes + [current]) == current;
  }

  ghost function Finished(episodes: seq<seq<Event>>, current: seq<Event>): seq<seq<Event>> {
    if current == [] then episodes else episodes + [current]
  }

  lemma SplitDone(events: seq<Event>, episodes: seq<seq<Event>>, current: seq<Event>, window: int)
    requires SplitSoFar(events, |events|, episodes, current, window)
    ensures Finished(episodes, current) == Runs(events, Near(window))
    ensures IsMaximalPartition(Finished(episodes, current), events, Near(window))
  {
    assert events[..|events|] == events;
  }

  /** The scan that closes a run wherever two neighbours are too far apart. */
  method SplitByGap(events: seq<Event>, window: int) returns (episodes: seq<seq<Event>>)
    ensures episodes == Runs(events, Near(window))
    ensures IsMaximalPartition(episodes, events, Near(window))
  {
    episodes := [];
    var current: seq<Event> := [];
    for i := 0 to |events|
      invariant SplitSoFar(events, i, episodes, current, window)
    {
      episodes, current := SplitNext(events, i, episodes, current, window);
    }
    SplitDone(events, episodes, current, window);
    if current != [] {
      episodes := episodes + [current];
    }
  }

  method SplitNext(events: seq<Event>, i: nat, before: seq<seq<Event>>, filled: seq<Event>, window: int)
    returns (episodes: seq<seq<Event>>, current: seq<Event>)
    requires i < |events| && SplitSoFar(events, i, before, filled, window)
    ensures SplitSoFar(events, i + 1, episodes, current, window)
  {
    episodes, current := before, filled;
    if current != [] && events[i].time - current[|current| - 1].time > window {
      SplitOpens(events, i, episodes, current, window);
      episodes, current := episodes + [current], [];
      assert current + [events[i]] == [events[i]];
    } else {
      SplitExtends(events, i, episodes, current, window);
    }
    current := current + [events[i]];
  }

  function AtLeast(groups: seq<seq<Event>>, n: nat): seq<seq<Event>> {
    if groups == [] then []
    else
      var front := AtLeast(groups[..|groups| - 1], n);
      if |Last(groups)| >= n then front + [Last(groups)] else front
  }

  function AllIds(groups: seq<seq<Event>>): seq<seq<nat>> {
    seq(|groups|, i requires 0 <= i < |groups| => Ids(groups[i]))
  }

  /** The ids of one principal's bursts, in order. */
  function BurstIds(failures: seq<Event>, window: int): seq<seq<nat>> {
    AllIds(AtLeast(Runs(failures, Near(window)), BRUTE_FORCE_THRESHOLD))
  }

  /** Report every burst of at least five failures of one principal. */
  method ScanBruteForce(failures: seq<Event>, window: int) returns (matches: seq<seq<nat>>)
    ensures matches == BurstIds(failures, window)
  {
    var bursts := SplitByGap(failures, window);
    matches := [];
    for i := 0 to |bursts|
      invariant matches == AllIds(AtLeast(bursts[..i], BRUTE_FORCE_THRESHOLD))
    {
      assert bursts[..i + 1][..i] == bursts[..i];
      if |bursts[i]| >= BRUTE_FORCE_THRESHOLD {
        matches := matches + [Ids(bursts[i])];
      }
    }
    assert bursts[..|bursts|] == bursts;
  }

  /** Each long enough burst is kept once, in order. */
  lemma {:induction false} AtLeastInOrder(a: seq<seq<Event>>, b: seq<seq<Event>>, n: nat)
    ensures AtLeast(a + b, n) == AtLeast(a, n) + AtLeast(b, n)
    ensures forall g :: AtLeast([g], n) == if |g| >= n then [g] else []
    decreases |b|
  {
    forall g ensures AtLeast([g], n) == if |g| >= n then [g] else [] {
      assert [g][..0] == [];
    }
    if b == [] {
      assert a + b == a;
    } else {
      AtLeastInOrder(a, b[..|b| - 1], n);
      assert (a + b)[..|a + b| - 1] == a + b[..|b| - 1];
    }
  }

  lemma {:induction false} AtLeastNone(groups: seq<seq<Event>>, n: nat)
    ensures AtLeast(groups, n) == [] <==> forall i :: 0 <= i < |groups| ==> |groups[i]| < n
  {
    if groups != [] {
      AtLeastNone(groups[..|groups| - 1], n);
    }
  }

  /** The `n` events from `p` on follow one another within the window. */
  ghost predicate Quick(events: seq<Event>, window: int, p: nat, n: nat) {
    p + n <= |events| && forall i, j :: p <= i < j < p + n && j == i + 1 ==> events[j].time - events[i].time <= window
  }

  /**
   Brute force is reported exactly when some five consecutive failures are each within the window of
   the one before.
   */
  lemma BruteForceIff(failures: seq<Event>, window: int)
    ensures BurstIds(failures, window) != [] <==> exists p: nat :: Quick(failures, window, p, 5)
  {
    var groups := Runs(failures, Near(window));
    AtLeastNone(groups, BRUTE_FORCE_THRESHOLD);
    LongRunIff(groups, failures, Near(window), BRUTE_FORCE_THRESHOLD);
    if p: nat :| Quick(failures, window, p, 5) {
      assert ChainAt(failures, Near(window), p, 5);
    }
    if p: nat :| ChainAt(failures, Near(window), p, 5) {
      assert Quick(failures, window, p, 5);
    }
  }

  /** Two events of one principal are in the same burst or episode exactly if no gap between them exceeds the window. */
  lemma SameEpisodeIff(events: seq<Event>, window: int, p: nat, q: nat)
    requires p <= q < |events|
    ensures var groups := Runs(events, Near(window));
            GroupOf(groups, p) == GroupOf(groups, q) <==> Quick(events, window, p, q - p + 1)
  {
    SharesRunIff(Runs(events, Near(window)), events, Near(window), p, q);
  }

  // ----- The detection rules

  /** One firing: the principal and the responsible events. */
  datatype Match = Match(principal: nat, ids: seq<nat>)

  /** `ids` are the ids of the events from `i` up to `j`, one by one. */
  ghost predicate Spells(ids: seq<nat>, es: seq<Event>, i: nat, j: nat) {
    i <= j <= |es| && |ids| == j - i && forall k :: 0 <= k < |ids| ==> ids[k] == es[i + k].id
  }

  lemma IdsSpell(es: seq<Event>, i: nat, j: nat, ids: seq<nat>)
    requires i <= j <= |es|
    ensures Spells(ids, es, i, j) <==> ids == Ids(es[i..j])
  {
  }

  /** `ids` are a block of failures and the success that broke through. */
  ghost predicate ShowsBreakthrough(es: seq<Event>, window: int, ids: seq<nat>) {
    exists i: nat, j: nat :: Breakthrough(es, window, i, j) && Spells(ids, es, i, j + 1)
  }

  /** `ids` are a maximal run of at least five failures. */
  ghost predicate ShowsBurst(es: seq<Event>, window: int, ids: seq<nat>) {
    exists burst :: burst in Runs(es, Near(window)) && |burst| >= BRUTE_FORCE_THRESHOLD && ids == Ids(burst)
  }

  lemma ScanFindsBreakthroughs(es: seq<Event>, window: int, spans: seq<Span>, matches: seq<seq<nat>>, ids: seq<nat>)
    requires AllBreakthroughs(es, window, spans, |es|) && Reports(es, spans, matches)
    ensures ids in matches <==> ShowsBreakthrough(es, window, ids)
  {
    if ids in matches {
      var k :| 0 <= k < |matches| && matches[k] == ids;
      ReportedShows(es, window, spans, matches, k);
    }
    if i: nat, j: nat :| Breakthrough(es, window, i, j) && Spells(ids, es, i, j + 1) {
      ShownReported(es, window, spans, matches, i, j, ids);
    }
  }

  lemma ReportedShows(es: seq<Event>, window: int, spans: seq<Span>, matches: seq<seq<nat>>, k: nat)
    requires AllBreakthroughs(es, window, spans, |es|) && Reports(es, spans, matches) && k < |matches|
    ensures ShowsBreakthrough(es, window, matches[k])
  {
    var i, j := spans[k].first, spans[k].success;
    assert Breakthrough(es, window, i, j);
    IdsSpell(es, i, j + 1, matches[k]);
    assert Spells(matches[k], es, i, j + 1);
  }

  lemma ShownReported(es: seq<Event>, window: int, spans: seq<Span>, matches: seq<seq<nat>>, i: nat, j: nat,
                      ids: seq<nat>)
    requires AllBreakthroughs(es, window, spans, |es|) && Reports(es, spans, matches)
    requires Breakthrough(es, window, i, j) && Spells(ids, es, i, j + 1)
    ensures ids in matches
  {
    assert Span(i, j) in spans;
    var k :| 0 <= k < |spans| && spans[k] == Span(i, j);
    IdsSpell(es, i, j + 1, ids);
    assert matches[k] == ids;
  }

  lemma {:induction false} AtLeastMembers(groups: seq<seq<Event>>, n: nat, g: seq<Event>)
    ensures g in AtLeast(groups, n) <==> g in groups && |g| >= n
  {
    if groups != [] {
      AtLeastMembers(groups[..|groups| - 1], n, g);
      assert groups == groups[..|groups| - 1] + [Last(groups)];
    }
  }

  lemma ScanFindsBursts(groups: seq<seq<Event>>, n: nat, ids: seq<nat>)
    ensures ids in AllIds(AtLeast(groups, n)) <==> exists g :: g in groups && |g| >= n && ids == Ids(g)
  {
    var long := AtLeast(groups, n);
    if ids in AllIds(long) {
      var k :| 0 <= k < |long| && AllIds(long)[k] == ids;
      AtLeastMembers(groups, n, long[k]);
      assert long[k] in long;
    }
    if g :| g in groups && |g| >= n && ids == Ids(g) {
      AtLeastMembers(groups, n, g);
      var k :| 0 <= k < |long| && long[k] == g;
      assert AllIds(long)[k] == ids;
    }
  }

  function Tagged(p: nat, matches: seq<seq<nat>>): seq<Match> {
    seq(|matches|, i requires 0 <= i < |matches| => Match(p, matches[i]))
  }

  function EventsOf(events: seq<Event>, kinds: set<Kind>, p: nat): seq<Event> { Sort(Relevant(events, kinds, p)) }

  const LOGINS: set<Kind> := {AuthFailure, AuthSuccess}

  /** The principals with events of these kinds, in order. */
  ghost predicate AllPrincipals(principals: seq<nat>, events: seq<Event>, kinds: set<Kind>) {
    && (forall p :: p in principals <==> Relevant(events, kinds, p) != [])
    && (forall i, j :: 0 <= i < j < |principals| ==> principals[i] < principals[j])
  }

  /** The per-principal matches, one principal after the other. */
  function Gather(principals: seq<nat>, per: seq<seq<seq<nat>>>): seq<Match>
    requires |principals| == |per|
  {
    if per == [] then []
    else Gather(principals[..|per| - 1], per[..|per| - 1]) + Tagged(Last(principals), Last(per))
  }

  /** Every match of every principal is gathered once, in order. */
  lemma {:induction false} GatherInOrder(p: seq<nat>, a: seq<seq<seq<nat>>>, q: seq<nat>, b: seq<seq<seq<nat>>>)
    requires |p| == |a| && |q| == |b|
    ensures Gather(p + q, a + b) == Gather(p, a) + Gather(q, b)
    ensures forall x: nat, ms: seq<seq<nat>> :: |Gather([x], [ms])| == |ms|
    decreases |b|
  {
    forall x: nat, ms: seq<seq<nat>> ensures |Gather([x], [ms])| == |ms| {
      assert [x][..0] == [] && [ms][..0] == [];
    }
    if b == [] {
      assert p + q == p && a + b == a;
    } else {
      var n := |b| - 1;
      GatherInOrder(p, a, q[..n], b[..n]);
      assert (p + q)[..|a + b| - 1] == p + q[..n] && (a + b)[..|a + b| - 1] == a + b[..n];
    }
  }

  lemma {:induction false} GatherMembers(principals: seq<nat>, per: seq<seq<seq<nat>>>, m: Match)
    requires |principals| == |per|
    ensures m in Gather(principals, per) <==>
            exists k :: 0 <= k < |per| && principals[k] == m.principal && m.ids in per[k]
  {
    if per != [] {
      var n := |per| - 1;
      GatherMembers(principals[..n], per[..n], m);
      assert m in Tagged(principals[n], per[n]) <==> m.principal == principals[n] && m.ids in per[n] by {
        if m.principal == principals[n] && m.ids in per[n] {
          var k :| 0 <= k < |per[n]| && per[n][k] == m.ids;
          assert Tagged(principals[n], per[n])[k] == m;
        }
      }
      assert forall k :: 0 <= k < n ==> principals[..n][k] == principals[k] && per[..n][k] == per[k];
    }
  }

  /** The breakthroughs of one principal, each once and in order. */
  ghost predicate ExactlyBreakthroughs(es: seq<Event>, window: int, matches: seq<seq<nat>>) {
    exists spans :: AllBreakthroughs(es, window, spans, |es|) && Reports(es, spans, matches)
  }

  /** For every principal in order, the breakthroughs of its events. */
  ghost predicate BreakthroughsOf(per: seq<seq<seq<nat>>>, principals: seq<nat>, events: seq<Event>, window: int) {
    && |per| == |principals|
    && forall k :: 0 <= k < |per| ==> ExactlyBreakthroughs(EventsOf(events, LOGINS, principals[k]), window, per[k])
  }

  lemma GatherOne(principals: seq<nat>, per: seq<seq<seq<nat>>>, m: Match, k: nat)
    requires |principals| == |per| && k < |per| && principals[k] == m.principal
    requires forall i, j :: 0 <= i < j < |principals| ==> principals[i] < principals[j]
    ensures m in Gather(principals, per) <==> m.ids in per[k]
  {
    GatherMembers(principals, per, m);
  }

  lemma ExactlyShows(es: seq<Event>, window: int, matches: seq<seq<nat>>, ids: seq<nat>)
    requires ExactlyBreakthroughs(es, window, matches)
    ensures ids in matches <==> ShowsBreakthrough(es, window, ids)
  {
    var spans :| AllBreakthroughs(es, window, spans, |es|) && Reports(es, spans, matches);
    ScanFindsBreakthroughs(es, window, spans, matches, ids);
  }

  lemma BreakthroughFoundIff(principals: seq<nat>, per: seq<seq<seq<nat>>>, events: seq<Event>, window: int, m: Match)
    requires AllPrincipals(principals, events, LOGINS) && BreakthroughsOf(per, principals, events, window)
    ensures m in Gather(principals, per) <==> ShowsBreakthrough(EventsOf(events, LOGINS, m.principal), window, m.ids)
  {
    var es := EventsOf(events, LOGINS, m.principal);
    if m.principal in principals {
      var k :| 0 <= k < |principals| && principals[k] == m.principal;
      GatherOne(principals, per, m, k);
      ExactlyShows(es, window, per[k], m.ids);
    } else {
      GatherMembers(principals, per, m);
      assert es == [];
      assert !ShowsBreakthrough([], window, m.ids);
    }
  }

  /** Breakthroughs of every principal, each reported once, in principal order and then in time order. */
  method DetectBreakthrough(events: seq<Event>, window: int)
    returns (found: seq<Match>, ghost principals: seq<nat>, ghost per: seq<seq<seq<nat>>>)
    ensures forall m :: m in found <==> ShowsBreakthrough(EventsOf(events, LOGINS, m.principal), window, m.ids)
    ensures AllPrincipals(principals, events, LOGINS) && BreakthroughsOf(per, principals, events, window)
    ensures found == Gather(principals, per)
  {
    var groups := GroupByPrincipal(events, LOGINS);
    var ordered := SortedKeys(groups.Keys);
    principals := ordered;
    found, per := ScanAllBreakthroughs(events, groups, ordered, window);
    forall m ensures m in found <==> ShowsBreakthrough(EventsOf(events, LOGINS, m.principal), window, m.ids) {
      BreakthroughFoundIff(ordered, per, events, window, m);
    }
  }

  method ScanAllBreakthroughs(ghost events: seq<Event>, groups: map<nat, seq<Event>>, principals: seq<nat>, window: int)
    returns (found: seq<Match>, ghost per: seq<seq<seq<nat>>>)
    requires forall p :: p in principals ==> p in groups && groups[p] == EventsOf(events, LOGINS, p)
    ensures BreakthroughsOf(per, principals, events, window) && found == Gather(principals, per)
  {
    found, per := [], [];
    for k := 0 to |principals|
      invariant BreakthroughsOf(per, principals[..k], events, window) && found == Gather(principals[..k], per)
    {
      var matches, spans := ScanBreakthroughs(groups[principals[k]], window);
      assert ExactlyBreakthroughs(groups[principals[k]], window, matches);
      BreakthroughsNext(per, principals, k, events, window, matches);
      GatherNext(principals, k, per, matches);
      found, per := found + Tagged(principals[k], matches), per + [matches];
    }
    assert principals[..|principals|] == principals;
  }

  lemma BreakthroughsNext(per: seq<seq<seq<nat>>>, principals: seq<nat>, k: nat, events: seq<Event>, window: int,
                          matches: seq<seq<nat>>)
    requires k < |principals| && BreakthroughsOf(per, principals[..k], events, window)
    requires ExactlyBreakthroughs(EventsOf(events, LOGINS, principals[k]), window, matches)
    ensures BreakthroughsOf(per + [matches], principals[..k + 1], events, window)
  {
  }

  lemma BurstsNext(per: seq<seq<seq<nat>>>, principals: seq<nat>, k: nat, events: seq<Event>, window: int,
                   matches: seq<seq<nat>>)
    requires k < |principals| && BurstsOf(per, principals[..k], events, window)
    requires matches == BurstIds(EventsOf(events, {AuthFailure}, principals[k]), window)
    ensures BurstsOf(per + [matches], principals[..k + 1], events, window)
  {
  }

  lemma GatherNext(principals: seq<nat>, k: nat, per: seq<seq<seq<nat>>>, matches: seq<seq<nat>>)
    requires k < |principals| && |per| == k
    ensures Gather(principals[..k + 1], per + [matches])
            == Gather(principals[..k], per) + Tagged(principals[k], matches)
  {
    assert principals[..k + 1][..k] == principals[..k] && (per + [matches])[..k] == per;
  }

  /** For every principal in order, the bursts of its failures. */
  ghost predicate BurstsOf(per: seq<seq<seq<nat>>>, principals: seq<nat>, events: seq<Event>, window: int) {
    && |per| == |principals|
    && forall k :: 0 <= k < |per| ==> per[k] == BurstIds(EventsOf(events, {AuthFailure}, principals[k]), window)
  }

  lemma BurstFoundIff(principals: seq<nat>, per: seq<seq<seq<nat>>>, events: seq<Event>, window: int, m: Match)
    requires AllPrincipals(principals, events, {AuthFailure}) && BurstsOf(per, principals, events, window)
    ensures m in Gather(principals, per) <==> ShowsBurst(EventsOf(events, {AuthFailure}, m.principal), window, m.ids)
  {
    var es := EventsOf(events, {AuthFailure}, m.principal);
    if m.principal in principals {
      var k :| 0 <= k < |principals| && principals[k] == m.principal;
      GatherOne(principals, per, m, k);
      ScanFindsBursts(Runs(es, Near(window)), BRUTE_FORCE_THRESHOLD, m.ids);
    } else {
      GatherMembers(principals, per, m);
      assert es == [];
      assert Runs<Event>([], Near(window)) == [];
    }
  }

  /** Bursts of failures of every principal, each reported once, in principal order and then in time order. */
  method DetectBruteForce(events: seq<Event>, window: int)
    returns (found: seq<Match>, ghost principals: seq<nat>, ghost per: seq<seq<seq<nat>>>)
    ensures forall m :: m in found <==> ShowsBurst(EventsOf(events, {AuthFailure}, m.principal), window, m.ids)
    ensures AllPrincipals(principals, events, {AuthFailure}) && BurstsOf(per, principals, events, window)
    ensures found == Gather(principals, per)
  {
    var groups := GroupByPrincipal(events, {AuthFailure});
    var ordered := SortedKeys(groups.Keys);
    principals := ordered;
    found, per := ScanAllBursts(events, groups, ordered, window);
    forall m ensures m in found <==> ShowsBurst(EventsOf(events, {AuthFailure}, m.principal), window, m.ids) {
      BurstFoundIff(ordered, per, events, window, m);
    }
  }

  method ScanAllBursts(ghost events: seq<Event>, groups: map<nat, seq<Event>>, principals: seq<nat>, window: int)
    returns (found: seq<Match>, ghost per: seq<seq<seq<nat>>>)
    requires forall p :: p in principals ==> p in groups && groups[p] == EventsOf(events, {AuthFailure}, p)
    ensures BurstsOf(per, principals, events, window) && found == Gather(principals, per)
  {
    found, per := [], [];
    for k := 0 to |principals|
      invariant BurstsOf(per, principals[..k], events, window) && found == Gather(principals[..k], per)
    {
      var matches := ScanBruteForce(groups[principals[k]], window);
      BurstsNext(per, principals, k, events, window, matches);
      GatherNext(principals, k, per, matches);
      found, per := found + Tagged(principals[k], matches), per + [matches];
    }
    assert principals[..|principals|] == principals;
  }
}
