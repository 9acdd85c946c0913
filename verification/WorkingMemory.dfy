/**
 The bounded scratchpad of one agent turn. Eviction takes the shortest oldest-first prefix that
 makes the rest fit, and every key ever written is still there or named in a summary.
 */
module WorkingMemory {
  import opened Common

  type Key = nat

  datatype Entry = Entry(key: Key, value: nat, source: nat)

  /** A summary names every evicted entry by key and source. */
  datatype Reference = Reference(key: Key, source: nat)

  type Summary = seq<Reference>

  /** Entry cap, token budget, and what entries and summaries cost. */
  datatype Limits = Limits(maxEntries: nat, budget: nat, entryTokens: Entry -> nat, summaryTokens: Summary -> nat)

  // ----- An insertion-ordered dictionary

  function IndexOf(entries: seq<Entry>, key: Key): (found: Option<nat>)
    ensures found.Some? ==> found.value < |entries| && entries[found.value].key == key
    ensures found.None? <==> forall i :: 0 <= i < |entries| ==> entries[i].key != key
  {
    if entries == [] then None
    else if entries[0].key == key then Some(0)
    else
      match IndexOf(entries[1..], key)
      case None =>
        assert forall i :: 0 < i < |entries| ==> entries[i] == entries[1..][i - 1];
        None
      case Some(i) => Some(i + 1)
  }

  /** A new key goes last; a key already present keeps its place. */
  function Put(entries: seq<Entry>, e: Entry): seq<Entry> {
    match IndexOf(entries, e.key)
    case None => entries + [e]
    case Some(i) => entries[i := e]
  }

  function PutAll(entries: seq<Entry>, more: seq<Entry>): seq<Entry> {
    if more == [] then entries else Put(PutAll(entries, more[..|more| - 1]), Last(more))
  }

  ghost predicate Has(entries: seq<Entry>, key: Key) { exists i :: 0 <= i < |entries| && entries[i].key == key }

  ghost predicate KeysDistinct(entries: seq<Entry>) {
    forall i, j :: 0 <= i < j < |entries| ==> entries[i].key != entries[j].key
  }

  lemma PutFacts(entries: seq<Entry>, e: Entry)
    requires KeysDistinct(entries)
    ensures KeysDistinct(Put(entries, e))
    ensures forall k :: Has(Put(entries, e), k) <==> Has(entries, k) || k == e.key
    ensures |Put(entries, e)| == |entries| + if Has(entries, e.key) then 0 else 1
    ensures forall i :: 0 <= i < |Put(entries, e)| ==>
              Put(entries, e)[i] == if i < |entries| && entries[i].key != e.key then entries[i] else e
  {
    var after := Put(entries, e);
    forall k ensures Has(after, k) <==> Has(entries, k) || k == e.key {
      if i :| 0 <= i < |entries| && entries[i].key == k {
        assert after[i].key == k;
      }
      if i :| 0 <= i < |after| && after[i].key == k {
        assert i < |entries| ==> entries[i].key == k;
      }
      assert Has(after, e.key) by {
        match IndexOf(entries, e.key)
        case None => assert after[|entries|].key == e.key;
        case Some(i) => assert after[i].key == e.key;
      }
    }
  }

  // ----- Eviction

  function EntryCost(entries: seq<Entry>, limits: Limits): nat {
    if entries == [] then 0 else limits.entryTokens(entries[0]) + EntryCost(entries[1..], limits)
  }

  function SummaryCost(summaries: seq<Summary>, limits: Limits): nat {
    if summaries == [] then 0 else limits.summaryTokens(summaries[0]) + SummaryCost(summaries[1..], limits)
  }

  /** Within the cap, and within the budget beside the summaries already there unless a single entry is left. */
  predicate Fits(entries: seq<Entry>, summaries: seq<Summary>, limits: Limits) {
    && |entries| <= limits.maxEntries
    && (EntryCost(entries, limits) + SummaryCost(summaries, limits) <= limits.budget || |entries| <= 1)
  }

  function References(entries: seq<Entry>): Summary {
    seq(|entries|, i requires 0 <= i < |entries| => Reference(entries[i].key, entries[i].source))
  }

  /** Evict the shortest prefix after which the rest fits. */
  function Evicted(entries: seq<Entry>, summaries: seq<Summary>, limits: Limits): (n: nat)
    ensures n <= |entries|
    ensures Fits(entries[n..], summaries, limits)
    ensures forall m :: 0 <= m < n ==> !Fits(entries[m..], summaries, limits)
  {
    if Fits(entries, summaries, limits) then
      assert entries[0..] == entries;
      0
    else
      var n := Evicted(entries[1..], summaries, limits);
      assert entries[1..][n..] == entries[n + 1..];
      assert forall m :: 0 < m < n + 1 ==> entries[m..] == entries[1..][m - 1..];
      assert entries[0..] == entries;
      n + 1
  }

  function WithSummary(summaries: seq<Summary>, evicted: seq<Entry>): seq<Summary> {
    if evicted == [] then summaries else summaries + [References(evicted)]
  }

  ghost predicate Named(summaries: seq<Summary>, key: Key) {
    exists i, j :: 0 <= i < |summaries| && 0 <= j < |summaries[i]| && summaries[i][j].key == key
  }

  /** What the scratchpad holds. */
  datatype Pad = Pad(entries: seq<Entry>, summaries: seq<Summary>)

  /** Evict what does not fit and summarise it. */
  function Enforce(pad: Pad, limits: Limits): Pad {
    var n := Evicted(pad.entries, pad.summaries, limits);
    Pad(pad.entries[n..], WithSummary(pad.summaries, pad.entries[..n]))
  }

  /** Store the entries in order, then enforce once; a write is a load of one entry. */
  function Store(pad: Pad, more: seq<Entry>, limits: Limits): Pad {
    Enforce(pad.(entries := PutAll(pad.entries, more)), limits)
  }

  class Scratchpad {
    const limits: Limits
    var entries: seq<Entry>
    var summaries: seq<Summary>

    ghost function Contents(): Pad
      reads this
    {
      Pad(entries, summaries)
    }

    constructor (limits: Limits)
      ensures this.limits == limits && Contents() == Pad([], [])
    {
      this.limits := limits;
      entries, summaries := [], [];
    }

    /** Store the entry in its place, then evict the oldest entries that do not fit. */
    method Write(e: Entry)
      modifies this
      ensures Contents() == Store(old(Contents()), [e], limits)
    {
      assert PutAll(entries, [e]) == Put(PutAll(entries, [e][..0]), e);
      entries := Put(entries, e);
      EnforceBudget();
    }

    /** Rebuild from session memory. */
    method Load(more: seq<Entry>)
      modifies this
      ensures Contents() == Store(old(Contents()), more, limits)
    {
      for i := 0 to |more|
        invariant entries == PutAll(old(entries), more[..i]) && summaries == old(summaries)
      {
        assert more[..i + 1][..i] == more[..i];
        entries := Put(entries, more[i]);
      }
      assert more[..|more|] == more;
      EnforceBudget();
    }

    method EnforceBudget()
      modifies this
      ensures Contents() == Enforce(old(Contents()), limits)
    {
      ghost var all := entries;
      var evicted: seq<Entry> := [];
      while |entries| > limits.maxEntries
        invariant NeededSoFar(all, evicted, Contents(), limits) && summaries == old(summaries)
      {
        EvictOneMore(all, evicted, Contents(), limits);
        evicted, entries := evicted + [entries[0]], entries[1..];
      }
      while EntryCost(entries, limits) + SummaryCost(summaries, limits) > limits.budget && |entries| > 1
        invariant NeededSoFar(all, evicted, Contents(), limits) && summaries == old(summaries)
        invariant |entries| <= limits.maxEntries
      {
        EvictOneMore(all, evicted, Contents(), limits);
        evicted, entries := evicted + [entries[0]], entries[1..];
      }
      LeastUnique(all, evicted, Contents(), limits);
      if evicted != [] {
        summaries := summaries + [References(evicted)];
      }
    }

    method Clear()
      modifies this
      ensures Contents() == Pad([], [])
    {
      entries, summaries := [], [];
    }
  }

  /** The evicted prefix and the rest make up the whole, and no shorter prefix would have done. */
  ghost predicate NeededSoFar(all: seq<Entry>, evicted: seq<Entry>, pad: Pad, limits: Limits) {
    && evicted + pad.entries == all
    && forall m :: 0 <= m < |evicted| ==> !Fits(all[m..], pad.summaries, limits)
  }

  lemma EvictOneMore(all: seq<Entry>, evicted: seq<Entry>, pad: Pad, limits: Limits)
    requires NeededSoFar(all, evicted, pad, limits) && pad.entries != [] && !Fits(pad.entries, pad.summaries, limits)
    ensures NeededSoFar(all, evicted + [pad.entries[0]], pad.(entries := pad.entries[1..]), limits)
  {
  }

  lemma LeastUnique(all: seq<Entry>, evicted: seq<Entry>, pad: Pad, limits: Limits)
    requires NeededSoFar(all, evicted, pad, limits) && Fits(pad.entries, pad.summaries, limits)
    ensures |evicted| == Evicted(all, pad.summaries, limits)
    ensures evicted == all[..|evicted|] && pad.entries == all[|evicted|..]
  {
  }

  /** Moving a prefix into a summary neither loses nor invents a key. */
  lemma EvictionNames(all: seq<Entry>, n: nat, summaries: seq<Summary>)
    requires n <= |all|
    ensures forall k :: Has(all, k) || Named(summaries, k)
                        <==> Has(all[n..], k) || Named(WithSummary(summaries, all[..n]), k)
  {
    var after := WithSummary(summaries, all[..n]);
    forall k ensures Has(all, k) || Named(summaries, k) <==> Has(all[n..], k) || Named(after, k) {
      if i :| 0 <= i < |all| && all[i].key == k {
        assert if i < n then after[|summaries|][i].key == k else all[n..][i - n].key == k;
      }
      if i, j :| 0 <= i < |summaries| && 0 <= j < |summaries[i]| && summaries[i][j].key == k {
        assert after[i][j].key == k;
      }
      if i :| 0 <= i < |all[n..]| && all[n..][i].key == k {
        assert all[n + i].key == k;
      }
      if i, j :| 0 <= i < |after| && 0 <= j < |after[i]| && after[i][j].key == k {
        assert if i < |summaries| then summaries[i][j].key == k else all[j].key == k;
      }
    }
  }

  // ----- Every run since the last clear

  /** The batches stored one after another, each batch a write or a load. */
  function Run(pad: Pad, batches: seq<seq<Entry>>, limits: Limits): Pad {
    if batches == [] then pad else Store(Run(pad, batches[..|batches| - 1], limits), Last(batches), limits)
  }

  ghost predicate Stored(batches: seq<seq<Entry>>, key: Key) { exists b :: b in batches && Has(b, key) }

  lemma {:induction false} PutAllFacts(entries: seq<Entry>, more: seq<Entry>)
    requires KeysDistinct(entries)
    ensures KeysDistinct(PutAll(entries, more))
    ensures forall k :: Has(PutAll(entries, more), k) <==> Has(entries, k) || Has(more, k)
  {
    if more != [] {
      var front := more[..|more| - 1];
      PutAllFacts(entries, front);
      PutFacts(PutAll(entries, front), Last(more));
      forall k ensures Has(more, k) <==> Has(front, k) || k == Last(more).key {
        if i :| 0 <= i < |front| && front[i].key == k {
          assert more[i].key == k;
        }
        assert more[|more| - 1].key == Last(more).key;
      }
    }
  }

  /**
   Nothing is lost, nothing is invented, and the bounds hold: a key has been stored exactly when it
   is retained or named in a summary, retained keys are distinct and at most the cap, and with a
   positive cap something is always retained once anything was stored.
   */
  ghost predicate Accounts(pad: Pad, batches: seq<seq<Entry>>, limits: Limits) {
    && KeysDistinct(pad.entries)
    && |pad.entries| <= limits.maxEntries
    && (limits.maxEntries >= 1 && pad.entries == [] ==> forall b :: b in batches ==> b == [])
    && forall k :: Stored(batches, k) <==> Has(pad.entries, k) || Named(pad.summaries, k)
  }

  lemma {:induction false} NothingIsLost(batches: seq<seq<Entry>>, limits: Limits)
    ensures Accounts(Run(Pad([], []), batches, limits), batches, limits)
  {
    if batches != [] {
      var front := batches[..|batches| - 1];
      NothingIsLost(front, limits);
      StoreKeeps(Run(Pad([], []), front, limits), batches, limits);
    }
  }

  lemma StoreKeeps(pad: Pad, batches: seq<seq<Entry>>, limits: Limits)
    requires batches != [] && Accounts(pad, batches[..|batches| - 1], limits)
    ensures Accounts(Store(pad, Last(batches), limits), batches, limits)
  {
    var front, more := batches[..|batches| - 1], Last(batches);
    assert batches == front + [more];
    var all := PutAll(pad.entries, more);
    PutAllFacts(pad.entries, more);
    var n := Evicted(all, pad.summaries, limits);
    assert Fits(all[n..], pad.summaries, limits);
    EvictionNames(all, n, pad.summaries);
    if limits.maxEntries >= 1 && all != [] {
      EvictionLeavesOne(all, pad.summaries, limits);
    }
    forall k ensures Stored(batches, k) <==> Has(all, k) || Named(pad.summaries, k) {
      StoredSnoc(front, more, k);
    }
  }

  lemma StoredSnoc(batches: seq<seq<Entry>>, more: seq<Entry>, key: Key)
    ensures Stored(batches + [more], key) <==> Stored(batches, key) || Has(more, key)
  {
  }

  lemma EvictionLeavesOne(all: seq<Entry>, summaries: seq<Summary>, limits: Limits)
    requires limits.maxEntries >= 1 && all != []
    ensures Evicted(all, summaries, limits) < |all|
  {
  }

  ghost predicate StoredEntry(batches: seq<seq<Entry>>, e: Entry) { exists b :: b in batches && e in b }

  ghost predicate StoredAs(batches: seq<seq<Entry>>, key: Key, source: nat) {
    exists e :: StoredEntry(batches, e) && e.key == key && e.source == source
  }

  /** What is retained was stored as it stands, and a summary names a key with a source it was stored from. */
  ghost predicate Genuine(pad: Pad, batches: seq<seq<Entry>>) {
    && (forall e :: e in pad.entries ==> StoredEntry(batches, e))
    && (forall i, j :: 0 <= i < |pad.summaries| && 0 <= j < |pad.summaries[i]| ==>
         StoredAs(batches, pad.summaries[i][j].key, pad.summaries[i][j].source))
  }

  lemma {:induction false} PutAllMembers(entries: seq<Entry>, more: seq<Entry>)
    ensures forall e :: e in PutAll(entries, more) ==> e in entries || e in more
  {
    if more != [] {
      PutAllMembers(entries, more[..|more| - 1]);
      var was := PutAll(entries, more[..|more| - 1]);
      var now := Put(was, Last(more));
      assert forall e :: e in now ==> e in was || e == Last(more);
    }
  }

  lemma StoreGenuine(pad: Pad, batches: seq<seq<Entry>>, limits: Limits)
    requires batches != [] && Genuine(pad, batches[..|batches| - 1])
    ensures Genuine(Store(pad, Last(batches), limits), batches)
  {
    var front, more := batches[..|batches| - 1], Last(batches);
    var all := PutAll(pad.entries, more);
    PutAllMembers(pad.entries, more);
    assert more in batches;
    forall e | e in all ensures StoredEntry(batches, e) {
      assert e !in more ==> StoredEntry(front, e);
    }
    var after, n := Store(pad, more, limits), Evicted(all, pad.summaries, limits);
    forall i, j | 0 <= i < |after.summaries| && 0 <= j < |after.summaries[i]|
      ensures StoredAs(batches, after.summaries[i][j].key, after.summaries[i][j].source)
    {
      if i < |pad.summaries| {
        assert StoredAs(front, pad.summaries[i][j].key, pad.summaries[i][j].source);
      } else {
        assert all[j] in all && after.summaries[i][j] == Reference(all[j].key, all[j].source);
      }
    }
  }

  /** Over every run, nothing retained or named was made up. */
  lemma {:induction false} NothingIsMadeUp(batches: seq<seq<Entry>>, limits: Limits)
    ensures Genuine(Run(Pad([], []), batches, limits), batches)
  {
    if batches != [] {
      NothingIsMadeUp(batches[..|batches| - 1], limits);
      StoreGenuine(Run(Pad([], []), batches[..|batches| - 1], limits), batches, limits);
    }
  }

  /** Where a batch names a key more than once, the last entry counts. */
  lemma {:induction false} LastOneCounts(entries: seq<Entry>, more: seq<Entry>, i: nat)
    requires KeysDistinct(entries) && i < |more| && forall j :: i < j < |more| ==> more[j].key != more[i].key
    ensures more[i] in PutAll(entries, more)
  {
    var front, last := more[..|more| - 1], Last(more);
    PutAllFacts(entries, front);
    PutFacts(PutAll(entries, front), last);
    var was, now := PutAll(entries, front), PutAll(entries, more);
    if i < |front| {
      LastOneCounts(entries, front, i);
      var p :| 0 <= p < |was| && was[p] == more[i];
      assert now[p] == more[i];
    } else {
      assert Has(now, last.key);
      var p :| 0 <= p < |now| && now[p].key == last.key;
      assert now[p] == last;
    }
  }

  // ----- Summaries are never dropped and count against the budget

  lemma {:induction false} SummaryCostGrows(summaries: seq<Summary>, evicted: seq<Entry>, limits: Limits)
    ensures SummaryCost(WithSummary(summaries, evicted), limits) >= SummaryCost(summaries, limits)
  {
    if summaries != [] {
      SummaryCostGrows(summaries[1..], evicted, limits);
      assert evicted != [] ==> (summaries + [References(evicted)])[1..] == summaries[1..] + [References(evicted)];
    }
  }

  /** Once the summaries alone exceed the budget, every later state of the turn retains at most one entry. */
  lemma {:induction false} SummariesCrowdOutEntries(pad: Pad, later: seq<seq<Entry>>, limits: Limits)
    requires SummaryCost(pad.summaries, limits) > limits.budget && later != []
    ensures SummaryCost(Run(pad, later, limits).summaries, limits) > limits.budget
    ensures |Run(pad, later, limits).entries| <= 1
  {
    var front := later[..|later| - 1];
    if front != [] {
      SummariesCrowdOutEntries(pad, front, limits);
    }
    StoreCrowded(Run(pad, front, limits), Last(later), limits);
  }

  lemma StoreCrowded(pad: Pad, more: seq<Entry>, limits: Limits)
    requires SummaryCost(pad.summaries, limits) > limits.budget
    ensures var after := Store(pad, more, limits);
            SummaryCost(after.summaries, limits) > limits.budget && |after.entries| <= 1
  {
    var all := PutAll(pad.entries, more);
    var n := Evicted(all, pad.summaries, limits);
    assert Fits(all[n..], pad.summaries, limits);
    SummaryCostGrows(pad.summaries, all[..n], limits);
  }

  function Spent(pad: Pad, limits: Limits): nat { EntryCost(pad.entries, limits) + SummaryCost(pad.summaries, limits) }

  lemma {:induction false} SummaryCostSnoc(summaries: seq<Summary>, s: Summary, limits: Limits)
    ensures SummaryCost(summaries + [s], limits) == SummaryCost(summaries, limits) + limits.summaryTokens(s)
  {
    if summaries == [] {
      assert summaries + [s] == [s] && [s][1..] == [];
    } else {
      SummaryCostSnoc(summaries[1..], s, limits);
      assert (summaries + [s])[1..] == summaries[1..] + [s];
    }
  }

  /**
   Exactly when a call leaves the pad over its budget: it evicted nothing and the one entry
   it may not evict costs too much, or the summary of what it evicted does not fit beside the rest.
   */
  lemma OverBudgetIff(pad: Pad, limits: Limits)
    ensures var n := Evicted(pad.entries, pad.summaries, limits);
            Spent(Enforce(pad, limits), limits) > limits.budget <==>
            || (n == 0 && |pad.entries| <= 1 && Spent(pad, limits) > limits.budget)
            || (n > 0 && EntryCost(pad.entries[n..], limits) + SummaryCost(pad.summaries, limits)
                         + limits.summaryTokens(References(pad.entries[..n])) > limits.budget)
  {
    var n := Evicted(pad.entries, pad.summaries, limits);
    assert Fits(pad.entries[n..], pad.summaries, limits);
    assert pad.entries[0..] == pad.entries;
    SummaryCostSnoc(pad.summaries, References(pad.entries[..n]), limits);
  }

  /** With two or more entries retained, only the summary the call itself adds can overrun the budget. */
  lemma OverrunIsOneSummary(pad: Pad, limits: Limits)
    ensures var n, after := Evicted(pad.entries, pad.summaries, limits), Enforce(pad, limits);
            |after.entries| > 1 ==>
              Spent(after, limits)
              <= limits.budget + if n == 0 then 0 else limits.summaryTokens(References(pad.entries[..n]))
  {
    var n := Evicted(pad.entries, pad.summaries, limits);
    assert Fits(pad.entries[n..], pad.summaries, limits);
    SummaryCostSnoc(pad.summaries, References(pad.entries[..n]), limits);
  }

  /** It does overrun it, at every budget: the summary is added after the budget check. */
  lemma SummaryMayOverrunBudget(a: Entry, b: Entry, budget: nat)
    requires a.key != b.key && budget >= 256
    ensures var limits := Limits(1, budget, (e: Entry) => budget, (s: Summary) => 20);
            var pad := Pad([a], []);
            && Spent(pad, limits) <= budget
            && Store(pad, [b], limits) == Pad([b], [References([a])])
            && Spent(Store(pad, [b], limits), limits) == budget + 20
  {
    var limits := Limits(1, budget, (e: Entry) => budget, (s: Summary) => 20);
    var all := [a, b];
    assert PutAll([a], [b]) == Put(PutAll([a], [b][..0]), b);
    assert [a][1..] == [] && IndexOf([a][1..], b.key).None?;
    assert Put([a], b) == all;
    assert all[0..] == all && all[1..] == [b] && all[..1] == [a] && [b][1..] == [];
    assert EntryCost([b], limits) == budget + EntryCost([], limits);
    assert EntryCost([a], limits) == budget + EntryCost([], limits);
    LeastUnique(all, [a], Pad([b], []), limits);
    SummaryCostSnoc([], References([a]), limits);
    assert [] + [References([a])] == [References([a])];
  }

  // ----- What a write does to the entry it writes

  lemma {:induction false} SuffixCostsLess(entries: seq<Entry>, m: nat, limits: Limits)
    requires m <= |entries|
    ensures EntryCost(entries[m..], limits) <= EntryCost(entries, limits)
  {
    if m == 0 {
      assert entries[0..] == entries;
    } else {
      SuffixCostsLess(entries[1..], m - 1, limits);
      assert entries[1..][m - 1..] == entries[m..];
    }
  }

  /** Evicting beyond what is needed still fits. */
  lemma SuffixFits(entries: seq<Entry>, n: nat, p: nat, summaries: seq<Summary>, limits: Limits)
    requires n <= p <= |entries| && Fits(entries[n..], summaries, limits)
    ensures Fits(entries[p..], summaries, limits)
  {
    SuffixCostsLess(entries[n..], p - n, limits);
    assert entries[n..][p - n..] == entries[p..];
  }

  /** Where a write puts its entry: the old place of its key, or the end. */
  function Position(entries: seq<Entry>, key: Key): nat {
    match IndexOf(entries, key)
    case None => |entries|
    case Some(i) => i
  }

  /**
   Exactly when a write keeps what it wrote: the entry fits together with everything that stands
   behind it. Being written last does not help a key that was there before.
   */
  lemma WriteSurvivesIff(pad: Pad, e: Entry, limits: Limits)
    ensures var all, p := Put(pad.entries, e), Position(pad.entries, e.key);
            && p < |all| && all[p] == e
            && (Evicted(all, pad.summaries, limits) <= p <==> Fits(all[p..], pad.summaries, limits))
            && (KeysDistinct(pad.entries) ==>
                 (Has(Store(pad, [e], limits).entries, e.key) <==> Fits(all[p..], pad.summaries, limits)))
  {
    var all, p := Put(pad.entries, e), Position(pad.entries, e.key);
    var n := Evicted(all, pad.summaries, limits);
    if n <= p {
      SuffixFits(all, n, p, pad.summaries, limits);
    }
    if KeysDistinct(pad.entries) {
      PutFacts(pad.entries, e);
      assert PutAll(pad.entries, [e]) == Put(PutAll(pad.entries, [e][..0]), e);
    }
  }

  /**
   When nothing is evicted: the cap holds, and entries and summaries together cost at most the
   budget, or there is but one entry.
   */
  lemma EvictsNothingIff(pad: Pad, limits: Limits)
    ensures Enforce(pad, limits) == pad <==>
            && |pad.entries| <= limits.maxEntries
            && (|pad.entries| <= 1
                || EntryCost(pad.entries, limits) + SummaryCost(pad.summaries, limits) <= limits.budget)
  {
    assert pad.entries[0..] == pad.entries && pad.entries[..0] == [];
    var n := Evicted(pad.entries, pad.summaries, limits);
    assert n > 0 ==> |pad.entries[n..]| < |pad.entries|;
  }

  /** Costs add up entry by entry. */
  lemma {:induction false} EntryCostAppend(a: seq<Entry>, b: seq<Entry>, limits: Limits)
    ensures EntryCost(a + b, limits) == EntryCost(a, limits) + EntryCost(b, limits)
    ensures forall e :: EntryCost([e], limits) == limits.entryTokens(e)
  {
    forall e ensures EntryCost([e], limits) == limits.entryTokens(e) {
      assert [e][1..] == [];
    }
    if a == [] {
      assert a + b == b;
    } else {
      EntryCostAppend(a[1..], b, limits);
      assert (a + b)[1..] == a[1..] + b;
    }
  }

  /** A key written for the first time is the newest, and survives its own write. */
  lemma NewKeySurvivesItsWrite(pad: Pad, e: Entry, limits: Limits)
    requires limits.maxEntries >= 1 && IndexOf(pad.entries, e.key).None?
    ensures var after := Store(pad, [e], limits).entries;
            after != [] && Last(after) == e
  {
    WriteSurvivesIff(pad, e, limits);
    assert PutAll(pad.entries, [e]) == Put(PutAll(pad.entries, [e][..0]), e);
    assert Put(pad.entries, e)[|pad.entries|..] == [e];
  }

  /** Overwriting the oldest key may evict it at once: it keeps its old place at the front. */
  lemma OverwriteMayEvictItself(a: Entry, b: Entry, big: Entry, budget: nat)
    requires a.key == big.key != b.key && b != big && budget >= 256
    ensures var limits := Limits(2, budget, (e: Entry) => if e == big then budget else 1, (s: Summary) => 20);
            !Has(Store(Pad([a, b], []), [big], limits).entries, big.key)
  {
    var limits := Limits(2, budget, (e: Entry) => if e == big then budget else 1, (s: Summary) => 20);
    assert IndexOf([a, b], big.key) == Some(0);
    var all := Put([a, b], big);
    assert all == [big, b] && all[0..] == all && all[1..] == [b] && [b][1..] == [];
    assert EntryCost([b], limits) == 1 + EntryCost([], limits);
    assert EntryCost(all, limits) == budget + EntryCost([b], limits);
    WriteSurvivesIff(Pad([a, b], []), big, limits);
  }
}
