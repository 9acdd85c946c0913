/**
 Two-tier session memory: an append-only durable tier and a hot cache that may lose entries at
 any time. Coherence, its exact failure condition, and what a whole-set read returns.
 */
module SessionMemory {
  import opened Common
  import opened Ordering

  type Investigation = nat
  /** Keys are ordered; the order stands for the text order of the source. */
  type Key = nat

  datatype Entry = Entry(key: Key, value: nat, source: nat, revision: nat)

  type Durable = map<Investigation, map<Key, seq<Entry>>>
  type Hot = map<Investigation, map<Key, Entry>>

  datatype Tiers = Tiers(durable: Durable, hot: Hot)

  // ----- Entries in key order

  function SortedValues(m: map<Key, Entry>): seq<Entry> {
    var keys := SortedKeys(m.Keys);
    seq(|keys|, i requires 0 <= i < |keys| => assert keys[i] in keys; m[keys[i]])
  }

  lemma SortedFacts(m: map<Key, Entry>)
    requires forall k :: k in m ==> m[k].key == k
    ensures forall i :: 0 <= i < |SortedValues(m)| ==>
            SortedValues(m)[i].key in m && m[SortedValues(m)[i].key] == SortedValues(m)[i]
    ensures forall i, j :: 0 <= i < j < |SortedValues(m)| ==> SortedValues(m)[i].key < SortedValues(m)[j].key
    ensures forall k :: k in m ==> m[k] in SortedValues(m)
  {
    var keys := SortedKeys(m.Keys);
    forall i | 0 <= i < |keys| ensures keys[i] in m {
      assert keys[i] in keys;
    }
    forall k | k in m ensures m[k] in SortedValues(m) {
      assert k in keys;
      var i :| 0 <= i < |keys| && keys[i] == k;
      assert SortedValues(m)[i] == m[k];
    }
  }

  // ----- Durable tier

  function Revisions(d: Durable, inv: Investigation, key: Key): seq<Entry> {
    if inv in d && key in d[inv] then d[inv][key] else []
  }

  function Latest(d: Durable, inv: Investigation, key: Key): Option<Entry> {
    var revisions := Revisions(d, inv, key);
    if revisions == [] then None else Some(Last(revisions))
  }

  function NewEntry(d: Durable, inv: Investigation, key: Key, value: nat, source: nat): Entry {
    Entry(key, value, source, |Revisions(d, inv, key)| + 1)
  }

  function Append(d: Durable, inv: Investigation, entry: Entry): Durable {
    var keys := if inv in d then d[inv] else map[];
    d[inv := keys[entry.key := Revisions(d, inv, entry.key) + [entry]]]
  }

  /** The newest revision of every key of an investigation. */
  function LatestMap(d: Durable, inv: Investigation): map<Key, Entry> {
    if inv !in d then map[]
    else map k | k in d[inv] && d[inv][k] != [] :: Last(d[inv][k])
  }

  function LatestAll(d: Durable, inv: Investigation): seq<Entry> { SortedValues(LatestMap(d, inv)) }

  // ----- Hot tier

  function Cached(h: Hot, inv: Investigation): map<Key, Entry> { if inv in h then h[inv] else map[] }

  function Cache(h: Hot, inv: Investigation, entry: Entry): Hot { h[inv := Cached(h, inv)[entry.key := entry]] }

  function CacheAll(h: Hot, inv: Investigation, entries: seq<Entry>): Hot {
    if entries == [] then h else Cache(CacheAll(h, inv, entries[..|entries| - 1]), inv, Last(entries))
  }

  lemma CacheAllNext(h: Hot, inv: Investigation, entries: seq<Entry>, i: nat)
    requires i < |entries|
    ensures CacheAll(h, inv, entries[..i + 1]) == Cache(CacheAll(h, inv, entries[..i]), inv, entries[i])
  {
    assert entries[..i + 1][..i] == entries[..i];
  }

  // ----- Session memory

  function Write(t: Tiers, inv: Investigation, key: Key, value: nat, source: nat, hotUp: bool): Tiers {
    var entry := NewEntry(t.durable, inv, key, value, source);
    Tiers(Append(t.durable, inv, entry), if hotUp then Cache(t.hot, inv, entry) else t.hot)
  }

  function ReadAnswer(t: Tiers, inv: Investigation, key: Key): Option<Entry> {
    if key in Cached(t.hot, inv) then Some(Cached(t.hot, inv)[key]) else Latest(t.durable, inv, key)
  }

  function Read(t: Tiers, inv: Investigation, key: Key): Tiers {
    if key in Cached(t.hot, inv) || Latest(t.durable, inv, key).None? then t
    else t.(hot := Cache(t.hot, inv, Latest(t.durable, inv, key).value))
  }

  function Rebuild(t: Tiers, inv: Investigation): Tiers {
    t.(hot := CacheAll(t.hot, inv, LatestAll(t.durable, inv)))
  }

  function ReadAllAnswer(t: Tiers, inv: Investigation): seq<Entry> {
    if Cached(t.hot, inv) != map[] then SortedValues(Cached(t.hot, inv)) else LatestAll(t.durable, inv)
  }

  function ReadAll(t: Tiers, inv: Investigation): Tiers {
    if Cached(t.hot, inv) != map[] then t else Rebuild(t, inv)
  }

  /** Cache entries vanish: by eviction of an investigation, expiry, or a flush of the hot store. */
  function Lose(t: Tiers, inv: Investigation, keys: set<Key>): Tiers {
    t.(hot := t.hot[inv := Cached(t.hot, inv) - keys])
  }

  class MemoryManager {
    var durable: Durable
    var hot: Hot

    constructor ()
      ensures View() == Tiers(map[], map[])
    {
      durable, hot := map[], map[];
    }

    function View(): Tiers
      reads this
    {
      Tiers(durable, hot)
    }

    /** Append durably, then refresh the cache; `hotUp` says whether the cache write went through. */
    method WriteEntry(inv: Investigation, key: Key, value: nat, source: nat, hotUp: bool) returns (entry: Entry)
      modifies this
      ensures View() == Write(old(View()), inv, key, value, source, hotUp)
      ensures Latest(durable, inv, key) == Some(entry)
      ensures entry.key == key && entry.value == value && entry.source == source
      ensures entry.revision == |Revisions(old(durable), inv, key)| + 1
    {
      var revisions := Revisions(durable, inv, key);
      entry := Entry(key, value, source, |revisions| + 1);
      var keys := if inv in durable then durable[inv] else map[];
      durable := durable[inv := keys[key := revisions + [entry]]];
      if hotUp {
        hot := Cache(hot, inv, entry);
      }
    }

    method ReadEntry(inv: Investigation, key: Key) returns (entry: Option<Entry>)
      modifies this`hot
      ensures entry == ReadAnswer(old(View()), inv, key) && View() == Read(old(View()), inv, key)
    {
      var cached := Cached(hot, inv);
      if key in cached {
        return Some(cached[key]);
      }
      entry := Latest(durable, inv, key);
      if entry.Some? {
        hot := Cache(hot, inv, entry.value);
      }
    }

    method RebuildHot(inv: Investigation) returns (entries: seq<Entry>)
      modifies this`hot
      ensures entries == LatestAll(durable, inv) && View() == Rebuild(old(View()), inv)
    {
      entries := LatestAll(durable, inv);
      for i := 0 to |entries|
        invariant hot == CacheAll(old(hot), inv, entries[..i])
      {
        CacheAllNext(old(hot), inv, entries, i);
        hot := Cache(hot, inv, entries[i]);
      }
      assert entries[..|entries|] == entries;
    }

    method ReadAllEntries(inv: Investigation) returns (entries: seq<Entry>)
      modifies this`hot
      ensures entries == ReadAllAnswer(old(View()), inv) && View() == ReadAll(old(View()), inv)
    {
      var cached := Cached(hot, inv);
      if cached != map[] {
        return SortedValues(cached);
      }
      entries := RebuildHot(inv);
    }

    method EvictHot(inv: Investigation)
      modifies this`hot
      ensures hot == old(hot) - {inv} && durable == old(durable)
      ensures forall other :: Cached(hot, other) == if other == inv then map[] else Cached(old(hot), other)
    {
      hot := hot - {inv};
    }
  }

  // ----- Coherence

  /** Every cached entry is the newest durable revision of its key. */
  ghost predicate Coherent(t: Tiers) {
    forall inv, key :: key in Cached(t.hot, inv) ==> Latest(t.durable, inv, key) == Some(Cached(t.hot, inv)[key])
  }

  /** Revisions are numbered 1, 2, ..., n and stored under their own key. */
  ghost predicate Numbered(d: Durable) {
    forall inv, key, i :: 0 <= i < |Revisions(d, inv, key)| ==>
      Revisions(d, inv, key)[i].revision == i + 1 && Revisions(d, inv, key)[i].key == key
  }

  lemma LatestKeysMatch(d: Durable, inv: Investigation)
    requires Numbered(d)
    ensures forall k :: k in LatestMap(d, inv) ==>
            LatestMap(d, inv)[k].key == k && Latest(d, inv, k) == Some(LatestMap(d, inv)[k])
    ensures forall k :: k in LatestMap(d, inv) <==> Latest(d, inv, k).Some?
  {
    forall k | k in LatestMap(d, inv) ensures LatestMap(d, inv)[k].key == k {
      assert Revisions(d, inv, k)[|Revisions(d, inv, k)| - 1].key == k;
    }
  }

  /**
   After caching a list, a key holds what it held before or one of the listed entries, and every
   listed key is held.
   */
  lemma {:induction false} CacheAllFacts(h: Hot, inv: Investigation, entries: seq<Entry>, i: Investigation, k: Key)
    ensures k in Cached(h, i) ==> k in Cached(CacheAll(h, inv, entries), i)
    ensures k in Cached(CacheAll(h, inv, entries), i) ==>
              var e := Cached(CacheAll(h, inv, entries), i)[k];
              (k in Cached(h, i) && e == Cached(h, i)[k]) || (i == inv && e in entries && e.key == k)
    ensures i == inv && (exists e :: e in entries && e.key == k) ==>
              k in Cached(CacheAll(h, inv, entries), i) && Cached(CacheAll(h, inv, entries), i)[k] in entries
  {
    if entries != [] {
      var front := entries[..|entries| - 1];
      CacheAllFacts(h, inv, front, i, k);
      assert forall e :: e in entries <==> e in front || e == Last(entries);
    }
  }

  lemma RebuildKeepsCoherent(t: Tiers, inv: Investigation)
    requires Numbered(t.durable) && Coherent(t)
    ensures Coherent(Rebuild(t, inv))
  {
    var after := Rebuild(t, inv);
    LatestKeysMatch(t.durable, inv);
    SortedFacts(LatestMap(t.durable, inv));
    forall i, k | k in Cached(after.hot, i) ensures Latest(after.durable, i, k) == Some(Cached(after.hot, i)[k]) {
      CacheAllFacts(t.hot, inv, LatestAll(t.durable, inv), i, k);
    }
  }

  datatype Op =
    | WriteOp(inv: Investigation, key: Key, value: nat, source: nat, hotUp: bool)
    | ReadOp(inv: Investigation, key: Key)
    | ReadAllOp(inv: Investigation)
    | RebuildOp(inv: Investigation)
    | LoseOp(inv: Investigation, keys: set<Key>)

  function Apply(t: Tiers, op: Op): Tiers {
    match op
    case WriteOp(inv, key, value, source, hotUp) => Write(t, inv, key, value, source, hotUp)
    case ReadOp(inv, key) => Read(t, inv, key)
    case ReadAllOp(inv) => ReadAll(t, inv)
    case RebuildOp(inv) => Rebuild(t, inv)
    case LoseOp(inv, keys) => Lose(t, inv, keys)
  }

  function Run(t: Tiers, ops: seq<Op>): Tiers {
    if ops == [] then t else Apply(Run(t, ops[..|ops| - 1]), Last(ops))
  }

  /** No operation rewrites history: every key's revisions only get longer. */
  lemma ApplyExtends(t: Tiers, op: Op, inv: Investigation, key: Key)
    ensures Revisions(t.durable, inv, key) <= Revisions(Apply(t, op).durable, inv, key)
  {
  }

  lemma ApplyKeepsNumbered(t: Tiers, op: Op)
    requires Numbered(t.durable)
    ensures Numbered(Apply(t, op).durable)
  {
    var after := Apply(t, op).durable;
    forall inv, key, i | 0 <= i < |Revisions(after, inv, key)|
      ensures Revisions(after, inv, key)[i].revision == i + 1 && Revisions(after, inv, key)[i].key == key
    {
      if i < |Revisions(t.durable, inv, key)| {
        ApplyExtends(t, op, inv, key);
        assert Revisions(after, inv, key)[i] == Revisions(t.durable, inv, key)[i];
      }
    }
  }

  lemma WriteKeepsCoherent(t: Tiers, inv: Investigation, key: Key, value: nat, source: nat)
    requires Coherent(t)
    ensures Coherent(Write(t, inv, key, value, source, true))
  {
    var after := Write(t, inv, key, value, source, true);
    forall i, k | k in Cached(after.hot, i) ensures Latest(after.durable, i, k) == Some(Cached(after.hot, i)[k]) {
      if i != inv || k != key {
        assert Latest(t.durable, i, k) == Some(Cached(t.hot, i)[k]);
      }
    }
  }

  lemma ReadKeepsCoherent(t: Tiers, inv: Investigation, key: Key)
    requires Numbered(t.durable) && Coherent(t)
    ensures Coherent(Read(t, inv, key))
  {
    var revisions := Revisions(t.durable, inv, key);
    assert revisions != [] ==> revisions[|revisions| - 1].key == key;
  }

  lemma ApplyKeepsCoherent(t: Tiers, op: Op)
    requires Numbered(t.durable) && Coherent(t) && (op.WriteOp? ==> op.hotUp)
    ensures Coherent(Apply(t, op))
  {
    match op {
      case WriteOp(inv, key, value, source, _) => WriteKeepsCoherent(t, inv, key, value, source);
      case ReadOp(inv, key) => ReadKeepsCoherent(t, inv, key);
      case ReadAllOp(inv) => RebuildKeepsCoherent(t, inv);
      case RebuildOp(inv) => RebuildKeepsCoherent(t, inv);
      case LoseOp(_, _) =>
    }
  }

  lemma {:induction false} RunKeeps(t: Tiers, ops: seq<Op>, inv: Investigation, key: Key)
    requires Numbered(t.durable)
    ensures Numbered(Run(t, ops).durable)
    ensures Revisions(t.durable, inv, key) <= Revisions(Run(t, ops).durable, inv, key)
  {
    if ops != [] {
      var before := Run(t, ops[..|ops| - 1]);
      RunKeeps(t, ops[..|ops| - 1], inv, key);
      ApplyKeepsNumbered(before, Last(ops));
      ApplyExtends(before, Last(ops), inv, key);
    }
  }

  /** What was written under a key: value and source of each write, oldest first. */
  function Written(ops: seq<Op>, inv: Investigation, key: Key): seq<(nat, nat)> {
    if ops == [] then []
    else
      var op := Last(ops);
      Written(ops[..|ops| - 1], inv, key)
      + if op.WriteOp? && op.inv == inv && op.key == key then [(op.value, op.source)] else []
  }

  /** The entries are these writes, numbered on from `base`. */
  ghost predicate Records(entries: seq<Entry>, writes: seq<(nat, nat)>, key: Key, base: nat) {
    && |entries| == |writes|
    && forall i :: 0 <= i < |entries| ==> entries[i] == Entry(key, writes[i].0, writes[i].1, base + i + 1)
  }

  /** Durable memory holds exactly what was written: each write to a key is one more revision, in order. */
  lemma {:induction false} WritesAreKept(t: Tiers, ops: seq<Op>, inv: Investigation, key: Key)
    ensures var before, after := Revisions(t.durable, inv, key), Revisions(Run(t, ops).durable, inv, key);
            before <= after && Records(after[|before|..], Written(ops, inv, key), key, |before|)
  {
    if ops != [] {
      var front, op := ops[..|ops| - 1], Last(ops);
      WritesAreKept(t, front, inv, key);
      WriteAppends(Run(t, front), op, inv, key);
      RecordsNext(Revisions(t.durable, inv, key), Revisions(Run(t, front).durable, inv, key),
                  Revisions(Run(t, ops).durable, inv, key), Written(front, inv, key), Written(ops, inv, key), key);
    }
  }

  /** One more write is one more record. */
  lemma RecordsNext(base: seq<Entry>, before: seq<Entry>, after: seq<Entry>,
                    writes: seq<(nat, nat)>, more: seq<(nat, nat)>, key: Key)
    requires base <= before && Records(before[|base|..], writes, key, |base|)
    requires || (after == before && more == writes)
             || (exists w :: more == writes + [w] && after == before + [Entry(key, w.0, w.1, |before| + 1)])
    ensures base <= after && Records(after[|base|..], more, key, |base|)
  {
    assert after == before || after[|base|..] == before[|base|..] + [Last(after)];
  }

  lemma WriteAppends(t: Tiers, op: Op, inv: Investigation, key: Key)
    ensures var before, after := Revisions(t.durable, inv, key), Revisions(Apply(t, op).durable, inv, key);
            after == if op.WriteOp? && op.inv == inv && op.key == key
                     then before + [Entry(key, op.value, op.source, |before| + 1)] else before
  {
  }

  /**
   As long as cache writes go through, whatever is read, rebuilt or lost in between, every read
   answers with the newest durable revision.
   */
  lemma {:induction false} ReadsAreFresh(t: Tiers, ops: seq<Op>, inv: Investigation, key: Key)
    requires Numbered(t.durable) && Coherent(t)
    requires forall i :: 0 <= i < |ops| && ops[i].WriteOp? ==> ops[i].hotUp
    ensures Coherent(Run(t, ops))
    ensures ReadAnswer(Run(t, ops), inv, key) == Latest(Run(t, ops).durable, inv, key)
  {
    if ops != [] {
      var front := ops[..|ops| - 1];
      ReadsAreFresh(t, front, inv, key);
      RunKeeps(t, front, inv, key);
      assert Last(ops) == ops[|ops| - 1];
      ApplyKeepsCoherent(Run(t, front), Last(ops));
    }
  }

  /** So a read returns the last value written to the key, with its source, or nothing if there was no write. */
  lemma ReadReturnsLastWrite(ops: seq<Op>, inv: Investigation, key: Key)
    requires forall i :: 0 <= i < |ops| && ops[i].WriteOp? ==> ops[i].hotUp
    ensures var t, writes := Run(Tiers(map[], map[]), ops), Written(ops, inv, key);
            ReadAnswer(t, inv, key) == if writes == [] then None
                                       else Some(Entry(key, Last(writes).0, Last(writes).1, |writes|))
  {
    ReadsAreFresh(Tiers(map[], map[]), ops, inv, key);
    WritesAreKept(Tiers(map[], map[]), ops, inv, key);
    var revisions := Revisions(Run(Tiers(map[], map[]), ops).durable, inv, key);
    assert revisions[0..] == revisions;
  }

  /** A swallowed cache failure does harm exactly when the key was cached: then the old revision stays in front. */
  lemma FailedCacheWriteHarmsIffCached(t: Tiers, inv: Investigation, key: Key, value: nat, source: nat)
    requires Numbered(t.durable) && Coherent(t)
    ensures Coherent(Write(t, inv, key, value, source, false)) <==> key !in Cached(t.hot, inv)
    ensures key in Cached(t.hot, inv) ==>
              ReadAnswer(Write(t, inv, key, value, source, false), inv, key) == Latest(t.durable, inv, key)
              && Latest(t.durable, inv, key) != Latest(Write(t, inv, key, value, source, false).durable, inv, key)
  {
    var after := Write(t, inv, key, value, source, false);
    var revisions := Revisions(t.durable, inv, key);
    if key in Cached(t.hot, inv) {
      assert Latest(t.durable, inv, key) == Some(Cached(t.hot, inv)[key]);
      assert revisions[|revisions| - 1].revision == |revisions|;
      assert Latest(after.durable, inv, key).value.revision == |revisions| + 1;
      assert key in Cached(after.hot, inv);
    } else {
      forall i, k | k in Cached(after.hot, i) ensures Latest(after.durable, i, k) == Some(Cached(after.hot, i)[k]) {
        assert Latest(t.durable, i, k) == Some(Cached(t.hot, i)[k]);
      }
    }
  }

  // ----- Runs in which cache writes may fail

  const EMPTY_TIERS := Tiers(map[], map[])

  /** Whatever is cached was once the newest revision of its key. */
  ghost predicate Served(t: Tiers) {
    forall inv, k :: k in Cached(t.hot, inv) ==> Cached(t.hot, inv)[k] in Revisions(t.durable, inv, k)
  }

  ghost predicate FreshAt(t: Tiers, inv: Investigation, key: Key) {
    ReadAnswer(t, inv, key) == Latest(t.durable, inv, key)
  }

  /** After a rebuild every cached key of the investigation holds its newest revision, however stale it was. */
  lemma RebuildHeals(t: Tiers, inv: Investigation, k: Key)
    requires Numbered(t.durable) && Served(t) && k in Cached(Rebuild(t, inv).hot, inv)
    ensures Latest(t.durable, inv, k) == Some(Cached(Rebuild(t, inv).hot, inv)[k])
  {
    var latest := LatestMap(t.durable, inv);
    LatestKeysMatch(t.durable, inv);
    SortedFacts(latest);
    CacheAllFacts(t.hot, inv, LatestAll(t.durable, inv), inv, k);
    assert k in Cached(t.hot, inv) ==> Revisions(t.durable, inv, k) != [];
    assert k in latest && latest[k] in LatestAll(t.durable, inv);
  }

  ghost predicate AllFresh(t: Tiers, inv: Investigation) { forall key :: FreshAt(t, inv, key) }

  lemma RebuildServes(t: Tiers, inv: Investigation)
    requires Numbered(t.durable) && Served(t)
    ensures Served(Rebuild(t, inv))
    ensures AllFresh(Rebuild(t, inv), inv)
    ensures forall i :: i != inv ==> Cached(Rebuild(t, inv).hot, i) == Cached(t.hot, i)
  {
    var after := Rebuild(t, inv);
    CacheAllElsewhere(t.hot, inv, LatestAll(t.durable, inv));
    forall k | k in Cached(after.hot, inv) ensures Latest(t.durable, inv, k) == Some(Cached(after.hot, inv)[k]) {
      RebuildHeals(t, inv, k);
    }
    forall i, k | k in Cached(after.hot, i) ensures Cached(after.hot, i)[k] in Revisions(after.durable, i, k) {
      assert i != inv ==> k in Cached(t.hot, i);
    }
  }

  lemma {:induction false} CacheAllElsewhere(h: Hot, inv: Investigation, entries: seq<Entry>)
    ensures forall i :: i != inv ==> Cached(CacheAll(h, inv, entries), i) == Cached(h, i)
  {
    if entries != [] {
      CacheAllElsewhere(h, inv, entries[..|entries| - 1]);
    }
  }

  lemma ApplyServes(t: Tiers, op: Op)
    requires Numbered(t.durable) && Served(t)
    ensures Served(Apply(t, op))
  {
    if op.ReadAllOp? || op.RebuildOp? {
      RebuildServes(t, op.inv);
    } else {
      var after := Apply(t, op);
      forall inv, key | key in Cached(after.hot, inv)
        ensures Cached(after.hot, inv)[key] in Revisions(after.durable, inv, key)
      {
        ApplyExtends(t, op, inv, key);
        assert key in Cached(t.hot, inv) ==> Cached(t.hot, inv)[key] in Revisions(after.durable, inv, key);
        if op.ReadOp? && Latest(t.durable, op.inv, op.key).Some? {
          var revisions := Revisions(t.durable, op.inv, op.key);
          assert revisions[|revisions| - 1].key == op.key;
        }
      }
    }
  }

  /**
   The history condition for a stale read: the last write to the key whose cache update failed
   found it cached, and since then the key was neither written through, nor lost, nor rebuilt.
   */
  ghost predicate Shadowed(ops: seq<Op>, inv: Investigation, key: Key) {
    if ops == [] then false
    else
      var front := ops[..|ops| - 1];
      match Last(ops)
      case WriteOp(i, k, _, _, hotUp) =>
        if i == inv && k == key then !hotUp && key in Cached(Run(EMPTY_TIERS, front).hot, inv)
        else Shadowed(front, inv, key)
      case LoseOp(i, keys) => !(i == inv && key in keys) && Shadowed(front, inv, key)
      case RebuildOp(i) => i != inv && Shadowed(front, inv, key)
      case _ => Shadowed(front, inv, key)
  }

  /**
   Over every run, with any cache writes failing: a read answers with an old revision exactly when
   its key is shadowed.
   */
  lemma {:induction false} ReadIsStaleIff(ops: seq<Op>, inv: Investigation, key: Key)
    ensures Served(Run(EMPTY_TIERS, ops)) && Numbered(Run(EMPTY_TIERS, ops).durable)
    ensures !FreshAt(Run(EMPTY_TIERS, ops), inv, key) <==> Shadowed(ops, inv, key)
  {
    if ops != [] {
      var front := ops[..|ops| - 1];
      ReadIsStaleIff(front, inv, key);
      var before := Run(EMPTY_TIERS, front);
      ApplyServes(before, Last(ops));
      ApplyKeepsNumbered(before, Last(ops));
      FreshAfter(before, Last(ops), inv, key);
    }
  }

  /** How one operation changes whether a key reads fresh. */
  lemma FreshAfter(t: Tiers, op: Op, inv: Investigation, key: Key)
    requires Numbered(t.durable) && Served(t)
    ensures FreshAt(Apply(t, op), inv, key) <==>
            match op
            case WriteOp(i, k, _, _, hotUp) =>
              if i == inv && k == key then hotUp || key !in Cached(t.hot, inv) else FreshAt(t, inv, key)
            case LoseOp(i, keys) => (i == inv && key in keys) || FreshAt(t, inv, key)
            case RebuildOp(i) => i == inv || FreshAt(t, inv, key)
            case _ => FreshAt(t, inv, key)
  {
    match op {
      case WriteOp(_, _, _, _, _) => WriteShadows(t, op, inv, key);
      case LoseOp(_, _) =>
      case RebuildOp(_) => RebuildServes(t, op.inv);
      case ReadAllOp(_) => RebuildServes(t, op.inv);
      case ReadOp(_, _) =>
        var revisions := Revisions(t.durable, op.inv, op.key);
        assert revisions != [] ==> revisions[|revisions| - 1].key == op.key;
    }
  }

  lemma WriteShadows(t: Tiers, op: Op, inv: Investigation, key: Key)
    requires Numbered(t.durable) && Served(t) && op.WriteOp?
    ensures FreshAt(Apply(t, op), inv, key) <==>
            if op.inv == inv && op.key == key then op.hotUp || key !in Cached(t.hot, inv) else FreshAt(t, inv, key)
  {
  }

  // ----- Reading the whole working set

  ghost predicate Keyed(m: map<Key, Entry>) { forall k :: k in m ==> m[k].key == k }

  lemma SortedValuesInjective(a: map<Key, Entry>, b: map<Key, Entry>)
    requires Keyed(a) && Keyed(b)
    ensures SortedValues(a) == SortedValues(b) <==> a == b
  {
    if SortedValues(a) == SortedValues(b) {
      ValuesWithin(a, b);
      ValuesWithin(b, a);
    }
  }

  lemma ValuesWithin(a: map<Key, Entry>, b: map<Key, Entry>)
    requires Keyed(a) && Keyed(b) && SortedValues(a) == SortedValues(b)
    ensures forall k :: k in a ==> k in b && b[k] == a[k]
  {
    SortedFacts(a);
    SortedFacts(b);
  }

  /**
   A whole-set read returns durable revisions in key order, newest ones only while the cache is
   coherent. It returns the newest revision of every key if and only if the cache was empty, or
   held every durable key and none of them stale.
   */
  lemma ReadAllExact(t: Tiers, inv: Investigation)
    requires Numbered(t.durable) && Served(t)
    ensures var answer := ReadAllAnswer(t, inv);
            && (forall i :: 0 <= i < |answer| ==> answer[i] in Revisions(t.durable, inv, answer[i].key))
            && (Coherent(t) ==> forall i :: 0 <= i < |answer| ==>
               Latest(t.durable, inv, answer[i].key) == Some(answer[i]))
            && (forall i, j :: 0 <= i < j < |answer| ==> answer[i].key < answer[j].key)
            && (answer == LatestAll(t.durable, inv) <==>
                 || Cached(t.hot, inv) == map[]
                 || (Cached(t.hot, inv).Keys == LatestMap(t.durable, inv).Keys && AllFresh(t, inv)))
  {
    LatestKeysMatch(t.durable, inv);
    CachedKeyed(t, inv);
    SortedValuesInjective(Cached(t.hot, inv), LatestMap(t.durable, inv));
    CachedIsLatestIff(t, inv);
    ReadAllSorted(t, inv);
  }

  lemma ReadAllSorted(t: Tiers, inv: Investigation)
    requires Numbered(t.durable) && Served(t)
    ensures var answer := ReadAllAnswer(t, inv);
            && (forall i :: 0 <= i < |answer| ==> answer[i] in Revisions(t.durable, inv, answer[i].key))
            && (Coherent(t) ==> forall i :: 0 <= i < |answer| ==>
               Latest(t.durable, inv, answer[i].key) == Some(answer[i]))
            && (forall i, j :: 0 <= i < j < |answer| ==> answer[i].key < answer[j].key)
  {
    LatestKeysMatch(t.durable, inv);
    CachedKeyed(t, inv);
    if Cached(t.hot, inv) != map[] {
      SortedFacts(Cached(t.hot, inv));
    } else {
      SortedFacts(LatestMap(t.durable, inv));
    }
  }

  lemma CachedKeyed(t: Tiers, inv: Investigation)
    requires Numbered(t.durable) && Served(t)
    ensures Keyed(Cached(t.hot, inv))
  {
    forall k | k in Cached(t.hot, inv) ensures Cached(t.hot, inv)[k].key == k {
      var revisions := Revisions(t.durable, inv, k);
      var i :| 0 <= i < |revisions| && revisions[i] == Cached(t.hot, inv)[k];
    }
  }

  lemma CachedIsLatestIff(t: Tiers, inv: Investigation)
    requires Numbered(t.durable) && Served(t)
    ensures Cached(t.hot, inv) == LatestMap(t.durable, inv) <==>
            Cached(t.hot, inv).Keys == LatestMap(t.durable, inv).Keys && AllFresh(t, inv)
  {
    var cached, latest := Cached(t.hot, inv), LatestMap(t.durable, inv);
    LatestKeysMatch(t.durable, inv);
    if cached.Keys == latest.Keys && AllFresh(t, inv) {
      forall k | k in cached ensures cached[k] == latest[k] {
        assert FreshAt(t, inv, k);
      }
    }
  }

  /** Over every run, with any cache writes failing: when the whole-set read is complete and newest. */
  lemma ReadAllCompleteIff(ops: seq<Op>, inv: Investigation)
    ensures var t := Run(EMPTY_TIERS, ops);
            ReadAllAnswer(t, inv) == LatestAll(t.durable, inv) <==>
            || Cached(t.hot, inv) == map[]
            || (Cached(t.hot, inv).Keys == LatestMap(t.durable, inv).Keys && NoneShadowed(ops, inv))
  {
    FreshUnlessShadowed(ops, inv);
    ReadAllExact(Run(EMPTY_TIERS, ops), inv);
  }

  ghost predicate NoneShadowed(ops: seq<Op>, inv: Investigation) { forall key :: !Shadowed(ops, inv, key) }

  lemma FreshUnlessShadowed(ops: seq<Op>, inv: Investigation)
    ensures Served(Run(EMPTY_TIERS, ops)) && Numbered(Run(EMPTY_TIERS, ops).durable)
    ensures AllFresh(Run(EMPTY_TIERS, ops), inv) <==> NoneShadowed(ops, inv)
  {
    var t := Run(EMPTY_TIERS, ops);
    ReadIsStaleIff(ops, inv, 0);
    forall key ensures FreshAt(t, inv, key) <==> !Shadowed(ops, inv, key) {
      ReadIsStaleIff(ops, inv, key);
    }
  }

  /** A rebuild warms and heals every durable key, so the next whole-set read is complete and newest again. */
  lemma RebuildWarmsEverything(t: Tiers, inv: Investigation)
    requires Numbered(t.durable) && Served(t)
    ensures ReadAllAnswer(Rebuild(t, inv), inv) == LatestAll(t.durable, inv)
  {
    var after, latest := Rebuild(t, inv), LatestMap(t.durable, inv);
    RebuildServes(t, inv);
    LatestKeysMatch(t.durable, inv);
    SortedFacts(latest);
    forall k ensures k in Cached(after.hot, inv) <==> k in latest {
      CacheAllFacts(t.hot, inv, LatestAll(t.durable, inv), inv, k);
      assert k in Cached(t.hot, inv) ==> Revisions(t.durable, inv, k) != [];
    }
    ReadAllExact(after, inv);
  }

  lemma SortedSingleton(k: Key, e: Entry)
    ensures SortedValues(map[k := e]) == [e]
  {
    assert Minimum({k}) == k && {k} - {k} == {};
    assert SortedKeys({k}) == [k] + SortedKeys({});
    assert map[k := e].Keys == {k};
  }

  /**
   A partly warm cache hides the rest: from any state, losing the cache and reading one key back
   leaves only that key.
   */
  lemma PartlyWarmCacheHidesKeys(t: Tiers, inv: Investigation, key: Key, other: Key)
    requires Numbered(t.durable) && key != other
    requires Latest(t.durable, inv, key).Some? && Latest(t.durable, inv, other).Some?
    ensures var after := Read(Lose(t, inv, Cached(t.hot, inv).Keys), inv, key);
            && ReadAllAnswer(after, inv) == [Latest(t.durable, inv, key).value]
            && ReadAllAnswer(after, inv) != LatestAll(after.durable, inv)
  {
    var newest := Latest(t.durable, inv, key).value;
    var revisions := Revisions(t.durable, inv, key);
    assert revisions[|revisions| - 1].key == key;
    var after := Read(Lose(t, inv, Cached(t.hot, inv).Keys), inv, key);
    assert Cached(after.hot, inv) == map[key := newest];
    SortedSingleton(key, newest);
    LatestKeysMatch(t.durable, inv);
    SortedFacts(LatestMap(t.durable, inv));
    assert LatestMap(t.durable, inv)[other] in LatestAll(t.durable, inv);
  }
}
