/** The versioned, append-only knowledge index: chunks are never removed, only made unsearchable. */
module KnowledgeIndex {
  import opened Common

  type SourceId = nat
  type IndexVersion = nat
  type Active = map<SourceId, IndexVersion>

  datatype Chunk = Chunk(id: nat, source: SourceId, version: IndexVersion, content: nat)

  predicate IsActive(active: Active, c: Chunk) { c.source in active && active[c.source] == c.version }

  /** What searches see: the chunks of each source's active version, in insertion order. */
  function Searchable(chunks: seq<Chunk>, active: Active): seq<Chunk> {
    if chunks == [] then []
    else Searchable(chunks[..|chunks| - 1], active) + if IsActive(active, Last(chunks)) then [Last(chunks)] else []
  }

  /** The chunks of one source at one version. */
  function Edition(chunks: seq<Chunk>, source: SourceId, version: IndexVersion): seq<Chunk> {
    if chunks == [] then []
    else
      Edition(chunks[..|chunks| - 1], source, version)
      + if Last(chunks).source == source && Last(chunks).version == version then [Last(chunks)] else []
  }

  function Resolve(chunks: seq<Chunk>, id: nat): Option<Chunk> {
    if chunks == [] then None else if chunks[0].id == id then Some(chunks[0]) else Resolve(chunks[1..], id)
  }

  function Versioned(chunks: seq<Chunk>, version: IndexVersion): seq<Chunk> {
    seq(|chunks|, i requires 0 <= i < |chunks| => chunks[i].(version := version))
  }

  /** The chunks that activating `version` takes out of the searchable set. */
  function Superseded(chunks: seq<Chunk>, source: SourceId, version: IndexVersion, active: Active): seq<Chunk> {
    if source !in active || active[source] == version then [] else Edition(chunks, source, active[source])
  }

  /** The chunks it brings in. */
  function Promoted(chunks: seq<Chunk>, source: SourceId, version: IndexVersion, active: Active): seq<Chunk> {
    if source in active && active[source] == version then [] else Edition(chunks, source, version)
  }

  class VectorStore {
    var chunks: seq<Chunk>
    var active: Active

    constructor ()
      ensures chunks == [] && active == map[]
    {
      chunks, active := [], map[];
    }

    method AddChunks(more: seq<Chunk>, version: IndexVersion) returns (added: nat)
      modifies this`chunks
      ensures chunks == old(chunks) + Versioned(more, version) && added == |more|
    {
      for i := 0 to |more|
        invariant chunks == old(chunks) + Versioned(more, version)[..i]
      {
        chunks := chunks + [more[i].(version := version)];
      }
      added := |more|;
    }

    /** Point a source at a version; returns how many chunks that retires. */
    method ActivateVersion(source: SourceId, version: IndexVersion) returns (retired: nat)
      modifies this`active
      ensures active == old(active)[source := version]
      ensures retired == |Superseded(chunks, source, version, old(active))|
    {
      var previous := if source in active then Some(active[source]) else None;
      active := active[source := version];
      if previous.None? || previous.value == version {
        return 0;
      }
      retired := 0;
      for i := 0 to |chunks|
        invariant retired == |Edition(chunks[..i], source, previous.value)|
      {
        assert chunks[..i + 1][..i] == chunks[..i];
        if chunks[i].source == source && chunks[i].version == previous.value {
          retired := retired + 1;
        }
      }
      assert chunks[..|chunks|] == chunks;
    }

    method SearchableChunks() returns (found: seq<Chunk>)
      ensures found == Searchable(chunks, active)
    {
      found := [];
      for i := 0 to |chunks|
        invariant found == Searchable(chunks[..i], active)
      {
        assert chunks[..i + 1][..i] == chunks[..i];
        if IsActive(active, chunks[i]) {
          found := found + [chunks[i]];
        }
      }
      assert chunks[..|chunks|] == chunks;
    }

    method GetChunk(id: nat) returns (found: Option<Chunk>)
      ensures found == Resolve(chunks, id)
    {
      for i := 0 to |chunks|
        invariant Resolve(chunks, id) == Resolve(chunks[i..], id)
      {
        assert chunks[i..][1..] == chunks[i + 1..];
        if chunks[i].id == id {
          return Some(chunks[i]);
        }
      }
      return None;
    }
  }

  /** Adding changes nothing but the version: ids, sources and contents come out as they went in, in order. */
  lemma AddedAsGiven(more: seq<Chunk>, version: IndexVersion, i: nat)
    requires i < |more|
    ensures |Versioned(more, version)| == |more|
    ensures var c := Versioned(more, version)[i];
            c.id == more[i].id && c.source == more[i].source && c.content == more[i].content && c.version == version
  {
  }

  // ----- Search

  lemma {:induction false} SearchableAppend(chunks: seq<Chunk>, more: seq<Chunk>, active: Active)
    ensures Searchable(chunks + more, active) == Searchable(chunks, active) + Searchable(more, active)
    decreases |more|
  {
    if more == [] {
      assert chunks + more == chunks;
    } else {
      SearchableAppend(chunks, more[..|more| - 1], active);
      assert (chunks + more)[..|chunks + more| - 1] == chunks + more[..|more| - 1];
    }
  }

  /** Every copy of a chunk is searchable if its version is the active one of its source, and none otherwise. */
  lemma {:induction false} SearchableExact(chunks: seq<Chunk>, active: Active, c: Chunk)
    ensures multiset(Searchable(chunks, active))[c] == if IsActive(active, c) then multiset(chunks)[c] else 0
  {
    if chunks != [] {
      SearchableExact(chunks[..|chunks| - 1], active, c);
      assert chunks == chunks[..|chunks| - 1] + [Last(chunks)];
    }
  }

  lemma {:induction false} EditionExact(chunks: seq<Chunk>, source: SourceId, version: IndexVersion, c: Chunk)
    ensures multiset(Edition(chunks, source, version))[c]
         == if c.source == source && c.version == version then multiset(chunks)[c] else 0
  {
    if chunks != [] {
      EditionExact(chunks[..|chunks| - 1], source, version, c);
      assert chunks == chunks[..|chunks| - 1] + [Last(chunks)];
    }
  }

  /** Adding chunks changes what searches see exactly when one of them lands in an active version. */
  lemma StagingIsInvisibleIff(chunks: seq<Chunk>, more: seq<Chunk>, version: IndexVersion, active: Active)
    ensures Searchable(chunks + Versioned(more, version), active) == Searchable(chunks, active)
            <==> forall c :: c in more ==> !(c.source in active && active[c.source] == version)
  {
    var staged := Versioned(more, version);
    SearchableAppend(chunks, staged, active);
    if i :| 0 <= i < |more| && more[i].source in active && active[more[i].source] == version {
      assert staged[i] in staged && IsActive(active, staged[i]);
      SearchableExact(staged, active, staged[i]);
    }
    if forall c :: c in staged ==> !IsActive(active, c) {
      NothingSearchable(staged, active);
    }
  }

  lemma {:induction false} NothingSearchable(chunks: seq<Chunk>, active: Active)
    requires forall c :: c in chunks ==> !IsActive(active, c)
    ensures Searchable(chunks, active) == []
  {
    if chunks != [] {
      NothingSearchable(chunks[..|chunks| - 1], active);
    }
  }

  /** Activation swaps one edition for another: nothing else enters or leaves, and counts balance. */
  lemma ActivationSwapsEditions(chunks: seq<Chunk>, source: SourceId, version: IndexVersion, active: Active)
    ensures var before, after := Searchable(chunks, active), Searchable(chunks, active[source := version]);
            && multiset(after) + multiset(Superseded(chunks, source, version, active))
               == multiset(before) + multiset(Promoted(chunks, source, version, active))
            && |after| + |Superseded(chunks, source, version, active)|
               == |before| + |Promoted(chunks, source, version, active)|
  {
    var before, after := Searchable(chunks, active), Searchable(chunks, active[source := version]);
    var left, entered := Superseded(chunks, source, version, active), Promoted(chunks, source, version, active);
    forall c ensures (multiset(after) + multiset(left))[c] == (multiset(before) + multiset(entered))[c] {
      SearchableExact(chunks, active, c);
      SearchableExact(chunks, active[source := version], c);
      EditionExact(chunks, source, version, c);
      if source in active {
        EditionExact(chunks, source, active[source], c);
      }
    }
    assert multiset(after) + multiset(left) == multiset(before) + multiset(entered);
    assert |multiset(after) + multiset(left)| == |after| + |left|;
    assert |multiset(before) + multiset(entered)| == |before| + |entered|;
  }

  // ----- Runs

  datatype Op = Add(more: seq<Chunk>, version: IndexVersion) | Activate(source: SourceId, version: IndexVersion)

  datatype Index = Index(chunks: seq<Chunk>, active: Active)

  function Step(ix: Index, op: Op): Index {
    match op
    case Add(more, version) => ix.(chunks := ix.chunks + Versioned(more, version))
    case Activate(source, version) => ix.(active := ix.active[source := version])
  }

  function Run(ix: Index, ops: seq<Op>): Index {
    if ops == [] then ix else Step(Run(ix, ops[..|ops| - 1]), Last(ops))
  }

  /** Whether an operation adds to the edition of `source` at `version`. */
  predicate AddsTo(op: Op, source: SourceId, version: IndexVersion) {
    op.Add? && op.version == version && exists i :: 0 <= i < |op.more| && op.more[i].source == source
  }

  lemma {:induction false} ResolveAppend(chunks: seq<Chunk>, more: seq<Chunk>, id: nat)
    ensures Resolve(chunks + more, id) == if Resolve(chunks, id).Some? then Resolve(chunks, id) else Resolve(more, id)
  {
    if chunks == [] {
      assert chunks + more == more;
    } else {
      ResolveAppend(chunks[1..], more, id);
      assert (chunks + more)[1..] == chunks[1..] + more;
    }
  }

  /** A cited id keeps resolving to the same record whatever is added, activated or retired afterwards. */
  lemma {:induction false} ResolvedForever(ix: Index, ops: seq<Op>, id: nat)
    requires Resolve(ix.chunks, id).Some?
    ensures Resolve(Run(ix, ops).chunks, id) == Resolve(ix.chunks, id)
  {
    if ops != [] {
      var front := ops[..|ops| - 1];
      ResolvedForever(ix, front, id);
      if Last(ops).Add? {
        ResolveAppend(Run(ix, front).chunks, Versioned(Last(ops).more, Last(ops).version), id);
      }
    }
  }

  lemma {:induction false} StagedElsewhere(chunks: seq<Chunk>, more: seq<Chunk>, v: IndexVersion, source: SourceId,
                                           version: IndexVersion)
    requires !AddsTo(Add(more, v), source, version)
    ensures Edition(chunks + Versioned(more, v), source, version) == Edition(chunks, source, version)
    decreases |more|
  {
    if more == [] {
      assert chunks + Versioned(more, v) == chunks;
    } else {
      var front := more[..|more| - 1];
      assert forall i :: 0 <= i < |front| ==> front[i] == more[i];
      StagedElsewhere(chunks, front, v, source, version);
      var all := chunks + Versioned(more, v);
      assert all[..|all| - 1] == chunks + Versioned(front, v);
      assert Last(all) == more[|more| - 1].(version := v);
    }
  }

  /** What searches see of one source is the edition it is pinned to. */
  lemma {:induction false} SourceView(chunks: seq<Chunk>, active: Active, source: SourceId, version: IndexVersion)
    ensures Edition(Searchable(chunks, active), source, version)
         == if source in active && active[source] == version then Edition(chunks, source, version) else []
  {
    if chunks != [] {
      var front, c := chunks[..|chunks| - 1], Last(chunks);
      SourceView(front, active, source, version);
      var seen := Searchable(front, active);
      if IsActive(active, c) {
        assert (seen + [c])[..|seen|] == seen && Last(seen + [c]) == c;
        assert Searchable(chunks, active) == seen + [c];
      } else {
        assert Searchable(chunks, active) == seen;
      }
    }
  }

  lemma {:induction false} PinKept(ix: Index, ops: seq<Op>, source: SourceId)
    requires forall op :: op in ops && op.Activate? ==> op.source != source
    ensures source in Run(ix, ops).active <==> source in ix.active
    ensures source in ix.active ==> Run(ix, ops).active[source] == ix.active[source]
  {
    if ops != [] {
      assert ops == ops[..|ops| - 1] + [Last(ops)];
      PinKept(ix, ops[..|ops| - 1], source);
      assert Last(ops) in ops;
    }
  }

  /**
   A run that never activates a source nor adds to the edition it is pinned to leaves what searches
   see of that source untouched, in order, whatever happens to the other sources.
   */
  lemma OtherSourcesKeepTheirView(ix: Index, ops: seq<Op>, source: SourceId)
    requires forall op :: op in ops && op.Activate? ==> op.source != source
    requires source in ix.active ==> forall op :: op in ops ==> !AddsTo(op, source, ix.active[source])
    ensures var later := Run(ix, ops);
            forall v :: Edition(Searchable(later.chunks, later.active), source, v)
                     == Edition(Searchable(ix.chunks, ix.active), source, v)
  {
    var later := Run(ix, ops);
    PinKept(ix, ops, source);
    if source in ix.active {
      AddedElsewhere(ix, ops, source, ix.active[source]);
    }
    forall v ensures Edition(Searchable(later.chunks, later.active), source, v)
                  == Edition(Searchable(ix.chunks, ix.active), source, v)
    {
      SourceView(later.chunks, later.active, source, v);
      SourceView(ix.chunks, ix.active, source, v);
    }
  }

  /**
   Rolling a source back to the edition it had shows exactly what was visible before, in order,
   whatever other sources did meanwhile and however many newer editions were staged and activated.
   */
  lemma RollbackRestores(ix: Index, ops: seq<Op>, source: SourceId, version: IndexVersion)
    requires source in ix.active && ix.active[source] == version
    requires forall op :: op in ops ==> !AddsTo(op, source, version)
    ensures var back := Step(Run(ix, ops), Activate(source, version));
            forall v :: Edition(Searchable(back.chunks, back.active), source, v)
                     == Edition(Searchable(ix.chunks, ix.active), source, v)
  {
    var back := Step(Run(ix, ops), Activate(source, version));
    AddedElsewhere(ix, ops, source, version);
    forall v ensures Edition(Searchable(back.chunks, back.active), source, v)
                  == Edition(Searchable(ix.chunks, ix.active), source, v)
    {
      SourceView(back.chunks, back.active, source, v);
      SourceView(ix.chunks, ix.active, source, v);
    }
  }

  lemma {:induction false} AddedElsewhere(ix: Index, ops: seq<Op>, source: SourceId, version: IndexVersion)
    requires forall op :: op in ops ==> !AddsTo(op, source, version)
    ensures Edition(Run(ix, ops).chunks, source, version) == Edition(ix.chunks, source, version)
  {
    if ops != [] {
      var front, op := ops[..|ops| - 1], Last(ops);
      assert ops == front + [op];
      AddedElsewhere(ix, front, source, version);
      if op.Add? {
        StagedElsewhere(Run(ix, front).chunks, op.more, op.version, source, version);
      }
    }
  }

  /**
   A chunk resolves to itself exactly when nothing before it carries its id: re-adding an id shadows
   the new record.
   */
  lemma {:induction false} ResolvesToItselfIff(chunks: seq<Chunk>, k: nat)
    requires k < |chunks| && chunks[k] !in chunks[..k]
    ensures Resolve(chunks, chunks[k].id) == Some(chunks[k])
            <==> forall i :: 0 <= i < k ==> chunks[i].id != chunks[k].id
  {
    if k > 0 {
      var tail := chunks[1..];
      assert tail[..k - 1] == chunks[1..k] && tail[k - 1] == chunks[k];
      assert chunks[0] in chunks[..k] && forall c :: c in chunks[1..k] ==> c in chunks[..k];
      ResolvesToItselfIff(tail, k - 1);
      assert forall i :: 0 < i < k ==> chunks[i] == tail[i - 1];
      assert forall i :: 0 <= i < k - 1 ==> tail[i] == chunks[i + 1];
    }
  }
}
