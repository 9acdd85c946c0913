/** Splitting oversized blocks into overlapping windows, and numbering the chunks of a document. */
module Chunker {
  import opened Common
  import opened MaximalRuns
  import opened Chunking
  import opened Packing

  // ----- Covering

  ghost function Trimmed(parts: seq<string>, drops: seq<nat>): seq<string>
    requires DropsFit(parts, drops)
  {
    seq(|parts|, i requires 0 <= i < |parts| => Ink(parts[i])[drops[i]..])
  }

  /** What the parts contribute when `drops[i]` leading ink characters of part `i` are repetitions. */
  ghost function Covered(parts: seq<string>, drops: seq<nat>): string
    requires DropsFit(parts, drops)
  {
    Flatten(Trimmed(parts, drops))
  }

  /** Dropping at most `overlap` ink characters from the front of each part leaves exactly `ink`. */
  ghost predicate Covers(parts: seq<string>, drops: seq<nat>, overlap: nat, ink: string) {
    && DropsFit(parts, drops)
    && (forall i :: 0 <= i < |drops| ==> drops[i] <= overlap)
    && Covered(parts, drops) == ink
  }

  ghost predicate DropsFit(parts: seq<string>, drops: seq<nat>) {
    |parts| == |drops| && forall i :: 0 <= i < |parts| ==> drops[i] <= |Ink(parts[i])|
  }

  lemma DropsFitAppend(a: seq<string>, da: seq<nat>, b: seq<string>, db: seq<nat>)
    requires DropsFit(a, da) && DropsFit(b, db)
    ensures DropsFit(a + b, da + db)
  {
  }

  lemma TrimmedAppend(a: seq<string>, da: seq<nat>, b: seq<string>, db: seq<nat>)
    requires DropsFit(a, da) && DropsFit(b, db) && DropsFit(a + b, da + db)
    ensures Trimmed(a + b, da + db) == Trimmed(a, da) + Trimmed(b, db)
  {
    forall i | 0 <= i < |a + b| ensures Trimmed(a + b, da + db)[i] == (Trimmed(a, da) + Trimmed(b, db))[i] {
    }
  }

  lemma CoveredAppend(a: seq<string>, da: seq<nat>, b: seq<string>, db: seq<nat>)
    requires DropsFit(a, da) && DropsFit(b, db)
    ensures DropsFit(a + b, da + db) && Covered(a + b, da + db) == Covered(a, da) + Covered(b, db)
  {
    DropsFitAppend(a, da, b, db);
    TrimmedAppend(a, da, b, db);
    FlattenAppend(Trimmed(a, da), Trimmed(b, db));
  }

  lemma CoversAppend(a: seq<string>, da: seq<nat>, b: seq<string>, db: seq<nat>, overlap: nat, ia: string, ib: string)
    requires Covers(a, da, overlap, ia) && Covers(b, db, overlap, ib)
    ensures Covers(a + b, da + db, overlap, ia + ib)
  {
    CoveredAppend(a, da, b, db);
  }

  lemma CoversOne(part: string, drop: nat, overlap: nat)
    requires drop <= |Ink(part)| && drop <= overlap
    ensures Covers([part], [drop], overlap, Ink(part)[drop..])
  {
    assert Trimmed([part], [drop]) == [] + [Ink(part)[drop..]];
    FlattenSnoc([], Ink(part)[drop..]);
  }

  // ----- Overlapping windows

  datatype Window = Window(start: nat, end: nat)

  /** `section.rfind(" ", lo, hi)`. */
  function LastSpace(section: string, lo: nat, hi: nat): (found: Option<nat>)
    requires lo <= hi <= |section|
    ensures found.Some? ==> lo <= found.value < hi && section[found.value] == ' '
    ensures forall k :: (if found.Some? then found.value + 1 else lo) <= k < hi ==> section[k] != ' '
    decreases hi
  {
    if lo == hi then None
    else if section[hi - 1] == ' ' then Some(hi - 1)
    else LastSpace(section, lo, hi - 1)
  }

  /**
   A window runs to the end of the section if that fits; else to the last space of its final
   stretch; else it is cut at full length.
   */
  ghost predicate CutWell(section: string, w: Window, max: nat, overlap: nat)
    requires overlap < max
  {
    && w.start < w.end <= |section| && w.end <= w.start + max
    && if |section| <= w.start + max then w.end == |section|
       else
         var lo := w.start + max - overlap;
         || (&& lo <= w.end < w.start + max && section[w.end] == ' '
             && forall k :: w.end < k < w.start + max ==> section[k] != ' ')
         || (w.end == w.start + max && forall k :: lo <= k < w.start + max ==> section[k] != ' ')
  }

  function NextStart(w: Window, overlap: nat): int {
    if w.end - overlap >= w.start + 1 then w.end - overlap else w.start + 1
  }

  /** Consecutive windows, each starting where the previous one says. */
  ghost predicate Chained(section: string, windows: seq<Window>, max: nat, overlap: nat)
    requires overlap < max
  {
    && (forall i :: 0 <= i < |windows| ==> CutWell(section, windows[i], max, overlap))
    && (forall i, j :: 0 <= i < j < |windows| && j == i + 1 ==> windows[j].start == NextStart(windows[i], overlap))
  }

  /** A chain whose last window ends the section. */
  ghost predicate Tiles(section: string, windows: seq<Window>, max: nat, overlap: nat)
    requires overlap < max
  {
    Chained(section, windows, max, overlap) && (windows != [] ==> Last(windows).end == |section|)
  }

  function Piece(section: string, w: Window): string
    requires w.start <= w.end <= |section|
  {
    Strip(section[w.start..w.end])
  }

  function Pieces(section: string, windows: seq<Window>): seq<string>
    requires forall i :: 0 <= i < |windows| ==> windows[i].start <= windows[i].end <= |section|
  {
    seq(|windows|, i requires 0 <= i < |windows| => Piece(section, windows[i]))
  }

  /** Where a window ends, as `CutWell` demands. */
  method ChooseEnd(section: string, start: nat, max: nat, overlap: nat) returns (end: nat)
    requires overlap < max && start < |section|
    ensures CutWell(section, Window(start, end), max, overlap)
  {
    end := if start + max < |section| then start + max else |section|;
    if end < |section| {
      var boundary := LastSpace(section, start + max - overlap, end);
      if boundary.Some? {
        end := boundary.value;
      }
    }
  }

  method SplitOversized(section: string, max: nat, overlap: nat) returns (kept: seq<string>, ghost windows: seq<Window>)
    requires overlap < max
    ensures Tiles(section, windows, max, overlap)
    ensures windows == [] <==> section == ""
    ensures windows != [] ==> windows[0].start == 0
    ensures kept == NonEmpty(Pieces(section, windows))
  {
    var parts: seq<string> := [];
    windows := [];
    var start := 0;
    while start < |section|
      invariant Chained(section, windows, max, overlap) && parts == Pieces(section, windows)
      invariant windows == [] ==> start == 0
      invariant windows != [] ==>
                start == NextStart(Last(windows), overlap) && Last(windows).end < |section| && windows[0].start == 0
      decreases |section| - start
    {
      var end := ChooseEnd(section, start, max, overlap);
      ghost var more := windows + [Window(start, end)];
      assert Chained(section, more, max, overlap);
      parts := parts + [Strip(section[start..end])];
      assert parts == Pieces(section, more);
      windows := more;
      if end >= |section| {
        break;
      }
      start := NextStart(Window(start, end), overlap);
    }
    kept := NonEmpty(parts);
  }

  /**
   Windows never leave a gap and always move forward; they share exactly `overlap` characters, or all
   but one of a window that is not longer than that.
   */
  lemma WindowsMeet(section: string, windows: seq<Window>, max: nat, overlap: nat, i: nat)
    requires overlap < max && Tiles(section, windows, max, overlap) && i + 1 < |windows|
    ensures windows[i].start < windows[i + 1].start <= windows[i].end <= windows[i + 1].start + overlap
    ensures var shared, length := windows[i].end - windows[i + 1].start, windows[i].end - windows[i].start;
            shared == if overlap < length then overlap else length - 1
  {
    assert windows[i + 1].start == NextStart(windows[i], overlap);
    assert CutWell(section, windows[i], max, overlap);
  }

  /** Slices add up: the ink of a slice from `a` to `c` is that up to `b` followed by the rest. */
  lemma InkOfSlice(s: string, a: nat, b: nat, c: nat)
    requires a <= b <= c <= |s|
    ensures Ink(s[a..c]) == Ink(s[a..b]) + Ink(s[b..c])
  {
    InkSplit(s[a..c], b - a);
    assert s[a..c][..b - a] == s[a..b] && s[a..c][b - a..] == s[b..c];
  }

  lemma NonEmptyCons(part: string, rest: seq<string>)
    ensures NonEmpty([part] + rest) == if part == "" then NonEmpty(rest) else [part] + NonEmpty(rest)
  {
  }

  /** How far the text is covered after one more window. */
  function Reach(w: Window, done: nat): nat { if w.end <= done then done else w.end }

  /** One window repeats at most `overlap` characters and adds exactly what lies between `done` and its end. */
  lemma WindowContributes(section: string, w: Window, done: nat, overlap: nat) returns (drop: nat)
    requires w.start <= w.end <= |section| && w.start <= done <= |section| && done <= w.start + overlap
    ensures drop <= |Ink(Piece(section, w))| && drop <= overlap
    ensures Ink(Piece(section, w))[drop..] == Ink(section[done..Reach(w, done)])
    ensures Piece(section, w) == "" <==> Ink(Piece(section, w)) == ""
  {
    StripFacts(section[w.start..w.end]);
    if w.end <= done {
      InkShorter(section[w.start..w.end]);
      drop := |Ink(section[w.start..w.end])|;
      assert section[done..done] == "";
    } else {
      InkOfSlice(section, w.start, done, w.end);
      InkShorter(section[w.start..done]);
      drop := |Ink(section[w.start..done])|;
    }
  }

  lemma InkFrom(section: string, done: nat, next: nat)
    requires done <= next <= |section|
    ensures Ink(section[done..]) == Ink(section[done..next]) + Ink(section[next..])
  {
    InkOfSlice(section, done, next, |section|);
    assert section[done..|section|] == section[done..] && section[next..|section|] == section[next..];
  }

  /** Putting one window's part in front of parts that cover the rest. */
  lemma PrependPart(part: string, drop: nat, parts: seq<string>, more: seq<nat>, overlap: nat, ink: string)
    returns (drops: seq<nat>)
    requires drop <= |Ink(part)| && drop <= overlap && Covers(parts, more, overlap, ink)
    requires part == "" <==> Ink(part) == ""
    ensures Covers(if part == "" then parts else [part] + parts, drops, overlap, Ink(part)[drop..] + ink)
  {
    if part == "" {
      drops := more;
      assert Ink(part)[drop..] + ink == ink;
    } else {
      CoversOne(part, drop, overlap);
      CoversAppend([part], [drop], parts, more, overlap, Ink(part)[drop..], ink);
      drops := [drop] + more;
    }
  }

  /** The windows carry on from `done`: nothing is skipped, and not more than `overlap` is repeated. */
  ghost predicate CarryOn(section: string, windows: seq<Window>, max: nat, overlap: nat, done: nat)
    requires overlap < max
  {
    && Tiles(section, windows, max, overlap) && done <= |section|
    && (if windows == [] then done == |section| else windows[0].start <= done <= windows[0].start + overlap)
  }

  lemma CarryOnTail(section: string, windows: seq<Window>, max: nat, overlap: nat, done: nat)
    requires overlap < max && CarryOn(section, windows, max, overlap, done) && windows != []
    ensures windows[0].start <= windows[0].end <= |section|
    ensures CarryOn(section, windows[1..], max, overlap, Reach(windows[0], done))
    ensures Pieces(section, windows) == [Piece(section, windows[0])] + Pieces(section, windows[1..])
  {
  }

  /** The windows from here on supply everything after `done`. */
  lemma {:induction false} WindowsCover(section: string, windows: seq<Window>, max: nat, overlap: nat, done: nat)
    returns (drops: seq<nat>)
    requires overlap < max && CarryOn(section, windows, max, overlap, done)
    ensures Covers(NonEmpty(Pieces(section, windows)), drops, overlap, Ink(section[done..]))
    decreases |windows|, 1
  {
    if windows == [] {
      drops := [];
      assert section[done..] == "";
      assert Pieces(section, windows) == [];
    } else {
      CarryOnTail(section, windows, max, overlap, done);
      drops := PrependWindow(section, windows, max, overlap, done);
    }
  }

  lemma {:induction false} PrependWindow(section: string, windows: seq<Window>, max: nat, overlap: nat, done: nat)
    returns (drops: seq<nat>)
    requires overlap < max && CarryOn(section, windows, max, overlap, done) && windows != []
    requires windows[0].start <= windows[0].end <= |section|
    requires CarryOn(section, windows[1..], max, overlap, Reach(windows[0], done))
    requires Pieces(section, windows) == [Piece(section, windows[0])] + Pieces(section, windows[1..])
    ensures Covers(NonEmpty(Pieces(section, windows)), drops, overlap, Ink(section[done..]))
    decreases |windows|, 0
  {
    var w, rest, next := windows[0], windows[1..], Reach(windows[0], done);
    var more := WindowsCover(section, rest, max, overlap, next);
    var drop := WindowContributes(section, w, done, overlap);
    drops := PrependPart(Piece(section, w), drop, NonEmpty(Pieces(section, rest)), more, overlap, Ink(section[next..]));
    NonEmptyCons(Piece(section, w), Pieces(section, rest));
    InkFrom(section, done, next);
  }

  // ----- Chunks

  /** `ordinal` numbers the chunk within its document; parts of an oversized section share a parent. */
  datatype Record = Record(ordinal: nat, content: string, parent: Option<nat>)

  ghost function Contents(records: seq<Record>): seq<string> {
    seq(|records|, i requires 0 <= i < |records| => records[i].content)
  }

  /**
   Numbered 0, 1, 2, ... and bounded; a parent is the ordinal of its first part, and all parts from
   there on share it.
   */
  ghost predicate WellFormed(records: seq<Record>, max: nat) {
    && (forall i :: 0 <= i < |records| ==> records[i].ordinal == i && 0 < |records[i].content| <= max)
    && (forall i :: 0 <= i < |records| && records[i].parent.Some? ==> records[i].parent.value <= i)
    && (forall i, j :: 0 <= i < j < |records| && j == i + 1 ==>
         records[j].parent.Some? && records[j].parent.value <= i ==> records[i].parent == records[j].parent)
  }

  /**
   How the chunks came about: the sections grouped and joined into blocks, where each block's chunks
   start, and the windows an oversized block was cut into.
   */
  datatype Layout = Layout(groups: seq<seq<string>>, packed: seq<string>, starts: seq<nat>, cuts: seq<seq<Window>>)

  /**
   A block that fits is one chunk, whole and without a parent. A longer one is tiled by windows;
   its chunks are the stripped windows that are not blank, linked to the first of them.
   */
  ghost predicate FromBlock(chunks: seq<Record>, block: string, start: nat, cut: seq<Window>, max: nat, overlap: nat)
    requires overlap < max
  {
    if |block| <= max then
      cut == [] && chunks == [Record(start, block, None)]
    else
      && Tiles(block, cut, max, overlap) && cut != [] && cut[0].start == 0
      && Contents(chunks) == NonEmpty(Pieces(block, cut))
      && forall i :: 0 <= i < |chunks| ==> chunks[i].parent == Some(start)
  }

  ghost predicate LaidOut(records: seq<Record>, packed: seq<string>, starts: seq<nat>, cuts: seq<seq<Window>>,
                          max: nat, overlap: nat)
    requires overlap < max
  {
    && |starts| == |packed| + 1 && |cuts| == |packed| && starts[0] == 0 && Last(starts) == |records|
    && (forall k :: 0 <= k < |starts| ==> starts[k] <= |records|)
    && (forall k, n :: 0 <= k < n < |starts| && n == k + 1 ==>
         starts[k] <= starts[n]
           && FromBlock(records[starts[k]..starts[n]], packed[k], starts[k], cuts[k], max, overlap))
  }

  lemma LayOutNext(before: seq<Record>, after: seq<Record>, packed: seq<string>, section: string,
                   starts: seq<nat>, cuts: seq<seq<Window>>, cut: seq<Window>, max: nat, overlap: nat)
    requires overlap < max && LaidOut(before, packed, starts, cuts, max, overlap) && before <= after
    requires FromBlock(after[|before|..], section, |before|, cut, max, overlap)
    ensures LaidOut(after, packed + [section], starts + [|after|], cuts + [cut], max, overlap)
  {
    var all, blocks, windows := starts + [|after|], packed + [section], cuts + [cut];
    forall k, n | 0 <= k < n < |all| && n == k + 1
      ensures all[k] <= all[n] && FromBlock(after[all[k]..all[n]], blocks[k], all[k], windows[k], max, overlap)
    {
      if n < |starts| {
        assert starts[k] <= starts[n];
        assert after[starts[k]..starts[n]] == before[starts[k]..starts[n]];
      } else {
        assert after[|before|..|after|] == after[|before|..];
      }
    }
  }

  /** Chunk a document. `headings` is where the heading pattern matches its cleaned text. */
  method Chunk(content: string, headings: seq<nat>, max: nat, overlap: nat)
    returns (records: seq<Record>, ghost drops: seq<nat>, ghost layout: Layout)
    requires overlap < max
    requires Increasing(headings, |CleanText(content)|)
    ensures WellFormed(records, max)
    ensures Covers(Contents(records), drops, overlap, Ink(content))
    ensures CleanText(content) == "" ==> records == []
    ensures CleanText(content) != "" ==>
              GreedyPacking(layout.groups, SplitSections(CleanText(content), headings), layout.packed, max)
              && LaidOut(records, layout.packed, layout.starts, layout.cuts, max, overlap)
  {
    records, drops, layout := [], [], Layout([], [], [0], []);
    CleanTextKeepsInk(content);
    var text := CleanText(content);
    if text == "" {
      return;
    }
    SectionsKeepInk(text, headings);
    records, drops, layout := ChunkSections(SplitSections(text, headings), max, overlap);
  }

  method ChunkSections(sections: seq<string>, max: nat, overlap: nat)
    returns (records: seq<Record>, ghost drops: seq<nat>, ghost layout: Layout)
    requires overlap < max
    ensures WellFormed(records, max)
    ensures Covers(Contents(records), drops, overlap, InkAll(sections))
    ensures GreedyPacking(layout.groups, sections, layout.packed, max)
    ensures LaidOut(records, layout.packed, layout.starts, layout.cuts, max, overlap)
  {
    var packed, groups := Pack(sections, max);
    ghost var starts, cuts;
    records, drops, starts, cuts := ChunkBlocks(packed, max, overlap);
    PackingKeepsInk(groups, packed);
    NonEmptyKeepsInk(Flatten(groups));
    NonEmptyKeepsInk(sections);
    layout := Layout(groups, packed, starts, cuts);
  }

  method ChunkBlocks(packed: seq<string>, max: nat, overlap: nat)
    returns (records: seq<Record>, ghost drops: seq<nat>, ghost starts: seq<nat>, ghost cuts: seq<seq<Window>>)
    requires overlap < max && AllNonEmpty(packed)
    ensures Chunked(records, drops, starts, cuts, packed, max, overlap)
  {
    records, drops, starts, cuts := [], [], [0], [];
    ChunkedNothing(max, overlap);
    assert packed[..0] == [];
    for k := 0 to |packed|
      invariant Chunked(records, drops, starts, cuts, packed[..k], max, overlap)
    {
      ghost var more, cut;
      ghost var before := records;
      records, more, cut := AddSection(records, packed[k], max, overlap);
      ChunkedNext(before, drops, starts, cuts, packed, k, records, more, cut, max, overlap);
      drops, starts, cuts := drops + more, starts + [|records|], cuts + [cut];
    }
    assert packed[..|packed|] == packed;
  }

  /** The chunks made so far are those of the joined blocks seen so far. */
  ghost predicate Chunked(records: seq<Record>, drops: seq<nat>, starts: seq<nat>, cuts: seq<seq<Window>>,
                          packed: seq<string>, max: nat, overlap: nat)
    requires overlap < max
  {
    && WellFormed(records, max)
    && LaidOut(records, packed, starts, cuts, max, overlap)
    && Covers(Contents(records), drops, overlap, InkAll(packed))
  }

  lemma ChunkedNothing(max: nat, overlap: nat)
    requires overlap < max
    ensures Chunked([], [], [0], [], [], max, overlap)
  {
  }

  lemma ChunkedNext(before: seq<Record>, drops: seq<nat>, starts: seq<nat>, cuts: seq<seq<Window>>, packed: seq<string>,
                    k: nat, after: seq<Record>, more: seq<nat>, cut: seq<Window>, max: nat, overlap: nat)
    requires overlap < max && k < |packed| && Chunked(before, drops, starts, cuts, packed[..k], max, overlap)
    requires WellFormed(after, max) && before <= after
    requires Covers(Contents(after)[|before|..], more, overlap, Ink(packed[k]))
    requires FromBlock(after[|before|..], packed[k], |before|, cut, max, overlap)
    ensures Chunked(after, drops + more, starts + [|after|], cuts + [cut], packed[..k + 1], max, overlap)
  {
    LayOutNext(before, after, packed[..k], packed[k], starts, cuts, cut, max, overlap);
    CoversNext(before, drops, packed[..k], after, more, packed[k], overlap);
    assert packed[..k] + [packed[k]] == packed[..k + 1];
  }

  lemma CoversNext(before: seq<Record>, drops: seq<nat>, packed: seq<string>, after: seq<Record>, more: seq<nat>,
                   section: string, overlap: nat)
    requires before <= after
    requires Covers(Contents(before), drops, overlap, InkAll(packed))
    requires Covers(Contents(after)[|before|..], more, overlap, Ink(section))
    ensures Covers(Contents(after), drops + more, overlap, InkAll(packed + [section]))
  {
    ContentsSplit(before, after);
    InkAllSnoc(packed, section);
    CoversAppend(Contents(before), drops, Contents(after)[|before|..], more, overlap, InkAll(packed), Ink(section));
  }

  lemma ContentsSplit(before: seq<Record>, after: seq<Record>)
    requires before <= after
    ensures Contents(after) == Contents(before) + Contents(after)[|before|..]
  {
  }

  lemma InkAllSnoc(parts: seq<string>, last: string)
    ensures InkAll(parts + [last]) == InkAll(parts) + Ink(last)
  {
    InkAllAppend(parts, [last]);
    InkAllOne(last);
  }

  lemma ContentsSuffix(before: seq<Record>, after: seq<Record>, parts: seq<string>)
    requires before <= after && Contents(after) == Contents(before) + parts
    ensures Contents(after)[|before|..] == parts && Contents(after[|before|..]) == parts
  {
    assert Contents(after[|before|..]) == Contents(after)[|before|..];
  }

  /** One packed section becomes one chunk, or several parts when it is too long. */
  method AddSection(records: seq<Record>, section: string, max: nat, overlap: nat)
    returns (extended: seq<Record>, ghost drops: seq<nat>, ghost cut: seq<Window>)
    requires overlap < max && WellFormed(records, max) && section != ""
    ensures WellFormed(extended, max) && records <= extended
    ensures Covers(Contents(extended)[|records|..], drops, overlap, Ink(section))
    ensures FromBlock(extended[|records|..], section, |records|, cut, max, overlap)
  {
    if |section| <= max {
      extended, drops, cut := records + [Record(|records|, section, None)], [0], [];
      assert Contents(extended) == Contents(records) + [section];
      ContentsSuffix(records, extended, [section]);
      CoversOne(section, 0, overlap);
      assert Ink(section)[0..] == Ink(section);
    } else {
      var parts, windows := SplitOversized(section, max, overlap);
      cut := windows;
      drops := WindowsCover(section, windows, max, overlap, 0);
      assert section[0..] == section;
      PiecesBounded(section, windows, max, overlap);
      extended := AddParts(records, parts, max);
      ContentsSuffix(records, extended, parts);
    }
  }

  lemma PiecesBounded(section: string, windows: seq<Window>, max: nat, overlap: nat)
    requires overlap < max && Tiles(section, windows, max, overlap)
    ensures forall i :: 0 <= i < |NonEmpty(Pieces(section, windows))| ==>
            0 < |NonEmpty(Pieces(section, windows))[i]| <= max
  {
    var pieces := Pieces(section, windows);
    forall i | 0 <= i < |NonEmpty(pieces)| ensures 0 < |NonEmpty(pieces)[i]| <= max {
      assert NonEmpty(pieces)[i] in pieces;
      var j :| 0 <= j < |pieces| && pieces[j] == NonEmpty(pieces)[i];
      StripFacts(section[windows[j].start..windows[j].end]);
      assert CutWell(section, windows[j], max, overlap);
    }
  }

  /** Append the parts of one oversized section, all linked to the same new parent. */
  method AddParts(records: seq<Record>, parts: seq<string>, ghost max: nat) returns (extended: seq<Record>)
    requires WellFormed(records, max)
    requires forall i :: 0 <= i < |parts| ==> 0 < |parts[i]| <= max
    ensures WellFormed(extended, max) && Contents(extended) == Contents(records) + parts
    ensures records <= extended
    ensures forall i :: |records| <= i < |extended| ==> extended[i].parent == Some(|records|)
  {
    extended := records;
    for p := 0 to |parts|
      invariant |extended| == |records| + p && records <= extended && WellFormed(extended, max)
      invariant forall i :: |records| <= i < |extended| ==> extended[i].parent == Some(|records|)
      invariant Contents(extended) == Contents(records) + parts[..p]
    {
      ghost var before := extended;
      extended := extended + [Record(|extended|, parts[p], Some(|records|))];
      assert Contents(extended) == Contents(before) + [parts[p]];
      assert parts[..p + 1] == parts[..p] + [parts[p]];
    }
    assert parts[..|parts|] == parts;
  }
}
