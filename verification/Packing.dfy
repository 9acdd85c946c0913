/** Joining small sections into blocks: greedy, bounded, and nothing lost. */
module Packing {
  import opened Common
  import opened MaximalRuns
  import opened Chunking
  import opened TextShape

  /** Sections joined by blank lines. */
  function Joined(group: seq<string>): string
    requires group != []
  {
    if |group| == 1 then group[0] else Joined(group[..|group| - 1]) + "\n\n" + Last(group)
  }

  ghost predicate AllNonEmpty(parts: seq<string>) { forall i :: 0 <= i < |parts| ==> parts[i] != "" }

  /** The groups hold the sections in order; only blank sections may be missing, and none is if none is blank. */
  ghost predicate Holds(groups: seq<seq<string>>, sections: seq<string>) {
    && NonEmpty(Flatten(groups)) == NonEmpty(sections)
    && (AllNonEmpty(sections) ==> Flatten(groups) == sections)
  }

  /**
   Each block joins its group and fits the bound, and none could have taken the next group's first
   section as well.
   */
  ghost predicate Fit(groups: seq<seq<string>>, packed: seq<string>, max: nat) {
    && |groups| == |packed|
    && (forall i :: 0 <= i < |groups| ==> groups[i] != [] && groups[i][0] != "" && packed[i] == Joined(groups[i]))
    && (forall i :: 0 <= i < |groups| && |groups[i]| > 1 ==> |packed[i]| <= max)
    && (forall i, j :: 0 <= i < j < |groups| && j == i + 1 ==> |packed[i]| + |groups[j][0]| + 2 > max)
  }

  /** `packed` joins consecutive sections greedily. */
  ghost predicate GreedyPacking(groups: seq<seq<string>>, sections: seq<string>, packed: seq<string>, max: nat) {
    Holds(groups, sections) && Fit(groups, packed, max)
  }

  lemma {:induction false} NonEmptySnoc(parts: seq<string>, part: string)
    ensures NonEmpty(parts + [part]) == NonEmpty(parts) + if part == "" then [] else [part]
  {
    if parts == [] {
      assert parts + [part] == [part] && [part][1..] == [];
      assert NonEmpty([part][1..]) == [];
    } else {
      var first, last := if parts[0] == "" then [] else [parts[0]], if part == "" then [] else [part];
      calc {
        NonEmpty(parts + [part]);
        { assert (parts + [part])[1..] == parts[1..] + [part]; }
        first + NonEmpty(parts[1..] + [part]);
        { NonEmptySnoc(parts[1..], part); }
        first + (NonEmpty(parts[1..]) + last);
        first + NonEmpty(parts[1..]) + last;
        NonEmpty(parts) + last;
      }
    }
  }

  lemma HoldsNext(groups: seq<seq<string>>, more: seq<seq<string>>, sections: seq<string>, section: string)
    requires Holds(groups, sections) && Flatten(more) == Flatten(groups) + [section]
    ensures Holds(more, sections + [section])
  {
    NonEmptySnoc(Flatten(groups), section);
    NonEmptySnoc(sections, section);
    if AllNonEmpty(sections + [section]) {
      assert forall i :: 0 <= i < |sections| ==> (sections + [section])[i] == sections[i];
    }
  }

  lemma FitExtends(groups: seq<seq<string>>, current: seq<string>, packed: seq<string>, section: string, max: nat)
    requires current != [] && Fit(groups + [current], packed + [Joined(current)], max)
    requires |Joined(current)| + |section| + 2 <= max
    ensures Fit(groups + [current + [section]], packed + [Joined(current) + "\n\n" + section], max)
  {
    assert (current + [section])[..|current|] == current;
    var before, after := groups + [current], groups + [current + [section]];
    var was, now := packed + [Joined(current)], packed + [Joined(current) + "\n\n" + section];
    assert before[|groups|] == current && was[|groups|] == Joined(current);
    assert forall i :: 0 <= i < |groups| ==> after[i] == before[i] && now[i] == was[i];
    assert forall i :: 0 <= i < |after| ==> after[i] != [] && after[i][0] == before[i][0];
  }

  lemma PackExtends(groups: seq<seq<string>>, current: seq<string>, sections: seq<string>, packed: seq<string>,
                    section: string, max: nat)
    requires current != [] && GreedyPacking(groups + [current], sections, packed + [Joined(current)], max)
    requires |Joined(current)| + |section| + 2 <= max
    ensures GreedyPacking(groups + [current + [section]], sections + [section],
                          packed + [Joined(current) + "\n\n" + section], max)
  {
    FlattenSnoc(groups, current);
    FlattenSnoc(groups, current + [section]);
    HoldsNext(groups + [current], groups + [current + [section]], sections, section);
    FitExtends(groups, current, packed, section, max);
  }

  lemma FitOpens(groups: seq<seq<string>>, packed: seq<string>, section: string, max: nat)
    requires Fit(groups, packed, max) && section != ""
    requires packed != [] ==> |Last(packed)| + |section| + 2 > max
    ensures Fit(groups + [[section]], packed + [section], max)
  {
    var after, now := groups + [[section]], packed + [section];
    assert after[|groups|] == [section] && now[|groups|] == section;
    assert forall i :: 0 <= i < |groups| ==> after[i] == groups[i] && now[i] == packed[i];
  }

  lemma PackOpens(groups: seq<seq<string>>, sections: seq<string>, packed: seq<string>, section: string, max: nat)
    requires GreedyPacking(groups, sections, packed, max) && section != ""
    requires packed != [] ==> |Last(packed)| + |section| + 2 > max
    ensures GreedyPacking(groups + [[section]], sections + [section], packed + [section], max)
  {
    FlattenSnoc(groups, [section]);
    HoldsNext(groups, groups + [[section]], sections, section);
    FitOpens(groups, packed, section, max);
  }

  lemma PackSkips(groups: seq<seq<string>>, sections: seq<string>, packed: seq<string>, max: nat)
    requires GreedyPacking(groups, sections, packed, max)
    ensures GreedyPacking(groups, sections + [""], packed, max)
  {
    NonEmptySnoc(sections, "");
    assert (sections + [""])[|sections|] == "";
  }

  /** Between two sections: the blocks so far, and the one being filled if there is one. */
  ghost predicate Filling(done: seq<seq<string>>, current: seq<string>, packed: seq<string>, buffer: string,
                          sections: seq<string>, max: nat) {
    && AllNonEmpty(packed)
    && if buffer == "" then
         GreedyPacking(done, sections, packed, max) && (packed != [] ==> |Last(packed)| + 2 > max)
       else
         current != [] && buffer == Joined(current) && GreedyPacking(done + [current], sections, packed + [buffer], max)
  }

  method Pack(sections: seq<string>, max: nat) returns (packed: seq<string>, ghost groups: seq<seq<string>>)
    ensures GreedyPacking(groups, sections, packed, max) && AllNonEmpty(packed)
  {
    packed := [];
    var buffer := "";
    ghost var done: seq<seq<string>>, current: seq<string> := [], [];
    for i := 0 to |sections|
      invariant Filling(done, current, packed, buffer, sections[..i], max)
    {
      var section := sections[i];
      assert sections[..i + 1] == sections[..i] + [section];
      if buffer == "" {
        if section == "" {
          PackSkips(done, sections[..i], packed, max);
        } else {
          PackOpens(done, sections[..i], packed, section, max);
        }
        buffer, current := section, [section];
      } else if |buffer| + |section| + 2 <= max {
        PackExtends(done, current, sections[..i], packed, section, max);
        assert (current + [section])[..|current|] == current;
        buffer, current := buffer + "\n\n" + section, current + [section];
      } else {
        if section == "" {
          PackSkips(done + [current], sections[..i], packed + [buffer], max);
        } else {
          PackOpens(done + [current], sections[..i], packed + [buffer], section, max);
        }
        packed, done := packed + [buffer], done + [current];
        buffer, current := section, [section];
      }
    }
    assert sections[..|sections|] == sections;
    groups := done;
    if buffer != "" {
      packed := packed + [buffer];
      groups := done + [current];
    }
  }

  lemma {:induction false} InkAllAppend(a: seq<string>, b: seq<string>)
    ensures InkAll(a + b) == InkAll(a) + InkAll(b)
  {
    if a == [] {
      assert a + b == b;
    } else {
      calc {
        InkAll(a + b);
        { assert (a + b)[1..] == a[1..] + b; }
        Ink(a[0]) + InkAll(a[1..] + b);
        { InkAllAppend(a[1..], b); }
        Ink(a[0]) + (InkAll(a[1..]) + InkAll(b));
        Ink(a[0]) + InkAll(a[1..]) + InkAll(b);
        InkAll(a) + InkAll(b);
      }
    }
  }

  lemma InkAllOne(s: string)
    ensures InkAll([s]) == Ink(s)
  {
  }

  lemma JoinAddsNoInk(a: string, b: string)
    ensures Ink(a + "\n\n" + b) == Ink(a) + Ink(b)
  {
    assert a + "\n\n" + b == a + ("\n\n" + b);
    InkAppend(a, "\n\n" + b);
    NewlinesHaveNoInk(b);
  }

  lemma {:induction false} JoinedKeepsInk(group: seq<string>)
    requires group != []
    ensures Ink(Joined(group)) == InkAll(group)
  {
    if |group| == 1 {
      InkAllOne(group[0]);
      assert group == [group[0]];
    } else {
      var front := group[..|group| - 1];
      calc {
        Ink(Joined(group));
        { JoinAddsNoInk(Joined(front), Last(group)); }
        Ink(Joined(front)) + Ink(Last(group));
        { JoinedKeepsInk(front); InkAllOne(Last(group)); }
        InkAll(front) + InkAll([Last(group)]);
        { InkAllAppend(front, [Last(group)]); assert group == front + [Last(group)]; }
        InkAll(group);
      }
    }
  }

  lemma {:induction false} PackingKeepsInk(groups: seq<seq<string>>, packed: seq<string>)
    requires |groups| == |packed|
    requires forall i :: 0 <= i < |groups| ==> groups[i] != [] && packed[i] == Joined(groups[i])
    ensures InkAll(packed) == InkAll(Flatten(groups))
  {
    if groups != [] {
      PackingKeepsInk(groups[1..], packed[1..]);
      JoinedKeepsInk(groups[0]);
      InkAllAppend(groups[0], Flatten(groups[1..]));
    }
  }

  lemma {:induction false} JoinBlocksSnoc(blocks: seq<string>, last: string)
    requires blocks != []
    ensures JoinBlocks(blocks + [last]) == JoinBlocks(blocks) + "\n\n" + last
  {
    if |blocks| == 1 {
      assert (blocks + [last])[1..] == [last];
    } else {
      JoinBlocksSnoc(blocks[1..], last);
      assert (blocks + [last])[1..] == blocks[1..] + [last];
      var a, b := blocks[0] + "\n\n", JoinBlocks(blocks[1..]);
      assert a + (b + "\n\n" + last) == a + b + "\n\n" + last;
    }
  }

  /** A block is its sections with one blank line between each two: what splitting at blank lines undoes. */
  lemma {:induction false} JoinedByBlankLines(group: seq<string>)
    requires group != []
    ensures Joined(group) == JoinBlocks(group)
  {
    if |group| > 1 {
      JoinedByBlankLines(group[..|group| - 1]);
      JoinBlocksSnoc(group[..|group| - 1], Last(group));
      assert group == group[..|group| - 1] + [Last(group)];
    }
  }
}
