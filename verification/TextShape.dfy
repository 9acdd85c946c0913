/** What cleaning and splitting keep of a text beyond its characters: words, lines, headings and blank lines. */
module TextShape {
  import opened Common
  import opened MaximalRuns
  import opened Chunking

  // ----- Words

  /** Before the first word, inside a word, or behind one. */
  datatype Place = Before | Inside | Behind

  function Skip(p: Place): Place { if p == Before then Before else Behind }

  /** The words of a text with one space between each two, read from a place. */
  function Wording(s: string, p: Place): string {
    if s == "" then ""
    else if IsSpace(s[0]) then Wording(s[1..], Skip(p))
    else (if p == Behind then " " else "") + [s[0]] + Wording(s[1..], Inside)
  }

  function Words(s: string): string { Wording(s, Before) }

  lemma {:induction false} ReplaceCrLfKeepsWords(s: string, p: Place)
    ensures Wording(ReplaceCrLf(s), p) == Wording(s, p)
    decreases |s|
  {
    if |s| >= 2 && s[0] == '\r' && s[1] == '\n' {
      ReplaceCrLfKeepsWords(s[2..], Skip(p));
      assert s[1..][1..] == s[2..];
    } else if s != "" {
      ReplaceCrLfKeepsWords(s[1..], if IsSpace(s[0]) then Skip(p) else Inside);
    }
  }

  lemma {:induction false} ReplaceCrKeepsWords(s: string, p: Place)
    ensures Wording(ReplaceCr(s), p) == Wording(s, p)
    decreases |s|
  {
    if s != "" {
      ReplaceCrKeepsWords(s[1..], if IsSpace(s[0]) then Skip(p) else Inside);
    }
  }

  lemma {:induction false} CollapseBlanksKeepsWords(s: string, p: Place)
    ensures Wording(CollapseBlanks(s), p) == Wording(s, p)
    decreases |s|
  {
    if s != "" {
      if IsBlank(s[0]) && |s| > 1 && IsBlank(s[1]) {
        CollapseBlanksKeepsWords(s[1..], p);
      } else {
        CollapseBlanksKeepsWords(s[1..], if IsSpace(s[0]) then Skip(p) else Inside);
      }
    }
  }

  lemma {:induction false} CollapseNewlinesKeepsWords(s: string, p: Place)
    ensures Wording(CollapseNewlines(s), p) == Wording(s, p)
    decreases |s|
  {
    if s != "" {
      if |s| > 2 && s[0] == '\n' && s[1] == '\n' && s[2] == '\n' {
        CollapseNewlinesKeepsWords(s[1..], p);
      } else {
        CollapseNewlinesKeepsWords(s[1..], if IsSpace(s[0]) then Skip(p) else Inside);
      }
    }
  }

  lemma {:induction false} TrimLinesKeepsWords(s: string, p: Place)
    ensures Wording(TrimLines(s), p) == Wording(s, p)
    decreases |s|
  {
    if s != "" {
      TrimLinesKeepsWords(s[1..], if IsSpace(s[0]) then Skip(p) else Inside);
    }
  }

  lemma {:induction false} TrailingSpaceIsNoWord(s: string, c: char, p: Place)
    requires IsSpace(c)
    ensures Wording(s + [c], p) == Wording(s, p)
    decreases |s|
  {
    if s == "" {
      assert s + [c] == [c] + "";
    } else {
      TrailingSpaceIsNoWord(s[1..], c, if IsSpace(s[0]) then Skip(p) else Inside);
      assert (s + [c])[1..] == s[1..] + [c];
    }
  }

  lemma {:induction false} StripRightKeepsWords(s: string, p: Place)
    ensures Wording(StripRight(s), p) == Wording(s, p)
  {
    if s != "" && IsSpace(Last(s)) {
      StripRightKeepsWords(s[..|s| - 1], p);
      TrailingSpaceIsNoWord(s[..|s| - 1], Last(s), p);
      assert s == s[..|s| - 1] + [Last(s)];
    }
  }

  lemma {:induction false} StripLeftKeepsWords(s: string)
    ensures Words(StripLeft(s)) == Words(s)
  {
    if s != "" && IsSpace(s[0]) {
      StripLeftKeepsWords(s[1..]);
    }
  }

  /** Cleaning keeps the words and what separates them: none is joined to its neighbour, split or lost. */
  lemma CleanTextKeepsWords(s: string)
    ensures Words(CleanText(s)) == Words(s)
  {
    var a := ReplaceCrLf(s);
    var b := ReplaceCr(a);
    var c := CollapseBlanks(b);
    var d := CollapseNewlines(c);
    var e := TrimLines(d);
    ReplaceCrLfKeepsWords(s, Before);
    ReplaceCrKeepsWords(a, Before);
    CollapseBlanksKeepsWords(b, Before);
    CollapseNewlinesKeepsWords(c, Before);
    TrimLinesKeepsWords(d, Before);
    StripLeftKeepsWords(e);
    StripRightKeepsWords(StripLeft(e), Before);
  }

  // ----- Line endings

  /** The text with every line end written as `ending`. */
  function WithLineEnds(s: string, ending: string): string {
    if s == "" then "" else (if s[0] == '\n' then ending else [s[0]]) + WithLineEnds(s[1..], ending)
  }

  lemma {:induction false} CrLfReadsAsNewline(s: string)
    requires '\r' !in s
    ensures ReplaceCrLf(WithLineEnds(s, "\r\n")) == s && ReplaceCr(s) == s && ReplaceCrLf(s) == s
  {
    if s != "" {
      var rest := s[1..];
      assert s == [s[0]] + rest;
      CrLfReadsAsNewline(rest);
      var t := WithLineEnds(rest, "\r\n");
      if s[0] == '\n' {
        assert ("\r\n" + t)[2..] == t;
      } else {
        assert ([s[0]] + t)[1..] == t;
        assert s[0] in s;
      }
      assert s[0] != '\r' by { assert s[0] in s; }
    }
  }

  lemma {:induction false} CrReadsAsNewline(s: string)
    requires '\r' !in s
    ensures ReplaceCr(ReplaceCrLf(WithLineEnds(s, "\r"))) == s
    ensures ReplaceCrLf(WithLineEnds(s, "\r")) == WithLineEnds(s, "\r")
    ensures '\n' !in WithLineEnds(s, "\r")
  {
    if s != "" {
      var rest := s[1..];
      assert s == [s[0]] + rest;
      CrReadsAsNewline(rest);
      var t := WithLineEnds(rest, "\r");
      var c := if s[0] == '\n' then '\r' else s[0];
      assert WithLineEnds(s, "\r") == [c] + t && ([c] + t)[1..] == t;
      assert t != "" ==> t[0] in t;
      assert s[0] in s;
    }
  }

  /** How the lines of a document end makes no difference to what it is cleaned to. */
  lemma LineEndingsDoNotMatter(s: string)
    requires '\r' !in s
    ensures CleanText(WithLineEnds(s, "\r\n")) == CleanText(s) && CleanText(WithLineEnds(s, "\r")) == CleanText(s)
  {
    CrLfReadsAsNewline(s);
    CrReadsAsNewline(s);
  }

  // ----- Stripping

  ghost predicate AllSpace(s: string) { forall i :: 0 <= i < |s| ==> IsSpace(s[i]) }

  lemma {:induction false} StripLeftExact(s: string) returns (a: nat)
    ensures a <= |s| && StripLeft(s) == s[a..] && AllSpace(s[..a]) && (a < |s| ==> !IsSpace(s[a]))
  {
    a := 0;
    if s != "" && IsSpace(s[0]) {
      var rest := StripLeftExact(s[1..]);
      a := rest + 1;
      assert s[..a] == [s[0]] + s[1..][..rest];
    }
  }

  lemma {:induction false} StripRightExact(s: string) returns (b: nat)
    ensures b <= |s| && StripRight(s) == s[..b] && AllSpace(s[b..]) && (b > 0 ==> !IsSpace(s[b - 1]))
  {
    b := |s|;
    if s != "" && IsSpace(Last(s)) {
      b := StripRightExact(s[..|s| - 1]);
      assert s[b..] == s[..|s| - 1][b..] + [Last(s)];
    }
  }

  /** Stripping takes away the whitespace at both ends, all of it and nothing else. */
  lemma StripExact(s: string) returns (a: nat, b: nat)
    ensures a <= b <= |s| && Strip(s) == s[a..b] && AllSpace(s[..a]) && AllSpace(s[b..])
    ensures a < b ==> !IsSpace(s[a]) && !IsSpace(s[b - 1])
  {
    a := StripLeftExact(s);
    var n := StripRightExact(s[a..]);
    b := a + n;
    assert s[a..][n..] == s[b..];
  }

  // ----- Tidy text

  predicate Plain(c: char) { c != '\t' && c != '\r' }

  /** No tabs, no carriage returns, no two spaces in a row. */
  ghost predicate Squeezed(s: string) {
    && (forall i :: 0 <= i < |s| ==> Plain(s[i]))
    && (forall i, j :: 0 <= i < j < |s| && j == i + 1 ==> !(s[i] == ' ' && s[j] == ' '))
  }

  /** No line ends in whitespace. */
  ghost predicate LinesEndClean(s: string) {
    && (forall i, j :: 0 <= i < j < |s| && j == i + 1 && s[j] == '\n' ==> s[i] == '\n' || !IsSpace(s[i]))
    && (s != "" ==> Last(s) == '\n' || !IsSpace(Last(s)))
  }

  ghost predicate NoTripleNewline(s: string) {
    forall i, j, k :: 0 <= i < j < k < |s| && j == i + 1 && k == j + 1 ==>
      !(s[i] == '\n' && s[j] == '\n' && s[k] == '\n')
  }

  ghost predicate Tidy(s: string) {
    && Squeezed(s) && LinesEndClean(s)
    && (s != "" ==> !IsSpace(s[0]) && !IsSpace(Last(s)))
  }

  lemma {:induction false} ReplaceCrExact(s: string)
    ensures forall i :: 0 <= i < |ReplaceCr(s)| ==> ReplaceCr(s)[i] != '\r'
  {
    if s != "" {
      ReplaceCrExact(s[1..]);
    }
  }

  lemma {:induction false} CollapseBlanksTidies(s: string)
    requires forall i :: 0 <= i < |s| ==> s[i] != '\r'
    ensures Squeezed(CollapseBlanks(s)) && (s == "" <==> CollapseBlanks(s) == "")
    ensures s != "" ==> CollapseBlanks(s)[0] == if IsBlank(s[0]) then ' ' else s[0]
  {
    if s != "" {
      assert forall i :: 0 <= i < |s| - 1 ==> s[1..][i] == s[i + 1];
      CollapseBlanksTidies(s[1..]);
    }
  }

  lemma {:induction false} CollapseNewlinesStaysSqueezed(s: string)
    requires Squeezed(s)
    ensures Squeezed(CollapseNewlines(s)) && (s == "" <==> CollapseNewlines(s) == "")
    ensures s != "" ==> CollapseNewlines(s)[0] == s[0]
  {
    if s != "" {
      assert forall i :: 0 <= i < |s| - 1 ==> s[1..][i] == s[i + 1];
      CollapseNewlinesStaysSqueezed(s[1..]);
    }
  }

  lemma {:induction false} TrimLinesTidies(s: string)
    requires Squeezed(s)
    ensures Squeezed(TrimLines(s)) && LinesEndClean(TrimLines(s))
    ensures TrimLines(s) == "" || TrimLines(s)[0] == '\n' || (s != "" && TrimLines(s)[0] == s[0])
  {
    if s != "" {
      assert forall i :: 0 <= i < |s| - 1 ==> s[1..][i] == s[i + 1];
      TrimLinesTidies(s[1..]);
    }
  }

  /** Cleaned text is tidy: single spaces only, no whitespace at line ends or around the text. */
  lemma CleanTextIsTidy(s: string)
    ensures Tidy(CleanText(s))
  {
    var b := ReplaceCr(ReplaceCrLf(s));
    ReplaceCrExact(ReplaceCrLf(s));
    CollapseBlanksTidies(b);
    CollapseNewlinesStaysSqueezed(CollapseBlanks(b));
    var d := CollapseNewlines(CollapseBlanks(b));
    TrimLinesTidies(d);
    var e := TrimLines(d);
    var x, y := StripExact(e);
    assert forall i :: 0 <= i < y - x ==> e[x..y][i] == e[x + i];
  }

  lemma {:induction false} ReturnPassesLeaveSqueezed(s: string)
    requires Squeezed(s)
    ensures ReplaceCrLf(s) == s && ReplaceCr(s) == s
  {
    if s != "" {
      ReturnPassesLeaveSqueezed(s[1..]);
    }
  }

  lemma {:induction false} BlankPassLeavesSqueezed(s: string)
    requires Squeezed(s)
    ensures CollapseBlanks(s) == s
  {
    if s != "" {
      BlankPassLeavesSqueezed(s[1..]);
      assert !(|s| > 1 && IsBlank(s[0]) && IsBlank(s[1]));
    }
  }

  lemma {:induction false} NewlinePassLeavesFew(s: string)
    requires NoTripleNewline(s)
    ensures CollapseNewlines(s) == s
  {
    if s != "" {
      NewlinePassLeavesFew(s[1..]);
    }
  }

  lemma {:induction false} LinePassLeavesClean(s: string)
    requires LinesEndClean(s)
    ensures TrimLines(s) == s
  {
    if s != "" {
      LinePassLeavesClean(s[1..]);
    }
  }

  /** Tidy text without excess blank lines is left alone: single blank lines, line breaks and words stay. */
  lemma CleanTextLeavesTidy(s: string)
    requires Tidy(s) && NoTripleNewline(s)
    ensures CleanText(s) == s
  {
    ReturnPassesLeaveSqueezed(s);
    BlankPassLeavesSqueezed(s);
    NewlinePassLeavesFew(s);
    LinePassLeavesClean(s);
    if s != "" {
      assert StripLeft(s) == s && StripRight(s) == s;
    }
  }

  lemma {:induction false} CollapseNewlinesFirst(s: string)
    requires s != ""
    ensures CollapseNewlines(s) != "" && CollapseNewlines(s)[0] == s[0]
  {
    if |s| > 1 {
      CollapseNewlinesFirst(s[1..]);
    }
  }

  /** Behind its first character, a text that starts with no three newlines goes on as before. */
  lemma CollapseNewlinesSecond(s: string)
    requires s != "" && !(|s| > 2 && s[0] == '\n' && s[1] == '\n' && s[2] == '\n')
    ensures CollapseNewlines(s) == [s[0]] + CollapseNewlines(s[1..])
    ensures |s| > 1 ==> |CollapseNewlines(s)| > 1 && CollapseNewlines(s)[1] == s[1]
    ensures |s| == 1 ==> |CollapseNewlines(s)| == 1
  {
    if |s| > 1 {
      CollapseNewlinesFirst(s[1..]);
    }
  }

  /** No three newlines in a row are left. */
  lemma {:induction false} CollapseNewlinesExact(s: string)
    ensures NoTripleNewline(CollapseNewlines(s))
  {
    if s != "" {
      var rest := s[1..];
      CollapseNewlinesExact(rest);
      if !(|s| > 2 && s[0] == '\n' && s[1] == '\n' && s[2] == '\n') {
        CollapseNewlinesSecond(s);
        if rest != "" && !(|rest| > 2 && rest[0] == '\n' && rest[1] == '\n' && rest[2] == '\n') {
          CollapseNewlinesSecond(rest);
        }
      }
    }
  }

  // ----- Sections

  /** Where a section comes from: the text between two neighbouring boundaries. */
  ghost predicate BetweenHeadings(section: string, text: string, headings: seq<nat>, a: nat, b: nat) {
    && a < b <= |text| && section == Strip(text[a..b])
    && (a == 0 || a in headings) && (b == |text| || b in headings)
    && forall h :: h in headings ==> !(a < h < b)
  }

  lemma {:induction false} SliceAt(text: string, boundaries: seq<nat>, i: nat)
    requires Increasing(boundaries, |text|) && i < |boundaries|
    ensures |Slices(text, boundaries)| == |boundaries|
    ensures Slices(text, boundaries)[i] == text[boundaries[i]..if i + 1 < |boundaries|
            then boundaries[i + 1] else |text|]
  {
    if |boundaries| > 1 {
      SliceAt(text, boundaries[1..], if i > 0 then i - 1 else 0);
    }
  }

  lemma NothingBetween(boundaries: seq<nat>, limit: nat, i: nat, h: nat)
    requires Increasing(boundaries, limit) && i < |boundaries| && h in boundaries
    ensures !(boundaries[i] < h < if i + 1 < |boundaries| then boundaries[i + 1] else limit)
  {
    var k :| 0 <= k < |boundaries| && boundaries[k] == h;
    if k > i + 1 {
      assert boundaries[i + 1] < boundaries[k];
    }
  }

  /** The boundaries are the headings, and the start of the text. */
  function Boundaries(headings: seq<nat>): seq<nat>
    requires headings != []
  {
    if headings[0] > 0 then [0] + headings else headings
  }

  lemma SliceIsBetween(text: string, headings: seq<nat>, i: nat) returns (a: nat, b: nat)
    requires Increasing(headings, |text|) && headings != [] && i < |Boundaries(headings)|
    ensures Increasing(Boundaries(headings), |text|) && i < |Slices(text, Boundaries(headings))|
    ensures BetweenHeadings(Strip(Slices(text, Boundaries(headings))[i]), text, headings, a, b)
  {
    var boundaries := Boundaries(headings);
    SliceAt(text, boundaries, i);
    a, b := boundaries[i], if i + 1 < |boundaries| then boundaries[i + 1] else |text|;
    forall h | h in headings ensures !(a < h < b) {
      assert h in boundaries;
      NothingBetween(boundaries, |text|, i, h);
    }
  }

  /** With headings, every section is what lies between two neighbouring ones: no heading is inside a section. */
  lemma SectionsAreBetweenHeadings(text: string, headings: seq<nat>, section: string) returns (a: nat, b: nat)
    requires Increasing(headings, |text|) && headings != [] && section in SplitSections(text, headings)
    ensures BetweenHeadings(section, text, headings, a, b)
  {
    assert Increasing(Boundaries(headings), |text|);
    var raw := Slices(text, Boundaries(headings));
    SliceAt(text, Boundaries(headings), 0);
    assert section in StripAll(raw);
    var i :| 0 <= i < |raw| && StripAll(raw)[i] == section;
    a, b := SliceIsBetween(text, headings, i);
  }

  ghost predicate NoBlankLine(s: string) {
    forall i, j :: 0 <= i < j < |s| && j == i + 1 ==> !(s[i] == '\n' && s[j] == '\n')
  }

  function JoinBlocks(blocks: seq<string>): string {
    if blocks == [] then "" else if |blocks| == 1 then blocks[0] else blocks[0] + "\n\n" + JoinBlocks(blocks[1..])
  }

  /** Without headings, blocks contain no blank line, and joined by blank lines they are the text again. */
  lemma {:induction false} BlocksExact(text: string, from: nat)
    requires from <= |text| && NoBlankLine(if from + 1 <= |text| then text[..from + 1] else text)
    ensures SplitBlocks(text, from) != [] && JoinBlocks(SplitBlocks(text, from)) == text
    ensures forall i :: 0 <= i < |SplitBlocks(text, from)| ==> NoBlankLine(SplitBlocks(text, from)[i])
    decreases |text| - from, |text|
  {
    if from + 1 < |text| {
      if text[from] == '\n' && text[from + 1] == '\n' {
        var rest := text[from + 2..];
        BlocksExact(rest, 0);
        assert text == text[..from] + "\n\n" + rest;
        assert SplitBlocks(text, from)[1..] == SplitBlocks(rest, 0);
        assert forall i :: 0 <= i < from ==> text[..from][i] == text[..from + 1][i];
      } else {
        assert text[..from + 2] == text[..from + 1] + [text[from + 1]];
        BlocksExact(text, from + 1);
      }
    } else {
      assert text[..|text|] == text;
    }
  }

  lemma SectionsHaveNoBlankLine(text: string, section: string)
    requires section in SplitSections(text, [])
    ensures NoBlankLine(section)
  {
    var raw := SplitBlocks(text, 0);
    BlocksExact(text, 0);
    assert section in StripAll(raw);
    var i :| 0 <= i < |raw| && StripAll(raw)[i] == section;
    var a, b := StripExact(raw[i]);
    assert forall k :: 0 <= k < |section| ==> section[k] == raw[i][a + k];
  }
}
