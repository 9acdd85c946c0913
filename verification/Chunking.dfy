/**
 Boundary-aware chunking. Whatever the document, every chunk respects the size bound and the
 chunks together keep every non-whitespace character, in order: dropping at most `overlap`
 leading characters from each chunk and concatenating gives back exactly the document's ink.
 */
module Chunking {
  import opened Common
  import opened MaximalRuns

  // ----- Whitespace and ink

  /** The characters Python's `str.strip` removes. */
  predicate IsSpace(c: char) {
    var n := c as int;
    || 9 <= n <= 13 || 28 <= n <= 32 || n == 133 || n == 160 || n == 5760
    || 8192 <= n <= 8202 || n == 8232 || n == 8233 || n == 8239 || n == 8287 || n == 12288
  }

  /** The non-whitespace characters of a text, in order. */
  function Ink(s: string): string {
    if s == "" then "" else InkOf(s[0]) + Ink(s[1..])
  }

  function InkOf(c: char): string { if IsSpace(c) then "" else [c] }

  lemma {:induction false} InkAppend(a: string, b: string)
    ensures Ink(a + b) == Ink(a) + Ink(b)
  {
    if a == "" {
      assert a + b == b;
    } else {
      calc {
        Ink(a + b);
        { assert (a + b)[1..] == a[1..] + b; }
        InkOf(a[0]) + Ink(a[1..] + b);
        { InkAppend(a[1..], b); }
        InkOf(a[0]) + (Ink(a[1..]) + Ink(b));
        InkOf(a[0]) + Ink(a[1..]) + Ink(b);
        Ink(a) + Ink(b);
      }
    }
  }

  lemma {:induction false} InkShorter(s: string)
    ensures |Ink(s)| <= |s|
  {
    if s != "" {
      InkShorter(s[1..]);
    }
  }

  lemma InkSplit(s: string, i: nat)
    requires i <= |s|
    ensures Ink(s) == Ink(s[..i]) + Ink(s[i..])
  {
    assert s == s[..i] + s[i..];
    InkAppend(s[..i], s[i..]);
  }

  function StripLeft(s: string): string {
    if s != "" && IsSpace(s[0]) then StripLeft(s[1..]) else s
  }

  function StripRight(s: string): string {
    if s != "" && IsSpace(Last(s)) then StripRight(s[..|s| - 1]) else s
  }

  function Strip(s: string): string { StripRight(StripLeft(s)) }

  lemma {:induction false} StripLeftFacts(s: string)
    ensures Ink(StripLeft(s)) == Ink(s) && |StripLeft(s)| <= |s|
    ensures StripLeft(s) == "" || !IsSpace(StripLeft(s)[0])
  {
    if s != "" && IsSpace(s[0]) {
      StripLeftFacts(s[1..]);
    }
  }

  lemma {:induction false} StripRightFacts(s: string)
    ensures Ink(StripRight(s)) == Ink(s) && |StripRight(s)| <= |s|
    ensures s != "" && !IsSpace(s[0]) ==> StripRight(s) != "" && StripRight(s)[0] == s[0]
  {
    if s != "" && IsSpace(Last(s)) {
      StripRightFacts(s[..|s| - 1]);
      InkSplit(s, |s| - 1);
      assert s[|s| - 1..] == [Last(s)] && [Last(s)][1..] == "";
      assert Ink([Last(s)]) == "";
    }
  }

  lemma StripFacts(s: string)
    ensures Ink(Strip(s)) == Ink(s) && |Strip(s)| <= |s|
    ensures Strip(s) == "" <==> Ink(s) == ""
  {
    StripLeftFacts(s);
    StripRightFacts(StripLeft(s));
  }

  // ----- Cleaning

  function ReplaceCrLf(s: string): string {
    if |s| >= 2 && s[0] == '\r' && s[1] == '\n' then "\n" + ReplaceCrLf(s[2..])
    else if s == "" then "" else [s[0]] + ReplaceCrLf(s[1..])
  }

  function ReplaceCr(s: string): string {
    if s == "" then "" else [if s[0] == '\r' then '\n' else s[0]] + ReplaceCr(s[1..])
  }

  predicate IsBlank(c: char) { c == ' ' || c == '\t' }

  /** A run of spaces and tabs becomes one space. */
  function CollapseBlanks(s: string): string {
    if s == "" then ""
    else if IsBlank(s[0]) && |s| > 1 && IsBlank(s[1]) then CollapseBlanks(s[1..])
    else [if IsBlank(s[0]) then ' ' else s[0]] + CollapseBlanks(s[1..])
  }

  /** A run of three or more newlines becomes two. */
  function CollapseNewlines(s: string): string {
    if s == "" then ""
    else if |s| > 2 && s[0] == '\n' && s[1] == '\n' && s[2] == '\n' then CollapseNewlines(s[1..])
    else [s[0]] + CollapseNewlines(s[1..])
  }

  /** Trailing whitespace of every line is removed. */
  function TrimLines(s: string): string {
    if s == "" then ""
    else
      var rest := TrimLines(s[1..]);
      if s[0] != '\n' && IsSpace(s[0]) && (rest == "" || rest[0] == '\n') then rest else [s[0]] + rest
  }

  function CleanText(s: string): string {
    Strip(TrimLines(CollapseNewlines(CollapseBlanks(ReplaceCr(ReplaceCrLf(s))))))
  }

  lemma {:induction false} ReplaceCrLfKeepsInk(s: string)
    ensures Ink(ReplaceCrLf(s)) == Ink(s)
  {
    if |s| >= 2 && s[0] == '\r' && s[1] == '\n' {
      ReplaceCrLfKeepsInk(s[2..]);
      assert s[1..][1..] == s[2..];
    } else if s != "" {
      ReplaceCrLfKeepsInk(s[1..]);
    }
  }

  lemma {:induction false} ReplaceCrKeepsInk(s: string)
    ensures Ink(ReplaceCr(s)) == Ink(s)
  {
    if s != "" {
      ReplaceCrKeepsInk(s[1..]);
    }
  }

  lemma {:induction false} CollapseBlanksKeepsInk(s: string)
    ensures Ink(CollapseBlanks(s)) == Ink(s)
  {
    if s != "" {
      CollapseBlanksKeepsInk(s[1..]);
    }
  }

  lemma {:induction false} CollapseNewlinesKeepsInk(s: string)
    ensures Ink(CollapseNewlines(s)) == Ink(s)
  {
    if s != "" {
      CollapseNewlinesKeepsInk(s[1..]);
    }
  }

  lemma {:induction false} TrimLinesKeepsInk(s: string)
    ensures Ink(TrimLines(s)) == Ink(s)
  {
    if s != "" {
      TrimLinesKeepsInk(s[1..]);
    }
  }

  lemma CleanTextKeepsInk(s: string)
    ensures Ink(CleanText(s)) == Ink(s)
  {
    var a := ReplaceCrLf(s);
    var b := ReplaceCr(a);
    var c := CollapseBlanks(b);
    var d := CollapseNewlines(c);
    ReplaceCrLfKeepsInk(s);
    ReplaceCrKeepsInk(a);
    CollapseBlanksKeepsInk(b);
    CollapseNewlinesKeepsInk(c);
    TrimLinesKeepsInk(d);
    StripFacts(TrimLines(d));
  }

  // ----- Sections

  ghost predicate Increasing(positions: seq<nat>, limit: nat) {
    && (forall i, j :: 0 <= i < j < |positions| ==> positions[i] < positions[j])
    && (forall i :: 0 <= i < |positions| ==> positions[i] < limit)
  }

  /** The slices of a text that start at the given boundaries. */
  function Slices(text: string, boundaries: seq<nat>): seq<string>
    requires Increasing(boundaries, |text|)
  {
    if boundaries == [] then []
    else if |boundaries| == 1 then [text[boundaries[0]..]]
    else [text[boundaries[0]..boundaries[1]]] + Slices(text, boundaries[1..])
  }

  /** `text.split("\n\n")`. */
  function SplitBlocks(text: string, from: nat): seq<string>
    requires from <= |text|
    decreases |text| - from, |text|
  {
    if from + 1 >= |text| then [text]
    else if text[from] == '\n' && text[from + 1] == '\n' then [text[..from]] + SplitBlocks(text[from + 2..], 0)
    else SplitBlocks(text, from + 1)
  }

  function StripAll(parts: seq<string>): seq<string> {
    seq(|parts|, i requires 0 <= i < |parts| => Strip(parts[i]))
  }

  function NonEmpty(parts: seq<string>): (kept: seq<string>)
    ensures forall i :: 0 <= i < |kept| ==> kept[i] != "" && kept[i] in parts
  {
    if parts == [] then [] else (if parts[0] == "" then [] else [parts[0]]) + NonEmpty(parts[1..])
  }

  /** Split at headings if there are any, else at blank lines. `headings` is where the heading pattern matches. */
  function SplitSections(text: string, headings: seq<nat>): seq<string>
    requires Increasing(headings, |text|)
  {
    var raw :=
      if headings != [] then Slices(text, if headings[0] > 0 then [0] + headings else headings)
      else SplitBlocks(text, 0);
    NonEmpty(StripAll(raw))
  }

  lemma {:induction false} SlicesRestore(text: string, boundaries: seq<nat>)
    requires Increasing(boundaries, |text|) && boundaries != []
    ensures Flatten(Slices(text, boundaries)) == text[boundaries[0]..]
  {
    if |boundaries| > 1 {
      SlicesRestore(text, boundaries[1..]);
      assert text[boundaries[0]..] == text[boundaries[0]..boundaries[1]] + text[boundaries[1]..];
    } else {
      assert Flatten(Slices(text, boundaries)) == text[boundaries[0]..] + Flatten<char>([]);
    }
  }

  /** The ink of a list of texts, one after the other. */
  function InkAll(parts: seq<string>): string {
    if parts == [] then "" else Ink(parts[0]) + InkAll(parts[1..])
  }

  lemma {:induction false} InkOfFlatten(parts: seq<string>)
    ensures Ink(Flatten(parts)) == InkAll(parts)
  {
    if parts != [] {
      InkOfFlatten(parts[1..]);
      InkAppend(parts[0], Flatten(parts[1..]));
    }
  }

  lemma InkAllCons(first: string, rest: seq<string>)
    ensures InkAll([first] + rest) == Ink(first) + InkAll(rest)
  {
  }

  lemma NewlinesHaveNoInk(rest: string)
    ensures Ink("\n\n" + rest) == Ink(rest)
  {
  }

  lemma {:induction false} SplitBlocksKeepInk(text: string, from: nat)
    requires from <= |text|
    ensures InkAll(SplitBlocks(text, from)) == Ink(text)
    decreases |text| - from, |text|
  {
    if from + 1 >= |text| {
      InkAllCons(text, []);
      assert [text] + [] == [text];
    } else if text[from] == '\n' && text[from + 1] == '\n' {
      var rest := text[from + 2..];
      calc {
        InkAll(SplitBlocks(text, from));
        { InkAllCons(text[..from], SplitBlocks(rest, 0)); }
        Ink(text[..from]) + InkAll(SplitBlocks(rest, 0));
        { SplitBlocksKeepInk(rest, 0); NewlinesHaveNoInk(rest); }
        Ink(text[..from]) + Ink("\n\n" + rest);
        { assert "\n\n" + rest == text[from..]; InkSplit(text, from); }
        Ink(text);
      }
    } else {
      SplitBlocksKeepInk(text, from + 1);
    }
  }

  lemma {:induction false} StripAllKeepsInk(parts: seq<string>)
    ensures InkAll(StripAll(parts)) == InkAll(parts)
  {
    if parts != [] {
      StripAllKeepsInk(parts[1..]);
      assert StripAll(parts)[1..] == StripAll(parts[1..]);
      StripFacts(parts[0]);
    }
  }

  lemma {:induction false} NonEmptyKeepsInk(parts: seq<string>)
    ensures InkAll(NonEmpty(parts)) == InkAll(parts)
  {
    if parts != [] {
      NonEmptyKeepsInk(parts[1..]);
      if parts[0] == "" {
        assert InkAll(parts) == "" + InkAll(parts[1..]);
        assert NonEmpty(parts) == [] + NonEmpty(parts[1..]);
        assert NonEmpty(parts) == NonEmpty(parts[1..]);
      } else {
        InkAllCons(parts[0], NonEmpty(parts[1..]));
      }
    }
  }

  lemma StripAndFilterKeepInk(parts: seq<string>)
    ensures InkAll(NonEmpty(StripAll(parts))) == InkAll(parts)
  {
    StripAllKeepsInk(parts);
    NonEmptyKeepsInk(StripAll(parts));
  }

  /** Wherever the headings are, splitting into sections loses nothing but whitespace and yields no empty section. */
  lemma SectionsKeepInk(text: string, headings: seq<nat>)
    requires Increasing(headings, |text|)
    ensures InkAll(SplitSections(text, headings)) == Ink(text)
    ensures forall i :: 0 <= i < |SplitSections(text, headings)| ==> SplitSections(text, headings)[i] != ""
  {
    if headings != [] {
      var boundaries := if headings[0] > 0 then [0] + headings else headings;
      SlicesRestore(text, boundaries);
      assert text[0..] == text;
      InkOfFlatten(Slices(text, boundaries));
      StripAndFilterKeepInk(Slices(text, boundaries));
    } else {
      SplitBlocksKeepInk(text, 0);
      StripAndFilterKeepInk(SplitBlocks(text, 0));
    }
  }
}
