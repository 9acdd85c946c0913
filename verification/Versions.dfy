/**
 Version order and vulnerable ranges. A version text is given as the tokens its separators leave;
 three-valued range answers are related to every way an unreadable bound might be read.
 */
module Versions {
  import opened Common

  /**
   `Qualifier` is a pre-release word with its maturity rank and optional number; `ReleaseWord` is a
   word such as "final".
   */
  datatype Token = Number(n: nat) | ReleaseWord | Qualifier(rank: nat, number: Option<nat>) | Unreadable | Nothing

  /** `Blank` is the empty string, which counts as absent in some places and as unreadable in others. */
  datatype Text = Blank | Tokens(tokens: seq<Token>)

  datatype Version = Version(release: seq<nat>, isFinal: bool, prerelease: seq<nat>)

  // ----- Order

  /** Tuple order: the first difference decides, and a proper prefix is smaller. */
  predicate Lex(a: seq<nat>, b: seq<nat>) {
    if b == [] then false
    else if a == [] then true
    else if a[0] != b[0] then a[0] < b[0]
    else Lex(a[1..], b[1..])
  }

  predicate Less(a: Version, b: Version) {
    || Lex(a.release, b.release)
    || (a.release == b.release &&
        (if a.isFinal != b.isFinal then b.isFinal else Lex(a.prerelease, b.prerelease)))
  }

  predicate AtMost(a: Version, b: Version) { Less(a, b) || a == b }

  lemma {:induction false} LexTotal(a: seq<nat>, b: seq<nat>)
    ensures Lex(a, b) || Lex(b, a) || a == b
    ensures !(Lex(a, b) && Lex(b, a)) && (a == b ==> !Lex(a, b))
  {
    if a != [] && b != [] && a[0] == b[0] {
      LexTotal(a[1..], b[1..]);
      assert a == [a[0]] + a[1..] && b == [b[0]] + b[1..];
    }
  }

  lemma {:induction false} LexTransitive(a: seq<nat>, b: seq<nat>, c: seq<nat>)
    requires Lex(a, b) && Lex(b, c)
    ensures Lex(a, c)
  {
    if a != [] && a[0] == b[0] == c[0] {
      LexTransitive(a[1..], b[1..], c[1..]);
    }
  }

  /** Versions are totally ordered. */
  lemma VersionOrderTotal(a: Version, b: Version, c: Version)
    ensures Less(a, b) || Less(b, a) || a == b
    ensures !(Less(a, b) && Less(b, a)) && !Less(a, a)
    ensures Less(a, b) && Less(b, c) ==> Less(a, c)
  {
    LexTotal(a.release, b.release);
    LexTotal(a.prerelease, b.prerelease);
    LexTotal(a.release, a.release);
    LexTotal(a.prerelease, a.prerelease);
    if Less(a, b) && Less(b, c) {
      if Lex(a.release, b.release) && Lex(b.release, c.release) {
        LexTransitive(a.release, b.release, c.release);
      }
      if Lex(a.prerelease, b.prerelease) && Lex(b.prerelease, c.prerelease) {
        LexTransitive(a.prerelease, b.prerelease, c.prerelease);
      }
    }
  }

  // ----- Parsing

  /** The numbers before the first pre-release word. */
  function ReleasePart(tokens: seq<Token>): seq<nat> {
    if tokens == [] || tokens[0].Qualifier? then []
    else (if tokens[0].Number? then [tokens[0].n] else []) + ReleasePart(tokens[1..])
  }

  function Code(t: Token): seq<nat> {
    match t
    case Number(n) => [n]
    case Qualifier(rank, Some(n)) => [rank, n]
    case Qualifier(rank, None) => [rank]
    case _ => []
  }

  function Codes(tokens: seq<Token>): seq<nat> {
    if tokens == [] then [] else Code(tokens[0]) + Codes(tokens[1..])
  }

  /** Ranks and numbers from the first pre-release word on. */
  function PrereleasePart(tokens: seq<Token>): seq<nat> {
    if tokens == [] then []
    else if tokens[0].Qualifier? then Codes(tokens)
    else PrereleasePart(tokens[1..])
  }

  predicate HasQualifier(tokens: seq<Token>) { exists i :: 0 <= i < |tokens| && tokens[i].Qualifier? }

  function Parse(text: Text): Option<Version> {
    if text.Blank? || Unreadable in text.tokens || ReleasePart(text.tokens) == [] then None
    else Some(Version(ReleasePart(text.tokens), !HasQualifier(text.tokens), PrereleasePart(text.tokens)))
  }

  /** The token loop. */
  method ParseVersion(text: Text) returns (version: Option<Version>)
    ensures version == Parse(text)
  {
    if text.Blank? {
      return None;
    }
    var tokens := text.tokens;
    var release: seq<nat>, prerelease: seq<nat>, seen := [], [], false;
    for i := 0 to |tokens|
      invariant Unreadable !in tokens[..i]
      invariant Parsing(tokens, i, release, prerelease, seen)
    {
      if tokens[i] == Unreadable {
        assert Unreadable in tokens;
        return None;
      }
      assert tokens[..i + 1] == tokens[..i] + [tokens[i]];
      ParseStep(tokens, i, release, prerelease, seen);
      ghost var was := prerelease;
      match tokens[i] {
        case Number(n) =>
          if seen {
            prerelease := prerelease + [n];
          } else {
            release := release + [n];
          }
        case Qualifier(rank, number) =>
          seen := true;
          prerelease := prerelease + [rank];
          if number.Some? {
            prerelease := prerelease + [number.value];
          }
          assert prerelease == was + Code(tokens[i]);
        case _ =>
      }
    }
    assert tokens[..|tokens|] == tokens && tokens[|tokens|..] == [];
    assert release + [] == release && prerelease + [] == prerelease;
    if release == [] {
      return None;
    }
    version := Some(Version(release, !seen, prerelease));
  }

  /** What has been collected after `i` tokens, and what the rest will add. */
  ghost predicate Parsing(tokens: seq<Token>, i: nat, release: seq<nat>, prerelease: seq<nat>, seen: bool) {
    && i <= |tokens|
    && seen == HasQualifier(tokens[..i])
    && ReleasePart(tokens) == release + (if seen then [] else ReleasePart(tokens[i..]))
    && PrereleasePart(tokens) == prerelease + (if seen then Codes(tokens[i..]) else PrereleasePart(tokens[i..]))
    && (!seen ==> prerelease == [])
  }

  lemma ParseStep(tokens: seq<Token>, i: nat, release: seq<nat>, prerelease: seq<nat>, seen: bool)
    requires i < |tokens| && Parsing(tokens, i, release, prerelease, seen)
    ensures match tokens[i]
            case Number(n) =>
              if seen then Parsing(tokens, i + 1, release, prerelease + [n], seen)
              else Parsing(tokens, i + 1, release + [n], prerelease, seen)
            case Qualifier(_, _) => Parsing(tokens, i + 1, release, prerelease + Code(tokens[i]), true)
            case _ => Parsing(tokens, i + 1, release, prerelease, seen)
  {
    assert prerelease + [] == prerelease;
    QualifierSnoc(tokens, i);
    ReleaseStep(tokens[i..], release);
    PrereleaseStep(tokens[i..], prerelease);
    assert tokens[i..][1..] == tokens[i + 1..];
  }

  lemma ReleaseStep(rest: seq<Token>, release: seq<nat>)
    requires rest != []
    ensures rest[0].Qualifier? ==> release + ReleasePart(rest) == release
    ensures rest[0].Number? ==> release + ReleasePart(rest) == release + [rest[0].n] + ReleasePart(rest[1..])
    ensures !rest[0].Qualifier? && !rest[0].Number? ==> ReleasePart(rest) == ReleasePart(rest[1..])
  {
  }

  lemma PrereleaseStep(rest: seq<Token>, prerelease: seq<nat>)
    requires rest != []
    ensures prerelease + Codes(rest) == prerelease + Code(rest[0]) + Codes(rest[1..])
    ensures rest[0].Qualifier? ==> PrereleasePart(rest) == Codes(rest)
    ensures !rest[0].Qualifier? ==> PrereleasePart(rest) == PrereleasePart(rest[1..])
  {
  }

  lemma QualifierSnoc(tokens: seq<Token>, i: nat)
    requires i < |tokens|
    ensures HasQualifier(tokens[..i + 1]) <==> HasQualifier(tokens[..i]) || tokens[i].Qualifier?
  {
  }

  lemma {:induction false} ReleasePartAppend(a: seq<Token>, b: seq<Token>)
    requires !HasQualifier(a)
    ensures ReleasePart(a + b) == ReleasePart(a) + ReleasePart(b)
  {
    if a == [] {
      assert a + b == b;
    } else {
      assert !a[0].Qualifier?;
      assert forall i :: 0 <= i < |a| - 1 ==> a[1..][i] == a[i + 1];
      ReleasePartAppend(a[1..], b);
      assert (a + b)[1..] == a[1..] + b;
      var head := if a[0].Number? then [a[0].n] else [];
      assert head + (ReleasePart(a[1..]) + ReleasePart(b)) == head + ReleasePart(a[1..]) + ReleasePart(b);
    }
  }

  /** A pre-release of a release sorts below it: a candidate for a fix is not the fix. */
  lemma PrereleaseBelowRelease(tokens: seq<Token>, suffix: seq<Token>)
    requires Parse(Tokens(tokens)).Some? && !HasQualifier(tokens)
    requires suffix != [] && suffix[0].Qualifier? && Unreadable !in suffix
    ensures Parse(Tokens(tokens + suffix)).Some?
    ensures Less(Parse(Tokens(tokens + suffix)).value, Parse(Tokens(tokens)).value)
  {
    ReleasePartAppend(tokens, suffix);
    assert ReleasePart(tokens) + [] == ReleasePart(tokens);
    assert (tokens + suffix)[|tokens|].Qualifier?;
  }

  lemma {:induction false} LexSnoc(a: seq<nat>, n: nat)
    ensures Lex(a, a + [n])
  {
    if a != [] {
      LexSnoc(a[1..], n);
      assert (a + [n])[1..] == a[1..] + [n];
    }
  }

  lemma {:induction false} CodesSnoc(tokens: seq<Token>, n: nat)
    ensures Codes(tokens + [Number(n)]) == Codes(tokens) + [n]
  {
    if tokens == [] {
      assert tokens + [Number(n)] == [Number(n)] && [Number(n)][1..] == [];
      assert Codes([Number(n)]) == Code(Number(n)) + Codes([]);
    } else {
      CodesSnoc(tokens[1..], n);
      assert (tokens + [Number(n)])[1..] == tokens[1..] + [Number(n)];
      assert Code(tokens[0]) + (Codes(tokens[1..]) + [n]) == Code(tokens[0]) + Codes(tokens[1..]) + [n];
    }
  }

  /** One more number behind a qualified version belongs to its pre-release. */
  lemma {:induction false} QualifiedSnoc(tokens: seq<Token>, n: nat)
    requires HasQualifier(tokens)
    ensures ReleasePart(tokens + [Number(n)]) == ReleasePart(tokens)
    ensures PrereleasePart(tokens + [Number(n)]) == PrereleasePart(tokens) + [n]
  {
    var more := tokens + [Number(n)];
    if tokens[0].Qualifier? {
      CodesSnoc(tokens, n);
    } else {
      assert more[1..] == tokens[1..] + [Number(n)];
      var i :| 0 <= i < |tokens| && tokens[i].Qualifier?;
      assert tokens[1..][i - 1].Qualifier?;
      QualifiedSnoc(tokens[1..], n);
    }
  }

  /** Trailing numbers count, zeros too: whatever is readable gets larger, so 2.0 is below 2.0.0. */
  lemma TrailingNumberRaises(tokens: seq<Token>, n: nat)
    requires Parse(Tokens(tokens)).Some?
    ensures Parse(Tokens(tokens + [Number(n)])).Some?
    ensures Less(Parse(Tokens(tokens)).value, Parse(Tokens(tokens + [Number(n)])).value)
  {
    var more := tokens + [Number(n)];
    assert more[..|tokens|] == tokens && more[..|tokens| + 1] == more;
    QualifierSnoc(more, |tokens|);
    if HasQualifier(tokens) {
      QualifiedSnoc(tokens, n);
      LexSnoc(PrereleasePart(tokens), n);
    } else {
      ReleasePartAppend(tokens, [Number(n)]);
      assert [Number(n)][1..] == [] && ReleasePart([Number(n)]) == [n] + ReleasePart([]);
      assert ReleasePart(more) == ReleasePart(tokens) + [n];
      LexSnoc(ReleasePart(tokens), n);
    }
  }

  lemma {:induction false} CodesAppend(a: seq<Token>, b: seq<Token>)
    ensures Codes(a + b) == Codes(a) + Codes(b)
  {
    if a == [] {
      assert a + b == b;
    } else {
      calc {
        Codes(a + b);
        { assert (a + b)[1..] == a[1..] + b; }
        Code(a[0]) + Codes(a[1..] + b);
        { CodesAppend(a[1..], b); }
        Code(a[0]) + (Codes(a[1..]) + Codes(b));
        { Regroup(Code(a[0]), Codes(a[1..]), Codes(b)); }
        Code(a[0]) + Codes(a[1..]) + Codes(b);
      }
    }
  }

  lemma Regroup(a: seq<nat>, b: seq<nat>, c: seq<nat>)
    ensures a + (b + c) == a + b + c
  {
  }

  lemma {:induction false} PrereleasePartAppend(a: seq<Token>, b: seq<Token>)
    ensures PrereleasePart(a + b) == if HasQualifier(a) then PrereleasePart(a) + Codes(b) else PrereleasePart(b)
  {
    if a == [] {
      assert a + b == b;
    } else if a[0].Qualifier? {
      CodesAppend(a, b);
    } else {
      PrereleasePartAppend(a[1..], b);
      assert (a + b)[1..] == a[1..] + b;
      assert HasQualifier(a) <==> HasQualifier(a[1..]) by {
        assert forall i :: 0 < i < |a| ==> a[i] == a[1..][i - 1];
        assert forall i :: 0 <= i < |a| - 1 ==> a[1..][i] == a[i + 1];
      }
    }
  }

  /** Pre-releases of one release: a less mature word comes first, then no number, then the smaller number. */
  lemma PrereleasesInOrder(tokens: seq<Token>, r1: nat, n1: Option<nat>, r2: nat, n2: Option<nat>)
    requires Parse(Tokens(tokens)).Some? && !HasQualifier(tokens)
    ensures var a, b := Parse(Tokens(tokens + [Qualifier(r1, n1)])), Parse(Tokens(tokens + [Qualifier(r2, n2)]));
            && a.Some? && b.Some?
            && (Less(a.value, b.value) <==>
                 r1 < r2 || (r1 == r2 && n2.Some? && (n1.None? || n1.value < n2.value)))
  {
    PrereleaseOf(tokens, r1, n1);
    PrereleaseOf(tokens, r2, n2);
    LexTotal(ReleasePart(tokens), ReleasePart(tokens));
    var x, y := Code(Qualifier(r1, n1)), Code(Qualifier(r2, n2));
    assert n1.Some? ==> x == [r1, n1.value] && x[1..] == [n1.value] && [n1.value][1..] == [];
    assert n2.Some? ==> y == [r2, n2.value] && y[1..] == [n2.value] && [n2.value][1..] == [];
    assert n1.None? ==> x == [r1] && x[1..] == [];
    assert n2.None? ==> y == [r2] && y[1..] == [];
    assert Lex(x, y) <==> r1 < r2 || (r1 == r2 && Lex(x[1..], y[1..]));
    assert Lex(x[1..], y[1..]) <==> n2.Some? && (n1.None? || n1.value < n2.value);
  }

  lemma PrereleaseOf(tokens: seq<Token>, rank: nat, number: Option<nat>)
    requires Parse(Tokens(tokens)).Some? && !HasQualifier(tokens)
    ensures Parse(Tokens(tokens + [Qualifier(rank, number)]))
         == Some(Version(ReleasePart(tokens), false, if number.Some? then [rank, number.value] else [rank]))
  {
    var q := [Qualifier(rank, number)];
    ReleasePartAppend(tokens, q);
    PrereleasePartAppend(tokens, q);
    assert q[1..] == [] && Codes(q) == Code(q[0]) + Codes(q[1..]);
    assert Codes(q) == Code(q[0]) && ReleasePart(q) == [];
    assert ReleasePart(tokens + q) == ReleasePart(tokens) && PrereleasePart(tokens + q) == Codes(q);
    assert Unreadable !in tokens + q;
    assert (tokens + q)[|tokens|].Qualifier?;
  }

  /** Words such as "final", and empty pieces between separators, change nothing wherever they stand. */
  lemma ReleaseWordsDoNotCount(a: seq<Token>, word: Token, b: seq<Token>)
    requires word == ReleaseWord || word == Nothing
    ensures Parse(Tokens(a + [word] + b)) == Parse(Tokens(a + b))
  {
    WordDropped(a, word, b);
    assert forall t :: t in a + [word] + b <==> t in a + b || t == word;
  }

  lemma {:induction false} WordDropped(a: seq<Token>, word: Token, b: seq<Token>)
    requires word == ReleaseWord || word == Nothing
    ensures ReleasePart(a + [word] + b) == ReleasePart(a + b)
    ensures Codes(a + [word] + b) == Codes(a + b)
    ensures PrereleasePart(a + [word] + b) == PrereleasePart(a + b)
    ensures HasQualifier(a + [word] + b) <==> HasQualifier(a + b)
  {
    var all, less := a + [word] + b, a + b;
    if a == [] {
      assert all[1..] == b && less == b;
      assert forall i :: 0 < i < |all| ==> all[i] == b[i - 1];
      assert forall i :: 0 <= i < |b| ==> b[i] == all[i + 1];
    } else {
      WordDropped(a[1..], word, b);
      assert all[1..] == a[1..] + [word] + b && less[1..] == a[1..] + b;
      QualifierCons(all);
      QualifierCons(less);
    }
  }

  lemma QualifierCons(tokens: seq<Token>)
    requires tokens != []
    ensures HasQualifier(tokens) <==> tokens[0].Qualifier? || HasQualifier(tokens[1..])
  {
    assert forall i :: 0 < i < |tokens| ==> tokens[i] == tokens[1..][i - 1];
    assert forall i :: 0 <= i < |tokens| - 1 ==> tokens[1..][i] == tokens[i + 1];
  }

  // ----- Ranges

  datatype Relation = AtLeast | Above | NotAbove | Below

  predicate Satisfies(v: Version, rel: Relation, bound: Version) {
    match rel
    case AtLeast => AtMost(bound, v)
    case Above => Less(bound, v)
    case NotAbove => AtMost(v, bound)
    case Below => Less(v, bound)
  }

  datatype Bound = Bound(raw: Option<Text>, rel: Relation)

  datatype Range = Range(product: nat, startIncluding: Option<Text>, startExcluding: Option<Text>,
                         endIncluding: Option<Text>, endExcluding: Option<Text>)

  function Bounds(r: Range): seq<Bound> {
    [Bound(r.startIncluding, AtLeast), Bound(r.startExcluding, Above),
     Bound(r.endIncluding, NotAbove), Bound(r.endExcluding, Below)]
  }

  predicate Truthy(raw: Option<Text>) { raw.Some? && raw.value != Blank }

  predicate Unbounded(r: Range) {
    !Truthy(r.startIncluding) && !Truthy(r.startExcluding) && !Truthy(r.endIncluding) && !Truthy(r.endExcluding)
  }

  /** The answer of the loop over the bounds: true, false, or undecidable. */
  function Decide(v: Version, bounds: seq<Bound>): Option<bool> {
    if bounds == [] then Some(true)
    else if bounds[0].raw.None? then Decide(v, bounds[1..])
    else if Parse(bounds[0].raw.value).None? then None
    else if !Satisfies(v, bounds[0].rel, Parse(bounds[0].raw.value).value) then Some(false)
    else Decide(v, bounds[1..])
  }

  function InRange(v: Version, r: Range): Option<bool> {
    if Unbounded(r) then Some(true) else Decide(v, Bounds(r))
  }

  method InVulnerableRange(v: Version, r: Range) returns (answer: Option<bool>)
    ensures answer == InRange(v, r)
  {
    if Unbounded(r) {
      return Some(true);
    }
    var bounds := Bounds(r);
    for i := 0 to |bounds|
      invariant Decide(v, bounds) == Decide(v, bounds[i..])
    {
      assert bounds[i..][1..] == bounds[i + 1..];
      if bounds[i].raw.None? {
        continue;
      }
      var bound := ParseVersion(bounds[i].raw.value);
      if bound.None? {
        return None;
      }
      if !Satisfies(v, bounds[i].rel, bound.value) {
        return Some(false);
      }
    }
    return Some(true);
  }

  predicate Readable(b: Bound) { b.raw.None? || Parse(b.raw.value).Some? }

  predicate Fails(v: Version, b: Bound) {
    b.raw.Some? && Parse(b.raw.value).Some? && !Satisfies(v, b.rel, Parse(b.raw.value).value)
  }

  /** True means every bound is readable and met; false means some bound is not met and all before it are readable. */
  lemma {:induction false} DecideExact(v: Version, bounds: seq<Bound>)
    ensures Decide(v, bounds) == Some(true) <==>
            forall i :: 0 <= i < |bounds| ==> Readable(bounds[i]) && !Fails(v, bounds[i])
    ensures Decide(v, bounds) == Some(false) <==>
            exists i :: 0 <= i < |bounds| && Fails(v, bounds[i]) && forall j :: 0 <= j < i ==> Readable(bounds[j])
  {
    if bounds != [] {
      var rest := bounds[1..];
      DecideExact(v, rest);
      assert forall i :: 0 <= i < |rest| ==> rest[i] == bounds[i + 1];
      if Readable(bounds[0]) && !Fails(v, bounds[0]) {
        if i :| 0 <= i < |bounds| && Fails(v, bounds[i]) && forall j :: 0 <= j < i ==> Readable(bounds[j]) {
          assert Fails(v, rest[i - 1]);
        }
        if i :| 0 <= i < |rest| && Fails(v, rest[i]) && forall j :: 0 <= j < i ==> Readable(rest[j]) {
          assert Fails(v, bounds[i + 1]) && forall j :: 0 < j < i + 1 ==> bounds[j] == rest[j - 1];
        }
      }
    }
  }

  /** The version a given bound names; only for readable ones. */
  function Named(raw: Option<Text>): Version
    requires raw.Some? && Parse(raw.value).Some?
  {
    Parse(raw.value).value
  }

  ghost predicate AllReadable(r: Range) {
    forall raw :: raw in {r.startIncluding, r.startExcluding, r.endIncluding, r.endExcluding} ==>
      raw.None? || Parse(raw.value).Some?
  }

  /**
   What a range with readable bounds contains: the versions from `startIncluding`, after
   `startExcluding`, up to `endIncluding` and before `endExcluding`, each where it is given.
   */
  lemma RangeMeaning(v: Version, r: Range)
    requires AllReadable(r)
    ensures InRange(v, r).Some?
    ensures InRange(v, r) == Some(true) <==>
            && (r.startIncluding.Some? ==> Less(Named(r.startIncluding), v) || v == Named(r.startIncluding))
            && (r.startExcluding.Some? ==> Less(Named(r.startExcluding), v))
            && (r.endIncluding.Some? ==> Less(v, Named(r.endIncluding)) || v == Named(r.endIncluding))
            && (r.endExcluding.Some? ==> Less(v, Named(r.endExcluding)))
  {
    var bounds := Bounds(r);
    assert forall i :: 0 <= i < 4 ==> Readable(bounds[i]);
    DecideExact(v, bounds);
    assert Decide(v, bounds) == Some(true) <==> (forall i :: 0 <= i < 4 ==> !Fails(v, bounds[i]));
    assert (forall i :: 0 <= i < 4 ==> !Fails(v, bounds[i])) <==>
           !Fails(v, bounds[0]) && !Fails(v, bounds[1]) && !Fails(v, bounds[2]) && !Fails(v, bounds[3]);
    if (exists i :: 0 <= i < 4 && Fails(v, bounds[i])) {
      FirstFailing(v, bounds);
    }
  }

  lemma {:induction false} FirstFailing(v: Version, bounds: seq<Bound>)
    requires (forall i :: 0 <= i < |bounds| ==>
             Readable(bounds[i])) && exists i :: 0 <= i < |bounds| && Fails(v, bounds[i])
    ensures Decide(v, bounds) == Some(false)
  {
    DecideExact(v, bounds);
    var i :| 0 <= i < |bounds| && Fails(v, bounds[i]);
    assert forall j :: 0 <= j < i ==> Readable(bounds[j]);
  }

  /** A reading settles what an unreadable bound means: some version, or no constraint. */
  type Reading = Text -> Option<Version>

  predicate Meets(v: Version, b: Bound, reading: Reading) {
    b.raw.Some? ==>
      var bound := if Parse(b.raw.value).Some? then Parse(b.raw.value) else reading(b.raw.value);
      bound.Some? ==> Satisfies(v, b.rel, bound.value)
  }

  ghost predicate Inside(v: Version, bounds: seq<Bound>, reading: Reading) {
    forall i :: 0 <= i < |bounds| ==> Meets(v, bounds[i], reading)
  }

  /** What the loop decides is right however the unreadable bounds are read. */
  lemma DecideIsRobust(v: Version, bounds: seq<Bound>, reading: Reading)
    ensures Decide(v, bounds).Some? ==> (Decide(v, bounds).value <==> Inside(v, bounds, reading))
  {
    DecideExact(v, bounds);
    if Decide(v, bounds) == Some(true) {
      forall i | 0 <= i < |bounds| ensures Meets(v, bounds[i], reading) {
        assert Readable(bounds[i]) && !Fails(v, bounds[i]);
      }
    } else if Decide(v, bounds) == Some(false) {
      var i :| 0 <= i < |bounds| && Fails(v, bounds[i]);
      assert !Meets(v, bounds[i], reading);
    }
  }

  /** The range is given bounds, and every one of them is blank. */
  predicate BlankOnly(r: Range) {
    Unbounded(r) && exists i :: 0 <= i < 4 && Bounds(r)[i].raw.Some?
  }

  /** A bound the version does not meet. */
  function Excluding(v: Version, rel: Relation): (bound: Version)
    requires v.release != []
    ensures !Satisfies(v, rel, bound)
  {
    match rel
    case AtLeast =>
      LexSnoc(v.release, 0);
      LexTotal(v.release, v.release + [0]);
      Version(v.release + [0], true, [])
    case Above => LexTotal(v.release, v.release); LexTotal(v.prerelease, v.prerelease); v
    case NotAbove => Version([], true, [])
    case Below => LexTotal(v.release, v.release); LexTotal(v.prerelease, v.prerelease); v
  }

  /**
   A decided answer is right however the unreadable bounds are read, with one exact exception: a
   range whose bounds are all blank is taken for a range without bounds, and contains everything.
   Parsed versions always have a release part.
   */
  lemma DecidedAnswersAreRobustIff(v: Version, r: Range)
    requires v.release != [] && InRange(v, r).Some?
    ensures (forall reading: Reading :: InRange(v, r).value <==> Inside(v, Bounds(r), reading)) <==> !BlankOnly(r)
  {
    var bounds := Bounds(r);
    if BlankOnly(r) {
      var i :| 0 <= i < 4 && bounds[i].raw.Some?;
      var harsh: Reading := (t: Text) => Some(Excluding(v, bounds[i].rel));
      assert bounds[i].raw == Some(Blank);
      assert !Meets(v, bounds[i], harsh);
      assert InRange(v, r).value && !Inside(v, bounds, harsh);
    } else {
      forall reading: Reading ensures InRange(v, r).value <==> Inside(v, bounds, reading) {
        if Unbounded(r) {
          assert forall i :: 0 <= i < 4 ==> bounds[i].raw.None?;
        } else {
          DecideIsRobust(v, bounds, reading);
        }
      }
    }
  }

  /** Outside under every reading exactly when some readable bound fails, before or after an unreadable one. */
  lemma OutsideUnderEveryReadingIff(v: Version, r: Range)
    ensures (forall reading: Reading :: !Inside(v, Bounds(r), reading)) <==>
            exists i :: 0 <= i < 4 && Fails(v, Bounds(r)[i])
  {
    var bounds := Bounds(r);
    if i :| 0 <= i < 4 && Fails(v, bounds[i]) {
      forall reading: Reading ensures !Inside(v, bounds, reading) {
        assert !Meets(v, bounds[i], reading);
      }
    } else {
      var lenient: Reading := (t: Text) => None;
      forall i | 0 <= i < 4 ensures Meets(v, bounds[i], lenient) {
        assert !Fails(v, bounds[i]);
      }
      assert Inside(v, bounds, lenient);
    }
  }

  /** Position `u` holds an unreadable bound and no failing bound stands before it. */
  predicate StopsAt(v: Version, bounds: seq<Bound>, u: nat) {
    u < |bounds| && !Readable(bounds[u]) && forall j :: 0 <= j < u ==> !Fails(v, bounds[j])
  }

  lemma {:induction false} UndecidedIff(v: Version, bounds: seq<Bound>)
    ensures Decide(v, bounds).None? <==> exists u: nat :: StopsAt(v, bounds, u)
  {
    if bounds != [] {
      var rest := bounds[1..];
      UndecidedIff(v, rest);
      assert forall i :: 0 <= i < |rest| ==> rest[i] == bounds[i + 1];
      if Readable(bounds[0]) && !Fails(v, bounds[0]) {
        if u: nat :| StopsAt(v, bounds, u) {
          assert StopsAt(v, rest, u - 1);
        }
        if u: nat :| StopsAt(v, rest, u) {
          assert forall j :: 0 < j < u + 1 ==> bounds[j] == rest[j - 1];
          assert StopsAt(v, bounds, u + 1);
        }
      } else if !Readable(bounds[0]) {
        assert StopsAt(v, bounds, 0);
      } else {
        assert forall u: nat :: StopsAt(v, bounds, u) ==> u == 0;
      }
    }
  }

  /**
   Exactly when the undecidable answer is given although the version is outside however the bounds
   are read: some readable bound fails, and an unreadable one stands before the first that does.
   */
  lemma UndecidedThoughOutsideIff(v: Version, r: Range)
    ensures InRange(v, r).None? && (forall reading: Reading :: !Inside(v, Bounds(r), reading)) <==>
            && (exists f :: 0 <= f < 4 && Fails(v, Bounds(r)[f]))
            && (exists u: nat :: StopsAt(v, Bounds(r), u))
  {
    OutsideUnderEveryReadingIff(v, r);
    UndecidedIff(v, Bounds(r));
    if f :| 0 <= f < 4 && Fails(v, Bounds(r)[f]) {
      assert Truthy(Bounds(r)[f].raw);
      assert !Unbounded(r);
    }
  }

  /** From an unreadable start, and before the end 2, version 3 is undecided. */
  lemma UndecidedThoughOutside(product: nat)
    ensures var v := Version([3], true, []);
            var r := Range(product, Some(Tokens([Unreadable])), None, None, Some(Tokens([Number(2)])));
            InRange(v, r).None? && forall reading: Reading :: !Inside(v, Bounds(r), reading)
  {
    var v := Version([3], true, []);
    var r := Range(product, Some(Tokens([Unreadable])), None, None, Some(Tokens([Number(2)])));
    assert [Number(2)][1..] == [];
    assert ReleasePart([Number(2)]) == [2] + ReleasePart([Number(2)][1..]);
    assert PrereleasePart([Number(2)]) == PrereleasePart([Number(2)][1..]) == [];
    assert ReleasePart([Number(2)]) == [2];
    assert !HasQualifier([Number(2)]) && Unreadable !in [Number(2)];
    assert Parse(Tokens([Number(2)])) == Some(Version([2], true, []));
    VersionOrderTotal(Version([2], true, []), v, v);
    assert Fails(v, Bounds(r)[3]);
    assert Parse(Tokens([Unreadable])).None? by { assert Unreadable in [Unreadable]; }
    assert StopsAt(v, Bounds(r), 0);
    UndecidedThoughOutsideIff(v, r);
  }

  /** A blank start is no start: the range contains every version, whatever the blank stood for. */
  lemma BlankStartContainsAll(v: Version, product: nat)
    requires v.release != []
    ensures var r := Range(product, Some(Blank), None, None, None);
            InRange(v, r) == Some(true) && exists reading: Reading :: !Inside(v, Bounds(r), reading)
  {
    var r := Range(product, Some(Blank), None, None, None);
    assert Bounds(r)[0].raw.Some?;
    DecidedAnswersAreRobustIff(v, r);
  }

  lemma BetweenSatisfies(x: Version, y: Version, z: Version, rel: Relation, bound: Version)
    requires AtMost(x, y) && AtMost(y, z) && Satisfies(x, rel, bound) && Satisfies(z, rel, bound)
    ensures Satisfies(y, rel, bound)
  {
    VersionOrderTotal(bound, x, y);
    VersionOrderTotal(y, z, bound);
  }

  /** Vulnerable ranges are convex: what lies between two versions inside lies inside. */
  lemma RangesAreConvex(x: Version, y: Version, z: Version, r: Range)
    requires AtMost(x, y) && AtMost(y, z)
    requires InRange(x, r) == Some(true) && InRange(z, r) == Some(true)
    ensures InRange(y, r) == Some(true)
  {
    if !Unbounded(r) {
      var bounds := Bounds(r);
      DecideExact(x, bounds);
      DecideExact(y, bounds);
      DecideExact(z, bounds);
      forall i | 0 <= i < |bounds| ensures Readable(bounds[i]) && !Fails(y, bounds[i]) {
        assert Readable(bounds[i]) && !Fails(x, bounds[i]) && !Fails(z, bounds[i]);
        if bounds[i].raw.Some? {
          BetweenSatisfies(x, y, z, bounds[i].rel, Parse(bounds[i].raw.value).value);
        }
      }
    }
  }
}
