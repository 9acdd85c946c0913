/**
 The verdict on one CVE for an estate. Product matching is a parameter: any relation that never
 matches an empty product name.
 */
module Applicability {
  import opened Common
  import opened Versions

  /** Host and product names; `NO_NAME` is the empty string. */
  type Name = nat
  const NO_NAME: Name := 0

  type Matcher = (Name, Name) -> bool

  datatype Software = Software(product: Name, version: Option<Text>)

  datatype Asset = Asset(hostname: Name, software: seq<Software>)

  datatype Reason =
    | NoAffectedRange | ProductNotInInventory | VersionUnknown
    | VersionUnparseable | VersionInRange | VersionNotInRange

  datatype Evidence = Evidence(reason: Reason, hostname: Name, product: Name, installed: Option<Text>)

  datatype Applicability = Confirmed | Candidate | NotApplicable

  function AssessOne(asset: Asset, s: Software, r: Range): Evidence {
    if !Truthy(s.version) then Evidence(VersionUnknown, asset.hostname, s.product, None)
    else
      var parsed := Parse(s.version.value);
      var reason :=
        if parsed.None? then VersionUnparseable
        else match InRange(parsed.value, r)
             case None => VersionUnparseable
             case Some(true) => VersionInRange
             case Some(false) => VersionNotInRange;
      Evidence(reason, asset.hostname, s.product, s.version)
  }

  // ----- The evidence, in scan order

  function RangeEvidence(asset: Asset, s: Software, affected: seq<Range>, matches: Matcher): seq<Evidence> {
    if affected == [] then []
    else RangeEvidence(asset, s, affected[..|affected| - 1], matches) +
         if matches(s.product, Last(affected).product) then [AssessOne(asset, s, Last(affected))] else []
  }

  function SoftwareEvidence(asset: Asset, software: seq<Software>, affected: seq<Range>,
                            matches: Matcher): seq<Evidence> {
    if software == [] then []
    else
      SoftwareEvidence(asset, software[..|software| - 1], affected, matches)
      + RangeEvidence(asset, Last(software), affected, matches)
  }

  function AllEvidence(assets: seq<Asset>, affected: seq<Range>, matches: Matcher): seq<Evidence> {
    if assets == [] then []
    else
      AllEvidence(assets[..|assets| - 1], affected, matches)
      + SoftwareEvidence(Last(assets), Last(assets).software, affected, matches)
  }

  predicate HasReason(evidence: seq<Evidence>, reason: Reason) {
    exists i :: 0 <= i < |evidence| && evidence[i].reason == reason
  }

  predicate OnlyReason(evidence: seq<Evidence>, reason: Reason) {
    forall i :: 0 <= i < |evidence| ==> evidence[i].reason == reason
  }

  function Assess(assets: seq<Asset>, affected: seq<Range>, matches: Matcher): (Applicability, seq<Evidence>) {
    if affected == [] then (Candidate, [Evidence(NoAffectedRange, NO_NAME, NO_NAME, None)])
    else
      var evidence := AllEvidence(assets, affected, matches);
      if evidence == [] then (Candidate, [Evidence(ProductNotInInventory, NO_NAME, NO_NAME, None)])
      else if HasReason(evidence, VersionInRange) then (Confirmed, evidence)
      else if OnlyReason(evidence, VersionNotInRange) then (NotApplicable, evidence)
      else (Candidate, evidence)
  }

  method AssessApplicability(assets: seq<Asset>, affected: seq<Range>, matches: Matcher)
    returns (verdict: Applicability, evidence: seq<Evidence>)
    ensures (verdict, evidence) == Assess(assets, affected, matches)
  {
    if affected == [] {
      return Candidate, [Evidence(NoAffectedRange, NO_NAME, NO_NAME, None)];
    }
    evidence := [];
    for a := 0 to |assets|
      invariant evidence == AllEvidence(assets[..a], affected, matches)
    {
      assert assets[..a + 1][..a] == assets[..a];
      evidence := ScanAsset(assets[a], affected, matches, evidence);
    }
    assert assets[..|assets|] == assets;
    if evidence == [] {
      return Candidate, [Evidence(ProductNotInInventory, NO_NAME, NO_NAME, None)];
    }
    var reasons := set e | e in evidence :: e.reason;
    ReasonSet(evidence, reasons);
    if VersionInRange in reasons {
      verdict := Confirmed;
    } else if reasons - {VersionNotInRange} != {} {
      verdict := Candidate;
    } else {
      verdict := NotApplicable;
    }
  }

  lemma ReasonSet(evidence: seq<Evidence>, reasons: set<Reason>)
    requires reasons == set e | e in evidence :: e.reason
    ensures forall r :: r in reasons <==> HasReason(evidence, r)
    ensures reasons - {VersionNotInRange} == {} <==> OnlyReason(evidence, VersionNotInRange)
  {
    forall i | 0 <= i < |evidence| ensures evidence[i].reason in reasons {
      assert evidence[i] in evidence;
    }
    if reasons - {VersionNotInRange} == {} {
      assert forall r :: r in reasons ==> r == VersionNotInRange || r in reasons - {VersionNotInRange};
    }
  }

  /** The loops over an asset's software and the published ranges. */
  method ScanAsset(asset: Asset, affected: seq<Range>, matches: Matcher, before: seq<Evidence>)
    returns (evidence: seq<Evidence>)
    ensures evidence == before + SoftwareEvidence(asset, asset.software, affected, matches)
  {
    evidence := before;
    for k := 0 to |asset.software|
      invariant evidence == before + SoftwareEvidence(asset, asset.software[..k], affected, matches)
    {
      var s := asset.software[k];
      ghost var earlier := evidence;
      assert asset.software[..k + 1][..k] == asset.software[..k];
      for n := 0 to |affected|
        invariant evidence == earlier + RangeEvidence(asset, s, affected[..n], matches)
      {
        assert affected[..n + 1][..n] == affected[..n];
        if matches(s.product, affected[n].product) {
          evidence := evidence + [AssessOne(asset, s, affected[n])];
        }
      }
      assert affected[..|affected|] == affected;
      assert evidence == before
             + (SoftwareEvidence(asset, asset.software[..k], affected, matches)
               + RangeEvidence(asset, s, affected, matches));
    }
    assert asset.software[..|asset.software|] == asset.software;
  }

  // ----- What the verdict means

  /** An installed product that some published range is about. */
  datatype Pairing = Pairing(asset: Asset, software: Software, affected: Range)

  predicate Pairs(p: Pairing, assets: seq<Asset>, affected: seq<Range>, matches: Matcher) {
    p.asset in assets && p.software in p.asset.software && p.affected in affected
      && matches(p.software.product, p.affected.product)
  }

  function Finding(p: Pairing): Evidence { AssessOne(p.asset, p.software, p.affected) }

  lemma {:induction false} RangeMembers(asset: Asset, s: Software, affected: seq<Range>, matches: Matcher, e: Evidence)
    ensures e in RangeEvidence(asset, s, affected, matches) <==>
            exists r :: r in affected && matches(s.product, r.product) && e == AssessOne(asset, s, r)
  {
    if affected != [] {
      RangeMembers(asset, s, affected[..|affected| - 1], matches, e);
      assert affected == affected[..|affected| - 1] + [Last(affected)];
    }
  }

  lemma {:induction false} SoftwareMembers(asset: Asset, software: seq<Software>, affected: seq<Range>,
                                           matches: Matcher, e: Evidence)
    ensures e in SoftwareEvidence(asset, software, affected, matches) <==>
            exists s :: s in software && e in RangeEvidence(asset, s, affected, matches)
  {
    if software != [] {
      var front := software[..|software| - 1];
      SoftwareMembers(asset, front, affected, matches, e);
      assert forall s :: s in software <==> s in front || s == Last(software);
      assert SoftwareEvidence(asset, software, affected, matches)
          == SoftwareEvidence(asset, front, affected, matches)
            + RangeEvidence(asset, Last(software), affected, matches);
      if s :| s in software && e in RangeEvidence(asset, s, affected, matches) {
        assert s in front || s == Last(software);
      }
    }
  }

  lemma {:induction false} AssetMembers(assets: seq<Asset>, affected: seq<Range>, matches: Matcher, e: Evidence)
    ensures e in AllEvidence(assets, affected, matches) <==>
            exists a :: a in assets && e in SoftwareEvidence(a, a.software, affected, matches)
  {
    if assets != [] {
      var front := assets[..|assets| - 1];
      AssetMembers(front, affected, matches, e);
      assert forall a :: a in assets <==> a in front || a == Last(assets);
    }
  }

  // ----- Each pairing once, by asset, then by software, then by range

  lemma OneRange(asset: Asset, s: Software, r: Range, matches: Matcher)
    ensures RangeEvidence(asset, s, [r], matches)
         == if matches(s.product, r.product) then [AssessOne(asset, s, r)] else []
  {
    assert [r][..0] == [];
  }

  lemma {:induction false} RangesInOrder(asset: Asset, s: Software, a: seq<Range>, b: seq<Range>, matches: Matcher)
    ensures RangeEvidence(asset, s, a + b, matches)
         == RangeEvidence(asset, s, a, matches) + RangeEvidence(asset, s, b, matches)
    decreases |b|
  {
    if b == [] {
      assert a + b == a;
    } else {
      var front := b[..|b| - 1];
      var last := if matches(s.product, Last(b).product) then [AssessOne(asset, s, Last(b))] else [];
      calc {
        RangeEvidence(asset, s, a + b, matches);
        { assert (a + b)[..|a + b| - 1] == a + front; }
        RangeEvidence(asset, s, a + front, matches) + last;
        { RangesInOrder(asset, s, a, front, matches); }
        RangeEvidence(asset, s, a, matches) + RangeEvidence(asset, s, front, matches) + last;
        RangeEvidence(asset, s, a, matches) + (RangeEvidence(asset, s, front, matches) + last);
        RangeEvidence(asset, s, a, matches) + RangeEvidence(asset, s, b, matches);
      }
    }
  }

  lemma {:induction false} SoftwareInOrder(asset: Asset, a: seq<Software>, b: seq<Software>, affected: seq<Range>,
                                           matches: Matcher)
    ensures SoftwareEvidence(asset, a + b, affected, matches)
         == SoftwareEvidence(asset, a, affected, matches) + SoftwareEvidence(asset, b, affected, matches)
    ensures forall s :: SoftwareEvidence(asset, [s], affected, matches) == RangeEvidence(asset, s, affected, matches)
    decreases |b|
  {
    forall s ensures SoftwareEvidence(asset, [s], affected, matches) == RangeEvidence(asset, s, affected, matches) {
      assert [s][..0] == [];
    }
    if b == [] {
      assert a + b == a;
    } else {
      SoftwareInOrder(asset, a, b[..|b| - 1], affected, matches);
      assert (a + b)[..|a + b| - 1] == a + b[..|b| - 1];
    }
  }

  /** An inventory is assessed part by part: the evidence of one asset after that of another, each finding once. */
  lemma {:induction false} AssetsInOrder(a: seq<Asset>, b: seq<Asset>, affected: seq<Range>, matches: Matcher)
    ensures AllEvidence(a + b, affected, matches)
            == AllEvidence(a, affected, matches) + AllEvidence(b, affected, matches)
    ensures forall asset :: AllEvidence([asset], affected, matches)
                         == SoftwareEvidence(asset, asset.software, affected, matches)
    decreases |b|
  {
    forall asset ensures AllEvidence([asset], affected, matches)
                      == SoftwareEvidence(asset, asset.software, affected, matches)
    {
      assert [asset][..0] == [];
    }
    if b == [] {
      assert a + b == a;
    } else {
      AssetsInOrder(a, b[..|b| - 1], affected, matches);
      assert (a + b)[..|a + b| - 1] == a + b[..|b| - 1];
    }
  }

  /** The evidence is exactly the findings of all pairings. */
  lemma EvidenceExact(assets: seq<Asset>, affected: seq<Range>, matches: Matcher, e: Evidence)
    ensures e in AllEvidence(assets, affected, matches) <==>
            exists p :: Pairs(p, assets, affected, matches) && e == Finding(p)
  {
    AssetMembers(assets, affected, matches, e);
    if e in AllEvidence(assets, affected, matches) {
      var a :| a in assets && e in SoftwareEvidence(a, a.software, affected, matches);
      SoftwareMembers(a, a.software, affected, matches, e);
      var s :| s in a.software && e in RangeEvidence(a, s, affected, matches);
      RangeMembers(a, s, affected, matches, e);
      var r :| r in affected && matches(s.product, r.product) && e == AssessOne(a, s, r);
      assert Pairs(Pairing(a, s, r), assets, affected, matches);
    }
    if p :| Pairs(p, assets, affected, matches) && e == Finding(p) {
      RangeMembers(p.asset, p.software, affected, matches, e);
      SoftwareMembers(p.asset, p.asset.software, affected, matches, e);
    }
  }

  /** The installed version is known, readable, and inside the published range. */
  predicate Exposed(p: Pairing) {
    && Truthy(p.software.version) && Parse(p.software.version.value).Some?
    && InRange(Parse(p.software.version.value).value, p.affected) == Some(true)
  }

  /** The installed version is known, readable, and decidably outside. */
  predicate Cleared(p: Pairing) {
    && Truthy(p.software.version) && Parse(p.software.version.value).Some?
    && InRange(Parse(p.software.version.value).value, p.affected) == Some(false)
  }

  /** A finding names the host and product it is about, the version as installed, and the reason that fits. */
  lemma FindingExact(p: Pairing)
    ensures var e, text := Finding(p), p.software.version;
            && e.hostname == p.asset.hostname && e.product == p.software.product
            && e.installed == (if text.Some? && text.value != Blank then text else None)
            && (e.reason == VersionUnknown <==> text.None? || text.value == Blank)
            && (e.reason == VersionInRange <==> Exposed(p))
            && (e.reason == VersionNotInRange <==> Cleared(p))
            && e.reason in {VersionUnknown, VersionUnparseable, VersionInRange, VersionNotInRange}
  {
  }

  /** Without a published range, or without any matching product, there is one finding that says so. */
  lemma NothingToAssess(assets: seq<Asset>, affected: seq<Range>, matches: Matcher)
    ensures affected == [] ==>
            Assess(assets, affected, matches) == (Candidate, [Evidence(NoAffectedRange, NO_NAME, NO_NAME, None)])
    ensures affected != [] && AllEvidence(assets, affected, matches) == [] ==>
              Assess(assets, affected, matches)
                == (Candidate, [Evidence(ProductNotInInventory, NO_NAME, NO_NAME, None)])
    ensures affected != [] && AllEvidence(assets, affected, matches) != [] ==>
              Assess(assets, affected, matches).1 == AllEvidence(assets, affected, matches)
  {
  }

  /**
   Confirmed exactly when some pairing is exposed; not applicable exactly when there are pairings
   and all are cleared.
   */
  lemma VerdictExact(assets: seq<Asset>, affected: seq<Range>, matches: Matcher)
    ensures var verdict := Assess(assets, affected, matches).0;
            && (verdict == Confirmed <==> exists p :: Pairs(p, assets, affected, matches) && Exposed(p))
            && (verdict == NotApplicable <==>
                 (exists p :: Pairs(p, assets, affected, matches))
                   && (forall p :: Pairs(p, assets, affected, matches) ==> Cleared(p)))
  {
    var evidence := AllEvidence(assets, affected, matches);
    forall e ensures e in evidence <==> exists p :: Pairs(p, assets, affected, matches) && e == Finding(p) {
      EvidenceExact(assets, affected, matches, e);
    }
    if HasReason(evidence, VersionInRange) {
      var i :| 0 <= i < |evidence| && evidence[i].reason == VersionInRange;
      assert evidence[i] in evidence;
      var p :| Pairs(p, assets, affected, matches) && evidence[i] == Finding(p);
      assert Exposed(p);
    }
    if p :| Pairs(p, assets, affected, matches) && Exposed(p) {
      assert Finding(p) in evidence;
      var i :| 0 <= i < |evidence| && evidence[i] == Finding(p);
    }
    if p :| Pairs(p, assets, affected, matches) {
      assert Finding(p) in evidence;
    }
    assert evidence != [] ==> evidence[0] in evidence;
    if OnlyReason(evidence, VersionNotInRange) {
      forall p | Pairs(p, assets, affected, matches) ensures Cleared(p) {
        assert Finding(p) in evidence;
        var i :| 0 <= i < |evidence| && evidence[i] == Finding(p);
      }
    } else {
      var i :| 0 <= i < |evidence| && evidence[i].reason != VersionNotInRange;
      assert evidence[i] in evidence;
      var p :| Pairs(p, assets, affected, matches) && evidence[i] == Finding(p);
      assert !Cleared(p);
    }
  }

  /** Learning of more assets never withdraws a confirmation. */
  lemma ConfirmationIsStable(assets: seq<Asset>, more: seq<Asset>, affected: seq<Range>, matches: Matcher)
    requires Assess(assets, affected, matches).0 == Confirmed
    requires forall a :: a in assets ==> a in more
    ensures Assess(more, affected, matches).0 == Confirmed
  {
    VerdictExact(assets, affected, matches);
    VerdictExact(more, affected, matches);
    var p :| Pairs(p, assets, affected, matches) && Exposed(p);
    assert Pairs(p, more, affected, matches);
  }

  /** What the assessment contract demands of a confirmation: evidence naming host, product and version. */
  predicate Supported(evidence: seq<Evidence>) {
    exists i :: 0 <= i < |evidence| && evidence[i].reason == VersionInRange
                && evidence[i].hostname != NO_NAME && evidence[i].product != NO_NAME && Truthy(evidence[i].installed)
  }

  /** A confirmation passes its own contract exactly when some exposed pairing is on a named host. */
  lemma ConfirmationSupportedIff(assets: seq<Asset>, affected: seq<Range>, matches: Matcher)
    requires forall p, q :: matches(p, q) ==> p != NO_NAME
    requires Assess(assets, affected, matches).0 == Confirmed
    ensures Supported(Assess(assets, affected, matches).1) <==>
            exists p :: Pairs(p, assets, affected, matches) && Exposed(p) && p.asset.hostname != NO_NAME
  {
    var evidence := Assess(assets, affected, matches).1;
    if i :| 0 <= i < |evidence| && evidence[i].reason == VersionInRange && evidence[i].hostname != NO_NAME {
      assert evidence[i] in evidence;
      EvidenceExact(assets, affected, matches, evidence[i]);
      var p :| Pairs(p, assets, affected, matches) && evidence[i] == Finding(p);
      assert Exposed(p);
    }
    if p :| Pairs(p, assets, affected, matches) && Exposed(p) && p.asset.hostname != NO_NAME {
      EvidenceExact(assets, affected, matches, Finding(p));
      var i :| 0 <= i < |evidence| && evidence[i] == Finding(p);
      assert matches(p.software.product, p.affected.product);
    }
  }

  /** Such a failure: a confirmed assessment of a host without a name, which its own contract refuses. */
  lemma NamelessHostIsRefused(product: Name, affected: Name, matches: Matcher)
    requires (forall p, q :: matches(p, q) ==> p != NO_NAME) && matches(product, affected)
    ensures var assets := [Asset(NO_NAME, [Software(product, Some(Tokens([Number(1)])))])];
            var (verdict, evidence) := Assess(assets, [Range(affected, None, None, None, None)], matches);
            verdict == Confirmed && !Supported(evidence)
  {
    var s, r := Software(product, Some(Tokens([Number(1)]))), Range(affected, None, None, None, None);
    var host := Asset(NO_NAME, [s]);
    assert [Number(1)][1..] == [];
    assert ReleasePart([Number(1)]) == [1] + ReleasePart([Number(1)][1..]);
    assert Exposed(Pairing(host, s, r)) && Pairs(Pairing(host, s, r), [host], [r], matches);
    VerdictExact([host], [r], matches);
    ConfirmationSupportedIff([host], [r], matches);
  }
}
