/**
 What a single dispatch does, and what dispatching again does: failover order, the sends made,
 when nothing is sent, and who has been told.
 */
module Dispatching {
  import opened Common
  import opened MaximalRuns
  import opened Alerts

  // ----- One dispatch

  function Targets(handled: seq<Handling>): seq<Target> {
    seq(|handled|, i requires 0 <= i < |handled| => handled[i].target)
  }

  lemma {:induction false} TierHandlesAll(ledger: Ledger, alert: Alert, tier: seq<Target>, settings: Settings,
                                          world: World)
    ensures Targets(DeliverTier(ledger, alert, tier, settings, world).handled) == tier
    decreases |tier|
  {
    if tier != [] {
      var first := Deliver(ledger, alert, tier[0], settings, world);
      var rest := DeliverTier(first.ledger, alert, tier[1..], settings, world);
      TierHandlesAll(first.ledger, alert, tier[1..], settings, world);
      assert Targets(first.handled) == [tier[0]];
    }
  }

  /**
   Failover: the targets handled are those of the first `tried` tiers, all of them and in order;
   only the last tried tier reaches anybody, and tiers are left untried only when it did.
   */
  ghost predicate InFailoverOrder(handled: seq<Handling>, plan: seq<seq<Target>>, tried: nat) {
    && tried <= |plan|
    && Targets(handled) == Flatten(plan[..tried])
    && (tried < |plan| ==> AnyReached(handled))
    && (tried > 0 ==> forall p :: 0 <= p < |handled| && p < |Flatten(plan[..tried - 1])| ==> !Reaches(handled[p]))
  }

  lemma FlattenPrefix<T>(plan: seq<seq<T>>, n: nat)
    requires n < |plan|
    ensures Flatten(plan[..n + 1]) == plan[0] + Flatten(plan[1..][..n])
  {
    assert plan[..n + 1][1..] == plan[1..][..n];
  }

  lemma PrependTier(first: seq<Handling>, rest: seq<Handling>, plan: seq<seq<Target>>, more: nat)
    requires plan != [] && Targets(first) == plan[0] && !AnyReached(first)
    requires InFailoverOrder(rest, plan[1..], more)
    ensures InFailoverOrder(first + rest, plan, more + 1)
  {
    var handled := first + rest;
    FlattenPrefix(plan, more);
    assert Targets(handled) == Targets(first) + Targets(rest);
    assert |first| == |plan[0]|;
    assert forall p :: 0 <= p < |first| ==> !Reaches(handled[p]);
    assert forall p :: 0 <= p < |rest| ==> handled[|first| + p] == rest[p];
    if more > 0 {
      FlattenPrefix(plan, more - 1);
      forall p | 0 <= p < |handled| && p < |Flatten(plan[..more])| ensures !Reaches(handled[p]) {
        assert p >= |first| ==> handled[p] == rest[p - |first|];
      }
    } else {
      assert plan[..0] == [];
    }
  }

  lemma {:induction false} FailoverOrder(ledger: Ledger, alert: Alert, plan: seq<seq<Target>>, settings: Settings,
                                         world: World)
    returns (tried: nat)
    ensures InFailoverOrder(DeliverPlan(ledger, alert, plan, settings, world).handled, plan, tried)
    decreases |plan|
  {
    if plan == [] {
      tried := 0;
    } else {
      var first := DeliverTier(ledger, alert, plan[0], settings, world);
      TierHandlesAll(ledger, alert, plan[0], settings, world);
      if AnyReached(first.handled) {
        tried := 1;
        FlattenPrefix(plan, 0);
      } else {
        var more := FailoverOrder(first.ledger, alert, plan[1..], settings, world);
        tried := more + 1;
        PrependTier(first.handled, DeliverPlan(first.ledger, alert, plan[1..], settings, world).handled, plan, more);
      }
    }
  }

  // ----- The sends of one dispatch

  /**
   The sends made for one handled target: none if it was already told, else a bounded loop that
   stops at a delivery or a refusal.
   */
  ghost predicate Accounts(h: Handling, answers: seq<Answer>, settings: Settings) {
    match h.outcome
    case None => answers == []
    case Some(o) =>
      && o.target == h.target
      && o.attempts == |answers| <= settings.maxAttempts
      && (forall i :: 0 <= i < |answers| - 1 ==> answers[i] == Undelivered)
      && (h.target.channel in settings.adapters && |answers| < settings.maxAttempts ==>
         answers != [] && Last(answers) != Undelivered)
      && (h.target.channel !in settings.adapters ==> answers == [])
      && (o.delivered <==> answers != [] && Last(answers) == Delivered)
      && (o.refused <==> answers == [] || Last(answers) == Refused)
  }

  function LetterOf(alert: Alert, target: Target): Letter { Letter(alert.investigation, alert.approval, target) }

  function SendsFor(alert: Alert, handled: seq<Handling>, segments: seq<seq<Answer>>): seq<Send>
    requires |handled| == |segments|
  {
    if handled == [] then []
    else Tag(LetterOf(alert, handled[0].target), segments[0]) + SendsFor(alert, handled[1..], segments[1..])
  }

  /** `segments` explains every send between `before` and `after`, target by target. */
  ghost predicate Explains(segments: seq<seq<Answer>>, before: seq<Send>, after: seq<Send>, alert: Alert,
                           handled: seq<Handling>, settings: Settings) {
    && |segments| == |handled|
    && (forall i :: 0 <= i < |handled| ==> Accounts(handled[i], segments[i], settings))
    && after == before + SendsFor(alert, handled, segments)
  }

  lemma {:induction false} SendsForAppend(alert: Alert, h1: seq<Handling>, s1: seq<seq<Answer>>, h2: seq<Handling>,
                                          s2: seq<seq<Answer>>)
    requires |h1| == |s1| && |h2| == |s2|
    ensures SendsFor(alert, h1 + h2, s1 + s2) == SendsFor(alert, h1, s1) + SendsFor(alert, h2, s2)
  {
    if h1 == [] {
      assert h1 + h2 == h2 && s1 + s2 == s2;
    } else {
      SendsForAppend(alert, h1[1..], s1[1..], h2, s2);
      assert (h1 + h2)[1..] == h1[1..] + h2 && (s1 + s2)[1..] == s1[1..] + s2;
    }
  }

  lemma ExplainsAppend(s1: seq<seq<Answer>>, s2: seq<seq<Answer>>, a: seq<Send>, b: seq<Send>, c: seq<Send>,
                       alert: Alert, h1: seq<Handling>, h2: seq<Handling>, settings: Settings)
    requires Explains(s1, a, b, alert, h1, settings) && Explains(s2, b, c, alert, h2, settings)
    ensures Explains(s1 + s2, a, c, alert, h1 + h2, settings)
  {
    SendsForAppend(alert, h1, s1, h2, s2);
  }

  lemma DeliverAccounts(ledger: Ledger, alert: Alert, target: Target, settings: Settings, world: World)
    returns (segments: seq<seq<Answer>>)
    ensures var t := Deliver(ledger, alert, target, settings, world);
            Explains(segments, ledger.log, t.ledger.log, alert, t.handled, settings)
  {
    var t := Deliver(ledger, alert, target, settings, world);
    segments := [if IsSent(ledger.rows, KeyOf(alert, target)) then []
                 else SendLoop(ledger, target.channel, settings, world)];
    assert SendsFor(alert, t.handled, segments) == Tag(LetterOf(alert, target), segments[0]) + SendsFor(alert, [], []);
  }

  lemma {:induction false} TierAccounts(ledger: Ledger, alert: Alert, tier: seq<Target>, settings: Settings,
                                        world: World)
    returns (segments: seq<seq<Answer>>)
    ensures var t := DeliverTier(ledger, alert, tier, settings, world);
            Explains(segments, ledger.log, t.ledger.log, alert, t.handled, settings)
    decreases |tier|
  {
    if tier == [] {
      segments := [];
    } else {
      var first := Deliver(ledger, alert, tier[0], settings, world);
      var rest := DeliverTier(first.ledger, alert, tier[1..], settings, world);
      var s1 := DeliverAccounts(ledger, alert, tier[0], settings, world);
      var s2 := TierAccounts(first.ledger, alert, tier[1..], settings, world);
      segments := s1 + s2;
      ExplainsAppend(s1, s2, ledger.log, first.ledger.log, rest.ledger.log, alert, first.handled, rest.handled,
        settings);
    }
  }

  /** Every send of a dispatch belongs to one handled target's own bounded loop, in handling order. */
  lemma {:induction false} PlanAccounts(ledger: Ledger, alert: Alert, plan: seq<seq<Target>>, settings: Settings,
                                        world: World)
    returns (segments: seq<seq<Answer>>)
    ensures var t := DeliverPlan(ledger, alert, plan, settings, world);
            Explains(segments, ledger.log, t.ledger.log, alert, t.handled, settings)
    decreases |plan|
  {
    if plan == [] {
      segments := [];
    } else {
      var first := DeliverTier(ledger, alert, plan[0], settings, world);
      segments := TierAccounts(ledger, alert, plan[0], settings, world);
      if !AnyReached(first.handled) {
        var rest := DeliverPlan(first.ledger, alert, plan[1..], settings, world);
        var more := PlanAccounts(first.ledger, alert, plan[1..], settings, world);
        ExplainsAppend(segments, more, ledger.log, first.ledger.log, rest.ledger.log, alert, first.handled,
          rest.handled, settings);
        segments := segments + more;
      }
    }
  }

  // ----- Dispatching again

  /** Already told, or impossible to tell: no adapter, or no attempts allowed. */
  predicate Quiet(rows: seq<Row>, alert: Alert, target: Target, settings: Settings) {
    settings.maxAttempts == 0 || target.channel !in settings.adapters || IsSent(rows, KeyOf(alert, target))
  }

  /**
   A delivery sends nothing exactly when its target is quiet; then it changes nobody's quietness and
   reaches nobody.
   */
  lemma DeliverQuiet(ledger: Ledger, alert: Alert, target: Target, settings: Settings, world: World)
    ensures var t := Deliver(ledger, alert, target, settings, world);
            && ledger.log <= t.ledger.log
            && (t.ledger.log == ledger.log <==> Quiet(ledger.rows, alert, target, settings))
            && (t.ledger.log == ledger.log ==> !AnyReached(t.handled))
            && (t.ledger.log == ledger.log ==>
                 forall other :: Quiet(t.ledger.rows, alert, other, settings)
                   == Quiet(ledger.rows, alert, other, settings))
  {
    var t := Deliver(ledger, alert, target, settings, world);
    var key := KeyOf(alert, target);
    if !IsSent(ledger.rows, key) && Quiet(ledger.rows, alert, target, settings) {
      assert SendLoop(ledger, target.channel, settings, world) == [];
      forall other ensures IsSent(t.ledger.rows, KeyOf(alert, other)) == IsSent(ledger.rows, KeyOf(alert, other)) {
        SentAfter(ledger, alert, target, [], KeyOf(alert, other));
      }
    }
  }

  /** An attempt makes its own target SENT if it delivers, and changes nobody else's SENT status. */
  lemma SentAfter(ledger: Ledger, alert: Alert, target: Target, answers: seq<Answer>, k: Key)
    requires !IsSent(ledger.rows, KeyOf(alert, target))
    ensures var i := RowIndex(ledger, KeyOf(alert, target));
            var after := Conclude(WithRow(ledger, alert, target), i, LetterOf(alert, target), answers, Failed);
            IsSent(after.rows, k) <==> IsSent(ledger.rows, k) || (k == KeyOf(alert, target) && EndsDelivered(answers))
  {
    var i := RowIndex(ledger, KeyOf(alert, target));
    var after := Conclude(WithRow(ledger, alert, target), i, LetterOf(alert, target), answers, Failed);
    assert forall j :: 0 <= j < |ledger.rows| ==> after.rows[j].key == ledger.rows[j].key;
    assert forall j :: 0 <= j < |ledger.rows| && j != i ==> after.rows[j] == ledger.rows[j];
    assert after.rows[i].key == KeyOf(alert, target) && (after.rows[i].status == Sent <==> EndsDelivered(answers));
    assert |after.rows| == |ledger.rows| || (i == |ledger.rows| && |after.rows| == i + 1);
    var f, g := Find(ledger.rows, k), Find(after.rows, k);
    if f.Some? {
      assert g.Some? by { assert after.rows[f.value].key == k; }
      assert g.value == f.value;
    } else if g.Some? {
      assert g.value == i;
    }
  }

  lemma {:induction false} TierQuiet(ledger: Ledger, alert: Alert, tier: seq<Target>, settings: Settings, world: World)
    ensures var t := DeliverTier(ledger, alert, tier, settings, world);
            && ledger.log <= t.ledger.log
            && (t.ledger.log == ledger.log <==> AllQuiet(ledger.rows, alert, tier, settings))
            && (t.ledger.log == ledger.log ==> !AnyReached(t.handled))
            && (t.ledger.log == ledger.log ==>
                 forall other :: Quiet(t.ledger.rows, alert, other, settings)
                   == Quiet(ledger.rows, alert, other, settings))
    decreases |tier|
  {
    if tier != [] {
      var first := Deliver(ledger, alert, tier[0], settings, world);
      DeliverQuiet(ledger, alert, tier[0], settings, world);
      TierQuiet(first.ledger, alert, tier[1..], settings, world);
      assert tier == [tier[0]] + tier[1..];
    }
  }

  ghost predicate AllQuiet(rows: seq<Row>, alert: Alert, targets: seq<Target>, settings: Settings) {
    forall target :: target in targets ==> Quiet(rows, alert, target, settings)
  }

  lemma {:induction false} PlanQuiet(ledger: Ledger, alert: Alert, plan: seq<seq<Target>>, settings: Settings,
                                     world: World)
    ensures var t := DeliverPlan(ledger, alert, plan, settings, world);
            && ledger.log <= t.ledger.log
            && (t.ledger.log == ledger.log <==> AllQuiet(ledger.rows, alert, Flatten(plan), settings))
    decreases |plan|
  {
    if plan != [] {
      var first := DeliverTier(ledger, alert, plan[0], settings, world);
      TierQuiet(ledger, alert, plan[0], settings, world);
      if !AnyReached(first.handled) {
        PlanQuiet(first.ledger, alert, plan[1..], settings, world);
        if first.ledger.log == ledger.log {
          SameQuiet(ledger.rows, first.ledger.rows, alert, Flatten(plan[1..]), settings);
        }
      }
    }
  }

  lemma SameQuiet(before: seq<Row>, after: seq<Row>, alert: Alert, targets: seq<Target>, settings: Settings)
    requires forall other :: Quiet(after, alert, other, settings) == Quiet(before, alert, other, settings)
    ensures AllQuiet(after, alert, targets, settings) <==> AllQuiet(before, alert, targets, settings)
  {
  }

  /**
   The exact no-op condition: a verified dispatch above the floor sends nothing if and only if
   every target that has an adapter is already SENT (attempts being allowed at all).
   */
  lemma SilentIffEveryoneTold(book: Book, ledger: Ledger, alert: Alert, settings: Settings, world: World)
    requires Approved(book, alert.investigation, alert.approval) && WorthAlerting(alert.priority, settings.minPriority)
    requires settings.maxAttempts > 0
    ensures Dispatch(book, ledger, alert, settings, world).0.log == ledger.log <==>
            forall target :: target in settings.targets && target.channel in settings.adapters ==>
              Told(ledger.rows, alert, target)
  {
    var plan := Plan(settings.targets);
    PlanQuiet(ledger, alert, plan, settings, world);
    assert Flatten(plan) == settings.targets;
    assert AllQuiet(ledger.rows, alert, settings.targets, settings) <==>
           forall target :: target in settings.targets && target.channel in settings.adapters ==>
             Told(ledger.rows, alert, target);
  }

  // ----- Who is attempted and who is skipped

  predicate SamePlace(a: Target, b: Target) { a.channel == b.channel && a.recipient.address == b.recipient.address }

  /** One of these handlings delivered to the target's own channel and address. */
  ghost predicate ReachedAt(handled: seq<Handling>, target: Target) {
    exists q :: 0 <= q < |handled| && Reaches(handled[q]) && SamePlace(handled[q].target, target)
  }

  /** A target is skipped exactly if it was told before the call or earlier in it; and who is told afterwards. */
  ghost predicate SkipsTheTold(t: Trace, rows: seq<Row>, alert: Alert) {
    && (forall p :: 0 <= p < |t.handled| ==>
         (t.handled[p].outcome.None? <==>
           Told(rows, alert, t.handled[p].target) || ReachedAt(t.handled[..p], t.handled[p].target)))
    && (forall target: Target :: Told(t.ledger.rows, alert, target) <==>
         Told(rows, alert, target) || ReachedAt(t.handled, target))
  }

  lemma DeliverSkips(ledger: Ledger, alert: Alert, target: Target, settings: Settings, world: World)
    ensures SkipsTheTold(Deliver(ledger, alert, target, settings, world), ledger.rows, alert)
  {
    var t := Deliver(ledger, alert, target, settings, world);
    forall other: Target ensures Told(t.ledger.rows, alert, other) <==>
      Told(ledger.rows, alert, other) || ReachedAt(t.handled, other)
    {
      assert ReachedAt(t.handled, other) <==> Reaches(t.handled[0]) && SamePlace(t.handled[0].target, other);
      if !IsSent(ledger.rows, KeyOf(alert, target)) {
        KeyOfIff(alert, target, alert, other);
        SentAfter(ledger, alert, target, SendLoop(ledger, target.channel, settings, world), KeyOf(alert, other));
      }
    }
  }

  lemma ReachedAtAppend(a: seq<Handling>, b: seq<Handling>, target: Target)
    ensures ReachedAt(a + b, target) <==> ReachedAt(a, target) || ReachedAt(b, target)
  {
    var all := a + b;
    assert forall q :: 0 <= q < |a| ==> all[q] == a[q];
    assert forall q :: 0 <= q < |b| ==> all[|a| + q] == b[q];
  }

  lemma SkipsAppend(first: Trace, rest: Trace, rows: seq<Row>, alert: Alert)
    requires SkipsTheTold(first, rows, alert) && SkipsTheTold(rest, first.ledger.rows, alert)
    ensures SkipsTheTold(Trace(rest.ledger, first.handled + rest.handled), rows, alert)
  {
    var all, n := first.handled + rest.handled, |first.handled|;
    forall p | 0 <= p < |all|
      ensures all[p].outcome.None? <==> Told(rows, alert, all[p].target) || ReachedAt(all[..p], all[p].target)
    {
      if p < n {
        assert all[..p] == first.handled[..p];
      } else {
        assert all[..p] == first.handled + rest.handled[..p - n];
        ReachedAtAppend(first.handled, rest.handled[..p - n], all[p].target);
        assert all[p] == rest.handled[p - n];
      }
    }
    forall target: Target ensures Told(rest.ledger.rows, alert, target) <==>
      Told(rows, alert, target) || ReachedAt(all, target) {
      ReachedAtAppend(first.handled, rest.handled, target);
    }
  }

  lemma {:induction false} TierSkips(ledger: Ledger, alert: Alert, tier: seq<Target>, settings: Settings, world: World)
    ensures SkipsTheTold(DeliverTier(ledger, alert, tier, settings, world), ledger.rows, alert)
    decreases |tier|
  {
    if tier != [] {
      var first := Deliver(ledger, alert, tier[0], settings, world);
      DeliverSkips(ledger, alert, tier[0], settings, world);
      TierSkips(first.ledger, alert, tier[1..], settings, world);
      SkipsAppend(first, DeliverTier(first.ledger, alert, tier[1..], settings, world), ledger.rows, alert);
    }
  }

  /**
   Of the targets a dispatch handles, exactly those are skipped whose own address was told before
   the call, or earlier in it on the same channel; every other address is attempted.
   */
  lemma {:induction false} PlanSkips(ledger: Ledger, alert: Alert, plan: seq<seq<Target>>, settings: Settings,
                                     world: World)
    ensures SkipsTheTold(DeliverPlan(ledger, alert, plan, settings, world), ledger.rows, alert)
    decreases |plan|
  {
    if plan != [] {
      var first := DeliverTier(ledger, alert, plan[0], settings, world);
      TierSkips(ledger, alert, plan[0], settings, world);
      if !AnyReached(first.handled) {
        PlanSkips(first.ledger, alert, plan[1..], settings, world);
        SkipsAppend(first, DeliverPlan(first.ledger, alert, plan[1..], settings, world), ledger.rows, alert);
      }
    }
  }

  // ----- Who has been told after a dispatch

  lemma SentSurvives(a: Ledger, b: Ledger, key: Key)
    requires Evolves(a, b) && IsSent(a.rows, key)
    ensures IsSent(b.rows, key)
  {
  }

  lemma DeliverTells(ledger: Ledger, alert: Alert, target: Target, settings: Settings, world: World)
    ensures var t := Deliver(ledger, alert, target, settings, world);
            && |t.handled| == 1
            && (t.handled[0].outcome.None? || Reaches(t.handled[0]) ==> IsSent(t.ledger.rows, KeyOf(alert, target)))
  {
    var t := Deliver(ledger, alert, target, settings, world);
    var key := KeyOf(alert, target);
    if !IsSent(ledger.rows, key) && Reaches(t.handled[0]) {
      var i := RowIndex(ledger, key);
      assert t.ledger.rows[i].status == Sent && t.ledger.rows[i].key == key;
      assert forall j :: 0 <= j < i ==> t.ledger.rows[j].key == ledger.rows[j].key;
      assert Find(t.ledger.rows, key) == Some(i);
    }
  }

  /** After a tier, every target that was deduplicated or delivered to is SENT. */
  lemma {:induction false} TierTells(book: Book, ledger: Ledger, alert: Alert, tier: seq<Target>, settings: Settings,
                                     world: World, p: nat)
    requires Settled(book, ledger) && Approved(book, alert.investigation, alert.approval)
    requires p < |tier|
    ensures var t := DeliverTier(ledger, alert, tier, settings, world);
            && |t.handled| == |tier|
            && (t.handled[p].outcome.None? || Reaches(t.handled[p]) ==> IsSent(t.ledger.rows, KeyOf(alert, tier[p])))
    decreases |tier|
  {
    var first := Deliver(ledger, alert, tier[0], settings, world);
    var t := DeliverTier(ledger, alert, tier, settings, world);
    TierHandlesAll(ledger, alert, tier, settings, world);
    assert |Targets(t.handled)| == |t.handled|;
    DeliverKeeps(book, ledger, alert, tier[0], settings, world);
    DeliverTells(ledger, alert, tier[0], settings, world);
    if p > 0 {
      TierTells(book, first.ledger, alert, tier[1..], settings, world, p - 1);
    } else if IsSent(first.ledger.rows, KeyOf(alert, tier[0])) {
      TierKeeps(book, first.ledger, alert, tier[1..], settings, world);
      SentSurvives(first.ledger, t.ledger, KeyOf(alert, tier[0]));
    }
  }

  lemma {:induction false} OutcomesOf(handled: seq<Handling>, o: Outcome)
    ensures o in Outcomes(handled) <==> exists i :: 0 <= i < |handled| && handled[i].outcome == Some(o)
  {
    if handled != [] {
      OutcomesOf(handled[..|handled| - 1], o);
    }
  }

  /** On a single channel, a dispatch whose every outcome delivered makes the next identical dispatch silent. */
  lemma SingleChannelRedispatchIsSilent(book: Book, ledger: Ledger, alert: Alert, settings: Settings, w1: World,
                                        w2: World)
    requires Settled(book, ledger) && Approved(book, alert.investigation, alert.approval)
    requires WorthAlerting(alert.priority, settings.minPriority) && settings.targets != [] && settings.maxAttempts > 0
    requires forall i, j :: 0 <= i < |settings.targets| && 0 <= j < |settings.targets| ==>
             SameChannel(settings.targets[i], settings.targets[j])
    requires forall o :: o in Dispatch(book, ledger, alert, settings, w1).1.value.outcomes ==> o.delivered
    ensures var after := Dispatch(book, ledger, alert, settings, w1).0;
            Dispatch(book, after, alert, settings, w2).0.log == after.log
  {
    var tier := settings.targets;
    assert Flatten([tier]) == tier + Flatten<Target>([]);
    assert IsRun(tier, SameChannel);
    PartitionUnique([tier], Plan(tier), tier, SameChannel);
    var t := DeliverTier(ledger, alert, tier, settings, w1);
    var trace := DeliverPlan(ledger, alert, [tier], settings, w1);
    assert DeliverPlan(t.ledger, alert, [tier][1..], settings, w1) == Trace(t.ledger, []);
    assert trace.handled == t.handled && trace.ledger == t.ledger;
    TierHandlesAll(ledger, alert, tier, settings, w1);
    assert |Targets(t.handled)| == |t.handled|;
    forall target | target in tier ensures IsSent(t.ledger.rows, KeyOf(alert, target)) {
      var p :| 0 <= p < |tier| && tier[p] == target;
      TierTells(book, ledger, alert, tier, settings, w1, p);
      if t.handled[p].outcome.Some? {
        OutcomesOf(t.handled, t.handled[p].outcome.value);
      }
    }
    var after := Dispatch(book, ledger, alert, settings, w1).0;
    if after != t.ledger {
      PlanKeeps(book, ledger, alert, [tier], settings, w1);
      BuryKeeps(book, t.ledger, alert.approval);
      forall target | target in tier ensures IsSent(after.rows, KeyOf(alert, target)) {
        SentSurvives(t.ledger, after, KeyOf(alert, target));
      }
    }
    SilentIffEveryoneTold(book, after, alert, settings, w2);
  }

  lemma SingletonTier(ledger: Ledger, alert: Alert, target: Target, settings: Settings, world: World)
    ensures var t := Deliver(ledger, alert, target, settings, world);
            && DeliverTier(ledger, alert, [target], settings, world) == t
            && DeliverPlan(ledger, alert, [[target]], settings, world) == t
  {
  }

  function SlackThenEmail(a: Recipient, b: Recipient): Settings {
    Settings([Target(Slack, a), Target(Email, b)], {Slack, Email}, 1, Low)
  }

  lemma SlackThenEmailPlan(a: Recipient, b: Recipient)
    ensures Plan(SlackThenEmail(a, b).targets) == [[Target(Slack, a)], [Target(Email, b)]]
  {
    var slack, email := Target(Slack, a), Target(Email, b);
    var plan := [[slack], [email]];
    assert plan[1..] == [[email]];
    assert Flatten([[email]]) == [email] + Flatten<Target>([]);
    assert IsMaximalPartition(plan, [slack, email], SameChannel);
    PartitionUnique(plan, Plan([slack, email]), [slack, email], SameChannel);
  }

  /** The ledger after Slack delivered and e-mail was therefore never tried. */
  function SlackTold(alert: Alert, a: Recipient): Ledger {
    var key := KeyOf(alert, Target(Slack, a));
    Ledger([Row(key, a, alert.priority, Sent, 1)], [Send(LetterOf(alert, Target(Slack, a)), Delivered)])
  }

  lemma FirstDispatchTellsSlackOnly(book: Book, alert: Alert, a: Recipient, b: Recipient, world: World)
    requires Approved(book, alert.investigation, alert.approval)
    requires world(0) == Delivered
    ensures Dispatch(book, Ledger([], []), alert, SlackThenEmail(a, b), world).0 == SlackTold(alert, a)
  {
    var settings, empty, slack := SlackThenEmail(a, b), Ledger([], []), Target(Slack, a);
    SlackThenEmailPlan(a, b);
    SingletonTier(empty, alert, slack, settings, world);
    assert SendLoop(empty, Slack, settings, world) == [Delivered];
    var t := Deliver(empty, alert, slack, settings, world);
    assert t.ledger == SlackTold(alert, a);
    assert Reaches(t.handled[0]);
  }

  /**
   With a fallback channel the intended no-op fails: the second dispatch of an alert that Slack
   already delivered goes on to e-mail, and reports a dead letter when e-mail does not deliver,
   although somebody has the alert.
   */
  lemma RedispatchPagesTheFallback(book: Book, alert: Alert, a: Recipient, b: Recipient, world: World)
    requires Approved(book, alert.investigation, alert.approval)
    requires world(0) == Delivered
    ensures var settings := SlackThenEmail(a, b);
            var first := Dispatch(book, Ledger([], []), alert, settings, world).0;
            var (second, result) := Dispatch(book, first, alert, settings, world);
            && Told(first.rows, alert, Target(Slack, a))
            && second.log == first.log + [Send(LetterOf(alert, Target(Email, b)), world(1))]
            && result.Ok? && (result.value.deadLettered <==> world(1) != Delivered)
  {
    var settings, told := SlackThenEmail(a, b), SlackTold(alert, a);
    var slack, email := Target(Slack, a), Target(Email, b);
    FirstDispatchTellsSlackOnly(book, alert, a, b, world);
    SlackThenEmailPlan(a, b);
    SingletonTier(told, alert, slack, settings, world);
    SingletonTier(told, alert, email, settings, world);
    assert Find(told.rows, KeyOf(alert, slack)) == Some(0);
    assert SendLoop(told, Email, settings, world) == [world(1)];
    var t := Deliver(told, alert, email, settings, world);
    var trace := DeliverPlan(told, alert, [[slack], [email]], settings, world);
    assert [[slack], [email]][1..] == [[email]];
    assert trace.handled == [Handling(slack, None), t.handled[0]];
    assert AnyReached(trace.handled) <==> Reaches(trace.handled[1]);
  }

  // ----- What a dispatch leaves alone

  lemma DeliverFrame(ledger: Ledger, alert: Alert, target: Target, settings: Settings, world: World, i: nat)
    requires i < |ledger.rows| && ledger.rows[i].key.approval != alert.approval
    ensures var after := Deliver(ledger, alert, target, settings, world).ledger;
            i < |after.rows| && after.rows[i] == ledger.rows[i]
  {
  }

  lemma {:induction false} TierFrame(ledger: Ledger, alert: Alert, tier: seq<Target>, settings: Settings,
                                     world: World, i: nat)
    requires i < |ledger.rows| && ledger.rows[i].key.approval != alert.approval
    ensures var after := DeliverTier(ledger, alert, tier, settings, world).ledger;
            i < |after.rows| && after.rows[i] == ledger.rows[i]
    decreases |tier|
  {
    if tier != [] {
      DeliverFrame(ledger, alert, tier[0], settings, world, i);
      TierFrame(Deliver(ledger, alert, tier[0], settings, world).ledger, alert, tier[1..], settings, world, i);
    }
  }

  lemma {:induction false} PlanFrame(ledger: Ledger, alert: Alert, plan: seq<seq<Target>>, settings: Settings,
                                     world: World, i: nat)
    requires i < |ledger.rows| && ledger.rows[i].key.approval != alert.approval
    ensures var after := DeliverPlan(ledger, alert, plan, settings, world).ledger;
            i < |after.rows| && after.rows[i] == ledger.rows[i]
    decreases |plan|
  {
    if plan != [] {
      var first := DeliverTier(ledger, alert, plan[0], settings, world);
      TierFrame(ledger, alert, plan[0], settings, world, i);
      if !AnyReached(first.handled) {
        PlanFrame(first.ledger, alert, plan[1..], settings, world, i);
      }
    }
  }

  /** A dispatch touches no row of another approval, dead-lettering included. */
  lemma DispatchFrame(book: Book, ledger: Ledger, alert: Alert, settings: Settings, world: World, i: nat)
    requires i < |ledger.rows| && ledger.rows[i].key.approval != alert.approval
    ensures var after := Dispatch(book, ledger, alert, settings, world).0;
            i < |after.rows| && after.rows[i] == ledger.rows[i]
  {
    PlanFrame(ledger, alert, Plan(settings.targets), settings, world, i);
  }

  // ----- What a dispatch reports

  function OutcomeTargets(outcomes: seq<Outcome>): seq<Target> {
    seq(|outcomes|, i requires 0 <= i < |outcomes| => outcomes[i].target)
  }

  ghost predicate OwnTargets(handled: seq<Handling>) {
    forall p :: 0 <= p < |handled| && handled[p].outcome.Some? ==> handled[p].outcome.value.target == handled[p].target
  }

  lemma {:induction false} ReportSplits(handled: seq<Handling>)
    requires OwnTargets(handled)
    ensures multiset(OutcomeTargets(Outcomes(handled))) + multiset(Deduplicated(handled)) == multiset(Targets(handled))
  {
    if handled != [] {
      var front, last := handled[..|handled| - 1], Last(handled);
      ReportSplits(front);
      assert Targets(handled) == Targets(front) + [last.target];
      if last.outcome.Some? {
        assert handled[|front|] == last;
        assert OutcomeTargets(Outcomes(handled)) == OutcomeTargets(Outcomes(front)) + [last.target];
      }
    }
  }

  ghost predicate Skipped(handled: seq<Handling>, target: Target) {
    exists p :: 0 <= p < |handled| && handled[p] == Handling(target, None)
  }

  lemma {:induction false} DeduplicatedExact(handled: seq<Handling>, target: Target)
    ensures target in Deduplicated(handled) <==> Skipped(handled, target)
  {
    if handled != [] {
      var front, last := handled[..|handled| - 1], Last(handled);
      DeduplicatedExact(front, target);
      assert forall p :: 0 <= p < |front| ==> front[p] == handled[p];
      assert handled[|front|] == last;
    }
  }

  /**
   A dispatch reports every target it handled, once: with an outcome if it was attempted, as
   deduplicated if it was skipped because it had been told before.
   */
  lemma EveryTargetReported(book: Book, ledger: Ledger, alert: Alert, settings: Settings, world: World)
    returns (handled: seq<Handling>, tried: nat)
    requires Approved(book, alert.investigation, alert.approval) && WorthAlerting(alert.priority, settings.minPriority)
    requires settings.targets != []
    ensures var report := Dispatch(book, ledger, alert, settings, world).1.value;
            && InFailoverOrder(handled, Plan(settings.targets), tried)
            && multiset(OutcomeTargets(report.outcomes)) + multiset(report.deduplicated) == multiset(Targets(handled))
            && (forall target :: target in report.deduplicated <==> Skipped(handled, target))
            && (forall p :: 0 <= p < |handled| ==>
                 (handled[p].outcome.None? <==>
                   Told(ledger.rows, alert, handled[p].target) || ReachedAt(handled[..p], handled[p].target)))
  {
    var plan := Plan(settings.targets);
    handled := DeliverPlan(ledger, alert, plan, settings, world).handled;
    tried := FailoverOrder(ledger, alert, plan, settings, world);
    var segments := PlanAccounts(ledger, alert, plan, settings, world);
    forall p | 0 <= p < |handled|
      && handled[p].outcome.Some? ensures handled[p].outcome.value.target == handled[p].target {
      assert Accounts(handled[p], segments[p], settings);
    }
    ReportSplits(handled);
    forall target ensures target in Deduplicated(handled) <==> Skipped(handled, target) {
      DeduplicatedExact(handled, target);
    }
    PlanSkips(ledger, alert, plan, settings, world);
  }
}
