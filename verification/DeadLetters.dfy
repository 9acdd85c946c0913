/**
 Dead letters: when a dispatch reports one, what the report is worth, and what later dispatches
 make of the row.
 */
module DeadLetters {
  import opened Common
  import opened MaximalRuns
  import opened Alerts
  import opened Dispatching

  /** Reaching nobody, a delivery changes nobody's SENT status, and it has an outcome unless its target was SENT. */
  lemma DeliverUnreached(ledger: Ledger, alert: Alert, target: Target, settings: Settings, world: World)
    ensures var t := Deliver(ledger, alert, target, settings, world);
            && (AnyOutcome(t.handled) <==> !Told(ledger.rows, alert, target))
            && (!AnyReached(t.handled) ==> SentAlike(ledger.rows, t.ledger.rows))
  {
    var t := Deliver(ledger, alert, target, settings, world);
    assert t.handled[0].target == target;
    if !IsSent(ledger.rows, KeyOf(alert, target)) {
      var answers := SendLoop(ledger, target.channel, settings, world);
      assert Reaches(t.handled[0]) <==> EndsDelivered(answers);
      if !EndsDelivered(answers) {
        forall k: Key ensures IsSent(t.ledger.rows, k) == IsSent(ledger.rows, k) {
          SentAfter(ledger, alert, target, answers, k);
        }
      }
    }
  }

  ghost predicate SentAlike(a: seq<Row>, b: seq<Row>) { forall k: Key :: IsSent(b, k) == IsSent(a, k) }

  predicate AnyOutcome(handled: seq<Handling>) { exists i :: 0 <= i < |handled| && handled[i].outcome.Some? }

  ghost predicate AllSent(rows: seq<Row>, alert: Alert, targets: seq<Target>) {
    forall target :: target in targets ==> Told(rows, alert, target)
  }

  ghost predicate AnySent(rows: seq<Row>, alert: Alert, targets: seq<Target>) {
    exists target :: target in targets && Told(rows, alert, target)
  }

  /** The two facts of an unreached trace: SENT stays as it was, and there are outcomes unless all targets were SENT. */
  ghost predicate Unreached(t: Trace, ledger: Ledger, alert: Alert, targets: seq<Target>) {
    !AnyReached(t.handled) ==>
      SentAlike(ledger.rows, t.ledger.rows) && (AnyOutcome(t.handled) <==> !AllSent(ledger.rows, alert, targets))
  }

  lemma UnreachedAppend(first: Trace, rest: Trace, ledger: Ledger, alert: Alert, a: seq<Target>, b: seq<Target>)
    requires Unreached(first, ledger, alert, a) && Unreached(rest, first.ledger, alert, b)
    ensures Unreached(Trace(rest.ledger, first.handled + rest.handled), ledger, alert, a + b)
  {
    var all := first.handled + rest.handled;
    assert forall i :: 0 <= i < |first.handled| ==> all[i] == first.handled[i];
    assert forall i :: 0 <= i < |rest.handled| ==> all[|first.handled| + i] == rest.handled[i];
    if !AnyReached(all) {
      assert !AnyReached(first.handled) && !AnyReached(rest.handled);
      assert AnyOutcome(all) <==> AnyOutcome(first.handled) || AnyOutcome(rest.handled);
      assert AllSent(ledger.rows, alert, b) <==> AllSent(first.ledger.rows, alert, b);
      assert forall target :: target in a + b <==> target in a || target in b;
    }
  }

  lemma {:induction false} TierUnreached(ledger: Ledger, alert: Alert, tier: seq<Target>, settings: Settings,
                                         world: World)
    ensures Unreached(DeliverTier(ledger, alert, tier, settings, world), ledger, alert, tier)
    decreases |tier|
  {
    if tier != [] {
      var first := Deliver(ledger, alert, tier[0], settings, world);
      DeliverUnreached(ledger, alert, tier[0], settings, world);
      assert AllSent(ledger.rows, alert, [tier[0]]) <==> Told(ledger.rows, alert, tier[0]);
      assert Unreached(first, ledger, alert, [tier[0]]);
      TierUnreached(first.ledger, alert, tier[1..], settings, world);
      UnreachedAppend(first, DeliverTier(first.ledger, alert, tier[1..], settings, world), ledger, alert, [tier[0]],
        tier[1..]);
      assert tier == [tier[0]] + tier[1..];
    }
  }

  lemma {:induction false} PlanUnreached(ledger: Ledger, alert: Alert, plan: seq<seq<Target>>, settings: Settings,
                                         world: World)
    ensures Unreached(DeliverPlan(ledger, alert, plan, settings, world), ledger, alert, Flatten(plan))
    decreases |plan|
  {
    if plan != [] {
      var first := DeliverTier(ledger, alert, plan[0], settings, world);
      TierUnreached(ledger, alert, plan[0], settings, world);
      if !AnyReached(first.handled) {
        PlanUnreached(first.ledger, alert, plan[1..], settings, world);
        UnreachedAppend(first, DeliverPlan(first.ledger, alert, plan[1..], settings, world), ledger, alert, plan[0],
          Flatten(plan[1..]));
      }
    }
  }

  lemma {:induction false} BuryKeepsSent(rows: seq<Row>, approval: Id, k: Key)
    ensures IsSent(Bury(rows, approval), k) == IsSent(rows, k)
  {
    var after := Bury(rows, approval);
    assert forall i :: 0 <= i < |rows| ==>
             after[i].key == rows[i].key && (after[i].status == Sent <==> rows[i].status == Sent);
    var f, g := Find(rows, k), Find(after, k);
    if f.Some? {
      assert after[f.value].key == k;
    }
    if g.Some? {
      assert rows[g.value].key == k;
    }
  }

  lemma HasOutcomes(handled: seq<Handling>)
    ensures Outcomes(handled) != [] <==> AnyOutcome(handled)
  {
    if i :| 0 <= i < |handled| && handled[i].outcome.Some? {
      OutcomesOf(handled, handled[i].outcome.value);
    }
    if Outcomes(handled) != [] {
      OutcomesOf(handled, Outcomes(handled)[0]);
    }
  }

  predicate DeadLettered(result: Result<Report, Refusal>) { result.Ok? && result.value.deadLettered }

  /**
   A dead-lettered dispatch tells nobody new and un-tells nobody. So its report, that the alert
   reached nobody, is true of the plan afterwards exactly when it was true before the call.
   */
  lemma DeadLetterTellsNobody(book: Book, ledger: Ledger, alert: Alert, settings: Settings, world: World)
    ensures var (after, result) := Dispatch(book, ledger, alert, settings, world);
            DeadLettered(result) ==>
              && SentAlike(ledger.rows, after.rows)
              && (AnySent(after.rows, alert, settings.targets) <==> AnySent(ledger.rows, alert, settings.targets))
              && !AllSent(ledger.rows, alert, settings.targets)
  {
    var (after, result) := Dispatch(book, ledger, alert, settings, world);
    if DeadLettered(result) {
      var trace := DeliverPlan(ledger, alert, Plan(settings.targets), settings, world);
      PlanUnreached(ledger, alert, Plan(settings.targets), settings, world);
      HasOutcomes(trace.handled);
      forall k: Key ensures IsSent(after.rows, k) == IsSent(ledger.rows, k) {
        BuryKeepsSent(trace.ledger.rows, alert.approval, k);
      }
    }
  }

  /** The dispatch is dead-lettered although some target of its plan has the alert. */
  ghost predicate FalseDeadLetter(book: Book, ledger: Ledger, alert: Alert, settings: Settings, world: World) {
    var (after, result) := Dispatch(book, ledger, alert, settings, world);
    DeadLettered(result) && AnySent(after.rows, alert, settings.targets)
  }

  lemma {:induction false} TierReachesNobody(ledger: Ledger, alert: Alert, tier: seq<Target>, settings: Settings,
                                             world: World)
    requires forall i :: world(i) != Delivered
    ensures !AnyReached(DeliverTier(ledger, alert, tier, settings, world).handled)
    decreases |tier|
  {
    if tier != [] {
      TierReachesNobody(Deliver(ledger, alert, tier[0], settings, world).ledger, alert, tier[1..], settings, world);
    }
  }

  lemma {:induction false} PlanReachesNobody(ledger: Ledger, alert: Alert, plan: seq<seq<Target>>, settings: Settings,
                                             world: World)
    requires forall i :: world(i) != Delivered
    ensures !AnyReached(DeliverPlan(ledger, alert, plan, settings, world).handled)
    decreases |plan|
  {
    if plan != [] {
      TierReachesNobody(ledger, alert, plan[0], settings, world);
      PlanReachesNobody(DeliverTier(ledger, alert, plan[0], settings, world).ledger, alert, plan[1..], settings, world);
    }
  }

  /**
   Adapters can bring about a false dead letter exactly when some but not all targets of the plan
   are SENT already.
   */
  lemma FalseDeadLetterIff(book: Book, ledger: Ledger, alert: Alert, settings: Settings)
    requires Approved(book, alert.investigation, alert.approval) && WorthAlerting(alert.priority, settings.minPriority)
    ensures (exists world: World :: FalseDeadLetter(book, ledger, alert, settings, world)) <==>
            AnySent(ledger.rows, alert, settings.targets) && !AllSent(ledger.rows, alert, settings.targets)
  {
    if world: World :| FalseDeadLetter(book, ledger, alert, settings, world) {
      DeadLetterTellsNobody(book, ledger, alert, settings, world);
    }
    if AnySent(ledger.rows, alert, settings.targets) && !AllSent(ledger.rows, alert, settings.targets) {
      var dark: World := (n: nat) => Undelivered;
      DarknessDeadLetters(book, ledger, alert, settings, dark);
      DeadLetterTellsNobody(book, ledger, alert, settings, dark);
      assert FalseDeadLetter(book, ledger, alert, settings, dark);
    }
  }

  /** Where no adapter ever delivers, a dispatch is dead-lettered unless everybody has the alert. */
  lemma DarknessDeadLetters(book: Book, ledger: Ledger, alert: Alert, settings: Settings, world: World)
    requires Approved(book, alert.investigation, alert.approval) && WorthAlerting(alert.priority, settings.minPriority)
    requires !AllSent(ledger.rows, alert, settings.targets) && forall i :: world(i) != Delivered
    ensures DeadLettered(Dispatch(book, ledger, alert, settings, world).1)
  {
    var plan := Plan(settings.targets);
    PlanReachesNobody(ledger, alert, plan, settings, world);
    PlanUnreached(ledger, alert, plan, settings, world);
    HasOutcomes(DeliverPlan(ledger, alert, plan, settings, world).handled);
  }

  /**
   Dead-lettering is exact: it happens when something was attempted and nothing delivered in this
   call, and it leaves no FAILED row for the approval.
   */
  lemma DeadLetterExact(book: Book, ledger: Ledger, alert: Alert, settings: Settings, world: World)
    requires Dispatch(book, ledger, alert, settings, world).1.Ok?
    ensures var (after, result) := Dispatch(book, ledger, alert, settings, world);
            var report := result.value;
            && (report.deadLettered <==> report.outcomes != [] && forall o :: o in report.outcomes ==> !o.delivered)
            && (report.deadLettered ==>
               forall i :: 0 <= i < |after.rows| && after.rows[i].key.approval == alert.approval ==>
                 after.rows[i].status != Failed)
  {
    var (after, result) := Dispatch(book, ledger, alert, settings, world);
    var report := result.value;
    if report.outcomes != [] {
      var trace := DeliverPlan(ledger, alert, Plan(settings.targets), settings, world);
      if AnyReached(trace.handled) {
        var i :| 0 <= i < |trace.handled| && Reaches(trace.handled[i]);
        OutcomesOf(trace.handled, trace.handled[i].outcome.value);
      } else {
        forall o | o in report.outcomes ensures !o.delivered {
          OutcomesOf(trace.handled, o);
          var i :| 0 <= i < |trace.handled| && trace.handled[i].outcome == Some(o);
          assert !Reaches(trace.handled[i]);
        }
      }
    }
  }

  // ----- What becomes of a dead letter

  /** The handling is an attempt on the row's own target. */
  predicate Tries(h: Handling, alert: Alert, key: Key) {
    h.outcome.Some? && Concerns(LetterOf(alert, h.outcome.value.target), key)
  }

  ghost predicate Attempted(handled: seq<Handling>, alert: Alert, key: Key) {
    exists p :: 0 <= p < |handled| && Tries(handled[p], alert, key)
  }

  ghost predicate Delivers(handled: seq<Handling>, alert: Alert, key: Key) {
    exists p :: 0 <= p < |handled| && Tries(handled[p], alert, key) && Reaches(handled[p])
  }

  /**
   How a row fares while these targets are handled: SENT for good once delivered, FAILED if only
   attempted, else untouched.
   */
  ghost predicate Fares(before: Row, after: Row, alert: Alert, handled: seq<Handling>) {
    && after.key == before.key
    && (before.status == Sent ==> !Attempted(handled, alert, before.key))
    && after.status == (if Delivers(handled, alert, before.key) then Sent
                        else if Attempted(handled, alert, before.key) then Failed
                        else before.status)
  }

  lemma FaresAppend(a: Row, b: Row, c: Row, alert: Alert, h1: seq<Handling>, h2: seq<Handling>)
    requires Fares(a, b, alert, h1) && Fares(b, c, alert, h2)
    ensures Fares(a, c, alert, h1 + h2)
  {
    var all := h1 + h2;
    assert forall p :: 0 <= p < |h1| ==> all[p] == h1[p];
    assert forall p :: 0 <= p < |h2| ==> all[|h1| + p] == h2[p];
    assert Attempted(all, alert, a.key) <==> Attempted(h1, alert, a.key) || Attempted(h2, alert, a.key);
    assert Delivers(all, alert, a.key) <==> Delivers(h1, alert, a.key) || Delivers(h2, alert, a.key);
  }

  lemma DeliverFares(ledger: Ledger, alert: Alert, target: Target, settings: Settings, world: World, i: nat)
    requires KeysDistinct(ledger.rows) && i < |ledger.rows|
    ensures var t := Deliver(ledger, alert, target, settings, world);
            i < |t.ledger.rows| && Fares(ledger.rows[i], t.ledger.rows[i], alert, t.handled)
  {
    var t := Deliver(ledger, alert, target, settings, world);
    assert ledger.rows[i].key == KeyOf(alert, target) ==> Find(ledger.rows, KeyOf(alert, target)) == Some(i);
    assert Attempted(t.handled, alert, ledger.rows[i].key) <==> Tries(t.handled[0], alert, ledger.rows[i].key);
    assert Delivers(t.handled, alert, ledger.rows[i].key)
           <==> Tries(t.handled[0], alert, ledger.rows[i].key) && Reaches(t.handled[0]);
  }

  lemma {:induction false} TierFares(book: Book, ledger: Ledger, alert: Alert, tier: seq<Target>, settings: Settings,
                                     world: World, i: nat)
    requires Settled(book, ledger) && Approved(book, alert.investigation, alert.approval) && i < |ledger.rows|
    ensures var t := DeliverTier(ledger, alert, tier, settings, world);
            i < |t.ledger.rows| && Fares(ledger.rows[i], t.ledger.rows[i], alert, t.handled)
    decreases |tier|
  {
    if tier != [] {
      var first := Deliver(ledger, alert, tier[0], settings, world);
      var rest := DeliverTier(first.ledger, alert, tier[1..], settings, world);
      DeliverKeeps(book, ledger, alert, tier[0], settings, world);
      DeliverFares(ledger, alert, tier[0], settings, world, i);
      TierFares(book, first.ledger, alert, tier[1..], settings, world, i);
      FaresAppend(ledger.rows[i], first.ledger.rows[i], rest.ledger.rows[i], alert, first.handled, rest.handled);
    }
  }

  lemma {:induction false} PlanFares(book: Book, ledger: Ledger, alert: Alert, plan: seq<seq<Target>>,
                                     settings: Settings, world: World, i: nat)
    requires Settled(book, ledger) && Approved(book, alert.investigation, alert.approval) && i < |ledger.rows|
    ensures var t := DeliverPlan(ledger, alert, plan, settings, world);
            i < |t.ledger.rows| && Fares(ledger.rows[i], t.ledger.rows[i], alert, t.handled)
    decreases |plan|
  {
    if plan != [] {
      var first := DeliverTier(ledger, alert, plan[0], settings, world);
      TierKeeps(book, ledger, alert, plan[0], settings, world);
      TierFares(book, ledger, alert, plan[0], settings, world, i);
      if !AnyReached(first.handled) {
        var rest := DeliverPlan(first.ledger, alert, plan[1..], settings, world);
        PlanFares(book, first.ledger, alert, plan[1..], settings, world, i);
        FaresAppend(ledger.rows[i], first.ledger.rows[i], rest.ledger.rows[i], alert, first.handled, rest.handled);
      }
    }
  }

  /** The outcomes a call reports; none if it was refused. */
  function Reported(result: Result<Report, Refusal>): seq<Outcome> {
    if result.Ok? then result.value.outcomes else []
  }

  ghost predicate OutcomeFor(outcomes: seq<Outcome>, alert: Alert, key: Key) {
    exists o :: o in outcomes && Concerns(LetterOf(alert, o.target), key)
  }

  ghost predicate DeliveredFor(outcomes: seq<Outcome>, alert: Alert, key: Key) {
    exists o :: o in outcomes && Concerns(LetterOf(alert, o.target), key) && o.delivered
  }

  ghost predicate SomeDelivered(outcomes: seq<Outcome>) { exists o :: o in outcomes && o.delivered }

  /** Attempts and reported outcomes say the same. */
  lemma OutcomesTell(handled: seq<Handling>, alert: Alert, key: Key)
    ensures Attempted(handled, alert, key) <==> OutcomeFor(Outcomes(handled), alert, key)
    ensures Delivers(handled, alert, key) <==> DeliveredFor(Outcomes(handled), alert, key)
    ensures AnyReached(handled) <==> SomeDelivered(Outcomes(handled))
  {
    forall p | 0 <= p < |handled| && handled[p].outcome.Some? ensures handled[p].outcome.value in Outcomes(handled) {
      OutcomesOf(handled, handled[p].outcome.value);
    }
    forall o | o in Outcomes(handled) ensures exists p :: 0 <= p < |handled| && handled[p].outcome == Some(o) {
      OutcomesOf(handled, o);
    }
  }

  /**
   What a dispatch makes of a dead letter, exactly: SENT if its target was delivered to; back to
   FAILED if its target was attempted in vain while some other target of the same call was
   reached; and a dead letter otherwise.
   */
  lemma DeadLetterAfterDispatch(book: Book, ledger: Ledger, alert: Alert, settings: Settings, world: World, i: nat)
    requires Settled(book, ledger) && i < |ledger.rows| && ledger.rows[i].status == DeadLetter
    ensures var (after, result) := Dispatch(book, ledger, alert, settings, world);
            var key, outcomes := ledger.rows[i].key, Reported(result);
            && i < |after.rows| && after.rows[i].key == key
            && after.rows[i].status in {Sent, Failed, DeadLetter}
            && (after.rows[i].status == Sent <==> DeliveredFor(outcomes, alert, key))
            && (after.rows[i].status == Failed <==>
                 OutcomeFor(outcomes, alert, key) && !DeliveredFor(outcomes, alert, key) && SomeDelivered(outcomes))
  {
    if Approved(book, alert.investigation, alert.approval)
       && WorthAlerting(alert.priority, settings.minPriority) && settings.targets != []
    {
      var trace := DeliverPlan(ledger, alert, Plan(settings.targets), settings, world);
      PlanFares(book, ledger, alert, Plan(settings.targets), settings, world, i);
      OutcomesTell(trace.handled, alert, ledger.rows[i].key);
    } else {
      assert Reported(Dispatch(book, ledger, alert, settings, world).1) == [];
    }
  }

  /** The ledger after Slack and e-mail were each tried once in vain. */
  function BothDead(alert: Alert, a: Recipient, b: Recipient, world: World): Ledger {
    var slack, email := KeyOf(alert, Target(Slack, a)), KeyOf(alert, Target(Email, b));
    Ledger([Row(slack, a, alert.priority, DeadLetter, 1), Row(email, b, alert.priority, DeadLetter, 1)],
           [Send(LetterOf(alert, Target(Slack, a)), world(0)), Send(LetterOf(alert, Target(Email, b)), world(1))])
  }

  lemma BothFail(book: Book, alert: Alert, a: Recipient, b: Recipient, world: World)
    requires Approved(book, alert.investigation, alert.approval)
    requires world(0) != Delivered && world(1) != Delivered
    ensures Dispatch(book, Ledger([], []), alert, SlackThenEmail(a, b), world).0 == BothDead(alert, a, b, world)
  {
    var settings, empty := SlackThenEmail(a, b), Ledger([], []);
    var slack, email := Target(Slack, a), Target(Email, b);
    SlackThenEmailPlan(a, b);
    SingletonTier(empty, alert, slack, settings, world);
    assert SendLoop(empty, Slack, settings, world) == [world(0)];
    var first := Deliver(empty, alert, slack, settings, world);
    assert first.ledger == Ledger([Row(KeyOf(alert, slack), a, alert.priority, Failed, 1)],
                                  [Send(LetterOf(alert, slack), world(0))]);
    SingletonTier(first.ledger, alert, email, settings, world);
    assert SendLoop(first.ledger, Email, settings, world) == [world(1)];
    var second := Deliver(first.ledger, alert, email, settings, world);
    assert [[slack], [email]][1..] == [[email]];
    var trace := DeliverPlan(empty, alert, [[slack], [email]], settings, world);
    assert trace == Trace(second.ledger, first.handled + second.handled);
    assert trace.handled == [first.handled[0], second.handled[0]];
    HasOutcomes(trace.handled);
    assert AnyOutcome(trace.handled) by { assert trace.handled[0].outcome.Some?; }
    assert Bury(second.ledger.rows, alert.approval) == BothDead(alert, a, b, world).rows;
  }

  /** Such a dead letter: Slack fails again while e-mail now delivers, and the Slack row is FAILED once more. */
  lemma DeadLetterBackToFailed(book: Book, alert: Alert, a: Recipient, b: Recipient, world: World)
    requires Approved(book, alert.investigation, alert.approval)
    requires world(0) != Delivered && world(1) != Delivered && world(2) != Delivered && world(3) == Delivered
    ensures var settings := SlackThenEmail(a, b);
            var first := Dispatch(book, Ledger([], []), alert, settings, world).0;
            var second := Dispatch(book, first, alert, settings, world).0;
            && |first.rows| == |second.rows| == 2
            && first.rows[0].status == DeadLetter && second.rows[0].status == Failed
            && second.rows[1].status == Sent
  {
    var settings, dead := SlackThenEmail(a, b), BothDead(alert, a, b, world);
    var slack, email := Target(Slack, a), Target(Email, b);
    BothFail(book, alert, a, b, world);
    SlackThenEmailPlan(a, b);
    assert Find(dead.rows, KeyOf(alert, slack)) == Some(0);
    SingletonTier(dead, alert, slack, settings, world);
    assert SendLoop(dead, Slack, settings, world) == [world(2)];
    var first := Deliver(dead, alert, slack, settings, world);
    assert Find(first.ledger.rows, KeyOf(alert, email)) == Some(1);
    SingletonTier(first.ledger, alert, email, settings, world);
    assert SendLoop(first.ledger, Email, settings, world) == [world(3)];
    var second := Deliver(first.ledger, alert, email, settings, world);
    assert [[slack], [email]][1..] == [[email]];
    var trace := DeliverPlan(dead, alert, [[slack], [email]], settings, world);
    assert trace == Trace(second.ledger, first.handled + second.handled);
    assert Reaches(trace.handled[1]);
  }
}
