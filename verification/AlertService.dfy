/**
 The dispatcher as the backend runs it: rows updated in place, loops over tiers, targets and
 attempts. Each method is proved against the ledger functions of `Alerts`.
 */
module AlertDispatcher {
  import opened Common
  import opened MaximalRuns
  import opened Alerts

  /** The scan that opens a new tier wherever the channel changes. */
  method FailoverPlan(targets: seq<Target>) returns (tiers: seq<seq<Target>>)
    ensures IsMaximalPartition(tiers, targets, SameChannel)
    ensures tiers == Plan(targets)
  {
    tiers := [];
    for i := 0 to |targets|
      invariant IsMaximalPartition(tiers, targets[..i], SameChannel)
      invariant forall t, j :: 0 <= t < |tiers| && 0 <= j < |tiers[t]| ==> SameChannel(tiers[t][0], tiers[t][j])
    {
      Grow(tiers, targets[i], SameChannel, targets[..i]);
      assert targets[..i] + [targets[i]] == targets[..i + 1];
      assert tiers != [] ==> SameChannel(Last(tiers)[0], Last(Last(tiers)));
      if tiers != [] && tiers[|tiers| - 1][0].channel == targets[i].channel {
        tiers := tiers[..|tiers| - 1] + [tiers[|tiers| - 1] + [targets[i]]];
      } else {
        tiers := tiers + [[targets[i]]];
      }
    }
    assert targets[..|targets|] == targets;
    PartitionUnique(tiers, Plan(targets), targets, SameChannel);
  }

  class AlertService {
    var decisions: map<Id, Decision>
    var conversations: map<Id, Id>
    var rows: seq<Row>
    var log: seq<Send>
    const world: World

    constructor (world: World)
      ensures this.world == world && System(Approvals(), Records()) == EMPTY_SYSTEM
    {
      this.world := world;
      decisions, conversations, rows, log := map[], map[], [], [];
    }

    function Records(): Ledger
      reads this
    {
      Ledger(rows, log)
    }

    function Approvals(): Book
      reads this
    {
      Book(decisions, conversations)
    }

    method VerifyApproval(investigation: Id, approval: Id) returns (refusal: Option<Refusal>)
      ensures refusal.None? <==> Approved(Approvals(), investigation, approval)
      ensures refusal == Verify(Approvals(), investigation, approval)
    {
      if approval !in decisions {
        return Some(NoSuchDecision);
      }
      var decision := decisions[approval];
      if decision.conversation !in conversations || conversations[decision.conversation] != investigation {
        return Some(WrongInvestigation);
      }
      if decision.decision != Approve {
        return Some(NotAnApproval);
      }
      return None;
    }

    /** One call to an adapter. The world decides what it answers. */
    method CallAdapter(letter: Letter) returns (answer: Answer)
      modifies this`log
      ensures answer == world(|old(log)|) && log == old(log) + [Send(letter, answer)]
    {
      answer := world(|log|);
      log := log + [Send(letter, answer)];
    }

    /** The attempt loop of a delivery or a retry: stop at a delivery or a refusal. */
    method AttemptSends(letter: Letter, settings: Settings) returns (attempts: nat, result: Answer)
      modifies this`log
      ensures var answers := SendLoop(old(Records()), letter.target.channel, settings, world);
              && attempts == |answers|
              && result == (if answers == [] then Refused else Last(answers))
              && log == old(log) + Tag(letter, answers)
    {
      attempts, result := 0, Refused;
      ghost var answers: seq<Answer> := [];
      if letter.target.channel in settings.adapters {
        while attempts < settings.maxAttempts
          invariant attempts == |answers| <= settings.maxAttempts
          invariant forall i :: 0 <= i < attempts ==> answers[i] == Undelivered && answers[i] == world(|old(log)| + i)
          invariant result == (if answers == [] then Refused else Last(answers))
          invariant log == old(log) + Tag(letter, answers)
        {
          result := CallAdapter(letter);
          ghost var more := answers + [result];
          assert Tag(letter, more) == Tag(letter, answers) + [Send(letter, result)];
          answers := more;
          attempts := attempts + 1;
          if result == Delivered || result == Refused {
            break;
          }
        }
        AttemptsUnique(world, |old(log)|, settings.maxAttempts, answers);
      }
    }

    /** One target: skipped if SENT, else its row is filed, attempted and settled. */
    method DeliverTarget(alert: Alert, target: Target, settings: Settings) returns (outcome: Option<Outcome>)
      modifies this`rows, this`log
      ensures var t := Deliver(old(Records()), alert, target, settings, world);
              Records() == t.ledger && t.handled == [Handling(target, outcome)]
    {
      var key := KeyOf(alert, target);
      var found := Find(rows, key);
      if found.Some? && rows[found.value].status == Sent {
        return None;
      }
      var i := |rows|;
      if found.Some? {
        i := found.value;
      } else {
        rows := rows + [Row(key, target.recipient, alert.priority, Pending, 0)];
      }
      var attempts, result := AttemptSends(Letter(alert.investigation, alert.approval, target), settings);
      var row := rows[i];
      var status := if result == Delivered then Sent else Failed;
      rows := rows[i := row.(attempts := row.attempts + attempts, status := status)];
      outcome := Some(Outcome(target, result == Delivered, attempts, result == Refused));
    }

    /** Every failed row of the approval becomes a dead letter. */
    method DeadLetterApproval(approval: Id)
      modifies this`rows
      ensures rows == Bury(old(rows), approval)
    {
      ghost var before := rows;
      for i := 0 to |rows|
        invariant |rows| == |before|
        invariant forall j :: 0 <= j < |rows| ==> rows[j] == if j < i then BuryRow(before[j], approval) else before[j]
      {
        if rows[i].key.approval == approval && rows[i].status == Failed {
          rows := rows[i := rows[i].(status := DeadLetter)];
        }
      }
    }

    /** Attempt every target of one tier. */
    method DeliverEach(alert: Alert, tier: seq<Target>, settings: Settings)
      returns (outcomes: seq<Outcome>, deduplicated: seq<Target>, reached: bool)
      modifies this`rows, this`log
      ensures var t := DeliverTier(old(Records()), alert, tier, settings, world);
              && Records() == t.ledger
              && outcomes == Outcomes(t.handled) && deduplicated == Deduplicated(t.handled)
                 && reached == AnyReached(t.handled)
    {
      outcomes, deduplicated, reached := [], [], false;
      ghost var before, handled: seq<Handling> := Records(), [];
      for j := 0 to |tier|
        invariant Tallies(outcomes, deduplicated, reached, handled)
        invariant DeliverTier(before, alert, tier, settings, world)
                  == After(handled, DeliverTier(Records(), alert, tier[j..], settings, world))
      {
        TierUnfolds(handled, Records(), alert, tier, j, settings, world);
        var outcome := DeliverTarget(alert, tier[j], settings);
        ghost var step := [Handling(tier[j], outcome)];
        Join(handled, step);
        handled := handled + step;
        if outcome.None? {
          deduplicated := deduplicated + [tier[j]];
        } else {
          outcomes := outcomes + [outcome.value];
          reached := reached || outcome.value.delivered;
        }
      }
      assert tier[|tier|..] == [];
      assert After(handled, Trace(Records(), [])).handled == handled;
    }

    method DispatchAlert(alert: Alert, settings: Settings) returns (result: Result<Report, Refusal>)
      modifies this`rows, this`log
      ensures (Records(), result) == Dispatch(old(Approvals()), old(Records()), alert, settings, world)
    {
      var refusal := VerifyApproval(alert.investigation, alert.approval);
      if refusal.Some? {
        return Err(refusal.value);
      }
      if !WorthAlerting(alert.priority, settings.minPriority) {
        return Ok(Report([], [], false, false));
      }
      if settings.targets == [] {
        return Ok(Report([], [], false, true));
      }
      var outcomes: seq<Outcome>, deduplicated: seq<Target>, reached := [], [], false;
      ghost var before, handled: seq<Handling> := Records(), [];
      var plan := FailoverPlan(settings.targets);
      for t := 0 to |plan|
        invariant Tallies(outcomes, deduplicated, reached, handled)
        invariant DeliverPlan(before, alert, plan, settings, world) ==
                  if reached then Trace(Records(), handled)
                  else After(handled, DeliverPlan(Records(), alert, plan[t..], settings, world))
      {
        if reached {
          break;
        }
        PlanUnfolds(handled, Records(), alert, plan, t, settings, world);
        ghost var tier := DeliverTier(Records(), alert, plan[t], settings, world);
        Join(handled, tier.handled);
        handled := handled + tier.handled;
        var told, skipped, got := DeliverEach(alert, plan[t], settings);
        outcomes, deduplicated, reached := outcomes + told, deduplicated + skipped, got;
      }
      assert plan[|plan|..] == [];
      assert After(handled, Trace(Records(), [])).handled == handled;
      var dead := outcomes != [] && !reached;
      if dead {
        DeadLetterApproval(alert.approval);
      }
      result := Ok(Report(outcomes, deduplicated, dead, false));
    }

    method RetryDelivery(id: nat, settings: Settings) returns (result: Result<Outcome, Refusal>)
      modifies this`rows, this`log
      ensures (Records(), result) == Retry(old(Approvals()), old(Records()), id, settings, world)
    {
      if id >= |rows| {
        return Err(NoSuchNotification);
      }
      var row := rows[id];
      if row.status == Sent {
        return Err(AlreadyDelivered);
      }
      var refusal := VerifyApproval(row.key.investigation, row.key.approval);
      if refusal.Some? {
        return Err(refusal.value);
      }
      var target := Target(row.key.channel, row.recipient);
      var attempts, answer := AttemptSends(Letter(row.key.investigation, row.key.approval, target), settings);
      var fallback := if row.status == DeadLetter then DeadLetter else Failed;
      var status := if answer == Delivered then Sent else fallback;
      rows := rows[id := row.(attempts := row.attempts + attempts, status := status)];
      result := Ok(Outcome(target, answer == Delivered, attempts, answer == Refused));
    }
  }

  /** A trace that starts with what was already handled. */
  ghost function After(handled: seq<Handling>, rest: Trace): Trace {
    Trace(rest.ledger, handled + rest.handled)
  }

  ghost predicate Tallies(outcomes: seq<Outcome>, deduplicated: seq<Target>, reached: bool, handled: seq<Handling>) {
    outcomes == Outcomes(handled) && deduplicated == Deduplicated(handled) && reached == AnyReached(handled)
  }

  lemma TierUnfolds(handled: seq<Handling>, ledger: Ledger, alert: Alert, tier: seq<Target>, j: nat,
                    settings: Settings, world: World)
    requires j < |tier|
    ensures var first := Deliver(ledger, alert, tier[j], settings, world);
            After(handled, DeliverTier(ledger, alert, tier[j..], settings, world)) ==
            After(handled + first.handled, DeliverTier(first.ledger, alert, tier[j + 1..], settings, world))
  {
  }

  lemma PlanUnfolds(handled: seq<Handling>, ledger: Ledger, alert: Alert, plan: seq<seq<Target>>, t: nat,
                    settings: Settings, world: World)
    requires t < |plan|
    ensures var first := DeliverTier(ledger, alert, plan[t], settings, world);
            After(handled, DeliverPlan(ledger, alert, plan[t..], settings, world)) ==
            if AnyReached(first.handled) then Trace(first.ledger, handled + first.handled)
            else After(handled + first.handled, DeliverPlan(first.ledger, alert, plan[t + 1..], settings, world))
  {
  }

  lemma {:induction false} Join(a: seq<Handling>, b: seq<Handling>)
    ensures Outcomes(a + b) == Outcomes(a) + Outcomes(b)
    ensures Deduplicated(a + b) == Deduplicated(a) + Deduplicated(b)
    ensures AnyReached(a + b) <==> AnyReached(a) || AnyReached(b)
    decreases |b|
  {
    var all := a + b;
    assert forall i :: 0 <= i < |a| ==> all[i] == a[i];
    assert forall i :: 0 <= i < |b| ==> all[|a| + i] == b[i];
    if b == [] {
      assert all == a;
    } else {
      Join(a, b[..|b| - 1]);
      assert all[..|all| - 1] == a + b[..|b| - 1];
    }
  }
}
