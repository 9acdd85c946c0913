/**
 Dispatching approved alerts: who is told, on whose authority, and what is recorded.

 Delivery records live in a ledger of rows, one per dedupe key. Adapters answer adversarially:
 `world(n)` is what the n-th call ever made to any adapter answers, and every result below holds
 for every `world`. Nothing else about the outside is assumed.
 */
module Alerts {
  import opened Common
  import opened MaximalRuns

  // ----- Entities

  type Id = nat

  datatype Channel = Slack | Email | Webhook

  datatype Priority = Low | Medium | High | Urgent

  datatype Status = Pending | Sent | Failed | DeadLetter

  /** `address` is the trimmed, lower-cased form; `spelling` is how the operator wrote it. */
  datatype Recipient = Recipient(address: Id, spelling: Id)

  datatype Target = Target(channel: Channel, recipient: Recipient)

  /** The dedupe key. The hash is taken to be collision-free, so the key is what is hashed. */
  datatype Key = Key(investigation: Id, approval: Id, channel: Channel, address: Id)

  datatype Row = Row(key: Key, recipient: Recipient, priority: Priority, status: Status, attempts: nat)

  datatype Alert = Alert(investigation: Id, approval: Id, priority: Priority)

  datatype Answer = Delivered | Undelivered | Refused

  /** What goes out: on whose authority, about which investigation, to whom. */
  datatype Letter = Letter(investigation: Id, approval: Id, target: Target)

  datatype Send = Send(letter: Letter, answer: Answer)

  datatype Ledger = Ledger(rows: seq<Row>, log: seq<Send>)

  datatype Outcome = Outcome(target: Target, delivered: bool, attempts: nat, refused: bool)

  datatype Report = Report(outcomes: seq<Outcome>, deduplicated: seq<Target>, deadLettered: bool, noChannel: bool)

  datatype Decision = Decision(conversation: Id, decision: DecisionType)

  datatype Book = Book(decisions: map<Id, Decision>, conversations: map<Id, Id>)

  datatype Refusal = NoSuchDecision | WrongInvestigation | NotAnApproval | NoSuchNotification | AlreadyDelivered

  datatype Settings = Settings(targets: seq<Target>, adapters: set<Channel>, maxAttempts: nat, minPriority: Priority)

  type World = nat -> Answer

  function Rank(p: Priority): nat {
    match p case Low => 0 case Medium => 1 case High => 2 case Urgent => 3
  }

  predicate WorthAlerting(p: Priority, minimum: Priority) { Rank(p) >= Rank(minimum) }

  function KeyOf(alert: Alert, target: Target): Key {
    Key(alert.investigation, alert.approval, target.channel, target.recipient.address)
  }

  /**
   Two deliveries share a dedupe key exactly when they agree on investigation, approval, channel and
   normalised address.
   */
  lemma KeyOfIff(x: Alert, s: Target, y: Alert, t: Target)
    ensures KeyOf(x, s) == KeyOf(y, t) <==>
            && x.investigation == y.investigation && x.approval == y.approval
            && s.channel == t.channel && s.recipient.address == t.recipient.address
  {
  }

  predicate SameChannel(a: Target, b: Target) { a.channel == b.channel }

  function Plan(targets: seq<Target>): seq<seq<Target>> { Runs(targets, SameChannel) }

  // ----- Operations

  /** A human approved this very investigation. */
  predicate Approved(book: Book, investigation: Id, approval: Id) {
    && approval in book.decisions
    && book.decisions[approval].conversation in book.conversations
    && book.conversations[book.decisions[approval].conversation] == investigation
    && book.decisions[approval].decision == Approve
  }

  function Find(rows: seq<Row>, key: Key): (found: Option<nat>)
    ensures found.Some? ==> found.value < |rows| && rows[found.value].key == key
    ensures found.Some? ==> forall i :: 0 <= i < found.value ==> rows[i].key != key
    ensures found.None? ==> forall i :: 0 <= i < |rows| ==> rows[i].key != key
  {
    if rows == [] then None
    else if rows[0].key == key then Some(0)
    else
      match Find(rows[1..], key)
      case None => None
      case Some(i) => Some(i + 1)
  }

  predicate EndsDelivered(answers: seq<Answer>) { answers != [] && Last(answers) == Delivered }

  predicate EndsRefused(answers: seq<Answer>) { answers == [] || Last(answers) == Refused }

  /** What the adapter answers until it delivers, refuses, or the attempts run out. */
  function Attempts(world: World, n: nat, max: nat): (answers: seq<Answer>)
    ensures |answers| <= max
    ensures forall i :: 0 <= i < |answers| ==> answers[i] == world(n + i)
    ensures forall i :: 0 <= i < |answers| - 1 ==> answers[i] == Undelivered
    ensures |answers| < max ==> answers != [] && Last(answers) != Undelivered
    decreases max
  {
    if max == 0 then []
    else if world(n) == Undelivered then [Undelivered] + Attempts(world, n + 1, max - 1)
    else [world(n)]
  }

  /** The contract of `Attempts` leaves no freedom: whatever meets it is what the loop receives. */
  lemma {:induction false} AttemptsUnique(world: World, n: nat, max: nat, answers: seq<Answer>)
    requires |answers| <= max
    requires forall i :: 0 <= i < |answers| ==> answers[i] == world(n + i)
    requires forall i :: 0 <= i < |answers| - 1 ==> answers[i] == Undelivered
    requires |answers| < max ==> answers != [] && Last(answers) != Undelivered
    ensures answers == Attempts(world, n, max)
    decreases max
  {
    if max > 0 {
      assert answers[0] == world(n + 0);
      if world(n) == Undelivered {
        AttemptsUnique(world, n + 1, max - 1, answers[1..]);
      }
    }
  }

  function Tag(letter: Letter, answers: seq<Answer>): seq<Send> {
    seq(|answers|, i requires 0 <= i < |answers| => Send(letter, answers[i]))
  }

  /** Record one row's send loop: the sends, the attempt count and the new status. */
  function Conclude(ledger: Ledger, i: nat, letter: Letter, answers: seq<Answer>, fallback: Status): Ledger
    requires i < |ledger.rows|
  {
    var row := ledger.rows[i];
    var status := if EndsDelivered(answers) then Sent else fallback;
    Ledger(ledger.rows[i := row.(status := status, attempts := row.attempts + |answers|)],
           ledger.log + Tag(letter, answers))
  }

  function SendLoop(ledger: Ledger, channel: Channel, settings: Settings, world: World): seq<Answer> {
    if channel in settings.adapters then Attempts(world, |ledger.log|, settings.maxAttempts) else []
  }

  /** What happened to one target: nothing (it was already told), or an outcome. */
  datatype Handling = Handling(target: Target, outcome: Option<Outcome>)

  datatype Trace = Trace(ledger: Ledger, handled: seq<Handling>)

  function WithRow(ledger: Ledger, alert: Alert, target: Target): Ledger {
    if Find(ledger.rows, KeyOf(alert, target)).Some? then ledger
    else ledger.(rows := ledger.rows + [Row(KeyOf(alert, target), target.recipient, alert.priority, Pending, 0)])
  }

  function RowIndex(ledger: Ledger, key: Key): nat {
    var found := Find(ledger.rows, key);
    if found.Some? then found.value else |ledger.rows|
  }

  predicate IsSent(rows: seq<Row>, key: Key) {
    var found := Find(rows, key);
    found.Some? && rows[found.value].status == Sent
  }

  /** Somebody at this address was told, on this channel and for this approval of this investigation. */
  predicate Told(rows: seq<Row>, alert: Alert, target: Target) {
    IsSent(rows, Key(alert.investigation, alert.approval, target.channel, target.recipient.address))
  }

  function Deliver(ledger: Ledger, alert: Alert, target: Target, settings: Settings, world: World): Trace {
    var key := KeyOf(alert, target);
    if IsSent(ledger.rows, key) then
      Trace(ledger, [Handling(target, None)])
    else
      var answers := SendLoop(ledger, target.channel, settings, world);
      var outcome := Outcome(target, EndsDelivered(answers), |answers|, EndsRefused(answers));
      var letter := Letter(alert.investigation, alert.approval, target);
      Trace(Conclude(WithRow(ledger, alert, target), RowIndex(ledger, key), letter, answers, Failed),
            [Handling(target, Some(outcome))])
  }

  /** Every target of a tier, in order. */
  function DeliverTier(ledger: Ledger, alert: Alert, tier: seq<Target>, settings: Settings, world: World): Trace
    decreases |tier|
  {
    if tier == [] then
      Trace(ledger, [])
    else
      var first := Deliver(ledger, alert, tier[0], settings, world);
      var rest := DeliverTier(first.ledger, alert, tier[1..], settings, world);
      Trace(rest.ledger, first.handled + rest.handled)
  }

  predicate Reaches(h: Handling) { h.outcome.Some? && h.outcome.value.delivered }

  predicate AnyReached(handled: seq<Handling>) { exists i :: 0 <= i < |handled| && Reaches(handled[i]) }

  /** Tier after tier, stopping behind the first that reached somebody. */
  function DeliverPlan(ledger: Ledger, alert: Alert, plan: seq<seq<Target>>, settings: Settings, world: World): Trace
    decreases |plan|
  {
    if plan == [] then
      Trace(ledger, [])
    else
      var first := DeliverTier(ledger, alert, plan[0], settings, world);
      if AnyReached(first.handled) then
        first
      else
        var rest := DeliverPlan(first.ledger, alert, plan[1..], settings, world);
        Trace(rest.ledger, first.handled + rest.handled)
  }

  function Outcomes(handled: seq<Handling>): seq<Outcome> {
    if handled == [] then []
    else
      var front := Outcomes(handled[..|handled| - 1]);
      if Last(handled).outcome.Some? then front + [Last(handled).outcome.value] else front
  }

  function Deduplicated(handled: seq<Handling>): seq<Target> {
    if handled == [] then []
    else
      var front := Deduplicated(handled[..|handled| - 1]);
      if Last(handled).outcome.None? then front + [Last(handled).target] else front
  }

  function BuryRow(row: Row, approval: Id): Row {
    if row.key.approval == approval && row.status == Failed then row.(status := DeadLetter) else row
  }

  function Bury(rows: seq<Row>, approval: Id): seq<Row> {
    seq(|rows|, i requires 0 <= i < |rows| => BuryRow(rows[i], approval))
  }

  /** The investigation a conversation is about. */
  function Whose(book: Book, conversation: Id): Option<Id> {
    if conversation in book.conversations then Some(book.conversations[conversation]) else None
  }

  function Verify(book: Book, investigation: Id, approval: Id): (refusal: Option<Refusal>)
    ensures refusal.None? <==> Approved(book, investigation, approval)
    ensures refusal == Some(NoSuchDecision) <==> approval !in book.decisions
    ensures refusal == Some(NotAnApproval) <==>
            approval in book.decisions && book.decisions[approval].decision != Approve
            && Some(investigation) == Whose(book, book.decisions[approval].conversation)
  {
    if approval !in book.decisions then Some(NoSuchDecision)
    else
      var decision := book.decisions[approval];
      if decision.conversation !in book.conversations || book.conversations[decision.conversation] != investigation
      then Some(WrongInvestigation)
      else if decision.decision != Approve then Some(NotAnApproval)
      else None
  }

  function Dispatch(book: Book, ledger: Ledger, alert: Alert, settings: Settings, world: World)
    : (Ledger, Result<Report, Refusal>)
  {
    var refusal := Verify(book, alert.investigation, alert.approval);
    if refusal.Some? then (ledger, Err(refusal.value))
    else if !WorthAlerting(alert.priority, settings.minPriority) then (ledger, Ok(Report([], [], false, false)))
    else if settings.targets == [] then (ledger, Ok(Report([], [], false, true)))
    else
      var trace := DeliverPlan(ledger, alert, Plan(settings.targets), settings, world);
      var dead := Outcomes(trace.handled) != [] && !AnyReached(trace.handled);
      (if dead then trace.ledger.(rows := Bury(trace.ledger.rows, alert.approval)) else trace.ledger,
       Ok(Report(Outcomes(trace.handled), Deduplicated(trace.handled), dead, false)))
  }

  function Retry(book: Book, ledger: Ledger, id: nat, settings: Settings, world: World)
    : (Ledger, Result<Outcome, Refusal>)
  {
    if id >= |ledger.rows| then (ledger, Err(NoSuchNotification))
    else
      var row := ledger.rows[id];
      if row.status == Sent then (ledger, Err(AlreadyDelivered))
      else
        var refusal := Verify(book, row.key.investigation, row.key.approval);
        if refusal.Some? then (ledger, Err(refusal.value))
        else
          var answers := SendLoop(ledger, row.key.channel, settings, world);
          var target := Target(row.key.channel, row.recipient);
          var letter := Letter(row.key.investigation, row.key.approval, target);
          (Conclude(ledger, id, letter, answers, if row.status == DeadLetter then DeadLetter else Failed),
           Ok(Outcome(target, EndsDelivered(answers), |answers|, EndsRefused(answers))))
  }

  // ----- What the ledger says about the sends that were made

  predicate Concerns(letter: Letter, key: Key) {
    && letter.investigation == key.investigation && letter.approval == key.approval
    && letter.target.channel == key.channel && letter.target.recipient.address == key.address
  }

  /** The answers received for one investigation, approval, channel and address, oldest first. */
  function Trail(log: seq<Send>, key: Key): seq<Answer> {
    if log == [] then []
    else Trail(log[..|log| - 1], key) + (if Concerns(Last(log).letter, key) then [Last(log).answer] else [])
  }

  lemma {:induction false} TrailAppend(log: seq<Send>, letter: Letter, answers: seq<Answer>, k: Key)
    ensures Trail(log + Tag(letter, answers), k) == Trail(log, k) + (if Concerns(letter, k) then answers else [])
    decreases |answers|
  {
    if answers == [] {
      assert log + Tag(letter, answers) == log;
    } else {
      var front := answers[..|answers| - 1];
      TrailAppend(log, letter, front, k);
      assert (log + Tag(letter, answers))[..|log| + |answers| - 1] == log + Tag(letter, front);
      assert answers == front + [Last(answers)];
    }
  }

  lemma {:induction false} TrailEmpty(log: seq<Send>, key: Key)
    requires forall i :: 0 <= i < |log| ==> !Concerns(log[i].letter, key)
    ensures Trail(log, key) == []
  {
    if log != [] {
      TrailEmpty(log[..|log| - 1], key);
    }
  }

  /** Only the last answer may be a delivery. */
  ghost predicate DeliversAtMostLast(answers: seq<Answer>) {
    forall i :: 0 <= i < |answers| - 1 ==> answers[i] != Delivered
  }

  /** A row counts its sends, and is SENT exactly when the last of them, and only that one, delivered. */
  ghost predicate Truthful(row: Row, log: seq<Send>) {
    var trail := Trail(log, row.key);
    && row.attempts == |trail|
    && DeliversAtMostLast(trail)
    && (row.status == Sent <==> EndsDelivered(trail))
  }

  ghost predicate HasRow(rows: seq<Row>, key: Key) { exists i :: 0 <= i < |rows| && rows[i].key == key }

  ghost predicate KeysDistinct(rows: seq<Row>) {
    forall i, j :: 0 <= i < j < |rows| ==> rows[i].key != rows[j].key
  }

  ghost predicate AllTruthful(rows: seq<Row>, log: seq<Send>) {
    forall i :: 0 <= i < |rows| ==> Truthful(rows[i], log)
  }

  ghost predicate HasRowFor(rows: seq<Row>, letter: Letter) {
    exists i :: 0 <= i < |rows| && Concerns(letter, rows[i].key)
  }

  /** Every row is kept under the address of its recipient. */
  ghost predicate AllAddressed(rows: seq<Row>) {
    forall i :: 0 <= i < |rows| ==> rows[i].recipient.address == rows[i].key.address
  }

  ghost predicate AllRecorded(rows: seq<Row>, log: seq<Send>) {
    forall i :: 0 <= i < |log| ==> HasRowFor(rows, log[i].letter)
  }

  ghost predicate Consistent(ledger: Ledger) {
    && KeysDistinct(ledger.rows) && AllAddressed(ledger.rows)
    && AllTruthful(ledger.rows, ledger.log) && AllRecorded(ledger.rows, ledger.log)
  }

  /** Between calls no row is left PENDING, and every row has an approval behind it. */
  ghost predicate Settled(book: Book, ledger: Ledger) {
    && Consistent(ledger)
    && (forall i :: 0 <= i < |ledger.rows| ==> ledger.rows[i].status != Pending)
    && AllApproved(book, ledger.rows)
  }

  /** What may happen to a row: it keeps its identity, only gains attempts, and SENT is final. */
  predicate RowEvolves(a: Row, b: Row) {
    && a.key == b.key && a.recipient == b.recipient && a.priority == b.priority
    && a.attempts <= b.attempts
    && (a.status == Sent ==> b == a)
  }

  ghost predicate Evolves(a: Ledger, b: Ledger) {
    && a.log <= b.log
    && |a.rows| <= |b.rows|
    && forall i :: 0 <= i < |a.rows| ==> RowEvolves(a.rows[i], b.rows[i])
  }

  /** Rows that only grow keep a row for every key. */
  lemma StillRecorded(before: seq<Row>, after: seq<Row>, log: seq<Send>)
    requires AllRecorded(before, log) && |before| <= |after|
    requires forall i :: 0 <= i < |before| ==> after[i].key == before[i].key
    ensures AllRecorded(after, log)
  {
  }

  lemma ExtendTrail(trail: seq<Answer>, answers: seq<Answer>)
    requires DeliversAtMostLast(trail) && !EndsDelivered(trail) && DeliversAtMostLast(answers)
    ensures DeliversAtMostLast(trail + answers) && (EndsDelivered(trail + answers) <==> EndsDelivered(answers))
  {
    assert forall n :: 0 <= n < |trail| ==> trail[n] != Delivered;
    assert answers == [] ==> trail + answers == trail;
  }

  lemma ConcludeTruthful(ledger: Ledger, i: nat, letter: Letter, answers: seq<Answer>, fallback: Status, j: nat)
    requires Consistent(ledger) && i < |ledger.rows| && ledger.rows[i].status != Sent && j < |ledger.rows|
    requires Concerns(letter, ledger.rows[i].key)
    requires fallback == Failed || fallback == DeadLetter
    requires DeliversAtMostLast(answers)
    ensures var after := Conclude(ledger, i, letter, answers, fallback);
            Truthful(after.rows[j], after.log)
  {
    TrailAppend(ledger.log, letter, answers, ledger.rows[j].key);
    assert Truthful(ledger.rows[j], ledger.log);
    var trail := Trail(ledger.log, ledger.rows[j].key);
    if j == i {
      ExtendTrail(trail, answers);
    } else {
      assert ledger.rows[j].key != ledger.rows[i].key;
      assert trail + [] == trail;
    }
  }

  lemma ConcludeRecords(ledger: Ledger, i: nat, letter: Letter, answers: seq<Answer>, fallback: Status)
    requires Consistent(ledger) && i < |ledger.rows| && Concerns(letter, ledger.rows[i].key)
    ensures var after := Conclude(ledger, i, letter, answers, fallback); AllRecorded(after.rows, after.log)
  {
    var after := Conclude(ledger, i, letter, answers, fallback);
    StillRecorded(ledger.rows, after.rows, ledger.log);
    forall j | 0 <= j < |after.log| ensures HasRowFor(after.rows, after.log[j].letter) {
      assert j >= |ledger.log| ==> Concerns(after.log[j].letter, after.rows[i].key);
      assert j < |ledger.log| ==> HasRowFor(after.rows, ledger.log[j].letter);
    }
  }

  lemma ConcludeKeeps(ledger: Ledger, i: nat, letter: Letter, answers: seq<Answer>, fallback: Status)
    requires Consistent(ledger) && i < |ledger.rows| && ledger.rows[i].status != Sent
    requires Concerns(letter, ledger.rows[i].key)
    requires fallback == Failed || fallback == DeadLetter
    requires DeliversAtMostLast(answers)
    ensures Consistent(Conclude(ledger, i, letter, answers, fallback))
    ensures Evolves(ledger, Conclude(ledger, i, letter, answers, fallback))
  {
    var after := Conclude(ledger, i, letter, answers, fallback);
    forall j | 0 <= j < |after.rows| ensures Truthful(after.rows[j], after.log) {
      ConcludeTruthful(ledger, i, letter, answers, fallback, j);
    }
    ConcludeRecords(ledger, i, letter, answers, fallback);
  }

  /** A key without a row was never sent to. */
  lemma NoRowNoSend(ledger: Ledger, key: Key)
    requires AllRecorded(ledger.rows, ledger.log) && !HasRow(ledger.rows, key)
    ensures Trail(ledger.log, key) == []
  {
    forall i | 0 <= i < |ledger.log| ensures !Concerns(ledger.log[i].letter, key) {
      assert HasRowFor(ledger.rows, ledger.log[i].letter);
    }
    TrailEmpty(ledger.log, key);
  }

  lemma DistinctSnoc(rows: seq<Row>, row: Row)
    requires KeysDistinct(rows) && Find(rows, row.key).None?
    ensures KeysDistinct(rows + [row])
  {
  }

  lemma FileRow(ledger: Ledger, row: Row)
    requires Consistent(ledger) && Find(ledger.rows, row.key).None?
    requires row.attempts == 0 && row.status == Pending && row.recipient.address == row.key.address
    ensures Consistent(ledger.(rows := ledger.rows + [row]))
  {
    var after := ledger.rows + [row];
    assert KeysDistinct(after) by { DistinctSnoc(ledger.rows, row); }
    assert AllTruthful(after, ledger.log) by {
      NoRowNoSend(ledger, row.key);
    }
    assert AllRecorded(after, ledger.log) by { StillRecorded(ledger.rows, after, ledger.log); }
    assert AllAddressed(after);
  }

  lemma WithRowKeeps(ledger: Ledger, alert: Alert, target: Target)
    requires Consistent(ledger)
    ensures Consistent(WithRow(ledger, alert, target)) && Evolves(ledger, WithRow(ledger, alert, target))
  {
    var row := Row(KeyOf(alert, target), target.recipient, alert.priority, Pending, 0);
    if Find(ledger.rows, row.key).None? {
      FileRow(ledger, row);
    }
  }

  ghost predicate AllApproved(book: Book, rows: seq<Row>) {
    forall i :: 0 <= i < |rows| ==> Approved(book, rows[i].key.investigation, rows[i].key.approval)
  }

  lemma ConcludeSettles(book: Book, ledger: Ledger, i: nat, letter: Letter, answers: seq<Answer>, fallback: Status)
    requires Consistent(ledger) && AllApproved(book, ledger.rows) && i < |ledger.rows| && ledger.rows[i].status != Sent
    requires Concerns(letter, ledger.rows[i].key)
    requires forall j :: 0 <= j < |ledger.rows| && j != i ==> ledger.rows[j].status != Pending
    requires fallback == Failed || fallback == DeadLetter
    requires DeliversAtMostLast(answers)
    ensures Settled(book, Conclude(ledger, i, letter, answers, fallback))
    ensures Evolves(ledger, Conclude(ledger, i, letter, answers, fallback))
  {
    ConcludeKeeps(ledger, i, letter, answers, fallback);
  }

  /** The row about to be attempted is there, not SENT, and the only one that may be PENDING. */
  lemma WithRowReady(book: Book, ledger: Ledger, alert: Alert, target: Target)
    requires Settled(book, ledger) && Approved(book, alert.investigation, alert.approval)
    requires !IsSent(ledger.rows, KeyOf(alert, target))
    ensures var rows, i := WithRow(ledger, alert, target).rows, RowIndex(ledger, KeyOf(alert, target));
            && AllApproved(book, rows) && i < |rows| && rows[i].status != Sent
            && Concerns(Letter(alert.investigation, alert.approval, target), rows[i].key)
            && forall j :: 0 <= j < |rows| && j != i ==> rows[j].status != Pending
  {
  }

  lemma DeliverKeeps(book: Book, ledger: Ledger, alert: Alert, target: Target, settings: Settings, world: World)
    requires Settled(book, ledger) && Approved(book, alert.investigation, alert.approval)
    ensures Settled(book, Deliver(ledger, alert, target, settings, world).ledger)
    ensures Evolves(ledger, Deliver(ledger, alert, target, settings, world).ledger)
  {
    if !IsSent(ledger.rows, KeyOf(alert, target)) {
      var i := RowIndex(ledger, KeyOf(alert, target));
      var answers := SendLoop(ledger, target.channel, settings, world);
      var filed := WithRow(ledger, alert, target);
      WithRowKeeps(ledger, alert, target);
      WithRowReady(book, ledger, alert, target);
      var letter := Letter(alert.investigation, alert.approval, target);
      ConcludeSettles(book, filed, i, letter, answers, Failed);
    }
  }

  lemma {:induction false} TierKeeps(book: Book, ledger: Ledger, alert: Alert, tier: seq<Target>, settings: Settings,
                                     world: World)
    requires Settled(book, ledger) && Approved(book, alert.investigation, alert.approval)
    ensures Settled(book, DeliverTier(ledger, alert, tier, settings, world).ledger)
    ensures Evolves(ledger, DeliverTier(ledger, alert, tier, settings, world).ledger)
    decreases |tier|
  {
    if tier != [] {
      var first := Deliver(ledger, alert, tier[0], settings, world);
      DeliverKeeps(book, ledger, alert, tier[0], settings, world);
      TierKeeps(book, first.ledger, alert, tier[1..], settings, world);
    }
  }

  lemma {:induction false} PlanKeeps(book: Book, ledger: Ledger, alert: Alert, plan: seq<seq<Target>>,
                                     settings: Settings, world: World)
    requires Settled(book, ledger) && Approved(book, alert.investigation, alert.approval)
    ensures Settled(book, DeliverPlan(ledger, alert, plan, settings, world).ledger)
    ensures Evolves(ledger, DeliverPlan(ledger, alert, plan, settings, world).ledger)
    decreases |plan|
  {
    if plan != [] {
      var first := DeliverTier(ledger, alert, plan[0], settings, world);
      TierKeeps(book, ledger, alert, plan[0], settings, world);
      if !AnyReached(first.handled) {
        PlanKeeps(book, first.ledger, alert, plan[1..], settings, world);
      }
    }
  }

  lemma BuryKeeps(book: Book, ledger: Ledger, approval: Id)
    requires Settled(book, ledger)
    ensures Settled(book, ledger.(rows := Bury(ledger.rows, approval)))
    ensures Evolves(ledger, ledger.(rows := Bury(ledger.rows, approval)))
  {
    var after := Bury(ledger.rows, approval);
    assert AllTruthful(after, ledger.log) by {
      forall i | 0 <= i < |after| ensures Truthful(after[i], ledger.log) {
        BuriedTruthful(ledger.rows[i], ledger.log, approval);
      }
    }
    StillRecorded(ledger.rows, after, ledger.log);
  }

  lemma BuriedTruthful(row: Row, log: seq<Send>, approval: Id)
    requires Truthful(row, log)
    ensures Truthful(BuryRow(row, approval), log)
  {
  }

  lemma DispatchKeeps(book: Book, ledger: Ledger, alert: Alert, settings: Settings, world: World)
    requires Settled(book, ledger)
    ensures Settled(book, Dispatch(book, ledger, alert, settings, world).0)
    ensures Evolves(ledger, Dispatch(book, ledger, alert, settings, world).0)
  {
    if Approved(book, alert.investigation, alert.approval) {
      var trace := DeliverPlan(ledger, alert, Plan(settings.targets), settings, world);
      PlanKeeps(book, ledger, alert, Plan(settings.targets), settings, world);
      BuryKeeps(book, trace.ledger, alert.approval);
    }
  }

  lemma RetryKeeps(book: Book, ledger: Ledger, id: nat, settings: Settings, world: World)
    requires Settled(book, ledger)
    ensures Settled(book, Retry(book, ledger, id, settings, world).0)
    ensures Evolves(ledger, Retry(book, ledger, id, settings, world).0)
  {
    if id < |ledger.rows| && ledger.rows[id].status != Sent {
      var row := ledger.rows[id];
      var letter := Letter(row.key.investigation, row.key.approval, Target(row.key.channel, row.recipient));
      ConcludeSettles(book, ledger, id, letter, SendLoop(ledger, row.key.channel, settings, world),
                      if row.status == DeadLetter then DeadLetter else Failed);
    }
  }

  /** A retry touches its own row only; it takes a dead letter out of that state only by delivering it. */
  lemma RetryTouchesOneRow(book: Book, ledger: Ledger, id: nat, settings: Settings, world: World)
    requires id < |ledger.rows|
    ensures var after := Retry(book, ledger, id, settings, world).0.rows;
            && after == ledger.rows[id := after[id]]
            && (ledger.rows[id].status == DeadLetter ==> after[id].status in {DeadLetter, Sent})
            && (after[id].status == Sent && ledger.rows[id].status != Sent ==>
                 Approved(book, ledger.rows[id].key.investigation, ledger.rows[id].key.approval))
  {
  }

  /**
   What an accepted retry does and says: every send it makes goes to the row's own recipient, the
   outcome reports exactly these sends, and a row that is not delivered keeps its status.
   */
  lemma RetryReports(book: Book, ledger: Ledger, id: nat, settings: Settings, world: World)
    returns (answers: seq<Answer>)
    requires Settled(book, ledger)
    ensures var (after, result) := Retry(book, ledger, id, settings, world);
            && (result.Ok? <==> id < |ledger.rows| && ledger.rows[id].status != Sent)
            && (!result.Ok? ==>
                 after == ledger && result == Err(if id < |ledger.rows| then AlreadyDelivered else NoSuchNotification))
            && (result.Ok? ==>
                 var row, outcome := ledger.rows[id], result.value;
                 var letter := Letter(row.key.investigation, row.key.approval, outcome.target);
                 && outcome.target == Target(row.key.channel, row.recipient)
                 && after.log == ledger.log + Tag(letter, answers)
                 && outcome.attempts == |answers| <= settings.maxAttempts
                 && (row.key.channel !in settings.adapters ==> answers == [])
                 && (outcome.delivered <==> answers != [] && Last(answers) == Delivered)
                 && (outcome.refused <==> answers == [] || Last(answers) == Refused)
                 && after.rows[id].attempts == row.attempts + |answers|
                 && after.rows[id].status == if outcome.delivered then Sent else row.status)
  {
    answers := [];
    if id < |ledger.rows| {
      answers := SendLoop(ledger, ledger.rows[id].key.channel, settings, world);
      assert Approved(book, ledger.rows[id].key.investigation, ledger.rows[id].key.approval);
    }
  }

  /** Without a valid approval nothing happens, and the refusal says which of the three checks failed. */
  lemma UnapprovedIsRefused(book: Book, ledger: Ledger, alert: Alert, settings: Settings, world: World)
    ensures var (after, result) := Dispatch(book, ledger, alert, settings, world);
            && (result.Ok? <==> Approved(book, alert.investigation, alert.approval))
            && (!result.Ok? ==>
                 after == ledger && Some(result.error) == Verify(book, alert.investigation, alert.approval))
  {
  }

  // ----- The alerting floor

  /** Low, medium, high, urgent: what clears a floor is the floor itself and everything above it. */
  lemma FloorExact(p: Priority)
    ensures WorthAlerting(p, Low)
    ensures WorthAlerting(p, Medium) <==> p in {Medium, High, Urgent}
    ensures WorthAlerting(p, High) <==> p in {High, Urgent}
    ensures WorthAlerting(p, Urgent) <==> p == Urgent
  {
  }

  /** What is not sent is not a failure: below the floor, or without any channel, nothing changes and nothing failed. */
  lemma SuppressionIsNotFailure(book: Book, ledger: Ledger, alert: Alert, settings: Settings, world: World)
    requires Approved(book, alert.investigation, alert.approval)
    ensures var (after, result) := Dispatch(book, ledger, alert, settings, world);
            && result.Ok?
            && (!WorthAlerting(alert.priority, settings.minPriority) ==>
                 after == ledger && result.value == Report([], [], false, false))
            && (WorthAlerting(alert.priority, settings.minPriority) && settings.targets == [] ==>
                 after == ledger && result.value == Report([], [], false, true))
            && (result.value.noChannel ==> settings.targets == [])
  {
  }

  // ----- Whole runs

  /** Decisions and conversations are only ever added; dispatches and retries come in any order. */
  datatype Call =
    | OpenConversation(conversation: Id, investigation: Id)
    | Decide(approval: Id, decision: Decision)
    | DispatchAlert(alert: Alert, settings: Settings)
    | RetryDelivery(id: nat, settings: Settings)

  datatype System = System(book: Book, ledger: Ledger)

  const EMPTY_SYSTEM := System(Book(map[], map[]), Ledger([], []))

  function Step(s: System, call: Call, world: World): System {
    match call
    case OpenConversation(c, inv) =>
      if c in s.book.conversations then s
      else s.(book := s.book.(conversations := s.book.conversations[c := inv]))
    case Decide(id, d) =>
      if id in s.book.decisions then s
      else s.(book := s.book.(decisions := s.book.decisions[id := d]))
    case DispatchAlert(alert, settings) => s.(ledger := Dispatch(s.book, s.ledger, alert, settings, world).0)
    case RetryDelivery(id, settings) => s.(ledger := Retry(s.book, s.ledger, id, settings, world).0)
  }

  function Run(s: System, calls: seq<Call>, world: World): System
    decreases |calls|
  {
    if calls == [] then s else Run(Step(s, calls[0], world), calls[1..], world)
  }

  lemma BookGrows(before: Book, after: Book, ledger: Ledger)
    requires Settled(before, ledger)
    requires forall id :: id in before.decisions ==>
             id in after.decisions && after.decisions[id] == before.decisions[id]
    requires forall c :: c in before.conversations ==>
               c in after.conversations && after.conversations[c] == before.conversations[c]
    ensures Settled(after, ledger)
  {
  }

  lemma StepKeeps(s: System, call: Call, world: World)
    requires Settled(s.book, s.ledger)
    ensures Settled(Step(s, call, world).book, Step(s, call, world).ledger)
    ensures Evolves(s.ledger, Step(s, call, world).ledger)
  {
    match call {
      case OpenConversation(_, _) => BookGrows(s.book, Step(s, call, world).book, s.ledger);
      case Decide(_, _) => BookGrows(s.book, Step(s, call, world).book, s.ledger);
      case DispatchAlert(alert, settings) => DispatchKeeps(s.book, s.ledger, alert, settings, world);
      case RetryDelivery(id, settings) => RetryKeeps(s.book, s.ledger, id, settings, world);
    }
  }

  lemma {:induction false} RunKeeps(s: System, calls: seq<Call>, world: World)
    requires Settled(s.book, s.ledger)
    ensures Settled(Run(s, calls, world).book, Run(s, calls, world).ledger)
    ensures Evolves(s.ledger, Run(s, calls, world).ledger)
    decreases |calls|
  {
    if calls != [] {
      var next := Step(s, calls[0], world);
      StepKeeps(s, calls[0], world);
      RunKeeps(next, calls[1..], world);
    }
  }

  function Deliveries(answers: seq<Answer>): nat {
    if answers == [] then 0
    else Deliveries(answers[..|answers| - 1]) + (if Last(answers) == Delivered then 1 else 0)
  }

  lemma {:induction false} CountDeliveries(answers: seq<Answer>)
    requires DeliversAtMostLast(answers)
    ensures Deliveries(answers) == if EndsDelivered(answers) then 1 else 0
  {
    if answers != [] {
      var front := answers[..|answers| - 1];
      CountDeliveries(front);
      assert front != [] ==> answers[|front| - 1] != Delivered;
    }
  }

  /**
   Every run of decisions, dispatches and retries, whatever the adapters answer: each row counts
   exactly the sends made to its address on its channel for its approval, SENT means exactly one of
   them delivered, nobody is ever told twice, every send has such a row, and nothing was ever sent
   without an approval of that same investigation.
   */
  lemma EveryRunIsTruthful(calls: seq<Call>, world: World)
    ensures var s := Run(EMPTY_SYSTEM, calls, world);
            && (forall i :: 0 <= i < |s.ledger.rows| ==>
                 var row := s.ledger.rows[i];
                 && row.attempts == |Trail(s.ledger.log, row.key)|
                 && (row.status == Sent <==> Deliveries(Trail(s.ledger.log, row.key)) == 1))
            && (forall investigation, approval, channel, address ::
                 Deliveries(Trail(s.ledger.log, Key(investigation, approval, channel, address))) <= 1)
            && (forall i :: 0 <= i < |s.ledger.log| ==>
                 var letter := s.ledger.log[i].letter;
                 HasRowFor(s.ledger.rows, letter) && Approved(s.book, letter.investigation, letter.approval))
  {
    RunKeeps(EMPTY_SYSTEM, calls, world);
    var s := Run(EMPTY_SYSTEM, calls, world);
    forall i | 0 <= i < |s.ledger.rows|
      ensures s.ledger.rows[i].status == Sent <==> Deliveries(Trail(s.ledger.log, s.ledger.rows[i].key)) == 1
      ensures Deliveries(Trail(s.ledger.log, s.ledger.rows[i].key)) <= 1
    {
      assert Truthful(s.ledger.rows[i], s.ledger.log);
      CountDeliveries(Trail(s.ledger.log, s.ledger.rows[i].key));
    }
    forall key: Key ensures Deliveries(Trail(s.ledger.log, key)) <= 1 {
      if !HasRow(s.ledger.rows, key) {
        NoRowNoSend(s.ledger, key);
      }
    }
    assert forall i :: 0 <= i < |s.ledger.log| ==> HasRowFor(s.ledger.rows, s.ledger.log[i].letter);
  }

  /** SENT is terminal: from any reachable point, no continuation changes the row or sends for its key again. */
  lemma SentIsFinal(before: seq<Call>, after: seq<Call>, world: World, i: nat)
    requires var s := Run(EMPTY_SYSTEM, before, world);
             i < |s.ledger.rows| && s.ledger.rows[i].status == Sent
    ensures var s := Run(EMPTY_SYSTEM, before, world);
            var t := Run(s, after, world);
            && i < |t.ledger.rows| && t.ledger.rows[i] == s.ledger.rows[i]
            && Trail(t.ledger.log, s.ledger.rows[i].key) == Trail(s.ledger.log, s.ledger.rows[i].key)
  {
    RunKeeps(EMPTY_SYSTEM, before, world);
    var s := Run(EMPTY_SYSTEM, before, world);
    RunKeeps(s, after, world);
    var t := Run(s, after, world);
    assert RowEvolves(s.ledger.rows[i], t.ledger.rows[i]);
    assert Truthful(s.ledger.rows[i], s.ledger.log) && Truthful(t.ledger.rows[i], t.ledger.log);
    TrailMonotone(s.ledger.log, t.ledger.log, s.ledger.rows[i].key);
  }

  lemma {:induction false} TrailMonotone(a: seq<Send>, b: seq<Send>, key: Key)
    requires a <= b
    ensures Trail(a, key) <= Trail(b, key)
    decreases |b|
  {
    if a != b {
      TrailMonotone(a, b[..|b| - 1], key);
    }
  }
}
